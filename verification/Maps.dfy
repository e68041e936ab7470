/** One half of the double-buffered policy maps, and the single map operations on it. */
module Maps {
  import opened Words
  import opened Contract

  datatype Slot = Slot(
    whitelist: map<LpmKey, CidrValue>,
    serviceWhitelist: map<ServiceLpmKey, CidrValue>,
    blacklist: map<LpmKey, CidrValue>,
    serviceBlacklist: map<ServiceLpmKey, CidrValue>,
    udpBlocks: map<u32, UdpBlockValue>,
    serviceUdpBlocks: map<ServiceUdpKey, UdpBlockValue>,
    services: map<ServiceKey, ServiceValue>,
    rules: map<u32, RuleValue>)

  /** The array map always holds every index; a cleared rule is the zero value. */
  const NO_RULES: map<u32, RuleValue> := map i: u32 | 0 <= i < MAX_RULES :: ZERO_RULE

  const EMPTY_SLOT := Slot(map[], map[], map[], map[], map[], map[], map[], NO_RULES)

  datatype MapKey =
    | WhitelistKey(wl: LpmKey)
    | ServiceWhitelistKey(swl: ServiceLpmKey)
    | BlacklistKey(bl: LpmKey)
    | ServiceBlacklistKey(sbl: ServiceLpmKey)
    | UdpBlockKey(udp: u32)
    | ServiceUdpBlockKey(sudp: ServiceUdpKey)
    | AllowKey(svc: ServiceKey)
    | RuleKey(rule: u32)

  /** A key with the value written under it. */
  datatype MapEntry =
    | WhitelistEntry(wlk: LpmKey, wlv: CidrValue)
    | ServiceWhitelistEntry(swlk: ServiceLpmKey, swlv: CidrValue)
    | BlacklistEntry(blk: LpmKey, blv: CidrValue)
    | ServiceBlacklistEntry(sblk: ServiceLpmKey, sblv: CidrValue)
    | UdpBlockEntry(udpk: u32, udpv: UdpBlockValue)
    | ServiceUdpBlockEntry(sudpk: ServiceUdpKey, sudpv: UdpBlockValue)
    | AllowEntry(svck: ServiceKey, svcv: ServiceValue)
    | RuleEntry(rulek: u32, rulev: RuleValue)
  {
    function Key(): (r: MapKey) {
      match this
      case WhitelistEntry(k, _) => WhitelistKey(k)
      case ServiceWhitelistEntry(k, _) => ServiceWhitelistKey(k)
      case BlacklistEntry(k, _) => BlacklistKey(k)
      case ServiceBlacklistEntry(k, _) => ServiceBlacklistKey(k)
      case UdpBlockEntry(k, _) => UdpBlockKey(k)
      case ServiceUdpBlockEntry(k, _) => ServiceUdpBlockKey(k)
      case AllowEntry(k, _) => AllowKey(k)
      case RuleEntry(k, _) => RuleKey(k)
    }
  }

  /** bpf map update. */
  function Put(s: Slot, e: MapEntry): (r: Slot) {
    match e
    case WhitelistEntry(k, v) => s.(whitelist := s.whitelist[k := v])
    case ServiceWhitelistEntry(k, v) => s.(serviceWhitelist := s.serviceWhitelist[k := v])
    case BlacklistEntry(k, v) => s.(blacklist := s.blacklist[k := v])
    case ServiceBlacklistEntry(k, v) => s.(serviceBlacklist := s.serviceBlacklist[k := v])
    case UdpBlockEntry(k, v) => s.(udpBlocks := s.udpBlocks[k := v])
    case ServiceUdpBlockEntry(k, v) => s.(serviceUdpBlocks := s.serviceUdpBlocks[k := v])
    case AllowEntry(k, v) => s.(services := s.services[k := v])
    case RuleEntry(k, v) => s.(rules := s.rules[k := v])
  }

  /** bpf map delete; an array element is overwritten with zeroes instead. */
  function Remove(s: Slot, k: MapKey): (r: Slot) {
    match k
    case WhitelistKey(j) => s.(whitelist := s.whitelist - {j})
    case ServiceWhitelistKey(j) => s.(serviceWhitelist := s.serviceWhitelist - {j})
    case BlacklistKey(j) => s.(blacklist := s.blacklist - {j})
    case ServiceBlacklistKey(j) => s.(serviceBlacklist := s.serviceBlacklist - {j})
    case UdpBlockKey(j) => s.(udpBlocks := s.udpBlocks - {j})
    case ServiceUdpBlockKey(j) => s.(serviceUdpBlocks := s.serviceUdpBlocks - {j})
    case AllowKey(j) => s.(services := s.services - {j})
    case RuleKey(j) => s.(rules := s.rules[j := ZERO_RULE])
  }

  predicate Has(s: Slot, e: MapEntry) {
    match e
    case WhitelistEntry(k, v) => k in s.whitelist && s.whitelist[k] == v
    case ServiceWhitelistEntry(k, v) => k in s.serviceWhitelist && s.serviceWhitelist[k] == v
    case BlacklistEntry(k, v) => k in s.blacklist && s.blacklist[k] == v
    case ServiceBlacklistEntry(k, v) => k in s.serviceBlacklist && s.serviceBlacklist[k] == v
    case UdpBlockEntry(k, v) => k in s.udpBlocks && s.udpBlocks[k] == v
    case ServiceUdpBlockEntry(k, v) => k in s.serviceUdpBlocks && s.serviceUdpBlocks[k] == v
    case AllowEntry(k, v) => k in s.services && s.services[k] == v
    case RuleEntry(k, v) => k in s.rules && s.rules[k] == v
  }

  /** Something is stored under k. */
  predicate Occupied(s: Slot, k: MapKey) {
    match k
    case WhitelistKey(j) => j in s.whitelist
    case ServiceWhitelistKey(j) => j in s.serviceWhitelist
    case BlacklistKey(j) => j in s.blacklist
    case ServiceBlacklistKey(j) => j in s.serviceBlacklist
    case UdpBlockKey(j) => j in s.udpBlocks
    case ServiceUdpBlockKey(j) => j in s.serviceUdpBlocks
    case AllowKey(j) => j in s.services
    case RuleKey(j) => j in s.rules && s.rules[j] != ZERO_RULE
  }

  /** Only valid rule indexes exist, and all of them do. */
  ghost predicate WellShaped(s: Slot) {
    forall i: u32 :: i in s.rules <==> i < MAX_RULES
  }

  /** An index the array map accepts. */
  predicate InRange(k: MapKey) {
    k.RuleKey? ==> k.rule < MAX_RULES
  }

  lemma PutHas(s: Slot, e: MapEntry, f: MapEntry)
    ensures Has(Put(s, e), f) <==> f == e || (Has(s, f) && f.Key() != e.Key())
  {
  }

  lemma RemoveOccupied(s: Slot, k: MapKey, j: MapKey)
    ensures Occupied(Remove(s, k), j) <==> Occupied(s, j) && j != k
  {
  }

  lemma RemoveShape(s: Slot, k: MapKey)
    requires WellShaped(s) && InRange(k)
    ensures WellShaped(Remove(s, k))
  {
  }

  lemma PutShape(s: Slot, e: MapEntry)
    requires WellShaped(s) && InRange(e.Key())
    ensures WellShaped(Put(s, e))
  {
  }

  /** A slot with nothing stored is the empty slot. */
  lemma NothingOccupied(s: Slot)
    requires WellShaped(s) && forall k :: !Occupied(s, k)
    ensures s == EMPTY_SLOT
  {
    forall j
      ensures j !in s.whitelist && j !in s.blacklist
    {
      assert !Occupied(s, WhitelistKey(j)) && !Occupied(s, BlacklistKey(j));
    }
    forall j
      ensures j !in s.serviceWhitelist && j !in s.serviceBlacklist
    {
      assert !Occupied(s, ServiceWhitelistKey(j)) && !Occupied(s, ServiceBlacklistKey(j));
    }
    forall j: u32
      ensures j !in s.udpBlocks && (j in s.rules ==> s.rules[j] == ZERO_RULE)
    {
      assert !Occupied(s, UdpBlockKey(j)) && !Occupied(s, RuleKey(j));
    }
    forall j
      ensures j !in s.serviceUdpBlocks
    {
      assert !Occupied(s, ServiceUdpBlockKey(j));
    }
    forall j
      ensures j !in s.services
    {
      assert !Occupied(s, AllowKey(j));
    }
    assert s.rules == NO_RULES;
  }

  /** All entries written in order. */
  function PutAll(s: Slot, es: seq<MapEntry>): (r: Slot) {
    if es == [] then s else Put(PutAll(s, es[..|es| - 1]), es[|es| - 1])
  }

  ghost predicate DistinctEntries(es: seq<MapEntry>) {
    forall i, j | 0 <= i < j < |es| :: es[i].Key() != es[j].Key()
  }

  /** After writing entries with distinct keys the slot holds exactly those and what was not overwritten. */
  lemma {:induction false} PutAllHas(s: Slot, es: seq<MapEntry>, f: MapEntry)
    requires DistinctEntries(es)
    ensures Has(PutAll(s, es), f) <==> f in es || (Has(s, f) && forall e | e in es :: e.Key() != f.Key())
  {
    if es != [] {
      var n := |es| - 1;
      PutAllHas(s, es[..n], f);
      PutHas(PutAll(s, es[..n]), es[n], f);
      assert es == es[..n] + [es[n]];
      assert forall e | e in es[..n] :: e.Key() != es[n].Key();
    }
  }

  lemma {:induction false} PutAllShape(s: Slot, es: seq<MapEntry>)
    requires WellShaped(s) && forall e | e in es :: InRange(e.Key())
    ensures WellShaped(PutAll(s, es))
  {
    if es != [] {
      var n := |es| - 1;
      PutAllShape(s, es[..n]);
      PutShape(PutAll(s, es[..n]), es[n]);
    }
  }

  lemma EmptySlotFacts()
    ensures WellShaped(EMPTY_SLOT)
    ensures forall k :: !Occupied(EMPTY_SLOT, k)
    ensures forall e: MapEntry | !e.RuleEntry? :: !Has(EMPTY_SLOT, e)
  {
  }

  /** The removals that empty the slot: every stored key, then every rule index. */
  ghost predicate ClearsAll(s: Slot, keys: seq<MapKey>) {
    && (forall k | Occupied(s, k) :: k in keys)
    && (forall k | k in keys :: InRange(k))
  }

  function RemoveAll(s: Slot, keys: seq<MapKey>): (r: Slot) {
    if keys == [] then s else Remove(RemoveAll(s, keys[..|keys| - 1]), keys[|keys| - 1])
  }

  lemma {:induction false} RemoveAllOccupied(s: Slot, keys: seq<MapKey>, j: MapKey)
    requires WellShaped(s) && forall k | k in keys :: InRange(k)
    ensures WellShaped(RemoveAll(s, keys))
    ensures Occupied(RemoveAll(s, keys), j) <==> Occupied(s, j) && j !in keys
  {
    if keys != [] {
      var n := |keys| - 1;
      RemoveAllOccupied(s, keys[..n], j);
      RemoveOccupied(RemoveAll(s, keys[..n]), keys[n], j);
      RemoveShape(RemoveAll(s, keys[..n]), keys[n]);
      assert keys == keys[..n] + [keys[n]];
    }
  }

  /** clearInactivePolicySlot leaves the slot empty, whatever order the keys were found in. */
  lemma ClearEmpties(s: Slot, keys: seq<MapKey>)
    requires WellShaped(s) && ClearsAll(s, keys)
    ensures RemoveAll(s, keys) == EMPTY_SLOT
  {
    RemoveAllOccupied(s, keys, RuleKey(0));
    forall j
      ensures !Occupied(RemoveAll(s, keys), j)
    {
      RemoveAllOccupied(s, keys, j);
    }
    NothingOccupied(RemoveAll(s, keys));
  }

  // ---------- exactly when a half-done rewrite shows ----------

  /** A rule that says nothing: the value every index has anyway. */
  predicate ZeroRule(e: MapEntry) {
    e.RuleEntry? && e.rulev == ZERO_RULE
  }

  lemma EmptyHas(e: MapEntry)
    requires InRange(e.Key())
    ensures Has(EMPTY_SLOT, e) <==> ZeroRule(e)
  {
  }

  lemma PutAgain(s: Slot, e: MapEntry)
    requires Has(s, e)
    ensures Put(s, e) == s
  {
  }

  lemma RemoveNothing(s: Slot, k: MapKey)
    requires WellShaped(s) && InRange(k) && !Occupied(s, k)
    ensures Remove(s, k) == s
  {
  }

  lemma {:induction false} ZeroRulesAddNothing(es: seq<MapEntry>, done: nat)
    requires DistinctEntries(es) && (forall e | e in es :: InRange(e.Key())) && done <= |es|
    requires forall k | done <= k < |es| :: ZeroRule(es[k])
    ensures PutAll(EMPTY_SLOT, es[..done]) == PutAll(EMPTY_SLOT, es)
  {
    var n := |es| - 1;
    if done == |es| {
      assert es[..done] == es;
    } else {
      assert es[..n][..done] == es[..done];
      ZeroRulesAddNothing(es[..n], done);
      PutAllHas(EMPTY_SLOT, es[..n], es[n]);
      EmptyHas(es[n]);
      PutAgain(PutAll(EMPTY_SLOT, es[..n]), es[n]);
    }
  }

  /** A slot written up to an entry is the finished slot exactly when all that is left are zero rules. */
  lemma WrittenExactly(es: seq<MapEntry>, done: nat)
    requires DistinctEntries(es) && (forall e | e in es :: InRange(e.Key())) && done <= |es|
    ensures PutAll(EMPTY_SLOT, es[..done]) == PutAll(EMPTY_SLOT, es) <==> forall k | done <= k < |es| :: ZeroRule(es[k])
  {
    if forall k | done <= k < |es| :: ZeroRule(es[k]) {
      ZeroRulesAddNothing(es, done);
    } else {
      var k :| done <= k < |es| && !ZeroRule(es[k]);
      PutAllHas(EMPTY_SLOT, es, es[k]);
      PutAllHas(EMPTY_SLOT, es[..done], es[k]);
      EmptyHas(es[k]);
      assert es[k] !in es[..done];
    }
  }

  lemma {:induction false} RemovingNothing(s: Slot, keys: seq<MapKey>)
    requires WellShaped(s) && forall k | k in keys :: InRange(k) && !Occupied(s, k)
    ensures RemoveAll(s, keys) == s
  {
    if keys != [] {
      RemovingNothing(s, keys[..|keys| - 1]);
      RemoveNothing(s, keys[|keys| - 1]);
    }
  }

  /** A slot in the middle of a clear is still what it was exactly when nothing removed was stored, and
      empty exactly when everything stored was removed. */
  lemma RemovedExactly(s: Slot, keys: seq<MapKey>)
    requires WellShaped(s) && forall k | k in keys :: InRange(k)
    ensures RemoveAll(s, keys) == s <==> forall k | k in keys :: !Occupied(s, k)
    ensures RemoveAll(s, keys) == EMPTY_SLOT <==> forall k | Occupied(s, k) :: k in keys
  {
    forall k
      ensures WellShaped(RemoveAll(s, keys)) && (Occupied(RemoveAll(s, keys), k) <==> Occupied(s, k) && k !in keys)
    {
      RemoveAllOccupied(s, keys, k);
    }
    EmptySlotFacts();
    if forall k | k in keys :: !Occupied(s, k) {
      RemovingNothing(s, keys);
    }
    if forall k | Occupied(s, k) :: k in keys {
      RemoveAllOccupied(s, keys, RuleKey(0));
      NothingOccupied(RemoveAll(s, keys));
    }
  }
}
