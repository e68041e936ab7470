/** Canonical form and checksums of policy snapshots. The lists are sorted with an unstable sort, so a
    snapshot may have several normal forms; verified snapshots have exactly one. */
module Canonical {
  import opened Words
  import opened Contract
  import opened Policy
  import Sorting

  // ---------- sort orders ----------

  function CidrOrder(): (f: CidrEntry -> Sorting.Key) {
    (e: CidrEntry) => Sorting.Key(e.cidr, [e.scope as int, e.serviceId as int, e.entryId as int])
  }

  function UdpOrder(): (f: UdpBlock -> Sorting.Key) {
    (u: UdpBlock) => Sorting.Key("", [u.port as int, u.scope as int, u.serviceId as int, u.entryId as int])
  }

  function ServiceOrder(): (f: Service -> Sorting.Key) {
    (s: Service) => Sorting.Key(s.dstV4, [s.proto as int, s.dstPort as int, s.serviceId as int])
  }

  function RuleOrder(): (f: Rule -> Sorting.Key) {
    (r: Rule) => Sorting.Key("", [r.ruleId as int, r.priority as int])
  }

  function FlagOrder(): (f: string -> Sorting.Key) {
    (flag: string) => Sorting.Key(flag, [])
  }

  /** cidrEntryLess, branch by branch. */
  predicate CidrEntryLess(l: CidrEntry, r: CidrEntry) {
    if l.cidr != r.cidr then Sorting.LexLess(Sorting.Codes(l.cidr), Sorting.Codes(r.cidr))
    else if l.scope != r.scope then l.scope < r.scope
    else if l.serviceId != r.serviceId then l.serviceId < r.serviceId
    else l.entryId < r.entryId
  }

  lemma ThreeNumbers(a: seq<int>, b: seq<int>)
    requires |a| == 3 && |b| == 3
    ensures Sorting.LexLess(a, b) <==>
      if a[0] != b[0] then a[0] < b[0] else if a[1] != b[1] then a[1] < b[1] else a[2] < b[2]
  {
    assert Sorting.LexLess(a, b) <==> a[0] < b[0] || (a[0] == b[0] && Sorting.LexLess(a[1..], b[1..]));
    assert Sorting.LexLess(a[1..], b[1..]) <==> a[1] < b[1] || (a[1] == b[1] && Sorting.LexLess(a[2..], b[2..])) by {
      assert a[1..][1..] == a[2..] && b[1..][1..] == b[2..];
    }
    assert Sorting.LexLess(a[2..], b[2..]) <==> a[2] < b[2];
  }

  lemma CidrOrderFaithful(l: CidrEntry, r: CidrEntry)
    ensures CidrEntryLess(l, r) <==> Sorting.KeyLess(CidrOrder()(l), CidrOrder()(r))
  {
    ThreeNumbers(CidrOrder()(l).nums, CidrOrder()(r).nums);
  }

  // ---------- normal forms ----------

  function DefaultedRuntime(r: RuntimeSettings): (s: RuntimeSettings) {
    r.(malformedPolicy := if r.malformedPolicy == 0 then ACTION_DROP else r.malformedPolicy)
  }

  /** n is a result normalizePolicySnapshot may return for s. */
  ghost predicate NormalForm(s: Snapshot, n: Snapshot) {
    && n.schemaVersion == s.schemaVersion && n.version == s.version && n.objectChecksum == s.objectChecksum
    && n.checksum == "" && n.runtime == DefaultedRuntime(s.runtime)
    && Sorting.SortedRearrangement(s.featureFlags, n.featureFlags, FlagOrder())
    && Sorting.SortedRearrangement(s.whitelist, n.whitelist, CidrOrder())
    && Sorting.SortedRearrangement(s.blacklist, n.blacklist, CidrOrder())
    && Sorting.SortedRearrangement(s.udpBlocks, n.udpBlocks, UdpOrder())
    && Sorting.SortedRearrangement(s.services, n.services, ServiceOrder())
    && Sorting.SortedRearrangement(s.rules, n.rules, RuleOrder())
  }

  /** One way to normalise. */
  function Normalize(s: Snapshot): (n: Snapshot) {
    s.(checksum := "", runtime := DefaultedRuntime(s.runtime),
       featureFlags := Sorting.Sort(s.featureFlags, FlagOrder()),
       whitelist := Sorting.Sort(s.whitelist, CidrOrder()),
       blacklist := Sorting.Sort(s.blacklist, CidrOrder()),
       udpBlocks := Sorting.Sort(s.udpBlocks, UdpOrder()),
       services := Sorting.Sort(s.services, ServiceOrder()),
       rules := Sorting.Sort(s.rules, RuleOrder()))
  }

  lemma NormalizeNormal(s: Snapshot)
    ensures NormalForm(s, Normalize(s))
  {
    Sorting.SortSorts(s.featureFlags, FlagOrder());
    Sorting.SortSorts(s.whitelist, CidrOrder());
    Sorting.SortSorts(s.blacklist, CidrOrder());
    Sorting.SortSorts(s.udpBlocks, UdpOrder());
    Sorting.SortSorts(s.services, ServiceOrder());
    Sorting.SortSorts(s.rules, RuleOrder());
  }

  /** The same snapshot with its lists in another order; the checksum field does not matter, and an
      unset malformed policy means drop. */
  ghost predicate Reordered(s: Snapshot, t: Snapshot) {
    && s.schemaVersion == t.schemaVersion && s.version == t.version && s.objectChecksum == t.objectChecksum
    && DefaultedRuntime(s.runtime) == DefaultedRuntime(t.runtime)
    && multiset(s.featureFlags) == multiset(t.featureFlags)
    && multiset(s.whitelist) == multiset(t.whitelist) && multiset(s.blacklist) == multiset(t.blacklist)
    && multiset(s.udpBlocks) == multiset(t.udpBlocks)
    && multiset(s.services) == multiset(t.services) && multiset(s.rules) == multiset(t.rules)
  }

  /** Sort keys tell the entries of each list apart. */
  ghost predicate Unambiguous(s: Snapshot) {
    && Sorting.KeysIdentify(s.whitelist, CidrOrder()) && Sorting.KeysIdentify(s.blacklist, CidrOrder())
    && Sorting.KeysIdentify(s.udpBlocks, UdpOrder())
    && Sorting.KeysIdentify(s.services, ServiceOrder()) && Sorting.KeysIdentify(s.rules, RuleOrder())
  }

  lemma FlagsIdentify(flags: seq<string>)
    ensures Sorting.KeysIdentify(flags, FlagOrder())
  {
  }

  lemma IdentifyRearranged<T>(s: seq<T>, t: seq<T>, key: T -> Sorting.Key)
    requires multiset(s) == multiset(t) && Sorting.KeysIdentify(s, key)
    ensures Sorting.KeysIdentify(t, key)
  {
    Sorting.SameMembers(s, t);
  }

  lemma SortedOnce<T>(s: seq<T>, t: seq<T>, m: seq<T>, n: seq<T>, key: T -> Sorting.Key)
    requires multiset(s) == multiset(t) && Sorting.KeysIdentify(s, key)
    requires Sorting.SortedRearrangement(s, m, key) && Sorting.SortedRearrangement(t, n, key)
    ensures m == n
  {
    IdentifyRearranged(s, m, key);
    Sorting.SortedUnique(m, n, key);
  }

  /** Reordering the lists of an unambiguous snapshot does not change its normal form, whatever the sort
      does with ties. */
  lemma CanonicalUnique(s: Snapshot, t: Snapshot, m: Snapshot, n: Snapshot)
    requires Reordered(s, t) && Unambiguous(s) && NormalForm(s, m) && NormalForm(t, n)
    ensures m == n
  {
    FlagsIdentify(s.featureFlags);
    SortedOnce(s.featureFlags, t.featureFlags, m.featureFlags, n.featureFlags, FlagOrder());
    SortedOnce(s.whitelist, t.whitelist, m.whitelist, n.whitelist, CidrOrder());
    SortedOnce(s.blacklist, t.blacklist, m.blacklist, n.blacklist, CidrOrder());
    SortedOnce(s.udpBlocks, t.udpBlocks, m.udpBlocks, n.udpBlocks, UdpOrder());
    SortedOnce(s.services, t.services, m.services, n.services, ServiceOrder());
    SortedOnce(s.rules, t.rules, m.rules, n.rules, RuleOrder());
  }

  lemma NormalFormReorders(s: Snapshot, n: Snapshot)
    requires NormalForm(s, n)
    ensures Reordered(s, n)
  {
  }

  /** Normalising again changes nothing. */
  lemma NormalFormIdempotent(s: Snapshot, n: Snapshot, n': Snapshot)
    requires Unambiguous(s) && NormalForm(s, n) && NormalForm(n, n')
    ensures n' == n
  {
    NormalFormReorders(s, n);
    CanonicalUnique(s, n, n, n');
  }

  // ---------- validation makes snapshots unambiguous ----------

  lemma CidrsIdentify(env: Env, es: seq<CidrEntry>)
    requires Distinct(es, (e: CidrEntry) => CidrKey(env, e))
    ensures Sorting.KeysIdentify(es, CidrOrder())
  {
    forall x, y | x in es && y in es && CidrOrder()(x) == CidrOrder()(y)
      ensures x == y
    {
      var a, b := CidrOrder()(x).nums, CidrOrder()(y).nums;
      assert a[0] == b[0] && a[1] == b[1] && a[2] == b[2];
      assert CidrKey(env, x) == CidrKey(env, y);
      var i :| 0 <= i < |es| && es[i] == x;
      var j :| 0 <= j < |es| && es[j] == y;
    }
  }

  lemma UdpIdentify(us: seq<UdpBlock>)
    requires Distinct(us, (u: UdpBlock) => UdpMapEntry(u).Key())
    ensures Sorting.KeysIdentify(us, UdpOrder())
  {
    forall x, y | x in us && y in us && UdpOrder()(x) == UdpOrder()(y)
      ensures x == y
    {
      var a, b := UdpOrder()(x).nums, UdpOrder()(y).nums;
      assert a[0] == b[0] && a[1] == b[1] && a[2] == b[2];
      assert UdpMapEntry(x).Key() == UdpMapEntry(y).Key();
      var i :| 0 <= i < |us| && us[i] == x;
      var j :| 0 <= j < |us| && us[j] == y;
    }
  }

  lemma ServicesIdentify(env: Env, ss: seq<Service>)
    requires forall s | s in ss :: ServiceKeyOf(env, s).Some?
    requires Distinct(ss, (s: Service) => ServiceKeyOf(env, s))
    ensures Sorting.KeysIdentify(ss, ServiceOrder())
  {
    forall x, y | x in ss && y in ss && ServiceOrder()(x) == ServiceOrder()(y)
      ensures x == y
    {
      var a, b := ServiceOrder()(x).nums, ServiceOrder()(y).nums;
      assert a[0] == b[0] && a[1] == b[1] && a[2] == b[2];
      assert ServiceKeyOf(env, x) == ServiceKeyOf(env, y);
      var i :| 0 <= i < |ss| && ss[i] == x;
      var j :| 0 <= j < |ss| && ss[j] == y;
    }
  }

  lemma RulesIdentify(rs: seq<Rule>)
    requires Distinct(rs, (r: Rule) => r.ruleId)
    ensures Sorting.KeysIdentify(rs, RuleOrder())
  {
    forall x, y | x in rs && y in rs && RuleOrder()(x) == RuleOrder()(y)
      ensures x == y
    {
      var a, b := RuleOrder()(x).nums, RuleOrder()(y).nums;
      assert a[0] == b[0];
      var i :| 0 <= i < |rs| && rs[i] == x;
      var j :| 0 <= j < |rs| && rs[j] == y;
    }
  }

  /** The duplicate-key checks force distinct sort keys. */
  lemma ValidIsUnambiguous(env: Env, s: Snapshot, now: u64, allowUnresolved: bool)
    requires EntriesValid(env, s, now, allowUnresolved)
    ensures Unambiguous(s)
  {
    CidrsIdentify(env, s.whitelist);
    CidrsIdentify(env, s.blacklist);
    UdpIdentify(s.udpBlocks);
    ServicesIdentify(env, s.services);
    RulesIdentify(s.rules);
  }

  // ---------- signing and verifying ----------

  /** SignPolicySnapshot may return t for s: the checksum of one normal form on another. */
  ghost predicate Signed(env: Env, s: Snapshot, t: Snapshot) {
    exists m, n :: NormalForm(s, m) && NormalForm(s, n) && t == n.(checksum := env.digest(m))
  }

  datatype VerifyOptions = VerifyOptions(currentVersion: u32, objectChecksum: string, now: u64, allowUnresolved: bool)

  const SUPPORTED_FLAGS: set<string> := {
    "policy_snapshot_v1", "ipv4", "ab_policy_maps", "tx_devmap", "udp_src_port_block",
    "service_scoped_whitelist_v4", "service_scoped_blacklist_v4", "service_scoped_udp_src_port_block" }

  /** The checks of VerifyPolicySnapshot apart from the checksum. */
  predicate ContentValid(env: Env, s: Snapshot, o: VerifyOptions) {
    && s.schemaVersion == 1 && s.version != 0 && !Blank(s.objectChecksum)
    && (o.currentVersion != 0 ==> s.version > o.currentVersion)
    && (o.objectChecksum != "" ==> s.objectChecksum == o.objectChecksum)
    && s.runtime.malformedPolicy == ACTION_DROP && s.runtime.sampleDenom <= MAX_EVENT_SAMPLE_DENOM
    && (forall flag | flag in s.featureFlags :: flag in SUPPORTED_FLAGS)
    && EntriesValid(env, s, o.now, o.allowUnresolved)
  }

  /** VerifyPolicySnapshot may accept s: it normalises, and normalises again for the checksum. */
  ghost predicate Verifies(env: Env, s: Snapshot, o: VerifyOptions) {
    exists m, n ::
      NormalForm(s, m) && NormalForm(m, n) && ContentValid(env, m, o) && s.checksum != "" && env.digest(n) == s.checksum
  }

  /** ... and it may reject s. */
  ghost predicate MayReject(env: Env, s: Snapshot, o: VerifyOptions) {
    exists m, n ::
      && NormalForm(s, m) && NormalForm(m, n)
      && !(ContentValid(env, m, o) && s.checksum != "" && env.digest(n) == s.checksum)
  }

  // ---------- a fixed sorting routine ----------

  /** norm normalises, breaking ties any way it likes. */
  ghost predicate Sorts(norm: Snapshot -> Snapshot) {
    forall s :: NormalForm(s, norm(s))
  }

  /** CanonicalPolicyChecksum. */
  function Checksum(env: Env, norm: Snapshot -> Snapshot, s: Snapshot): (r: string) {
    env.digest(norm(s))
  }

  /** SignPolicySnapshot. */
  function Sign(env: Env, norm: Snapshot -> Snapshot, s: Snapshot): (t: Snapshot) {
    norm(s).(checksum := Checksum(env, norm, s))
  }

  /** VerifyPolicySnapshot. */
  predicate Verify(env: Env, norm: Snapshot -> Snapshot, s: Snapshot, o: VerifyOptions) {
    var m := norm(s).(checksum := s.checksum);
    ContentValid(env, m, o) && m.checksum != "" && Checksum(env, norm, m) == m.checksum
  }

  lemma ContentIgnoresChecksum(env: Env, s: Snapshot, checksum: string, o: VerifyOptions)
    ensures ContentValid(env, s.(checksum := checksum), o) == ContentValid(env, s, o)
  {
  }

  lemma FormIgnoresChecksum(s: Snapshot, checksum: string, n: Snapshot)
    ensures NormalForm(s.(checksum := checksum), n) == NormalForm(s, n)
  {
  }

  /** Each answer of the verification is one the relational reading allows. */
  lemma VerifyAllowed(env: Env, norm: Snapshot -> Snapshot, s: Snapshot, o: VerifyOptions)
    requires Sorts(norm)
    ensures Verify(env, norm, s, o) ==> Verifies(env, s, o)
    ensures !Verify(env, norm, s, o) ==> MayReject(env, s, o)
  {
    var m := norm(s);
    var n := norm(m.(checksum := s.checksum));
    FormIgnoresChecksum(m, s.checksum, n);
    ContentIgnoresChecksum(env, m, s.checksum, o);
    assert NormalForm(s, m) && NormalForm(m, n);
  }

  lemma ReorderedSteps(s: Snapshot, m: Snapshot, n: Snapshot, checksum: string)
    requires NormalForm(s, m) && NormalForm(m.(checksum := checksum), n)
    ensures Reordered(n, s) && Reordered(s, m.(checksum := checksum))
  {
    NormalFormReorders(s, m);
    NormalFormReorders(m.(checksum := checksum), n);
  }

  /** Normalising a normalised snapshot again changes nothing once either form is valid. */
  lemma StableForm(env: Env, norm: Snapshot -> Snapshot, s: Snapshot, checksum: string, o: VerifyOptions)
    requires Sorts(norm)
    requires ContentValid(env, norm(s), o) || ContentValid(env, norm(norm(s).(checksum := checksum)), o)
    ensures norm(norm(s).(checksum := checksum)) == norm(s) && Unambiguous(s)
  {
    var m := norm(s);
    var n := norm(m.(checksum := checksum));
    assert NormalForm(s, m) && NormalForm(m.(checksum := checksum), n);
    ReorderedSteps(s, m, n, checksum);
    if ContentValid(env, m, o) {
      ValidIsUnambiguous(env, m, o.now, o.allowUnresolved);
      NormalFormReorders(s, m);
      ReorderedUnambiguous(m, s);
    } else {
      ValidIsUnambiguous(env, n, o.now, o.allowUnresolved);
      ReorderedUnambiguous(n, s);
    }
    CanonicalUnique(s, m.(checksum := checksum), m, n);
  }

  /** What was signed verifies exactly when its content is valid. */
  lemma SignedVerifies(env: Env, norm: Snapshot -> Snapshot, s: Snapshot, o: VerifyOptions)
    requires Sorts(norm) && env.digest(norm(s)) != ""
    ensures Verify(env, norm, Sign(env, norm, s), o) <==> ContentValid(env, norm(s), o)
    ensures ContentValid(env, norm(s), o) ==> norm(Sign(env, norm, s)) == norm(s)
  {
    var t := Sign(env, norm, s);
    var m := norm(t);
    ContentIgnoresChecksum(env, m, t.checksum, o);
    if ContentValid(env, norm(s), o) || ContentValid(env, m, o) {
      StableForm(env, norm, s, t.checksum, o);
    }
  }

  /** A verified snapshot has one normal form, and carries its checksum. */
  lemma VerifiedContent(env: Env, norm: Snapshot -> Snapshot, s: Snapshot, o: VerifyOptions)
    requires Sorts(norm) && Verify(env, norm, s, o)
    ensures ContentValid(env, norm(s), o) && Unambiguous(s) && env.digest(norm(s)) == s.checksum
  {
    ContentIgnoresChecksum(env, norm(s), s.checksum, o);
    StableForm(env, norm, s, s.checksum, o);
  }

  lemma SignedFields(env: Env, s: Snapshot, t: Snapshot, m: Snapshot)
    requires Unambiguous(s) && Signed(env, s, t) && NormalForm(s, m)
    ensures t == m.(checksum := env.digest(m))
  {
    var a, b :| NormalForm(s, a) && NormalForm(s, b) && t == b.(checksum := env.digest(a));
    CanonicalUnique(s, s, m, a);
    CanonicalUnique(s, s, m, b);
  }

  /** Sign, then verify: for a snapshot whose content is valid, every way the sorts may go, the signature
      is accepted and can never be rejected. */
  lemma SignThenVerify(env: Env, s: Snapshot, t: Snapshot, o: VerifyOptions)
    requires Signed(env, s, t) && ContentValid(env, Normalize(s), o) && env.digest(Normalize(s)) != ""
    ensures Verifies(env, t, o) && !MayReject(env, t, o)
  {
    var c := Normalize(s);
    NormalizeNormal(s);
    NormalFormReorders(s, c);
    ValidIsUnambiguous(env, c, o.now, o.allowUnresolved);
    ReorderedUnambiguous(c, s);
    SignedFields(env, s, t, c);
    OneFormOnly(s, t, c);
    OneFormVerifies(env, t, c, o);
  }

  lemma ReorderedUnambiguous(s: Snapshot, t: Snapshot)
    requires Reordered(s, t) && Unambiguous(s)
    ensures Unambiguous(t)
  {
    IdentifyRearranged(s.whitelist, t.whitelist, CidrOrder());
    IdentifyRearranged(s.blacklist, t.blacklist, CidrOrder());
    IdentifyRearranged(s.udpBlocks, t.udpBlocks, UdpOrder());
    IdentifyRearranged(s.services, t.services, ServiceOrder());
    IdentifyRearranged(s.rules, t.rules, RuleOrder());
  }

  /** What a verified snapshot normalises to, whatever the sorts do. */
  lemma VerifiedForm(env: Env, s: Snapshot, o: VerifyOptions) returns (m: Snapshot)
    requires Verifies(env, s, o)
    ensures NormalForm(s, m) && Unambiguous(s) && ContentValid(env, m, o) && s.checksum != ""
    ensures env.digest(m) == s.checksum
  {
    var n;
    m, n :| NormalForm(s, m) && NormalForm(m, n) && ContentValid(env, m, o) && s.checksum != ""
      && env.digest(n) == s.checksum;
    ValidIsUnambiguous(env, m, o.now, o.allowUnresolved);
    NormalFormReorders(s, m);
    ReorderedUnambiguous(m, s);
    NormalFormIdempotent(s, m, n);
  }

  /** Every normalisation of a reordering of s, once or twice, ends in s's normal form. */
  lemma OneFormOnly(s: Snapshot, file: Snapshot, m: Snapshot)
    requires Unambiguous(s) && NormalForm(s, m) && Reordered(s, file)
    ensures forall a, b | NormalForm(file, a) && NormalForm(a, b) :: a == m && b == m
  {
    forall a, b | NormalForm(file, a) && NormalForm(a, b)
      ensures a == m && b == m
    {
      CanonicalUnique(s, file, m, a);
      NormalFormIdempotent(s, m, b);
    }
  }

  /** A snapshot whose only normal form is m verifies when m's content and digest are right. */
  lemma OneFormVerifies(env: Env, file: Snapshot, m: Snapshot, o: VerifyOptions)
    requires forall a, b | NormalForm(file, a) && NormalForm(a, b) :: a == m && b == m
    requires ContentValid(env, m, o) && file.checksum != "" && env.digest(m) == file.checksum
    ensures Verifies(env, file, o) && !MayReject(env, file, o)
  {
    NormalizeNormal(file);
    NormalizeNormal(Normalize(file));
  }

  /** A verified snapshot can be reordered and saved (normalised, checksum kept): it verifies again, and
      no later verification can reject it. */
  lemma SaveThenLoad(env: Env, s: Snapshot, t: Snapshot, saved: Snapshot, o: VerifyOptions)
    requires Verifies(env, s, o) && Reordered(s, t) && NormalForm(t, saved)
    ensures Verifies(env, saved.(checksum := s.checksum), o)
    ensures !MayReject(env, saved.(checksum := s.checksum), o)
  {
    var m := VerifiedForm(env, s, o);
    CanonicalUnique(s, t, m, saved);
    NormalFormReorders(s, m);
    var file := saved.(checksum := s.checksum);
    OneFormOnly(s, file, m);
    OneFormVerifies(env, file, m, o);
  }

  // ---------- distinct keys are needed ----------

  lemma WhitelistForm(s: Snapshot, list: seq<CidrEntry>) returns (n: Snapshot)
    requires Sorting.SortedRearrangement(s.whitelist, list, CidrOrder())
    ensures NormalForm(s, n) && n.whitelist == list
  {
    NormalizeNormal(s);
    n := Normalize(s).(whitelist := list);
  }

  lemma BlacklistForm(s: Snapshot, list: seq<CidrEntry>) returns (n: Snapshot)
    requires Sorting.SortedRearrangement(s.blacklist, list, CidrOrder())
    ensures NormalForm(s, n) && n.blacklist == list
  {
    NormalizeNormal(s);
    n := Normalize(s).(blacklist := list);
  }

  lemma UdpForm(s: Snapshot, list: seq<UdpBlock>) returns (n: Snapshot)
    requires Sorting.SortedRearrangement(s.udpBlocks, list, UdpOrder())
    ensures NormalForm(s, n) && n.udpBlocks == list
  {
    NormalizeNormal(s);
    n := Normalize(s).(udpBlocks := list);
  }

  lemma ServicesForm(s: Snapshot, list: seq<Service>) returns (n: Snapshot)
    requires Sorting.SortedRearrangement(s.services, list, ServiceOrder())
    ensures NormalForm(s, n) && n.services == list
  {
    NormalizeNormal(s);
    n := Normalize(s).(services := list);
  }

  lemma RulesForm(s: Snapshot, list: seq<Rule>) returns (n: Snapshot)
    requires Sorting.SortedRearrangement(s.rules, list, RuleOrder())
    ensures NormalForm(s, n) && n.rules == list
  {
    NormalizeNormal(s);
    n := Normalize(s).(rules := list);
  }

  /** A snapshot with a tie in any of its lists has two normal forms. */
  lemma TiesGiveTwoForms(s: Snapshot) returns (m: Snapshot, n: Snapshot)
    requires !Unambiguous(s)
    ensures NormalForm(s, m) && NormalForm(s, n) && m != n
  {
    if !Sorting.KeysIdentify(s.whitelist, CidrOrder()) {
      var p, q := Sorting.TwoRearrangements(s.whitelist, CidrOrder());
      m := WhitelistForm(s, p);
      n := WhitelistForm(s, q);
    } else if !Sorting.KeysIdentify(s.blacklist, CidrOrder()) {
      var p, q := Sorting.TwoRearrangements(s.blacklist, CidrOrder());
      m := BlacklistForm(s, p);
      n := BlacklistForm(s, q);
    } else if !Sorting.KeysIdentify(s.udpBlocks, UdpOrder()) {
      var p, q := Sorting.TwoRearrangements(s.udpBlocks, UdpOrder());
      m := UdpForm(s, p);
      n := UdpForm(s, q);
    } else if !Sorting.KeysIdentify(s.services, ServiceOrder()) {
      var p, q := Sorting.TwoRearrangements(s.services, ServiceOrder());
      m := ServicesForm(s, p);
      n := ServicesForm(s, q);
    } else {
      var p, q := Sorting.TwoRearrangements(s.rules, RuleOrder());
      m := RulesForm(s, p);
      n := RulesForm(s, q);
    }
  }

  /** A snapshot has one normal form exactly when in each of its lists the sort keys tell different
      entries apart. */
  lemma OneFormExactly(s: Snapshot)
    ensures Unambiguous(s) <==> forall m, n | NormalForm(s, m) && NormalForm(s, n) :: m == n
  {
    if Unambiguous(s) {
      forall m, n | NormalForm(s, m) && NormalForm(s, n)
        ensures m == n
      {
        CanonicalUnique(s, s, m, n);
      }
    } else {
      var m, n := TiesGiveTwoForms(s);
    }
  }

  /** Two different rules with one id and one priority are such a tie, in any snapshot. */
  lemma TiesBreakCanonicalForm(s: Snapshot, x: Rule, y: Rule)
    requires x in s.rules && y in s.rules && x != y && x.ruleId == y.ruleId && x.priority == y.priority
    ensures exists m, n :: NormalForm(s, m) && NormalForm(s, n) && m != n
  {
    assert RuleOrder()(x) == RuleOrder()(y);
    var m, n := TiesGiveTwoForms(s);
  }
}
