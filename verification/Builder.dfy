/** The snapshot builder: rows of the policy tables become lists with one entry per key, and every service
    gets its default rule. */
module Builder {
  import opened Words
  import opened Contract
  import opened Ipv4
  import opened Policy
  import opened Selection
  import Canonical
  import Lpm
  import Feed
  import Sorting

  const SERVICE := "service"
  const USER_GLOBAL := "user_global"
  const ADMIN_GLOBAL := "admin_global"

  /** scopeTypeRank, on the scope types the tables allow. */
  function ScopeRank(scopeType: string): (r: nat) {
    if scopeType == SERVICE then 3
    else if scopeType == USER_GLOBAL then 2
    else if scopeType == ADMIN_GLOBAL then 1
    else 0
  }

  /** Rows as the queries return them; the prefix is what parseCIDR makes of the text, if anything. */
  datatype WhitelistRow = WhitelistRow(
    entryId: u32, prefix: Option<Prefix>, priority: u32, scopeType: string, serviceId: u32, expiresAt: u64)

  datatype BlacklistRow = BlacklistRow(
    manual: bool, scopeType: string, serviceId: u32, entryId: u32, prefix: Option<Prefix>, score: u32,
    ruleId: u32, expiresAt: u64)

  datatype UdpRow = UdpRow(entryId: u32, port: u16, scopeType: string, serviceId: u32, expiresAt: u64)

  function TextOf(prefix: Option<Prefix>): (r: string) {
    if prefix.Some? then Feed.PrefixText(prefix.value) else ""
  }

  function ScopeOf(scopeType: string): (r: u32) {
    if scopeType == SERVICE then SCOPE_SERVICE else SCOPE_GLOBAL
  }

  function ServiceOf(scopeType: string, serviceId: u32): (r: u32) {
    if scopeType == SERVICE then serviceId else 0
  }

  function WhitelistEntry(): (f: WhitelistRow -> CidrEntry) {
    (r: WhitelistRow) => CidrEntry(r.entryId, TextOf(r.prefix), r.priority, ACTION_PASS, 1,
                                   ScopeOf(r.scopeType), ServiceOf(r.scopeType, r.serviceId), 0, 0, r.expiresAt)
  }

  function BlacklistEntry(): (f: BlacklistRow -> CidrEntry) {
    (r: BlacklistRow) => CidrEntry(r.entryId, TextOf(r.prefix), 0, ACTION_DROP, 1,
                                   ScopeOf(r.scopeType), ServiceOf(r.scopeType, r.serviceId), r.score,
                                   r.ruleId, r.expiresAt)
  }

  function UdpEntry(): (f: UdpRow -> UdpBlock) {
    (r: UdpRow) => UdpBlock(r.entryId, r.port, ScopeOf(r.scopeType), ServiceOf(r.scopeType, r.serviceId), r.expiresAt)
  }

  /** The keys "global:..." and "service:id:...". */
  datatype ListKey<X> = ListKey(scope: u32, serviceId: u32, value: X)

  function CidrListKey(): (f: CidrEntry -> ListKey<string>) {
    (e: CidrEntry) => ListKey(e.scope, e.serviceId, e.cidr)
  }

  function UdpListKey(): (f: UdpBlock -> ListKey<u16>) {
    (u: UdpBlock) => ListKey(u.scope, u.serviceId, u.port)
  }

  function WhitelistKey(): (f: WhitelistRow -> ListKey<string>) {
    (r: WhitelistRow) => CidrListKey()(WhitelistEntry()(r))
  }

  function BlacklistKey(): (f: BlacklistRow -> ListKey<string>) {
    (r: BlacklistRow) => CidrListKey()(BlacklistEntry()(r))
  }

  function UdpKey(): (f: UdpRow -> ListKey<u16>) {
    (r: UdpRow) => UdpListKey()(UdpEntry()(r))
  }

  // ---------- preferences ----------

  /** cidrCandidatePreferred. */
  predicate WhitelistPreferred(next: WhitelistRow, current: WhitelistRow) {
    var n, c := ScopeRank(next.scopeType), ScopeRank(current.scopeType);
    if n != c then n > c
    else if next.priority != current.priority then next.priority < current.priority
    else next.entryId < current.entryId
  }

  /** blacklistCandidatePreferred. */
  predicate BlacklistPreferred(next: BlacklistRow, current: BlacklistRow) {
    var n, c := ScopeRank(next.scopeType), ScopeRank(current.scopeType);
    if n != c then n > c
    else if next.manual != current.manual then next.manual
    else if next.score != current.score then next.score > current.score
    else next.entryId < current.entryId
  }

  /** udpBlockCandidatePreferred. */
  predicate UdpPreferred(next: UdpRow, current: UdpRow) {
    var n, c := ScopeRank(next.scopeType), ScopeRank(current.scopeType);
    if n != c then n > c
    else next.entryId < current.entryId
  }

  /** rulePreferred. */
  predicate RulePreferred(next: Rule, current: Rule) {
    var n, c := ScopeRank(next.scopeType), ScopeRank(current.scopeType);
    if n != c then n > c
    else if next.priority != current.priority then next.priority < current.priority
    else next.ruleId < current.ruleId
  }

  /** Smaller is better: narrower scope, then smaller priority, then smaller id. */
  function WhitelistRank(): (f: WhitelistRow -> seq<int>) {
    (r: WhitelistRow) => [3 - ScopeRank(r.scopeType) as int, r.priority as int, r.entryId as int]
  }

  /** Narrower scope, then manual entries, then higher score, then smaller id. */
  function BlacklistRank(): (f: BlacklistRow -> seq<int>) {
    (r: BlacklistRow) =>
      [3 - ScopeRank(r.scopeType) as int, if r.manual then 0 else 1, 0 - r.score as int, r.entryId as int]
  }

  function UdpRank(): (f: UdpRow -> seq<int>) {
    (r: UdpRow) => [3 - ScopeRank(r.scopeType) as int, r.entryId as int]
  }

  function RuleRank(): (f: Rule -> seq<int>) {
    (r: Rule) => [3 - ScopeRank(r.scopeType) as int, r.priority as int, r.ruleId as int]
  }

  lemma FirstDecides(a: seq<int>, b: seq<int>)
    requires a != [] && b != []
    ensures Sorting.LexLess(a, b) <==> if a[0] != b[0] then a[0] < b[0] else Sorting.LexLess(a[1..], b[1..])
  {
  }

  lemma WhitelistOrdered(x: WhitelistRow, y: WhitelistRow)
    ensures WhitelistPreferred(x, y) <==> Sorting.LexLess(WhitelistRank()(x), WhitelistRank()(y))
  {
    Canonical.ThreeNumbers(WhitelistRank()(x), WhitelistRank()(y));
  }

  lemma RulesOrdered(x: Rule, y: Rule)
    ensures RulePreferred(x, y) <==> Sorting.LexLess(RuleRank()(x), RuleRank()(y))
  {
    Canonical.ThreeNumbers(RuleRank()(x), RuleRank()(y));
  }

  lemma BlacklistOrdered(x: BlacklistRow, y: BlacklistRow)
    ensures BlacklistPreferred(x, y) <==> Sorting.LexLess(BlacklistRank()(x), BlacklistRank()(y))
  {
    var a, b := BlacklistRank()(x), BlacklistRank()(y);
    FirstDecides(a, b);
    Canonical.ThreeNumbers(a[1..], b[1..]);
  }

  lemma UdpOrdered(x: UdpRow, y: UdpRow)
    ensures UdpPreferred(x, y) <==> Sorting.LexLess(UdpRank()(x), UdpRank()(y))
  {
    var a, b := UdpRank()(x), UdpRank()(y);
    FirstDecides(a, b);
    FirstDecides(a[1..], b[1..]);
  }

  // ---------- the lists ----------

  /** out is the whitelist of these rows: per key the most preferred row, sorted. */
  ghost predicate IsWhitelist(rows: seq<WhitelistRow>, out: seq<CidrEntry>) {
    Builds(rows, WhitelistKey(), WhitelistRank(), WhitelistEntry(), Canonical.CidrOrder(), out)
  }

  ghost predicate IsBlacklist(rows: seq<BlacklistRow>, out: seq<CidrEntry>) {
    Builds(rows, BlacklistKey(), BlacklistRank(), BlacklistEntry(), Canonical.CidrOrder(), out)
  }

  ghost predicate IsUdpList(rows: seq<UdpRow>, out: seq<UdpBlock>) {
    Builds(rows, UdpKey(), UdpRank(), UdpEntry(), Canonical.UdpOrder(), out)
  }

  /** snapshotWhitelist: none when a row's text is no IPv4 prefix. */
  method SnapshotWhitelist(rows: seq<WhitelistRow>) returns (out: Option<seq<CidrEntry>>)
    ensures out.Some? <==> forall r | r in rows :: r.prefix.Some?
    ensures out.Some? ==> IsWhitelist(rows, out.value)
  {
    for i := 0 to |rows|
      invariant forall r | r in rows[..i] :: r.prefix.Some?
    {
      if rows[i].prefix.None? {
        return None;
      }
    }
    forall x, y
      ensures WhitelistPreferred(x, y) <==> Sorting.LexLess(WhitelistRank()(x), WhitelistRank()(y))
    {
      WhitelistOrdered(x, y);
    }
    var byKey := SelectBest(rows, WhitelistKey(), WhitelistPreferred, WhitelistRank());
    var entries := Values(rows, WhitelistKey(), WhitelistRank(), WhitelistEntry(), CidrListKey(), byKey);
    var sorted := Sorting.Sort(entries, Canonical.CidrOrder());
    Sorting.SortSorts(entries, Canonical.CidrOrder());
    SortedPicks(rows, WhitelistKey(), WhitelistRank(), WhitelistEntry(), entries, sorted);
    out := Some(sorted);
  }

  /** snapshotBlacklist. */
  method SnapshotBlacklist(rows: seq<BlacklistRow>) returns (out: Option<seq<CidrEntry>>)
    ensures out.Some? <==> forall r | r in rows :: r.prefix.Some?
    ensures out.Some? ==> IsBlacklist(rows, out.value)
  {
    for i := 0 to |rows|
      invariant forall r | r in rows[..i] :: r.prefix.Some?
    {
      if rows[i].prefix.None? {
        return None;
      }
    }
    forall x, y
      ensures BlacklistPreferred(x, y) <==> Sorting.LexLess(BlacklistRank()(x), BlacklistRank()(y))
    {
      BlacklistOrdered(x, y);
    }
    var byKey := SelectBest(rows, BlacklistKey(), BlacklistPreferred, BlacklistRank());
    var entries := Values(rows, BlacklistKey(), BlacklistRank(), BlacklistEntry(), CidrListKey(), byKey);
    var sorted := Sorting.Sort(entries, Canonical.CidrOrder());
    Sorting.SortSorts(entries, Canonical.CidrOrder());
    SortedPicks(rows, BlacklistKey(), BlacklistRank(), BlacklistEntry(), entries, sorted);
    out := Some(sorted);
  }

  /** snapshotUDPSourcePortBlocks. */
  method SnapshotUdpBlocks(rows: seq<UdpRow>) returns (out: seq<UdpBlock>)
    ensures IsUdpList(rows, out)
  {
    forall x, y
      ensures UdpPreferred(x, y) <==> Sorting.LexLess(UdpRank()(x), UdpRank()(y))
    {
      UdpOrdered(x, y);
    }
    var byKey := SelectBest(rows, UdpKey(), UdpPreferred, UdpRank());
    var entries := Values(rows, UdpKey(), UdpRank(), UdpEntry(), UdpListKey(), byKey);
    out := Sorting.Sort(entries, Canonical.UdpOrder());
    Sorting.SortSorts(entries, Canonical.UdpOrder());
    SortedPicks(rows, UdpKey(), UdpRank(), UdpEntry(), entries, out);
  }

  // ---------- row order does not matter ----------

  lemma CidrKeysIdentify(out: seq<CidrEntry>)
    requires forall e, f | e in out && f in out && CidrListKey()(e) == CidrListKey()(f) :: e == f
    ensures Sorting.KeysIdentify(out, Canonical.CidrOrder())
  {
    forall e, f | e in out && f in out && Canonical.CidrOrder()(e) == Canonical.CidrOrder()(f)
      ensures e == f
    {
      var a, b := Canonical.CidrOrder()(e).nums, Canonical.CidrOrder()(f).nums;
      assert a[0] == b[0] && a[1] == b[1];
      assert CidrListKey()(e) == CidrListKey()(f);
    }
  }

  /** Ids are unique per table, so the whitelist does not depend on the order of the rows. */
  lemma WhitelistAnyOrder(rows: seq<WhitelistRow>, other: seq<WhitelistRow>, out: seq<CidrEntry>, more: seq<CidrEntry>)
    requires multiset(rows) == multiset(other)
    requires forall x, y | x in rows && y in rows :: x.entryId == y.entryId ==> x == y
    requires IsWhitelist(rows, out) && IsWhitelist(other, more)
    ensures out == more
  {
    forall x, y | x in rows && y in rows && WhitelistRank()(x) == WhitelistRank()(y)
      ensures x == y
    {
      assert WhitelistRank()(x)[2] == WhitelistRank()(y)[2];
    }
    forall e, f | e in out && f in out && CidrListKey()(e) == CidrListKey()(f)
      ensures e == f
    {
      PicksOnePerKey(rows, WhitelistKey(), WhitelistRank(), WhitelistEntry(), CidrListKey(), out, e, f);
    }
    CidrKeysIdentify(out);
    PicksAnyOrder(rows, other, WhitelistKey(), WhitelistRank(), WhitelistEntry(), Canonical.CidrOrder(), out, more);
  }

  /** Manual and feed entries have ids of their own tables. */
  lemma BlacklistAnyOrder(rows: seq<BlacklistRow>, other: seq<BlacklistRow>, out: seq<CidrEntry>, more: seq<CidrEntry>)
    requires multiset(rows) == multiset(other)
    requires forall x, y | x in rows && y in rows :: x.entryId == y.entryId && x.manual == y.manual ==> x == y
    requires IsBlacklist(rows, out) && IsBlacklist(other, more)
    ensures out == more
  {
    forall x, y | x in rows && y in rows && BlacklistRank()(x) == BlacklistRank()(y)
      ensures x == y
    {
      assert BlacklistRank()(x)[1] == BlacklistRank()(y)[1] && BlacklistRank()(x)[3] == BlacklistRank()(y)[3];
    }
    forall e, f | e in out && f in out && CidrListKey()(e) == CidrListKey()(f)
      ensures e == f
    {
      PicksOnePerKey(rows, BlacklistKey(), BlacklistRank(), BlacklistEntry(), CidrListKey(), out, e, f);
    }
    CidrKeysIdentify(out);
    PicksAnyOrder(rows, other, BlacklistKey(), BlacklistRank(), BlacklistEntry(), Canonical.CidrOrder(), out, more);
  }

  lemma UdpAnyOrder(rows: seq<UdpRow>, other: seq<UdpRow>, out: seq<UdpBlock>, more: seq<UdpBlock>)
    requires multiset(rows) == multiset(other)
    requires forall x, y | x in rows && y in rows :: x.entryId == y.entryId ==> x == y
    requires IsUdpList(rows, out) && IsUdpList(other, more)
    ensures out == more
  {
    forall x, y | x in rows && y in rows && UdpRank()(x) == UdpRank()(y)
      ensures x == y
    {
      assert UdpRank()(x)[1] == UdpRank()(y)[1];
    }
    forall e, f | e in out && f in out && Canonical.UdpOrder()(e) == Canonical.UdpOrder()(f)
      ensures e == f
    {
      var a, b := Canonical.UdpOrder()(e).nums, Canonical.UdpOrder()(f).nums;
      assert a[0] == b[0] && a[1] == b[1] && a[2] == b[2];
      PicksOnePerKey(rows, UdpKey(), UdpRank(), UdpEntry(), UdpListKey(), out, e, f);
    }
    PicksAnyOrder(rows, other, UdpKey(), UdpRank(), UdpEntry(), Canonical.UdpOrder(), out, more);
  }

  // ---------- exactly when row order does not matter ----------

  lemma CidrOrderHoldsKey()
    ensures OrderHoldsKey(CidrListKey(), Canonical.CidrOrder())
  {
    forall e, f | Canonical.CidrOrder()(e) == Canonical.CidrOrder()(f)
      ensures CidrListKey()(e) == CidrListKey()(f)
    {
      var a, b := Canonical.CidrOrder()(e).nums, Canonical.CidrOrder()(f).nums;
      assert a[0] == b[0] && a[1] == b[1];
    }
  }

  lemma UdpOrderHoldsKey()
    ensures OrderHoldsKey(UdpListKey(), Canonical.UdpOrder())
  {
    forall e, f | Canonical.UdpOrder()(e) == Canonical.UdpOrder()(f)
      ensures UdpListKey()(e) == UdpListKey()(f)
    {
      var a, b := Canonical.UdpOrder()(e).nums, Canonical.UdpOrder()(f).nums;
      assert a[0] == b[0] && a[1] == b[1] && a[2] == b[2];
    }
  }

  /** A row no other row of its key is preferred to. */
  ghost predicate WhitelistTop(rows: seq<WhitelistRow>, x: WhitelistRow) {
    x in rows && forall y | y in rows && WhitelistKey()(y) == WhitelistKey()(x) :: !WhitelistPreferred(y, x)
  }

  lemma WhitelistTopIsMostPreferred(rows: seq<WhitelistRow>, x: WhitelistRow)
    ensures WhitelistTop(rows, x) <==> MostPreferred(rows, WhitelistKey(), WhitelistRank(), x)
  {
    forall y
      ensures WhitelistPreferred(y, x) <==> Sorting.LexLess(WhitelistRank()(y), WhitelistRank()(x))
    {
      WhitelistOrdered(y, x);
    }
  }

  /** Rows that tie agree on everything but the time they expire. */
  lemma WhitelistTieEntry(rows: seq<WhitelistRow>, x: WhitelistRow, y: WhitelistRow)
    requires WhitelistTop(rows, x) && WhitelistTop(rows, y) && WhitelistKey()(x) == WhitelistKey()(y)
    ensures WhitelistEntry()(x) == WhitelistEntry()(y) <==> x.expiresAt == y.expiresAt
  {
    WhitelistOrdered(x, y);
    WhitelistOrdered(y, x);
    Sorting.LexTotal(WhitelistRank()(x), WhitelistRank()(y));
    var a, b := WhitelistRank()(x), WhitelistRank()(y);
    assert a[1] == b[1] && a[2] == b[2];
  }

  /** The whitelist does not depend on row order exactly when rows that tie for one key expire together. */
  lemma WhitelistOrderExactly(rows: seq<WhitelistRow>)
    ensures BuildsOneWay(rows, WhitelistKey(), WhitelistRank(), WhitelistEntry(), Canonical.CidrOrder()) <==>
      forall x, y | WhitelistTop(rows, x) && WhitelistTop(rows, y) && WhitelistKey()(x) == WhitelistKey()(y) ::
        x.expiresAt == y.expiresAt
  {
    CidrOrderHoldsKey();
    ListOrderExactly(rows, WhitelistKey(), WhitelistRank(), WhitelistEntry(), CidrListKey(), Canonical.CidrOrder());
    forall x
      ensures WhitelistTop(rows, x) <==> MostPreferred(rows, WhitelistKey(), WhitelistRank(), x)
    {
      WhitelistTopIsMostPreferred(rows, x);
    }
    forall x, y | WhitelistTop(rows, x) && WhitelistTop(rows, y) && WhitelistKey()(x) == WhitelistKey()(y)
      ensures WhitelistEntry()(x) == WhitelistEntry()(y) <==> x.expiresAt == y.expiresAt
    {
      WhitelistTieEntry(rows, x, y);
    }
  }

  /** A row no other row of its key is preferred to. */
  ghost predicate BlacklistTop(rows: seq<BlacklistRow>, x: BlacklistRow) {
    x in rows && forall y | y in rows && BlacklistKey()(y) == BlacklistKey()(x) :: !BlacklistPreferred(y, x)
  }

  lemma BlacklistTopIsMostPreferred(rows: seq<BlacklistRow>, x: BlacklistRow)
    ensures BlacklistTop(rows, x) <==> MostPreferred(rows, BlacklistKey(), BlacklistRank(), x)
  {
    forall y
      ensures BlacklistPreferred(y, x) <==> Sorting.LexLess(BlacklistRank()(y), BlacklistRank()(x))
    {
      BlacklistOrdered(y, x);
    }
  }

  /** Rows that tie agree on everything but their rule and the time they expire. */
  lemma BlacklistTieEntry(rows: seq<BlacklistRow>, x: BlacklistRow, y: BlacklistRow)
    requires BlacklistTop(rows, x) && BlacklistTop(rows, y) && BlacklistKey()(x) == BlacklistKey()(y)
    ensures BlacklistEntry()(x) == BlacklistEntry()(y) <==> x.ruleId == y.ruleId && x.expiresAt == y.expiresAt
  {
    BlacklistOrdered(x, y);
    BlacklistOrdered(y, x);
    Sorting.LexTotal(BlacklistRank()(x), BlacklistRank()(y));
    var a, b := BlacklistRank()(x), BlacklistRank()(y);
    assert a[1] == b[1] && a[2] == b[2] && a[3] == b[3];
  }

  /** The blacklist does not depend on row order exactly when rows that tie for one key have one rule and
      expire together. */
  lemma BlacklistOrderExactly(rows: seq<BlacklistRow>)
    ensures BuildsOneWay(rows, BlacklistKey(), BlacklistRank(), BlacklistEntry(), Canonical.CidrOrder()) <==>
      forall x, y | BlacklistTop(rows, x) && BlacklistTop(rows, y) && BlacklistKey()(x) == BlacklistKey()(y) ::
        x.ruleId == y.ruleId && x.expiresAt == y.expiresAt
  {
    CidrOrderHoldsKey();
    ListOrderExactly(rows, BlacklistKey(), BlacklistRank(), BlacklistEntry(), CidrListKey(), Canonical.CidrOrder());
    forall x
      ensures BlacklistTop(rows, x) <==> MostPreferred(rows, BlacklistKey(), BlacklistRank(), x)
    {
      BlacklistTopIsMostPreferred(rows, x);
    }
    forall x, y | BlacklistTop(rows, x) && BlacklistTop(rows, y) && BlacklistKey()(x) == BlacklistKey()(y)
      ensures BlacklistEntry()(x) == BlacklistEntry()(y) <==> x.ruleId == y.ruleId && x.expiresAt == y.expiresAt
    {
      BlacklistTieEntry(rows, x, y);
    }
  }

  /** A row no other row of its key is preferred to. */
  ghost predicate UdpTop(rows: seq<UdpRow>, x: UdpRow) {
    x in rows && forall y | y in rows && UdpKey()(y) == UdpKey()(x) :: !UdpPreferred(y, x)
  }

  lemma UdpTopIsMostPreferred(rows: seq<UdpRow>, x: UdpRow)
    ensures UdpTop(rows, x) <==> MostPreferred(rows, UdpKey(), UdpRank(), x)
  {
    forall y
      ensures UdpPreferred(y, x) <==> Sorting.LexLess(UdpRank()(y), UdpRank()(x))
    {
      UdpOrdered(y, x);
    }
  }

  /** Rows that tie agree on everything but the time they expire. */
  lemma UdpTieEntry(rows: seq<UdpRow>, x: UdpRow, y: UdpRow)
    requires UdpTop(rows, x) && UdpTop(rows, y) && UdpKey()(x) == UdpKey()(y)
    ensures UdpEntry()(x) == UdpEntry()(y) <==> x.expiresAt == y.expiresAt
  {
    UdpOrdered(x, y);
    UdpOrdered(y, x);
    Sorting.LexTotal(UdpRank()(x), UdpRank()(y));
    var a, b := UdpRank()(x), UdpRank()(y);
    assert a[1] == b[1];
  }

  /** Likewise the UDP source port blocks. */
  lemma UdpOrderExactly(rows: seq<UdpRow>)
    ensures BuildsOneWay(rows, UdpKey(), UdpRank(), UdpEntry(), Canonical.UdpOrder()) <==>
      forall x, y | UdpTop(rows, x) && UdpTop(rows, y) && UdpKey()(x) == UdpKey()(y) :: x.expiresAt == y.expiresAt
  {
    UdpOrderHoldsKey();
    ListOrderExactly(rows, UdpKey(), UdpRank(), UdpEntry(), UdpListKey(), Canonical.UdpOrder());
    forall x
      ensures UdpTop(rows, x) <==> MostPreferred(rows, UdpKey(), UdpRank(), x)
    {
      UdpTopIsMostPreferred(rows, x);
    }
    forall x, y | UdpTop(rows, x) && UdpTop(rows, y) && UdpKey()(x) == UdpKey()(y)
      ensures UdpEntry()(x) == UdpEntry()(y) <==> x.expiresAt == y.expiresAt
    {
      UdpTieEntry(rows, x, y);
    }
  }

  /** Without unique ids that can fail: two rows for one key, equal but for the time they expire, build two
      different whitelists in their two orders. */
  lemma TwinsFollowRowOrder(x: WhitelistRow, expiresAt: u64)
    requires expiresAt != x.expiresAt
    ensures
      var y := x.(expiresAt := expiresAt);
      && IsWhitelist([x, y], [WhitelistEntry()(x)]) && IsWhitelist([y, x], [WhitelistEntry()(y)])
      && [WhitelistEntry()(x)] != [WhitelistEntry()(y)]
  {
    var y := x.(expiresAt := expiresAt);
    assert WhitelistRank()(x) == WhitelistRank()(y);
    assert CidrListKey()(WhitelistEntry()(x)) == CidrListKey()(WhitelistEntry()(y));
    assert WhitelistKey()(x) == WhitelistKey()(y);
    FirstTwinListed(x, y);
    FirstTwinListed(y, x);
    assert [WhitelistEntry()(x)][0] != [WhitelistEntry()(y)][0];
  }

  lemma FirstTwinListed(x: WhitelistRow, y: WhitelistRow)
    requires WhitelistKey()(x) == WhitelistKey()(y) && WhitelistRank()(x) == WhitelistRank()(y)
    ensures IsWhitelist([x, y], [WhitelistEntry()(x)])
  {
    Sorting.LexTotal(WhitelistRank()(x), WhitelistRank()(y));
    assert FirstBest([x, y], WhitelistKey(), WhitelistRank(), 0);
  }

  // ---------- the agent accepts what is built ----------

  /** The agent's parser reads prefixes back as they were printed. */
  ghost predicate ReadsBack(env: Env) {
    forall p: Prefix :: env.parsePrefix(Feed.PrefixText(p)) == Some(p)
  }

  lemma KeyOfPrefixInjective(p: Prefix, q: Prefix)
    requires Lpm.Raw(p.addr) == Lpm.Raw(q.addr) && p.bits == q.bits
    ensures p == q
  {
    Lpm.RawInvolution(p.addr);
    Lpm.RawInvolution(q.addr);
  }

  /** Entries that share a map key share the builder's key. */
  lemma MapKeyIsListKey(env: Env, e: CidrEntry, f: CidrEntry, p: Prefix, q: Prefix)
    requires ReadsBack(env) && e.cidr == Feed.PrefixText(p) && f.cidr == Feed.PrefixText(q)
    requires (e.scope == SCOPE_SERVICE || (e.scope == SCOPE_GLOBAL && e.serviceId == 0))
    requires (f.scope == SCOPE_SERVICE || (f.scope == SCOPE_GLOBAL && f.serviceId == 0))
    requires CidrKey(env, e) == CidrKey(env, f)
    ensures CidrListKey()(e) == CidrListKey()(f)
  {
    assert PrefixOf(env, e) == p && PrefixOf(env, f) == q;
    KeyOfPrefixInjective(p, q);
  }

  /** What the queries promise: enabled rows that have not expired, service rows with their service's id. */
  predicate RowOk(prefix: Option<Prefix>, scopeType: string, serviceId: u32, expiresAt: u64, now: u64) {
    prefix.Some? && !Expired(expiresAt, now) && (scopeType == SERVICE ==> serviceId != 0)
  }

  lemma BuiltEntry(env: Env, e: CidrEntry, prefix: Option<Prefix>, scopeType: string, serviceId: u32, now: u64)
    requires ReadsBack(env) && RowOk(prefix, scopeType, serviceId, e.expiresAt, now)
    requires e.cidr == TextOf(prefix) && e.scope == ScopeOf(scopeType) && e.serviceId == ServiceOf(scopeType, serviceId)
    ensures CidrAccepted(env, e, now) && e.cidr == Feed.PrefixText(prefix.value)
    ensures e.scope == SCOPE_SERVICE || (e.scope == SCOPE_GLOBAL && e.serviceId == 0)
  {
  }

  /** The built whitelist passes the agent's checks entry by entry and repeats no map key. */
  lemma WhitelistAccepted(env: Env, rows: seq<WhitelistRow>, out: seq<CidrEntry>, now: u64)
    requires ReadsBack(env) && IsWhitelist(rows, out)
    requires forall r | r in rows :: RowOk(r.prefix, r.scopeType, r.serviceId, r.expiresAt, now)
    ensures forall e | e in out :: CidrAccepted(env, e, now)
    ensures Distinct(out, (e: CidrEntry) => CidrKey(env, e))
  {
    forall e | e in out
      ensures CidrAccepted(env, e, now)
    {
      var r := WhitelistOrigin(env, rows, out, e, now);
    }
    forall i, j | 0 <= i < j < |out|
      ensures CidrKey(env, out[i]) != CidrKey(env, out[j])
    {
      var x := WhitelistOrigin(env, rows, out, out[i], now);
      var y := WhitelistOrigin(env, rows, out, out[j], now);
      if CidrKey(env, out[i]) == CidrKey(env, out[j]) {
        MapKeyIsListKey(env, out[i], out[j], x.prefix.value, y.prefix.value);
        PicksOnePerKey(rows, WhitelistKey(), WhitelistRank(), WhitelistEntry(), CidrListKey(), out, out[i], out[j]);
      }
    }
  }

  lemma WhitelistOrigin(
    env: Env, rows: seq<WhitelistRow>, out: seq<CidrEntry>, e: CidrEntry, now: u64) returns (r: WhitelistRow)
    requires ReadsBack(env) && IsWhitelist(rows, out) && e in out
    requires forall r | r in rows :: RowOk(r.prefix, r.scopeType, r.serviceId, r.expiresAt, now)
    ensures r.prefix.Some? && CidrAccepted(env, e, now) && e.cidr == Feed.PrefixText(r.prefix.value)
    ensures e.scope == SCOPE_SERVICE || (e.scope == SCOPE_GLOBAL && e.serviceId == 0)
  {
    var i :| FirstBest(rows, WhitelistKey(), WhitelistRank(), i) && e == WhitelistEntry()(rows[i]);
    r := rows[i];
    BuiltEntry(env, e, r.prefix, r.scopeType, r.serviceId, now);
  }

  /** Likewise the blacklist, whose entries are all drops. */
  lemma BlacklistAccepted(env: Env, rows: seq<BlacklistRow>, out: seq<CidrEntry>, now: u64)
    requires ReadsBack(env) && IsBlacklist(rows, out)
    requires forall r | r in rows :: RowOk(r.prefix, r.scopeType, r.serviceId, r.expiresAt, now)
    ensures forall e | e in out :: CidrAccepted(env, e, now) && e.action == ACTION_DROP
    ensures Distinct(out, (e: CidrEntry) => CidrKey(env, e))
  {
    forall e | e in out
      ensures CidrAccepted(env, e, now) && e.action == ACTION_DROP
    {
      var r := BlacklistOrigin(env, rows, out, e, now);
    }
    forall i, j | 0 <= i < j < |out|
      ensures CidrKey(env, out[i]) != CidrKey(env, out[j])
    {
      var x := BlacklistOrigin(env, rows, out, out[i], now);
      var y := BlacklistOrigin(env, rows, out, out[j], now);
      if CidrKey(env, out[i]) == CidrKey(env, out[j]) {
        MapKeyIsListKey(env, out[i], out[j], x.prefix.value, y.prefix.value);
        PicksOnePerKey(rows, BlacklistKey(), BlacklistRank(), BlacklistEntry(), CidrListKey(), out, out[i], out[j]);
      }
    }
  }

  lemma BlacklistOrigin(
    env: Env, rows: seq<BlacklistRow>, out: seq<CidrEntry>, e: CidrEntry, now: u64) returns (r: BlacklistRow)
    requires ReadsBack(env) && IsBlacklist(rows, out) && e in out
    requires forall r | r in rows :: RowOk(r.prefix, r.scopeType, r.serviceId, r.expiresAt, now)
    ensures r.prefix.Some? && CidrAccepted(env, e, now) && e.cidr == Feed.PrefixText(r.prefix.value)
    ensures e.action == ACTION_DROP
    ensures e.scope == SCOPE_SERVICE || (e.scope == SCOPE_GLOBAL && e.serviceId == 0)
  {
    var i :| FirstBest(rows, BlacklistKey(), BlacklistRank(), i) && e == BlacklistEntry()(rows[i]);
    r := rows[i];
    BuiltEntry(env, e, r.prefix, r.scopeType, r.serviceId, now);
  }

  lemma UdpListAccepted(rows: seq<UdpRow>, out: seq<UdpBlock>, now: u64)
    requires IsUdpList(rows, out)
    requires forall r | r in rows :: !Expired(r.expiresAt, now) && (r.scopeType == SERVICE ==> r.serviceId != 0)
    ensures forall u | u in out :: UdpAccepted(u, now)
    ensures Distinct(out, (u: UdpBlock) => UdpMapEntry(u).Key())
  {
    forall u | u in out
      ensures UdpAccepted(u, now)
    {
      UdpOrigin(rows, out, u, now);
    }
    forall i, j | 0 <= i < j < |out|
      ensures UdpMapEntry(out[i]).Key() != UdpMapEntry(out[j]).Key()
    {
      UdpOrigin(rows, out, out[i], now);
      UdpOrigin(rows, out, out[j], now);
      if UdpMapEntry(out[i]).Key() == UdpMapEntry(out[j]).Key() {
        PicksOnePerKey(rows, UdpKey(), UdpRank(), UdpEntry(), UdpListKey(), out, out[i], out[j]);
      }
    }
  }

  lemma UdpOrigin(rows: seq<UdpRow>, out: seq<UdpBlock>, u: UdpBlock, now: u64)
    requires IsUdpList(rows, out) && u in out
    requires forall r | r in rows :: !Expired(r.expiresAt, now) && (r.scopeType == SERVICE ==> r.serviceId != 0)
    ensures UdpAccepted(u, now) && (u.scope == SCOPE_SERVICE || (u.scope == SCOPE_GLOBAL && u.serviceId == 0))
  {
    var i :| FirstBest(rows, UdpKey(), UdpRank(), i) && u == UdpEntry()(rows[i]);
    assert rows[i] in rows;
  }

  // ---------- default rules ----------

  /** The service a rule competes for: 0 is every service without rules of its own; rules without an id
      do not compete. */
  function RuleOwner(): (f: Rule -> int) {
    (r: Rule) => if r.ruleId == 0 then -1 else r.serviceId
  }

  /** The rule kept for an owner, if any competes. */
  ghost predicate DefaultRule(rules: seq<Rule>, owner: int, r: Rule) {
    Kept(rules, RuleOwner(), RuleRank(), owner, r)
  }

  ghost predicate HasRule(rules: seq<Rule>, owner: int) {
    exists r | r in rules :: RuleOwner()(r) == owner
  }

  /** What assignDefaultRules makes of one service: its own best rule, else the best global one, else what
      it had. */
  ghost predicate Defaulted(rules: seq<Rule>, s: Service, t: Service) {
    if s.serviceId != 0 && HasRule(rules, s.serviceId) then
      exists r :: DefaultRule(rules, s.serviceId, r) && t == s.(defaultRuleId := r.ruleId)
    else if HasRule(rules, 0) then
      exists r :: DefaultRule(rules, 0, r) && t == s.(defaultRuleId := r.ruleId)
    else t == s
  }

  lemma KeptHasRule(rules: seq<Rule>, m: map<int, Rule>, owner: int)
    requires Selected(rules, RuleOwner(), RuleRank(), m)
    ensures owner in m <==> HasRule(rules, owner)
    ensures owner in m ==> DefaultRule(rules, owner, m[owner]) && RuleOwner()(m[owner]) == owner
  {
    if owner in m {
      assert Kept(rules, RuleOwner(), RuleRank(), owner, m[owner]);
    }
  }

  /** The global candidate and the per-service candidates are one selection. */
  ghost predicate Candidates(m: map<int, Rule>, global: Option<Rule>, byService: map<u32, Rule>) {
    && (global.Some? <==> 0 in m) && (global.Some? ==> global.value == m[0])
    && (forall k: u32 | k != 0 :: k in byService <==> k in m)
    && 0 !in byService && (forall k | k in byService :: k in m && byService[k] == m[k])
  }

  function NextGlobal(global: Option<Rule>, rule: Rule): (r: Option<Rule>) {
    if rule.ruleId != 0 && rule.serviceId == 0 && (global.None? || RulePreferred(rule, global.value)) then Some(rule)
    else global
  }

  function NextByService(byService: map<u32, Rule>, rule: Rule): (r: map<u32, Rule>) {
    var id := rule.serviceId;
    if rule.ruleId == 0 || id == 0 then byService
    else if id !in byService || RulePreferred(rule, byService[id]) then byService[id := rule]
    else byService
  }

  lemma CandidatesKept(m: map<int, Rule>, global: Option<Rule>, byService: map<u32, Rule>, rule: Rule)
    requires Candidates(m, global, byService)
    ensures Candidates(
      Consider(m, RuleOwner(), RuleRank(), rule), NextGlobal(global, rule), NextByService(byService, rule))
  {
    var owner := RuleOwner()(rule);
    if owner in m {
      RulesOrdered(rule, m[owner]);
    }
  }

  /** The first loop of assignDefaultRules. */
  method BestRules(rules: seq<Rule>) returns (global: Option<Rule>, byService: map<u32, Rule>, ghost m: map<int, Rule>)
    ensures Selected(rules, RuleOwner(), RuleRank(), m) && Candidates(m, global, byService)
    ensures exists n :: Selected(rules, RuleOwner(), RuleRank(), n) && Candidates(n, global, byService)
  {
    global, byService, m := None, map[], map[];
    for i := 0 to |rules|
      invariant Selected(rules[..i], RuleOwner(), RuleRank(), m) && Candidates(m, global, byService)
    {
      var rule := rules[i];
      assert rules[..i + 1] == rules[..i] + [rule];
      ConsiderKeeps(rules[..i], RuleOwner(), RuleRank(), m, rule);
      CandidatesKept(m, global, byService, rule);
      m := Consider(m, RuleOwner(), RuleRank(), rule);
      if rule.ruleId == 0 {
        continue;
      }
      if rule.serviceId == 0 {
        if global.None? || RulePreferred(rule, global.value) {
          global := Some(rule);
        }
        continue;
      }
      if rule.serviceId !in byService || RulePreferred(rule, byService[rule.serviceId]) {
        byService := byService[rule.serviceId := rule];
      }
    }
    assert rules[..|rules|] == rules;
  }

  function ChooseRule(global: Option<Rule>, byService: map<u32, Rule>, s: Service): (t: Service) {
    if s.serviceId in byService then s.(defaultRuleId := byService[s.serviceId].ruleId)
    else if global.Some? then s.(defaultRuleId := global.value.ruleId)
    else s
  }

  lemma DefaultChosen(rules: seq<Rule>, m: map<int, Rule>, global: Option<Rule>, byService: map<u32, Rule>, s: Service)
    requires Selected(rules, RuleOwner(), RuleRank(), m) && Candidates(m, global, byService)
    ensures Defaulted(rules, s, ChooseRule(global, byService, s))
  {
    KeptHasRule(rules, m, s.serviceId);
    KeptHasRule(rules, m, 0);
  }

  /** The second loop of assignDefaultRules. */
  method WriteRules(services: array<Service>, global: Option<Rule>, byService: map<u32, Rule>)
    modifies services
    ensures forall i | 0 <= i < services.Length :: services[i] == ChooseRule(global, byService, old(services[i]))
  {
    for i := 0 to services.Length
      invariant forall j | 0 <= j < i :: services[j] == ChooseRule(global, byService, old(services[j]))
      invariant forall j | i <= j < services.Length :: services[j] == old(services[j])
    {
      var s := services[i];
      if s.serviceId in byService {
        services[i] := s.(defaultRuleId := byService[s.serviceId].ruleId);
      } else if global.Some? {
        services[i] := s.(defaultRuleId := global.value.ruleId);
      }
    }
  }

  /** assignDefaultRules, in place. */
  method AssignDefaultRules(services: array<Service>, rules: seq<Rule>)
    modifies services
    ensures forall i | 0 <= i < services.Length :: Defaulted(rules, old(services[i]), services[i])
  {
    var global, byService, m := BestRules(rules);
    WriteRules(services, global, byService);
    forall i | 0 <= i < services.Length
      ensures Defaulted(rules, old(services[i]), services[i])
    {
      DefaultChosen(rules, m, global, byService, old(services[i]));
    }
  }

  lemma DefaultRuleUnique(rules: seq<Rule>, other: seq<Rule>, owner: int, r: Rule, q: Rule)
    requires multiset(rules) == multiset(other)
    requires forall x, y | x in rules && y in rules :: x.ruleId == y.ruleId ==> x == y
    requires DefaultRule(rules, owner, r) && DefaultRule(other, owner, q)
    ensures r == q
  {
    forall x, y | x in rules && y in rules && RuleRank()(x) == RuleRank()(y)
      ensures x == y
    {
      assert RuleRank()(x)[2] == RuleRank()(y)[2];
    }
    var i :| FirstBest(rules, RuleOwner(), RuleRank(), i) && RuleOwner()(rules[i]) == owner && rules[i] == r;
    var j :| FirstBest(other, RuleOwner(), RuleRank(), j) && RuleOwner()(other[j]) == owner && other[j] == q;
    KeptAnyOrder(rules, other, RuleOwner(), RuleRank(), i, j);
  }

  lemma HasRuleAnyOrder(rules: seq<Rule>, other: seq<Rule>, owner: int)
    requires multiset(rules) == multiset(other)
    ensures HasRule(rules, owner) == HasRule(other, owner)
  {
    Sorting.SameMembers(rules, other);
  }

  /** The default rule of a service does not depend on the order of the rules. */
  lemma DefaultsAnyOrder(rules: seq<Rule>, other: seq<Rule>, s: Service, t: Service, u: Service)
    requires multiset(rules) == multiset(other)
    requires forall x, y | x in rules && y in rules :: x.ruleId == y.ruleId ==> x == y
    requires Defaulted(rules, s, t) && Defaulted(other, s, u)
    ensures t == u
  {
    HasRuleAnyOrder(rules, other, s.serviceId);
    HasRuleAnyOrder(rules, other, 0);
    var owner := if s.serviceId != 0 && HasRule(rules, s.serviceId) then s.serviceId else 0;
    if HasRule(rules, owner) {
      var r :| DefaultRule(rules, owner, r) && t == s.(defaultRuleId := r.ruleId);
      var q :| DefaultRule(other, owner, q) && u == s.(defaultRuleId := q.ruleId);
      DefaultRuleUnique(rules, other, owner, r, q);
    }
  }
}
