/** Threat-feed aggregation: removing duplicates and merging sibling prefixes until none can be merged. */
module Feed {
  import opened Words
  import opened Ipv4
  import Selection
  import Sorting

  datatype Entry = Entry(cidr: Prefix, score: u32, action: string, ttl: u32, reason: string, metadata: string)

  datatype Whitelist = Whitelist(id: string, owner: string, prefix: Prefix)

  datatype ConflictMatch = ConflictMatch(id: string, owner: string)

  /** What a feed entry says about the addresses it covers. */
  datatype Attributes = Attributes(action: string, score: u32, ttl: u32, reason: string)

  function AttributesOf(e: Entry): (r: Attributes) {
    Attributes(e.action, e.score, e.ttl, e.reason)
  }

  predicate MergeCompatible(a: Entry, b: Entry) {
    a.action == b.action && a.score == b.score && a.ttl == b.ttl && a.reason == b.reason
  }

  // ---------- whitelist tests ----------

  predicate PrefixesOverlap(a: Prefix, b: Prefix) {
    Contains(a, b.addr) || Contains(b, a.addr)
  }

  /** Testing base addresses is enough: masked prefixes that meet are nested. */
  lemma OverlapIsIntersection(a: Prefix, b: Prefix)
    ensures PrefixesOverlap(a, b) <==> Intersects(a, b)
  {
    ContainsBase(a);
    ContainsBase(b);
    if Intersects(a, b) {
      var x: u32 :| Contains(a, x) && Contains(b, x);
      if a.bits <= b.bits {
        Nested(a, b, x);
      } else {
        Nested(b, a, x);
      }
    }
  }

  predicate ContainsAnyWhitelist(p: Prefix, whitelist: seq<Whitelist>) {
    exists w :: w in whitelist && Contains(p, w.prefix.addr)
  }

  /** The whitelist entries that share an address with p, in list order. */
  ghost function Conflicts(p: Prefix, whitelist: seq<Whitelist>): (r: seq<ConflictMatch>) {
    if whitelist == [] then []
    else
      var n := |whitelist| - 1;
      var w := whitelist[n];
      Conflicts(p, whitelist[..n]) + if Intersects(p, w.prefix) then [ConflictMatch(w.id, w.owner)] else []
  }

  method MatchingWhitelists(p: Prefix, whitelist: seq<Whitelist>) returns (out: seq<ConflictMatch>)
    ensures out == Conflicts(p, whitelist)
  {
    out := [];
    for i := 0 to |whitelist|
      invariant out == Conflicts(p, whitelist[..i])
    {
      var item := whitelist[i];
      OverlapIsIntersection(p, item.prefix);
      assert whitelist[..i + 1][..i] == whitelist[..i];
      if PrefixesOverlap(p, item.prefix) {
        out := out + [ConflictMatch(item.id, item.owner)];
      }
    }
    assert whitelist[..|whitelist|] == whitelist;
  }

  // ---------- meaning of an entry list ----------

  ghost predicate Covered(s: seq<Entry>, a: u32) {
    exists e :: e in s && Contains(e.cidr, a)
  }

  /** Everything the list says about one address. */
  ghost function Says(s: seq<Entry>, a: u32): (r: set<Attributes>) {
    set e | e in s && Contains(e.cidr, a) :: AttributesOf(e)
  }

  /** Different entries cover different addresses. */
  ghost predicate Disjoint(s: seq<Entry>) {
    forall e, f | e in s && f in s && e != f :: !Intersects(e.cidr, f.cidr)
  }

  ghost predicate Uniform(s: seq<Entry>) {
    forall e, f | e in s && f in s :: MergeCompatible(e, f)
  }

  ghost predicate SameEntries(s: seq<Entry>, t: seq<Entry>) {
    |s| == |t| && forall e :: e in s <==> e in t
  }

  // ---------- deduplication ----------

  datatype DedupKey = DedupKey(cidr: Prefix, action: string, score: u32, ttl: u32)

  function KeyOf(e: Entry): (r: DedupKey) {
    DedupKey(e.cidr, e.action, e.score, e.ttl)
  }

  /** e stands in s before every other entry with its key. */
  ghost predicate FirstOfKey(s: seq<Entry>, e: Entry) {
    exists i :: 0 <= i < |s| && s[i] == e && forall j | 0 <= j < i :: KeyOf(s[j]) != KeyOf(e)
  }

  lemma {:induction false} SomeFirst(s: seq<Entry>, i: nat)
    requires i < |s|
    ensures exists e :: FirstOfKey(s, e) && KeyOf(e) == KeyOf(s[i])
  {
    if j :| 0 <= j < i && KeyOf(s[j]) == KeyOf(s[i]) {
      SomeFirst(s, j);
    } else {
      assert FirstOfKey(s, s[i]);
    }
  }

  function Decimal(n: nat): (r: string) {
    var digit := [('0' as int + n % 10) as char];
    if n < 10 then digit else Decimal(n / 10) + digit
  }

  /** netip.Prefix.String. */
  function PrefixText(p: Prefix): (r: string) {
    Decimal(p.addr / 0x100_0000) + "." + Decimal(p.addr / 0x1_0000 % 0x100) + "."
    + Decimal(p.addr / 0x100 % 0x100) + "." + Decimal(p.addr % 0x100) + "/" + Decimal(p.bits)
  }

  /** sortFeedEntries: by text, then higher score first, then shorter time to live first. */
  function FeedOrder(e: Entry): (r: Sorting.Key) {
    Sorting.Key(PrefixText(e.cidr), [0 - e.score as int, e.ttl as int])
  }

  function SortEntries(s: seq<Entry>): (r: seq<Entry>)
    ensures SameEntries(s, r) && multiset(s) == multiset(r) && Sorting.Sorted(r, FeedOrder)
  {
    var r := Sorting.Sort(s, FeedOrder);
    Sorting.SameMembers(s, r);
    Sorting.SortSorts(s, FeedOrder);
    r
  }

  method FirstByKey(entries: seq<Entry>) returns (seen: map<DedupKey, Entry>)
    ensures forall k | k in seen :: KeyOf(seen[k]) == k && FirstOfKey(entries, seen[k])
    ensures forall j | 0 <= j < |entries| :: KeyOf(entries[j]) in seen
  {
    seen := map[];
    for i := 0 to |entries|
      invariant forall k | k in seen :: KeyOf(seen[k]) == k && FirstOfKey(entries, seen[k])
      invariant forall j | 0 <= j < i :: KeyOf(entries[j]) in seen
      invariant forall k | k in seen :: exists j :: 0 <= j < i && KeyOf(entries[j]) == k
    {
      var key := KeyOf(entries[i]);
      if key !in seen {
        assert FirstOfKey(entries, entries[i]);
        seen := seen[key := entries[i]];
      }
    }
  }

  /** The values of a map, in the unspecified order of Go's map iteration. */
  method ValuesOf(seen: map<DedupKey, Entry>) returns (out: seq<Entry>)
    requires forall k | k in seen :: KeyOf(seen[k]) == k
    ensures forall e :: e in out <==> exists k :: k in seen && seen[k] == e
    ensures forall i, j | 0 <= i < j < |out| :: out[i] != out[j]
  {
    out := [];
    var keys := seen.Keys;
    while keys != {}
      invariant keys <= seen.Keys
      invariant forall e | e in out :: KeyOf(e) !in keys
      invariant forall i, j | 0 <= i < j < |out| :: out[i] != out[j]
      invariant forall e :: e in out <==> exists k :: k in seen.Keys - keys && seen[k] == e
      decreases keys
    {
      var k :| k in keys;
      keys := keys - {k};
      out := out + [seen[k]];
    }
  }

  lemma FirstUnique(entries: seq<Entry>, e: Entry, f: Entry)
    requires FirstOfKey(entries, e) && FirstOfKey(entries, f) && KeyOf(e) == KeyOf(f)
    ensures e == f
  {
  }

  method Dedupe(entries: seq<Entry>) returns (out: seq<Entry>)
    ensures forall e :: e in out <==> FirstOfKey(entries, e)
    ensures Sorting.Sorted(out, FeedOrder)
    ensures forall i, j | 0 <= i < j < |out| :: KeyOf(out[i]) != KeyOf(out[j])
  {
    var seen := FirstByKey(entries);
    var values := ValuesOf(seen);
    forall e | FirstOfKey(entries, e)
      ensures e in values
    {
      FirstUnique(entries, e, seen[KeyOf(e)]);
    }
    out := SortEntries(values);
    OncePerKey(entries, values, out);
  }

  lemma OncePerKey(entries: seq<Entry>, values: seq<Entry>, out: seq<Entry>)
    requires forall i, j | 0 <= i < j < |values| :: values[i] != values[j]
    requires multiset(values) == multiset(out) && forall e | e in out :: FirstOfKey(entries, e)
    ensures forall i, j | 0 <= i < j < |out| :: KeyOf(out[i]) != KeyOf(out[j])
  {
    forall i, j | 0 <= i < j < |out|
      ensures KeyOf(out[i]) != KeyOf(out[j])
    {
      if KeyOf(out[i]) == KeyOf(out[j]) {
        FirstUnique(entries, out[i], out[j]);
        Selection.TwiceCounted(out, i, j);
        Selection.OnceEach(values, out[i]);
      }
    }
  }

  // ---------- one merge ----------

  ghost predicate Siblings(left: Entry, right: Entry) {
    left.cidr.bits > 0 && right.cidr == Sibling(left.cidr).value
  }

  ghost predicate Mergeable(s: seq<Entry>, whitelist: seq<Whitelist>, left: Entry, right: Entry) {
    && left in s && right in s
    && Siblings(left, right)
    && MergeCompatible(left, right)
    && !ContainsAnyWhitelist(Parent(left.cidr).value, whitelist)
  }

  function Raise(left: Entry): (r: Entry)
    requires left.cidr.bits > 0
  {
    left.(cidr := Parent(left.cidr).value)
  }

  /** t is s with every entry for the two halves replaced by left, raised to the parent. */
  ghost predicate Merges(s: seq<Entry>, t: seq<Entry>, left: Entry, right: Entry)
    requires left.cidr.bits > 0
  {
    && |t| < |s|
    && forall e :: e in t <==> (e in s && e.cidr != left.cidr && e.cidr != right.cidr) || e == Raise(left)
  }

  ghost predicate MergeStep(s: seq<Entry>, whitelist: seq<Whitelist>, t: seq<Entry>) {
    exists left, right :: Mergeable(s, whitelist, left, right) && Merges(s, t, left, right)
  }

  /** Successive states of the merge loop, in any merge order. */
  ghost predicate IsMergeRun(run: seq<seq<Entry>>, whitelist: seq<Whitelist>) {
    run != [] && forall i | 0 <= i < |run| - 1 :: MergeStep(run[i], whitelist, run[i + 1])
  }

  /** No merge is left: each entry whose sibling is listed meets an incompatible one there,
      or the parent would hold a whitelisted base address. */
  ghost predicate Stuck(s: seq<Entry>, whitelist: seq<Whitelist>) {
    forall left, right | left in s && right in s && Siblings(left, right) ::
      ContainsAnyWhitelist(Parent(left.cidr).value, whitelist) || Opposed(s, left, right.cidr)
  }

  ghost predicate Opposed(s: seq<Entry>, left: Entry, p: Prefix) {
    exists r :: r in s && r.cidr == p && !MergeCompatible(left, r)
  }

  // ---------- the aggregation loop ----------

  method DropPair(current: seq<Entry>, p: Prefix, q: Prefix) returns (next: seq<Entry>)
    ensures forall e :: e in next <==> e in current && e.cidr != p && e.cidr != q
    ensures |next| + Count(current, p, q) == |current|
  {
    next := [];
    for i := 0 to |current|
      invariant forall e :: e in next <==> e in current[..i] && e.cidr != p && e.cidr != q
      invariant |next| + Count(current[..i], p, q) == i
    {
      assert current[..i + 1] == current[..i] + [current[i]];
      assert current[..i + 1][..i] == current[..i];
      if current[i].cidr != p && current[i].cidr != q {
        next := next + [current[i]];
      }
    }
    assert current[..|current|] == current;
  }

  ghost function Count(s: seq<Entry>, p: Prefix, q: Prefix): (r: nat) {
    if s == [] then 0
    else
      var e := s[|s| - 1];
      Count(s[..|s| - 1], p, q) + if e.cidr == p || e.cidr == q then 1 else 0
  }

  lemma {:induction false} CountTwo(s: seq<Entry>, p: Prefix, q: Prefix, i: nat, j: nat)
    requires i < j < |s|
    requires s[i].cidr == p || s[i].cidr == q
    requires s[j].cidr == p || s[j].cidr == q
    ensures Count(s, p, q) >= 2
  {
    var t := s[..|s| - 1];
    if j == |s| - 1 {
      CountOne(t, p, q, i);
    } else {
      CountTwo(t, p, q, i, j);
    }
  }

  lemma {:induction false} CountOne(s: seq<Entry>, p: Prefix, q: Prefix, i: nat)
    requires i < |s| && (s[i].cidr == p || s[i].cidr == q)
    ensures Count(s, p, q) >= 1
  {
    if i < |s| - 1 {
      CountOne(s[..|s| - 1], p, q, i);
    }
  }

  method IndexByPrefix(current: seq<Entry>) returns (byPrefix: map<Prefix, Entry>)
    ensures forall p | p in byPrefix :: byPrefix[p] in current && byPrefix[p].cidr == p
    ensures forall e | e in current :: e.cidr in byPrefix
  {
    byPrefix := map[];
    for i := 0 to |current|
      invariant forall p | p in byPrefix :: byPrefix[p] in current && byPrefix[p].cidr == p
      invariant forall j | 0 <= j < i :: current[j].cidr in byPrefix
    {
      byPrefix := byPrefix[current[i].cidr := current[i]];
    }
  }

  /** left can be merged with the entry indexed for its sibling. */
  predicate Accepts(byPrefix: map<Prefix, Entry>, whitelist: seq<Whitelist>, left: Entry) {
    && left.cidr.bits > 0
    && Sibling(left.cidr).value in byPrefix
    && MergeCompatible(left, byPrefix[Sibling(left.cidr).value])
    && !ContainsAnyWhitelist(Parent(left.cidr).value, whitelist)
  }

  /** The first entry of one length, in list order, that can be merged; the list's length if none. */
  method ScanLength(sorted: seq<Entry>, bits: nat, byPrefix: map<Prefix, Entry>, whitelist: seq<Whitelist>)
    returns (k: nat)
    ensures k <= |sorted|
    ensures k < |sorted| ==> sorted[k].cidr.bits == bits && Accepts(byPrefix, whitelist, sorted[k])
    ensures forall j | 0 <= j < k && sorted[j].cidr.bits == bits :: !Accepts(byPrefix, whitelist, sorted[j])
  {
    k := 0;
    while k < |sorted| && !(sorted[k].cidr.bits == bits && Accepts(byPrefix, whitelist, sorted[k]))
      invariant k <= |sorted|
      invariant forall j | 0 <= j < k && sorted[j].cidr.bits == bits :: !Accepts(byPrefix, whitelist, sorted[j])
    {
      k := k + 1;
    }
  }

  /** The scan of one round: longest prefixes first, entries of one length in sorted order. */
  method FindMerge(current: seq<Entry>, byPrefix: map<Prefix, Entry>, whitelist: seq<Whitelist>)
    returns (left: Option<Entry>)
    ensures left.Some? ==> left.value in current && Accepts(byPrefix, whitelist, left.value)
    ensures left.None? ==> forall e | e in current :: !Accepts(byPrefix, whitelist, e)
  {
    left := None;
    var bits := 32;
    while bits > 0 && left.None?
      invariant 0 <= bits <= 32
      invariant left.Some? ==> left.value in current && Accepts(byPrefix, whitelist, left.value)
      invariant left.None? ==> forall e | e in current && e.cidr.bits > bits :: !Accepts(byPrefix, whitelist, e)
    {
      var sorted := SortEntries(current);
      var k := ScanLength(sorted, bits, byPrefix, whitelist);
      if k < |sorted| {
        left := Some(sorted[k]);
      }
      bits := bits - 1;
    }
  }

  /** One round of the outer loop: at most one merge. */
  method MergeRound(current: seq<Entry>, whitelist: seq<Whitelist>) returns (changed: bool, next: seq<Entry>)
    ensures changed ==> |next| < |current| && MergeStep(current, whitelist, next)
    ensures !changed ==> next == current && Stuck(current, whitelist)
  {
    var byPrefix := IndexByPrefix(current);
    var found := FindMerge(current, byPrefix, whitelist);
    if found.Some? {
      var left := found.value;
      var right := byPrefix[Sibling(left.cidr).value];
      assert Mergeable(current, whitelist, left, right);
      next := DropPair(current, left.cidr, right.cidr);
      PairCounted(current, left, right);
      next := next + [Raise(left)];
      assert Merges(current, next, left, right);
      changed := true;
    } else {
      RefusedIsStuck(current, byPrefix, whitelist);
      changed, next := false, current;
    }
  }

  /** out is a possible result of aggregating entries: remove duplicates, merge in some order
      until nothing can be merged, rearrange. */
  ghost predicate Aggregated(entries: seq<Entry>, whitelist: seq<Whitelist>, run: seq<seq<Entry>>, out: seq<Entry>) {
    && IsMergeRun(run, whitelist)
    && (forall e :: e in run[0] <==> FirstOfKey(entries, e))
    && SameEntries(run[|run| - 1], out)
    && Stuck(out, whitelist)
  }

  method Aggregate(entries: seq<Entry>, whitelist: seq<Whitelist>) returns (out: seq<Entry>, ghost run: seq<seq<Entry>>)
    ensures Aggregated(entries, whitelist, run, out)
    ensures exists r :: Aggregated(entries, whitelist, r, out)
    ensures Sorting.Sorted(out, FeedOrder)
  {
    var current := Dedupe(entries);
    run := [current];
    var changed := true;
    while changed
      invariant IsMergeRun(run, whitelist) && run[|run| - 1] == current
      invariant forall e :: e in run[0] <==> FirstOfKey(entries, e)
      invariant !changed ==> Stuck(current, whitelist)
      decreases |current|, changed
    {
      var next;
      changed, next := MergeRound(current, whitelist);
      if changed {
        run := run + [next];
        current := next;
      }
    }
    out := SortEntries(current);
    StuckRearranged(current, out, whitelist);
  }

  lemma StuckRearranged(s: seq<Entry>, t: seq<Entry>, whitelist: seq<Whitelist>)
    requires Stuck(s, whitelist) && SameEntries(s, t)
    ensures Stuck(t, whitelist)
  {
    forall left, right | left in t && right in t && Siblings(left, right)
      ensures ContainsAnyWhitelist(Parent(left.cidr).value, whitelist) || Opposed(t, left, right.cidr)
    {
      assert left in s && right in s;
      if Opposed(s, left, right.cidr) {
        var r :| r in s && r.cidr == right.cidr && !MergeCompatible(left, r);
        assert r in t;
      }
    }
  }

  lemma PairCounted(s: seq<Entry>, left: Entry, right: Entry)
    requires left in s && right in s && left.cidr != right.cidr
    ensures Count(s, left.cidr, right.cidr) >= 2
  {
    var i :| 0 <= i < |s| && s[i] == left;
    var j :| 0 <= j < |s| && s[j] == right;
    if i < j {
      CountTwo(s, left.cidr, right.cidr, i, j);
    } else {
      CountTwo(s, left.cidr, right.cidr, j, i);
    }
  }

  lemma RefusedIsStuck(s: seq<Entry>, byPrefix: map<Prefix, Entry>, whitelist: seq<Whitelist>)
    requires forall p | p in byPrefix :: byPrefix[p] in s && byPrefix[p].cidr == p
    requires forall e | e in s :: e.cidr in byPrefix
    requires forall e | e in s :: !Accepts(byPrefix, whitelist, e)
    ensures Stuck(s, whitelist)
  {
    forall left, right | left in s && right in s && Siblings(left, right)
      ensures ContainsAnyWhitelist(Parent(left.cidr).value, whitelist) || Opposed(s, left, right.cidr)
    {
      assert !Accepts(byPrefix, whitelist, left);
      assert byPrefix[right.cidr] in s;
    }
  }
}
