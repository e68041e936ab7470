/** What aggregation keeps: coverage, attributes, the canonical form, and the whitelist. */
module FeedMeaning {
  import opened Words
  import opened Ipv4
  import opened Feed

  // ---------- coverage ----------

  lemma StepCovers(s: seq<Entry>, whitelist: seq<Whitelist>, t: seq<Entry>, a: u32)
    requires MergeStep(s, whitelist, t)
    ensures Covered(t, a) <==> Covered(s, a)
  {
    var left, right :| Mergeable(s, whitelist, left, right) && Merges(s, t, left, right);
    ParentSplits(left.cidr, a);
    assert Raise(left) in t;
    if Covered(s, a) {
      var e :| e in s && Contains(e.cidr, a);
      assert e.cidr == left.cidr || e.cidr == right.cidr || e in t;
    }
    if Covered(t, a) {
      var e :| e in t && Contains(e.cidr, a);
      assert e in s || e == Raise(left);
    }
  }

  lemma {:induction false} RunCovers(run: seq<seq<Entry>>, whitelist: seq<Whitelist>, n: nat, a: u32)
    requires IsMergeRun(run, whitelist) && n < |run|
    ensures Covered(run[n], a) <==> Covered(run[0], a)
  {
    if n > 0 {
      RunCovers(run, whitelist, n - 1, a);
      StepCovers(run[n - 1], whitelist, run[n], a);
    }
  }

  lemma DedupeCovers(entries: seq<Entry>, first: seq<Entry>, a: u32)
    requires forall e :: e in first <==> FirstOfKey(entries, e)
    ensures Covered(first, a) <==> Covered(entries, a)
  {
    if Covered(entries, a) {
      var i :| 0 <= i < |entries| && Contains(entries[i].cidr, a);
      SomeFirst(entries, i);
      var e :| FirstOfKey(entries, e) && KeyOf(e) == KeyOf(entries[i]);
      assert e in first;
    }
  }

  /** Aggregation never gains or loses an address, for any input and any whitelist. */
  lemma AggregationCovers(entries: seq<Entry>, whitelist: seq<Whitelist>, run: seq<seq<Entry>>, out: seq<Entry>, a: u32)
    requires Aggregated(entries, whitelist, run, out)
    ensures Covered(out, a) <==> Covered(entries, a)
  {
    DedupeCovers(entries, run[0], a);
    RunCovers(run, whitelist, |run| - 1, a);
  }

  /** Every merge shortens the list, so a run has fewer merges than entries. */
  lemma {:induction false} RunShrinks(run: seq<seq<Entry>>, whitelist: seq<Whitelist>, n: nat)
    requires IsMergeRun(run, whitelist) && n < |run|
    ensures |run[n]| + n <= |run[0]|
  {
    if n > 0 {
      RunShrinks(run, whitelist, n - 1);
      assert MergeStep(run[n - 1], whitelist, run[n]);
    }
  }

  // ---------- attributes ----------

  lemma StepDisjoint(s: seq<Entry>, whitelist: seq<Whitelist>, t: seq<Entry>)
    requires MergeStep(s, whitelist, t) && Disjoint(s)
    ensures Disjoint(t)
  {
    var left, right :| Mergeable(s, whitelist, left, right) && Merges(s, t, left, right);
    forall e | e in t && e != Raise(left)
      ensures !Intersects(e.cidr, Raise(left).cidr)
    {
      forall a: u32 | Contains(e.cidr, a)
        ensures !Contains(Raise(left).cidr, a)
      {
        ParentSplits(left.cidr, a);
      }
    }
    forall e, f | e in t && f in t && e != f
      ensures !Intersects(e.cidr, f.cidr)
    {
      if f == Raise(left) {
        assert !Intersects(e.cidr, Raise(left).cidr);
      } else if e == Raise(left) {
        assert !Intersects(f.cidr, Raise(left).cidr);
      } else {
        assert e in s && f in s;
      }
    }
  }

  /** A listed entry with the prefix of another one is that one. */
  lemma OnlyEntry(s: seq<Entry>, e: Entry, f: Entry)
    requires Disjoint(s) && e in s && f in s && e.cidr == f.cidr
    ensures e == f
  {
    ContainsBase(e.cidr);
  }

  lemma StepSays(s: seq<Entry>, whitelist: seq<Whitelist>, t: seq<Entry>, a: u32)
    requires MergeStep(s, whitelist, t) && Disjoint(s)
    ensures Says(t, a) == Says(s, a)
  {
    var left, right :| Mergeable(s, whitelist, left, right) && Merges(s, t, left, right);
    var raised := Raise(left);
    ParentSplits(left.cidr, a);
    assert raised in t;
    assert AttributesOf(raised) == AttributesOf(left) == AttributesOf(right);
    forall e | e in s && Contains(e.cidr, a)
      ensures AttributesOf(e) in Says(t, a)
    {
      if e.cidr == left.cidr {
        OnlyEntry(s, e, left);
      } else if e.cidr == right.cidr {
        OnlyEntry(s, e, right);
      } else {
        assert e in t;
      }
    }
    forall e | e in t && Contains(e.cidr, a)
      ensures AttributesOf(e) in Says(s, a)
    {
      if e == raised {
        assert (left in s && Contains(left.cidr, a)) || (right in s && Contains(right.cidr, a));
      } else {
        assert e in s;
      }
    }
  }

  /** The entry stands for one of the two halves that a merge replaces. */
  predicate Replaced(e: Entry, left: Entry, right: Entry) {
    e.cidr == left.cidr || e.cidr == right.cidr
  }

  /** What e says about a survives the merge: e agrees with the merged pair, or an entry that stays says it. */
  ghost predicate StillSaid(s: seq<Entry>, left: Entry, right: Entry, e: Entry, a: u32) {
    MergeCompatible(e, left) || exists f ::
      f in s && !Replaced(f, left, right) && Contains(f.cidr, a) && AttributesOf(f) == AttributesOf(e)
  }

  /** When entries overlap a merge can lose attributes: it keeps what is said about an address exactly when
      every replaced entry over that address agrees with the merged pair or is repeated by one that stays. */
  lemma MergeSaysExact(s: seq<Entry>, whitelist: seq<Whitelist>, t: seq<Entry>, left: Entry, right: Entry, a: u32)
    requires Mergeable(s, whitelist, left, right) && Merges(s, t, left, right)
    ensures Says(t, a) == Says(s, a) <==>
      forall e | e in s && Replaced(e, left, right) && Contains(e.cidr, a) :: StillSaid(s, left, right, e, a)
  {
    var raised := Raise(left);
    ParentSplits(left.cidr, a);
    assert raised in t && AttributesOf(raised) == AttributesOf(left) == AttributesOf(right);
    forall e | e in t && Contains(e.cidr, a)
      ensures AttributesOf(e) in Says(s, a)
    {
      if e == raised {
        assert (left in s && Contains(left.cidr, a)) || (right in s && Contains(right.cidr, a));
      }
    }
    forall e | e in s && Replaced(e, left, right) && Contains(e.cidr, a)
      ensures AttributesOf(e) in Says(t, a) <==> StillSaid(s, left, right, e, a)
    {
      assert MergeCompatible(e, left) <==> AttributesOf(e) == AttributesOf(raised);
    }
    assert Says(t, a) <= Says(s, a);
    forall e | e in s && !Replaced(e, left, right) && Contains(e.cidr, a)
      ensures AttributesOf(e) in Says(t, a)
    {
      assert e in t;
    }
  }

  /** Two entries for one half that disagree: merging the other half with one of them loses the other. */
  lemma TwinLosesAttributes(left: Entry, right: Entry, twin: Entry, t: seq<Entry>)
    requires Siblings(left, right) && MergeCompatible(left, right) && twin.cidr == right.cidr
    requires !MergeCompatible(twin, left)
    requires Merges([left, right, twin], t, left, right)
    ensures
      var a := twin.cidr.addr;
      AttributesOf(twin) in Says([left, right, twin], a) && AttributesOf(twin) !in Says(t, a)
  {
    ContainsBase(twin.cidr);
  }

  lemma {:induction false} RunSays(run: seq<seq<Entry>>, whitelist: seq<Whitelist>, n: nat, a: u32)
    requires IsMergeRun(run, whitelist) && n < |run| && Disjoint(run[0])
    ensures Disjoint(run[n]) && Says(run[n], a) == Says(run[0], a)
  {
    if n > 0 {
      RunSays(run, whitelist, n - 1, a);
      StepDisjoint(run[n - 1], whitelist, run[n]);
      StepSays(run[n - 1], whitelist, run[n], a);
    }
  }

  /** Removing duplicates changes nothing when entries are disjoint. */
  lemma DedupeKeepsDisjoint(entries: seq<Entry>, first: seq<Entry>)
    requires Disjoint(entries)
    requires forall e :: e in first <==> FirstOfKey(entries, e)
    ensures forall e :: e in first <==> e in entries
  {
    forall i | 0 <= i < |entries|
      ensures entries[i] in first
    {
      SomeFirst(entries, i);
      var e :| FirstOfKey(entries, e) && KeyOf(e) == KeyOf(entries[i]);
      OnlyEntry(entries, e, entries[i]);
    }
  }

  /** For disjoint entries, every address keeps its action, score, time to live and reason. */
  lemma AggregationSays(entries: seq<Entry>, whitelist: seq<Whitelist>, run: seq<seq<Entry>>, out: seq<Entry>, a: u32)
    requires Aggregated(entries, whitelist, run, out) && Disjoint(entries)
    ensures Disjoint(out) && Says(out, a) == Says(entries, a)
  {
    DedupeKeepsDisjoint(entries, run[0]);
    RunSays(run, whitelist, |run| - 1, a);
    SaysRearranged(entries, run[0], a);
    SaysRearranged(run[|run| - 1], out, a);
  }

  lemma SaysRearranged(s: seq<Entry>, t: seq<Entry>, a: u32)
    requires forall e :: e in s <==> e in t
    ensures Says(s, a) == Says(t, a)
  {
  }

  // ---------- canonical form ----------

  ghost predicate InsideCover(s: seq<Entry>, p: Prefix) {
    forall a: u32 :: Contains(p, a) ==> Covered(s, a)
  }

  /** p lies in the covered set and no larger prefix around it does. */
  ghost predicate Maximal(s: seq<Entry>, p: Prefix) {
    InsideCover(s, p) && forall q: Prefix | Includes(q, p) && InsideCover(s, q) :: q == p
  }

  ghost predicate Listed(s: seq<Entry>, p: Prefix) {
    exists e :: e in s && e.cidr == p
  }

  ghost predicate SiblingFree(s: seq<Entry>) {
    forall l, r | l in s && r in s :: !Siblings(l, r)
  }

  lemma {:induction false} RunUniform(run: seq<seq<Entry>>, whitelist: seq<Whitelist>, n: nat)
    requires IsMergeRun(run, whitelist) && n < |run| && Uniform(run[0])
    ensures Uniform(run[n])
  {
    if n > 0 {
      RunUniform(run, whitelist, n - 1);
      var s := run[n - 1];
      assert MergeStep(s, whitelist, run[n]);
      var left, right :| Mergeable(s, whitelist, left, right) && Merges(s, run[n], left, right);
      forall e | e in run[n]
        ensures MergeCompatible(e, left)
      {
        assert e in s || e == Raise(left);
      }
    }
  }

  /** With uniform attributes only the whitelist keeps siblings apart: any sibling pair left over
      has a parent that holds a whitelisted base address. */
  lemma AggregationSiblings(
    entries: seq<Entry>, whitelist: seq<Whitelist>, run: seq<seq<Entry>>, out: seq<Entry>, left: Entry, right: Entry)
    requires Aggregated(entries, whitelist, run, out) && Uniform(entries)
    requires left in out && right in out && Siblings(left, right)
    ensures ContainsAnyWhitelist(Parent(left.cidr).value, whitelist)
  {
    assert Uniform(run[0]) by {
      assert forall e | e in run[0] :: FirstOfKey(entries, e) && e in entries;
    }
    RunUniform(run, whitelist, |run| - 1);
    assert Uniform(out);
  }

  function LowHalf(p: Prefix): (r: Prefix)
    requires p.bits < 32
    ensures r.bits == p.bits + 1 && Parent(r) == Some(p)
  {
    var m := Pow2(31 - p.bits);
    assert p.addr % (2 * m) == 0;
    var q := p.addr / (2 * m);
    assert p.addr == (q * 2) * m;
    MulDiv(q * 2, m);
    var r := Net(p.addr, p.bits + 1);
    SamePrefix(Parent(r).value, p);
    r
  }

  /** In a sibling-free list, a prefix that is covered at all is covered by a single entry. */
  lemma {:induction false} OneEntryCovers(s: seq<Entry>, q: Prefix)
    requires SiblingFree(s) && InsideCover(s, q)
    ensures exists e :: e in s && Includes(e.cidr, q)
    decreases 32 - q.bits
  {
    if q.bits == 32 {
      ContainsBase(q);
      assert Covered(s, q.addr);
      var e :| e in s && Contains(e.cidr, q.addr);
      Nested(e.cidr, q, q.addr);
    } else {
      var low := LowHalf(q);
      var high := Sibling(low).value;
      forall a: u32
        ensures Contains(q, a) <==> Contains(low, a) || Contains(high, a)
      {
        ParentSplits(low, a);
      }
      OneEntryCovers(s, low);
      OneEntryCovers(s, high);
      var l :| l in s && Includes(l.cidr, low);
      var h :| h in s && Includes(h.cidr, high);
      HalvesMeet(s, q, low, high, l, h);
    }
  }

  lemma HalvesMeet(s: seq<Entry>, q: Prefix, low: Prefix, high: Prefix, l: Entry, h: Entry)
    requires SiblingFree(s) && q.bits < 32 && low == LowHalf(q) && high == Sibling(low).value
    requires l in s && Includes(l.cidr, low) && h in s && Includes(h.cidr, high)
    ensures Includes(l.cidr, q) || Includes(h.cidr, q)
  {
    SiblingSharesParent(low);
    if l.cidr.bits < low.bits {
      IncludesParent(l.cidr, low);
    } else if h.cidr.bits < high.bits {
      IncludesParent(h.cidr, high);
    } else {
      IncludedIsEqual(l.cidr, low);
      IncludedIsEqual(h.cidr, high);
      assert Siblings(l, h);
    }
  }

  /** A prefix of at least q's length that includes q is q. */
  lemma IncludedIsEqual(p: Prefix, q: Prefix)
    requires p.bits >= q.bits && Includes(p, q)
    ensures p == q
  {
    ContainsBase(q);
    if p.bits == q.bits {
      SameLengthEqual(p, q, q.addr);
    } else {
      Nested(q, p, q.addr);
      var b := FlipBit(q.addr, 32 - p.bits);
      var k := 32 - p.bits;
      IndexUp(q.addr, k);
      IndexUp(b, k);
      IndexCoarser(q.addr, b, k + 1, 32 - q.bits);
      assert Contains(q, b);
    }
  }

  /** Every maximal prefix is listed, disjoint or not. */
  lemma MaximalListed(s: seq<Entry>, p: Prefix)
    requires SiblingFree(s) && Maximal(s, p)
    ensures Listed(s, p)
  {
    OneEntryCovers(s, p);
    var e :| e in s && Includes(e.cidr, p);
    assert InsideCover(s, e.cidr);
  }

  lemma ListedMaximal(s: seq<Entry>, p: Prefix)
    requires SiblingFree(s) && Disjoint(s) && Listed(s, p)
    ensures Maximal(s, p)
  {
    var e :| e in s && e.cidr == p;
    forall q: Prefix | Includes(q, p) && InsideCover(s, q)
      ensures q == p
    {
      OneEntryCovers(s, q);
      var f :| f in s && Includes(f.cidr, q);
      ContainsBase(p);
      assert Contains(f.cidr, p.addr) && Contains(e.cidr, p.addr);
      assert f == e;
      assert Includes(p, q);
      if q.bits <= p.bits {
        IncludedIsEqual(p, q);
      } else {
        IncludedIsEqual(q, p);
      }
    }
  }

  lemma CoverDecidesMaximal(s: seq<Entry>, t: seq<Entry>, p: Prefix)
    requires forall a: u32 :: Covered(s, a) <==> Covered(t, a)
    ensures Maximal(s, p) <==> Maximal(t, p)
  {
    assert forall q: Prefix :: InsideCover(s, q) <==> InsideCover(t, q);
  }

  /** Canonical form: uniform, disjoint entries and no whitelist aggregate to exactly the maximal
      prefixes of the covered set. */
  lemma AggregationCanonical(entries: seq<Entry>, run: seq<seq<Entry>>, out: seq<Entry>, p: Prefix)
    requires Aggregated(entries, [], run, out) && Uniform(entries) && Disjoint(entries)
    ensures Listed(out, p) <==> Maximal(entries, p)
  {
    forall l, r | l in out && r in out
      ensures !Siblings(l, r)
    {
      if Siblings(l, r) {
        AggregationSiblings(entries, [], run, out, l, r);
      }
    }
    forall a: u32
      ensures Covered(entries, a) <==> Covered(out, a)
    {
      AggregationCovers(entries, [], run, out, a);
    }
    CoverDecidesMaximal(entries, out, p);
    AggregationSays(entries, [], run, out, 0);
    if Listed(out, p) {
      ListedMaximal(out, p);
    }
    if Maximal(out, p) {
      MaximalListed(out, p);
    }
  }

  /** Hence the result depends only on the covered set: neither the input order, nor how the set
      was cut into prefixes, nor the merge order matters. */
  lemma AggregationConfluent(
      entries: seq<Entry>, run: seq<seq<Entry>>, out: seq<Entry>,
      entries': seq<Entry>, run': seq<seq<Entry>>, out': seq<Entry>, p: Prefix)
    requires Aggregated(entries, [], run, out) && Uniform(entries) && Disjoint(entries)
    requires Aggregated(entries', [], run', out') && Uniform(entries') && Disjoint(entries')
    requires forall a: u32 :: Covered(entries, a) <==> Covered(entries', a)
    ensures Listed(out, p) <==> Listed(out', p)
  {
    AggregationCanonical(entries, run, out, p);
    AggregationCanonical(entries', run', out', p);
    CoverDecidesMaximal(entries, entries', p);
  }

  // ---------- whitelist ----------

  lemma {:induction false} RunSparesWhitelist(run: seq<seq<Entry>>, whitelist: seq<Whitelist>, n: nat, e: Entry)
    requires IsMergeRun(run, whitelist) && n < |run| && e in run[n]
    ensures Listed(run[0], e.cidr) || !ContainsAnyWhitelist(e.cidr, whitelist)
  {
    if n > 0 {
      assert MergeStep(run[n - 1], whitelist, run[n]);
      if e in run[n - 1] {
        RunSparesWhitelist(run, whitelist, n - 1, e);
      }
    }
  }

  /** No prefix made by merging includes a whitelisted prefix. */
  lemma AggregationSparesWhitelist(
    entries: seq<Entry>, whitelist: seq<Whitelist>, run: seq<seq<Entry>>, out: seq<Entry>, e: Entry, w: Whitelist)
    requires Aggregated(entries, whitelist, run, out)
    requires e in out && !Listed(entries, e.cidr) && w in whitelist
    ensures !Includes(e.cidr, w.prefix)
  {
    RunSparesWhitelist(run, whitelist, |run| - 1, e);
    assert forall f | f in run[0] :: FirstOfKey(entries, f) && f in entries;
    ContainsBase(w.prefix);
  }
}
