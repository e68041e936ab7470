/** One loop, used for every policy list: walk the rows and keep, per key, the row that is preferred. */
module Selection {
  import Sorting

  /** Row i is the one to keep for its key: nothing with that key beats it, and earlier ones lose to it. */
  ghost predicate FirstBest<T, K>(rows: seq<T>, key: T -> K, rank: T -> seq<int>, i: int) {
    && 0 <= i < |rows|
    && forall j | 0 <= j < |rows| && key(rows[j]) == key(rows[i]) ::
         !Sorting.LexLess(rank(rows[j]), rank(rows[i])) && (j < i ==> Sorting.LexLess(rank(rows[i]), rank(rows[j])))
  }

  ghost predicate Kept<T, K>(rows: seq<T>, key: T -> K, rank: T -> seq<int>, k: K, x: T) {
    exists i :: FirstBest(rows, key, rank, i) && key(rows[i]) == k && rows[i] == x
  }

  ghost predicate Selected<T, K>(rows: seq<T>, key: T -> K, rank: T -> seq<int>, m: map<K, T>) {
    && (forall j | 0 <= j < |rows| :: key(rows[j]) in m)
    && (forall k | k in m :: Kept(rows, key, rank, k, m[k]))
  }

  /** Equal keys and ranks mean the same row. */
  ghost predicate Identified<T, K>(rows: seq<T>, key: T -> K, rank: T -> seq<int>) {
    forall x, y | x in rows && y in rows :: key(x) == key(y) && rank(x) == rank(y) ==> x == y
  }

  // ---------- the loop ----------

  lemma BeatsThrough(x: seq<int>, y: seq<int>, z: seq<int>)
    requires Sorting.LexLess(x, y) && !Sorting.LexLess(z, y)
    ensures Sorting.LexLess(x, z)
  {
    Sorting.LexTotal(y, z);
    if y != z {
      Sorting.LexTransitive(x, y, z);
    }
  }

  lemma OtherKeyKept<T, K>(rows: seq<T>, key: T -> K, rank: T -> seq<int>, k: K, x: T, next: T)
    requires Kept(rows, key, rank, k, x) && (key(next) == k ==> !Sorting.LexLess(rank(next), rank(x)))
    ensures Kept(rows + [next], key, rank, k, x)
  {
    var i :| FirstBest(rows, key, rank, i) && key(rows[i]) == k && rows[i] == x;
    assert FirstBest(rows + [next], key, rank, i);
  }

  lemma NewBest<T, K>(rows: seq<T>, key: T -> K, rank: T -> seq<int>, next: T)
    requires forall j | 0 <= j < |rows| && key(rows[j]) == key(next) :: Sorting.LexLess(rank(next), rank(rows[j]))
    ensures Kept(rows + [next], key, rank, key(next), next)
  {
    var n := |rows|;
    forall j | 0 <= j <= n && key((rows + [next])[j]) == key(next)
      ensures !Sorting.LexLess(rank((rows + [next])[j]), rank(next))
    {
      Sorting.LexTotal(rank((rows + [next])[j]), rank(next));
    }
    assert FirstBest(rows + [next], key, rank, n);
  }

  lemma BeatsAll<T, K>(rows: seq<T>, key: T -> K, rank: T -> seq<int>, x: T, next: T)
    requires Kept(rows, key, rank, key(next), x) && Sorting.LexLess(rank(next), rank(x))
    ensures forall j | 0 <= j < |rows| && key(rows[j]) == key(next) :: Sorting.LexLess(rank(next), rank(rows[j]))
  {
    var i :| FirstBest(rows, key, rank, i) && key(rows[i]) == key(next) && rows[i] == x;
    forall j | 0 <= j < |rows| && key(rows[j]) == key(next)
      ensures Sorting.LexLess(rank(next), rank(rows[j]))
    {
      BeatsThrough(rank(next), rank(x), rank(rows[j]));
    }
  }

  /** What one turn of the loop does to the map. */
  function Consider<T, K>(m: map<K, T>, key: T -> K, rank: T -> seq<int>, next: T): (r: map<K, T>) {
    if key(next) !in m || Sorting.LexLess(rank(next), rank(m[key(next)])) then m[key(next) := next] else m
  }

  lemma ConsiderKeeps<T, K>(rows: seq<T>, key: T -> K, rank: T -> seq<int>, m: map<K, T>, next: T)
    requires Selected(rows, key, rank, m)
    ensures Selected(rows + [next], key, rank, Consider(m, key, rank, next))
  {
    var r := Consider(m, key, rank, next);
    forall k | k in r
      ensures Kept(rows + [next], key, rank, k, r[k])
    {
      if k == key(next) && (k !in m || Sorting.LexLess(rank(next), rank(m[k]))) {
        if k in m {
          BeatsAll(rows, key, rank, m[k], next);
        }
        NewBest(rows, key, rank, next);
      } else {
        OtherKeyKept(rows, key, rank, k, m[k], next);
      }
    }
  }

  /** The selection loop; preferred is the comparison the rows are selected by. */
  method SelectBest<T(!new), K>(
    rows: seq<T>, key: T -> K, preferred: (T, T) -> bool, ghost rank: T -> seq<int>) returns (byKey: map<K, T>)
    requires forall x, y :: preferred(x, y) <==> Sorting.LexLess(rank(x), rank(y))
    ensures Selected(rows, key, rank, byKey)
  {
    byKey := map[];
    for i := 0 to |rows|
      invariant Selected(rows[..i], key, rank, byKey)
    {
      assert rows[..i + 1] == rows[..i] + [rows[i]];
      ConsiderKeeps(rows[..i], key, rank, byKey, rows[i]);
      var next := rows[i];
      if key(next) !in byKey || preferred(next, byKey[key(next)]) {
        byKey := byKey[key(next) := next];
      }
    }
    assert rows[..|rows|] == rows;
  }

  // ---------- what is kept ----------

  lemma OneBestPerKey<T, K>(rows: seq<T>, key: T -> K, rank: T -> seq<int>, i: int, j: int)
    requires FirstBest(rows, key, rank, i) && FirstBest(rows, key, rank, j) && key(rows[i]) == key(rows[j])
    ensures i == j
  {
  }

  /** With unique ids the kept row does not depend on the order of the rows. */
  lemma KeptAnyOrder<T, K>(rows: seq<T>, other: seq<T>, key: T -> K, rank: T -> seq<int>, i: int, j: int)
    requires multiset(rows) == multiset(other) && Identified(rows, key, rank)
    requires FirstBest(rows, key, rank, i) && FirstBest(other, key, rank, j) && key(rows[i]) == key(other[j])
    ensures rows[i] == other[j]
  {
    Sorting.SameMembers(rows, other);
    assert rows[i] in other && other[j] in rows;
    var p :| 0 <= p < |other| && other[p] == rows[i];
    var q :| 0 <= q < |rows| && rows[q] == other[j];
    Sorting.LexTotal(rank(rows[i]), rank(other[j]));
  }

  lemma {:induction false} SomeBest<T, K>(rows: seq<T>, key: T -> K, rank: T -> seq<int>) returns (m: map<K, T>)
    ensures Selected(rows, key, rank, m)
  {
    m := map[];
    if rows != [] {
      var n := |rows| - 1;
      var before := SomeBest(rows[..n], key, rank);
      ConsiderKeeps(rows[..n], key, rank, before, rows[n]);
      assert rows == rows[..n] + [rows[n]];
      m := Consider(before, key, rank, rows[n]);
    }
  }

  // ---------- the list that is built ----------

  /** out lists the entries of exactly the kept rows, once each. */
  ghost predicate Picks<T, K, E>(rows: seq<T>, key: T -> K, rank: T -> seq<int>, entry: T -> E, out: seq<E>) {
    && (forall e | e in out :: exists i :: FirstBest(rows, key, rank, i) && e == entry(rows[i]))
    && (forall i | FirstBest(rows, key, rank, i) :: entry(rows[i]) in out)
    && (forall i, j | 0 <= i < j < |out| :: out[i] != out[j])
  }

  /** The entry of a row determines the row's key. */
  ghost predicate KeyOfEntry<T(!new), K, E>(key: T -> K, entry: T -> E, keyOf: E -> K) {
    forall x :: keyOf(entry(x)) == key(x)
  }

  lemma PicksOnePerKey<T(!new), K, E>(
    rows: seq<T>, key: T -> K, rank: T -> seq<int>, entry: T -> E, keyOf: E -> K, out: seq<E>, e: E, f: E)
    requires Picks(rows, key, rank, entry, out) && KeyOfEntry(key, entry, keyOf)
    requires e in out && f in out && keyOf(e) == keyOf(f)
    ensures e == f
  {
    var i :| FirstBest(rows, key, rank, i) && e == entry(rows[i]);
    var j :| FirstBest(rows, key, rank, j) && f == entry(rows[j]);
    OneBestPerKey(rows, key, rank, i, j);
  }

  lemma PicksMember<T(!new), K, E>(
    rows: seq<T>, other: seq<T>, key: T -> K, rank: T -> seq<int>, entry: T -> E, out: seq<E>, more: seq<E>, e: E)
    requires multiset(rows) == multiset(other) && Identified(rows, key, rank)
    requires Picks(rows, key, rank, entry, out) && Picks(other, key, rank, entry, more) && e in out
    ensures e in more
  {
    var i :| FirstBest(rows, key, rank, i) && e == entry(rows[i]);
    Sorting.SameMembers(rows, other);
    assert rows[i] in other;
    var p :| 0 <= p < |other| && other[p] == rows[i];
    var m := SomeBest(other, key, rank);
    assert key(other[p]) in m;
    assert Kept(other, key, rank, key(rows[i]), m[key(rows[i])]);
    var j :| FirstBest(other, key, rank, j) && key(other[j]) == key(rows[i]);
    KeptAnyOrder(rows, other, key, rank, i, j);
  }

  lemma IdentifiedAnyOrder<T, K>(rows: seq<T>, other: seq<T>, key: T -> K, rank: T -> seq<int>)
    requires multiset(rows) == multiset(other) && Identified(rows, key, rank)
    ensures Identified(other, key, rank)
  {
    Sorting.SameMembers(rows, other);
  }

  lemma {:induction false} OnceEach<E>(s: seq<E>, e: E)
    requires forall i, j | 0 <= i < j < |s| :: s[i] != s[j]
    ensures multiset(s)[e] == if e in s then 1 else 0
  {
    if s != [] {
      var n := |s| - 1;
      assert s == s[..n] + [s[n]];
      OnceEach(s[..n], e);
      assert e in s <==> e in s[..n] || e == s[n];
    }
  }

  lemma SameOnce<E>(s: seq<E>, t: seq<E>)
    requires forall i, j | 0 <= i < j < |s| :: s[i] != s[j]
    requires forall i, j | 0 <= i < j < |t| :: t[i] != t[j]
    requires forall e :: e in s <==> e in t
    ensures multiset(s) == multiset(t)
  {
    forall e
      ensures multiset(s)[e] == multiset(t)[e]
    {
      OnceEach(s, e);
      OnceEach(t, e);
    }
  }

  /** Row order does not matter: sorted lists picked from rearranged rows are the same list. */
  lemma PicksAnyOrder<T(!new), K, E>(
    rows: seq<T>, other: seq<T>, key: T -> K, rank: T -> seq<int>, entry: T -> E, order: E -> Sorting.Key,
    out: seq<E>, more: seq<E>)
    requires multiset(rows) == multiset(other) && Identified(rows, key, rank)
    requires Picks(rows, key, rank, entry, out) && Picks(other, key, rank, entry, more)
    requires Sorting.Sorted(out, order) && Sorting.Sorted(more, order) && Sorting.KeysIdentify(out, order)
    ensures out == more
  {
    IdentifiedAnyOrder(rows, other, key, rank);
    forall e
      ensures e in out <==> e in more
    {
      if e in out {
        PicksMember(rows, other, key, rank, entry, out, more, e);
      }
      if e in more {
        PicksMember(other, rows, key, rank, entry, more, out, e);
      }
    }
    SameOnce(out, more);
    Sorting.SortedUnique(out, more, order);
  }

  /** The values of the selection, in any order. */
  method Values<T, K, E(==)>(
    rows: seq<T>, key: T -> K, ghost rank: T -> seq<int>, entry: T -> E, ghost keyOf: E -> K, byKey: map<K, T>)
    returns (out: seq<E>)
    requires Selected(rows, key, rank, byKey) && forall x | x in rows :: keyOf(entry(x)) == key(x)
    ensures Picks(rows, key, rank, entry, out)
  {
    out := [];
    var left := byKey.Keys;
    while left != {}
      invariant left <= byKey.Keys
      invariant forall e | e in out :: keyOf(e) in byKey.Keys - left && e == entry(byKey[keyOf(e)])
      invariant forall k | k in byKey.Keys - left :: entry(byKey[k]) in out
      invariant forall i, j | 0 <= i < j < |out| :: out[i] != out[j]
      decreases left
    {
      var k :| k in left;
      assert Kept(rows, key, rank, k, byKey[k]);
      assert byKey[k] in rows && key(byKey[k]) == k;
      left := left - {k};
      out := out + [entry(byKey[k])];
    }
    ValuesPick(rows, key, rank, entry, keyOf, byKey, out);
  }

  lemma ValuesPick<T, K, E>(
    rows: seq<T>, key: T -> K, rank: T -> seq<int>, entry: T -> E, keyOf: E -> K, byKey: map<K, T>, out: seq<E>)
    requires Selected(rows, key, rank, byKey)
    requires forall e | e in out :: keyOf(e) in byKey && e == entry(byKey[keyOf(e)])
    requires forall k | k in byKey :: entry(byKey[k]) in out
    requires forall i, j | 0 <= i < j < |out| :: out[i] != out[j]
    ensures Picks(rows, key, rank, entry, out)
  {
    forall e | e in out
      ensures exists i :: FirstBest(rows, key, rank, i) && e == entry(rows[i])
    {
      assert Kept(rows, key, rank, keyOf(e), byKey[keyOf(e)]);
    }
    forall i | FirstBest(rows, key, rank, i)
      ensures entry(rows[i]) in out
    {
      var k := key(rows[i]);
      assert Kept(rows, key, rank, k, byKey[k]);
      var j :| FirstBest(rows, key, rank, j) && key(rows[j]) == k && rows[j] == byKey[k];
      OneBestPerKey(rows, key, rank, i, j);
    }
  }

  lemma SortedPicks<T, K, E>(rows: seq<T>, key: T -> K, rank: T -> seq<int>, entry: T -> E, out: seq<E>, sorted: seq<E>)
    requires Picks(rows, key, rank, entry, out) && multiset(out) == multiset(sorted)
    ensures Picks(rows, key, rank, entry, sorted)
  {
    Sorting.SameMembers(out, sorted);
    forall i, j | 0 <= i < j < |sorted|
      ensures sorted[i] != sorted[j]
    {
      OnceEach(out, sorted[i]);
      TwiceCounted(sorted, i, j);
    }
  }

  lemma TwiceCounted<E>(s: seq<E>, i: nat, j: nat)
    requires i < j < |s|
    ensures s[i] == s[j] ==> multiset(s)[s[i]] >= 2
  {
    assert s == s[..j] + [s[j]] + s[j + 1..];
    assert s[i] in s[..j];
  }

  // ---------- exactly when row order does not matter ----------

  /** x is a row that no row with its key is preferred to. */
  ghost predicate MostPreferred<T, K>(rows: seq<T>, key: T -> K, rank: T -> seq<int>, x: T) {
    x in rows && forall y | y in rows && key(y) == key(x) :: !Sorting.LexLess(rank(y), rank(x))
  }

  /** Every rearrangement of the rows keeps the same row for every key. */
  ghost predicate KeepsOneWay<T(!new), K(!new)>(rows: seq<T>, key: T -> K, rank: T -> seq<int>) {
    forall p, q, k, x, y |
      multiset(p) == multiset(rows) && multiset(q) == multiset(rows)
      && Kept(p, key, rank, k, x) && Kept(q, key, rank, k, y) ::
      x == y
  }

  ghost predicate NoTies<T(!new), K>(rows: seq<T>, key: T -> K, rank: T -> seq<int>) {
    forall x, y | MostPreferred(rows, key, rank, x) && MostPreferred(rows, key, rank, y) && key(x) == key(y) :: x == y
  }

  lemma KeptMostPreferred<T, K>(rows: seq<T>, p: seq<T>, key: T -> K, rank: T -> seq<int>, k: K, x: T)
    requires multiset(p) == multiset(rows) && Kept(p, key, rank, k, x)
    ensures MostPreferred(rows, key, rank, x) && key(x) == k
  {
    Sorting.SameMembers(p, rows);
    var i :| FirstBest(p, key, rank, i) && key(p[i]) == k && p[i] == x;
    assert p[i] in p;
    forall y | y in rows && key(y) == key(x)
      ensures !Sorting.LexLess(rank(y), rank(x))
    {
      assert y in p;
      var j :| 0 <= j < |p| && p[j] == y;
    }
  }

  /** Any most preferred row is kept by some arrangement: the one that begins with it. */
  lemma MovedFirst<T, K>(rows: seq<T>, key: T -> K, rank: T -> seq<int>, x: T) returns (p: seq<T>)
    requires MostPreferred(rows, key, rank, x)
    ensures multiset(p) == multiset(rows) && FirstBest(p, key, rank, 0) && p[0] == x
    ensures Kept(p, key, rank, key(x), x)
  {
    var i :| 0 <= i < |rows| && rows[i] == x;
    assert rows == rows[..i] + [rows[i]] + rows[i + 1..];
    p := [x] + rows[..i] + rows[i + 1..];
    Sorting.SameMembers(p, rows);
    forall j | 0 <= j < |p| && key(p[j]) == key(p[0])
      ensures !Sorting.LexLess(rank(p[j]), rank(p[0]))
    {
      assert p[j] in rows;
    }
  }

  /** Every arrangement keeps the same rows exactly when no two different rows tie for most preferred of
      one key. */
  lemma RowOrderExactly<T(!new), K(!new)>(rows: seq<T>, key: T -> K, rank: T -> seq<int>)
    ensures KeepsOneWay(rows, key, rank) <==> NoTies(rows, key, rank)
  {
    if NoTies(rows, key, rank) {
      forall p, q, k, x, y |
        multiset(p) == multiset(rows) && multiset(q) == multiset(rows)
        && Kept(p, key, rank, k, x) && Kept(q, key, rank, k, y)
        ensures x == y
      {
        KeptMostPreferred(rows, p, key, rank, k, x);
        KeptMostPreferred(rows, q, key, rank, k, y);
      }
    }
    if KeepsOneWay(rows, key, rank) {
      forall x, y | MostPreferred(rows, key, rank, x) && MostPreferred(rows, key, rank, y) && key(x) == key(y)
        ensures x == y
      {
        var p := MovedFirst(rows, key, rank, x);
        var q := MovedFirst(rows, key, rank, y);
      }
    }
  }

  /** out may be the list built from the rows in this order. */
  ghost predicate Builds<T, K, E>(
    rows: seq<T>, key: T -> K, rank: T -> seq<int>, entry: T -> E, order: E -> Sorting.Key, out: seq<E>)
  {
    Picks(rows, key, rank, entry, out) && Sorting.Sorted(out, order)
  }

  /** Every rearrangement of the rows builds the same list. */
  ghost predicate BuildsOneWay<T(!new), K, E(!new)>(
    rows: seq<T>, key: T -> K, rank: T -> seq<int>, entry: T -> E, order: E -> Sorting.Key)
  {
    forall p, q, out, more |
      multiset(p) == multiset(rows) && multiset(q) == multiset(rows)
      && Builds(p, key, rank, entry, order, out) && Builds(q, key, rank, entry, order, more) ::
      out == more
  }

  /** Rows that tie for most preferred of one key make the same entry. */
  ghost predicate TiesAgree<T(!new), K, E>(rows: seq<T>, key: T -> K, rank: T -> seq<int>, entry: T -> E) {
    forall x, y |
      MostPreferred(rows, key, rank, x) && MostPreferred(rows, key, rank, y) && key(x) == key(y) ::
      entry(x) == entry(y)
  }

  /** The positions of the kept rows among the first n. */
  ghost function BestBelow<T, K>(rows: seq<T>, key: T -> K, rank: T -> seq<int>, n: nat): (r: seq<int>) {
    if n == 0 then []
    else BestBelow(rows, key, rank, n - 1) + if FirstBest(rows, key, rank, n - 1) then [n - 1] else []
  }

  ghost predicate Increasing(s: seq<int>) {
    forall a, b | 0 <= a < b < |s| :: s[a] < s[b]
  }

  lemma {:induction false} BestBelowExact<T, K>(rows: seq<T>, key: T -> K, rank: T -> seq<int>, n: nat)
    ensures forall i :: i in BestBelow(rows, key, rank, n) <==> i < n && FirstBest(rows, key, rank, i)
    ensures Increasing(BestBelow(rows, key, rank, n))
  {
    if n > 0 {
      BestBelowExact(rows, key, rank, n - 1);
      var before := BestBelow(rows, key, rank, n - 1);
      forall a | 0 <= a < |before|
        ensures before[a] < n - 1
      {
        assert before[a] in before;
      }
    }
  }

  function EntriesAt<T, E>(rows: seq<T>, entry: T -> E, at: seq<int>): (r: seq<E>)
    requires forall i | i in at :: 0 <= i < |rows|
  {
    seq(|at|, a requires 0 <= a < |at| => assert at[a] in at; entry(rows[at[a]]))
  }

  lemma EntriesAtPick<T(!new), K, E>(
    rows: seq<T>, key: T -> K, rank: T -> seq<int>, entry: T -> E, keyOf: E -> K, at: seq<int>)
    requires KeyOfEntry(key, entry, keyOf)
    requires forall i | i in at :: 0 <= i < |rows|
    requires forall i :: i in at <==> FirstBest(rows, key, rank, i)
    requires Increasing(at)
    ensures Picks(rows, key, rank, entry, EntriesAt(rows, entry, at))
  {
    var out := EntriesAt(rows, entry, at);
    forall e | e in out
      ensures exists i :: FirstBest(rows, key, rank, i) && e == entry(rows[i])
    {
      var a :| 0 <= a < |at| && out[a] == e;
      assert at[a] in at;
    }
    forall i | FirstBest(rows, key, rank, i)
      ensures entry(rows[i]) in out
    {
      assert i in at;
      var a :| 0 <= a < |at| && at[a] == i;
      assert out[a] == entry(rows[i]);
    }
    forall a, b | 0 <= a < b < |out|
      ensures out[a] != out[b]
    {
      assert at[a] in at && at[b] in at;
      if out[a] == out[b] {
        OneBestPerKey(rows, key, rank, at[a], at[b]);
      }
    }
  }

  /** Some list is built. */
  lemma SomeList<T(!new), K, E>(
    rows: seq<T>, key: T -> K, rank: T -> seq<int>, entry: T -> E, keyOf: E -> K, order: E -> Sorting.Key)
    returns (out: seq<E>)
    requires KeyOfEntry(key, entry, keyOf)
    ensures Builds(rows, key, rank, entry, order, out)
  {
    var at := BestBelow(rows, key, rank, |rows|);
    BestBelowExact(rows, key, rank, |rows|);
    EntriesAtPick(rows, key, rank, entry, keyOf, at);
    var all := EntriesAt(rows, entry, at);
    out := Sorting.Sort(all, order);
    Sorting.SortSorts(all, order);
    SortedPicks(rows, key, rank, entry, all, out);
  }

  lemma PickedMostPreferred<T, K, E>(
    rows: seq<T>, p: seq<T>, key: T -> K, rank: T -> seq<int>, entry: T -> E, out: seq<E>, e: E) returns (x: T)
    requires multiset(p) == multiset(rows) && Picks(p, key, rank, entry, out) && e in out
    ensures MostPreferred(rows, key, rank, x) && entry(x) == e
  {
    var i :| FirstBest(p, key, rank, i) && e == entry(p[i]);
    x := p[i];
    KeptMostPreferred(rows, p, key, rank, key(x), x);
  }

  lemma MostPreferredPicked<T(!new), K, E>(
    rows: seq<T>, p: seq<T>, key: T -> K, rank: T -> seq<int>, entry: T -> E, out: seq<E>, x: T)
    requires multiset(p) == multiset(rows) && Picks(p, key, rank, entry, out) && MostPreferred(rows, key, rank, x)
    requires TiesAgree(rows, key, rank, entry)
    ensures entry(x) in out
  {
    Sorting.SameMembers(p, rows);
    var m := SomeBest(p, key, rank);
    assert x in p;
    assert Kept(p, key, rank, key(x), m[key(x)]);
    KeptMostPreferred(rows, p, key, rank, key(x), m[key(x)]);
  }

  lemma OrderTellsPicksApart<T(!new), K, E>(
    rows: seq<T>, key: T -> K, rank: T -> seq<int>, entry: T -> E, keyOf: E -> K, order: E -> Sorting.Key, out: seq<E>)
    requires Picks(rows, key, rank, entry, out) && KeyOfEntry(key, entry, keyOf)
    requires forall e, f | e in out && f in out && order(e) == order(f) :: keyOf(e) == keyOf(f)
    ensures Sorting.KeysIdentify(out, order)
  {
    forall e, f | e in out && f in out && order(e) == order(f)
      ensures e == f
    {
      PicksOnePerKey(rows, key, rank, entry, keyOf, out, e, f);
    }
  }

  /** The sort order of the entries determines their key. */
  ghost predicate OrderHoldsKey<K, E(!new)>(keyOf: E -> K, order: E -> Sorting.Key) {
    forall e, f | order(e) == order(f) :: keyOf(e) == keyOf(f)
  }

  lemma AgreeingTiesBuildOneList<T(!new), K, E(!new)>(
    rows: seq<T>, p: seq<T>, q: seq<T>, key: T -> K, rank: T -> seq<int>, entry: T -> E, keyOf: E -> K,
    order: E -> Sorting.Key, out: seq<E>, more: seq<E>)
    requires KeyOfEntry(key, entry, keyOf) && OrderHoldsKey(keyOf, order) && TiesAgree(rows, key, rank, entry)
    requires multiset(p) == multiset(rows) && multiset(q) == multiset(rows)
    requires Builds(p, key, rank, entry, order, out) && Builds(q, key, rank, entry, order, more)
    ensures out == more
  {
    forall e
      ensures e in out <==> e in more
    {
      if e in out {
        var x := PickedMostPreferred(rows, p, key, rank, entry, out, e);
        MostPreferredPicked(rows, q, key, rank, entry, more, x);
      }
      if e in more {
        var x := PickedMostPreferred(rows, q, key, rank, entry, more, e);
        MostPreferredPicked(rows, p, key, rank, entry, out, x);
      }
    }
    SameOnce(out, more);
    OrderTellsPicksApart(p, key, rank, entry, keyOf, order, out);
    Sorting.SortedUnique(out, more, order);
  }

  lemma TiesAgreeWhenOneList<T(!new), K, E(!new)>(
    rows: seq<T>, key: T -> K, rank: T -> seq<int>, entry: T -> E, keyOf: E -> K, order: E -> Sorting.Key, x: T, y: T)
    requires KeyOfEntry(key, entry, keyOf) && BuildsOneWay(rows, key, rank, entry, order)
    requires MostPreferred(rows, key, rank, x) && MostPreferred(rows, key, rank, y) && key(x) == key(y)
    ensures entry(x) == entry(y)
  {
    var p := MovedFirst(rows, key, rank, x);
    var q := MovedFirst(rows, key, rank, y);
    var out := SomeList(p, key, rank, entry, keyOf, order);
    var more := SomeList(q, key, rank, entry, keyOf, order);
    assert out == more;
    PicksOnePerKey(p, key, rank, entry, keyOf, out, entry(x), entry(y));
  }

  /** Every arrangement builds the same list exactly when rows that tie for most preferred of one key make
      the same entry. */
  lemma ListOrderExactly<T(!new), K, E(!new)>(
    rows: seq<T>, key: T -> K, rank: T -> seq<int>, entry: T -> E, keyOf: E -> K, order: E -> Sorting.Key)
    requires KeyOfEntry(key, entry, keyOf) && OrderHoldsKey(keyOf, order)
    ensures BuildsOneWay(rows, key, rank, entry, order) <==> TiesAgree(rows, key, rank, entry)
  {
    if TiesAgree(rows, key, rank, entry) {
      forall p, q, out, more |
        multiset(p) == multiset(rows) && multiset(q) == multiset(rows)
        && Builds(p, key, rank, entry, order, out) && Builds(q, key, rank, entry, order, more)
        ensures out == more
      {
        AgreeingTiesBuildOneList(rows, p, q, key, rank, entry, keyOf, order, out, more);
      }
    }
    if BuildsOneWay(rows, key, rank, entry, order) {
      forall x, y |
        MostPreferred(rows, key, rank, x) && MostPreferred(rows, key, rank, y) && key(x) == key(y)
        ensures entry(x) == entry(y)
      {
        TiesAgreeWhenOneList(rows, key, rank, entry, keyOf, order, x, y);
      }
    }
  }
}
