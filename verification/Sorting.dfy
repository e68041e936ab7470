/** Sorting by a lexicographic key, as the Go comparators of the agent and the control plane do.
    Go's sort.Slice is not stable, so results are stated for every sorted rearrangement. */
module Sorting {

  /** A sort key: a text compared byte-wise, then numbers compared in turn. */
  datatype Key = Key(text: string, nums: seq<int>)

  function Codes(s: string): (r: seq<int>)
    ensures |r| == |s|
    ensures forall i | 0 <= i < |s| :: r[i] == s[i] as int
  {
    seq(|s|, i requires 0 <= i < |s| => s[i] as int)
  }

  predicate LexLess(a: seq<int>, b: seq<int>) {
    b != [] && (a == [] || a[0] < b[0] || (a[0] == b[0] && LexLess(a[1..], b[1..])))
  }

  predicate KeyLess(a: Key, b: Key) {
    if a.text != b.text then LexLess(Codes(a.text), Codes(b.text)) else LexLess(a.nums, b.nums)
  }

  lemma {:induction false} LexTotal(a: seq<int>, b: seq<int>)
    ensures LexLess(a, b) || LexLess(b, a) || a == b
    ensures !(LexLess(a, b) && LexLess(b, a)) && !LexLess(a, a)
  {
    if a != [] {
      LexTotal(a[1..], a[1..]);
    }
    if a != [] && b != [] {
      LexTotal(a[1..], b[1..]);
      assert a == [a[0]] + a[1..] && b == [b[0]] + b[1..];
    }
  }

  lemma {:induction false} LexTransitive(a: seq<int>, b: seq<int>, c: seq<int>)
    requires LexLess(a, b) && LexLess(b, c)
    ensures LexLess(a, c)
  {
    if a != [] && a[0] == b[0] == c[0] {
      LexTransitive(a[1..], b[1..], c[1..]);
    }
  }

  lemma CodesInjective(a: string, b: string)
    requires Codes(a) == Codes(b)
    ensures a == b
  {
    forall i | 0 <= i < |a|
      ensures a[i] == b[i]
    {
      assert Codes(a)[i] == Codes(b)[i];
    }
  }

  lemma KeyTotal(a: Key, b: Key)
    ensures KeyLess(a, b) || KeyLess(b, a) || a == b
    ensures !(KeyLess(a, b) && KeyLess(b, a))
  {
    LexTotal(Codes(a.text), Codes(b.text));
    LexTotal(a.nums, b.nums);
    if a.text != b.text && Codes(a.text) == Codes(b.text) {
      CodesInjective(a.text, b.text);
    }
  }

  lemma KeyTransitive(a: Key, b: Key, c: Key)
    requires KeyLess(a, b) && KeyLess(b, c)
    ensures KeyLess(a, c)
  {
    if a.text == b.text == c.text {
      LexTransitive(a.nums, b.nums, c.nums);
    } else if a.text != b.text && b.text != c.text {
      LexTransitive(Codes(a.text), Codes(b.text), Codes(c.text));
      LexTotal(Codes(a.text), Codes(b.text));
    }
  }

  /** No element comes before one with a smaller key. */
  ghost predicate Sorted<T>(s: seq<T>, key: T -> Key) {
    forall i, j | 0 <= i < j < |s| :: !KeyLess(key(s[j]), key(s[i]))
  }

  /** What sort.Slice promises: some rearrangement that is sorted; ties may end either way. */
  ghost predicate SortedRearrangement<T>(s: seq<T>, t: seq<T>, key: T -> Key) {
    multiset(s) == multiset(t) && Sorted(t, key)
  }

  /** Elements with one sort key are one and the same. */
  ghost predicate KeysIdentify<T>(s: seq<T>, key: T -> Key) {
    forall x, y | x in s && y in s :: key(x) == key(y) ==> x == y
  }

  function Insert<T(==)>(x: T, s: seq<T>, key: T -> Key): (r: seq<T>)
    ensures multiset(r) == multiset(s) + multiset{x}
    ensures |r| == |s| + 1
  {
    if s == [] then [x]
    else if KeyLess(key(s[0]), key(x)) then
      assert s == [s[0]] + s[1..];
      [s[0]] + Insert(x, s[1..], key)
    else
      [x] + s
  }

  function Sort<T(==)>(s: seq<T>, key: T -> Key): (r: seq<T>)
    ensures multiset(r) == multiset(s)
    ensures |r| == |s|
  {
    if s == [] then []
    else
      assert s == [s[0]] + s[1..];
      Insert(s[0], Sort(s[1..], key), key)
  }

  lemma SameMembers<T>(s: seq<T>, t: seq<T>)
    requires multiset(s) == multiset(t)
    ensures forall x :: x in s <==> x in t
    ensures |s| == |t|
  {
    forall x
      ensures x in s <==> x in t
    {
      assert x in s <==> x in multiset(s);
      assert x in t <==> x in multiset(t);
    }
    assert |multiset(s)| == |s| && |multiset(t)| == |t|;
  }

  lemma {:induction false} InsertSorted<T>(x: T, s: seq<T>, key: T -> Key)
    requires Sorted(s, key)
    ensures Sorted(Insert(x, s, key), key)
  {
    if s != [] {
      var r := Insert(x, s, key);
      if KeyLess(key(s[0]), key(x)) {
        var rest := Insert(x, s[1..], key);
        InsertSorted(x, s[1..], key);
        forall j | 0 <= j < |rest|
          ensures !KeyLess(key(rest[j]), key(s[0]))
        {
          assert rest[j] in multiset(rest);
          KeyTotal(key(s[0]), key(x));
        }
      } else {
        forall j | 0 <= j < |s|
          ensures !KeyLess(key(s[j]), key(x))
        {
          if KeyLess(key(s[j]), key(x)) {
            KeyTotal(key(s[j]), key(s[0]));
            if key(s[j]) != key(s[0]) {
              KeyTransitive(key(s[0]), key(s[j]), key(x));
            }
          }
        }
      }
    }
  }

  lemma {:induction false} SortSorts<T>(s: seq<T>, key: T -> Key)
    ensures SortedRearrangement(s, Sort(s, key), key)
  {
    if s != [] {
      SortSorts(s[1..], key);
      InsertSorted(s[0], Sort(s[1..], key), key);
    }
  }

  /** The heads of two sorted rearrangements agree when keys identify elements. */
  lemma HeadsAgree<T>(s: seq<T>, t: seq<T>, key: T -> Key)
    requires s != [] && t != [] && s[0] in t && t[0] in s
    requires Sorted(s, key) && Sorted(t, key)
    requires KeysIdentify(s, key)
    ensures s[0] == t[0]
  {
    var i :| 0 <= i < |s| && s[i] == t[0];
    var j :| 0 <= j < |t| && t[j] == s[0];
    KeyTotal(key(s[0]), key(t[0]));
  }

  lemma TailsAgree<T>(s: seq<T>, t: seq<T>)
    requires s != [] && t != [] && s[0] == t[0] && multiset(s) == multiset(t)
    ensures multiset(s[1..]) == multiset(t[1..])
  {
    assert s == [s[0]] + s[1..] && t == [t[0]] + t[1..];
    assert multiset(s[1..]) == multiset(s) - multiset{s[0]};
    assert multiset(t[1..]) == multiset(t) - multiset{t[0]};
  }

  lemma TailSorted<T>(s: seq<T>, key: T -> Key)
    requires s != [] && Sorted(s, key)
    ensures Sorted(s[1..], key)
  {
    forall i, j | 0 <= i < j < |s| - 1
      ensures !KeyLess(key(s[1..][j]), key(s[1..][i]))
    {
      assert s[1..][i] == s[i + 1] && s[1..][j] == s[j + 1];
    }
  }

  lemma TailIdentified<T>(s: seq<T>, key: T -> Key)
    requires s != [] && KeysIdentify(s, key)
    ensures KeysIdentify(s[1..], key)
  {
    assert forall x | x in s[1..] :: x in s;
  }

  lemma HeadsOccur<T>(s: seq<T>, t: seq<T>)
    requires s != [] && multiset(s) == multiset(t)
    ensures t != [] && s[0] in t && t[0] in s
  {
    SameMembers(s, t);
    assert s[0] in s && t[0] in t;
  }

  /** When keys identify elements the sorted rearrangement is unique, whatever order the input had. */
  lemma {:induction false} SortedUnique<T>(s: seq<T>, t: seq<T>, key: T -> Key)
    requires multiset(s) == multiset(t)
    requires Sorted(s, key) && Sorted(t, key)
    requires KeysIdentify(s, key)
    ensures s == t
  {
    if s == [] {
      assert |multiset(t)| == 0;
    } else {
      HeadsOccur(s, t);
      HeadsAgree(s, t, key);
      TailsAgree(s, t);
      TailSorted(s, key);
      TailSorted(t, key);
      TailIdentified(s, key);
      SortedUnique(s[1..], t[1..], key);
      assert s == [s[0]] + s[1..] && t == [t[0]] + t[1..];
    }
  }

  // ---------- ties ----------

  function Swapped<T>(s: seq<T>, i: nat, j: nat): (r: seq<T>)
    requires i < j < |s|
    ensures multiset(r) == multiset(s)
  {
    s[i := s[j]][j := s[i]]
  }

  /** Exchanging two elements with one sort key keeps a list sorted. */
  lemma SwapKeepsSorted<T>(s: seq<T>, i: nat, j: nat, key: T -> Key)
    requires Sorted(s, key) && i < j < |s| && key(s[i]) == key(s[j])
    ensures Sorted(Swapped(s, i, j), key)
  {
    var r := Swapped(s, i, j);
    forall k | 0 <= k < |s|
      ensures key(r[k]) == key(s[k])
    {
    }
  }

  /** A list whose sort keys do not tell its elements apart has two sorted rearrangements. */
  lemma TwoRearrangements<T>(s: seq<T>, key: T -> Key) returns (p: seq<T>, q: seq<T>)
    requires !KeysIdentify(s, key)
    ensures SortedRearrangement(s, p, key) && SortedRearrangement(s, q, key) && p != q
  {
    var x, y :| x in s && y in s && key(x) == key(y) && x != y;
    p := Sort(s, key);
    SortSorts(s, key);
    SameMembers(s, p);
    var a :| 0 <= a < |p| && p[a] == x;
    var b :| 0 <= b < |p| && p[b] == y;
    var i, j := if a < b then a else b, if a < b then b else a;
    SwapKeepsSorted(p, i, j, key);
    q := Swapped(p, i, j);
    assert q[i] == p[j] != p[i];
  }
}
