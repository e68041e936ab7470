/** Binding devmap keys one by one with backups, and undoing the bindings. */
module Devmap {
  import opened Words

  type Targets = seq<(u32, u32)>

  function Get(m: map<u32, u32>, k: u32): (r: Option<u32>) {
    if k in m then Some(m[k]) else None
  }

  /** m keeps everything that base says. */
  ghost predicate Keeps(base: map<u32, u32>, m: map<u32, u32>) {
    forall k | k in base :: k in m && m[k] == base[k]
  }

  /** All targets written in order. */
  function BindAll(m: map<u32, u32>, todo: Targets): (r: map<u32, u32>) {
    if todo == [] then m
    else BindAll(m, todo[..|todo| - 1])[todo[|todo| - 1].0 := todo[|todo| - 1].1]
  }

  /** The guard of each write: the key is unbound or already bound to the same interface. */
  ghost predicate Agreeing(m: map<u32, u32>, todo: Targets) {
    todo == [] ||
    var n := |todo| - 1;
    Agreeing(m, todo[..n])
      && (Get(BindAll(m, todo[..n]), todo[n].0).None? || Get(BindAll(m, todo[..n]), todo[n].0) == Some(todo[n].1))
  }

  /** The backups taken just before each write. */
  function Backups(m: map<u32, u32>, todo: Targets): (r: seq<Option<u32>>)
    ensures |r| == |todo|
  {
    if todo == [] then []
    else
      var n := |todo| - 1;
      Backups(m, todo[..n]) + [Get(BindAll(m, todo[..n]), todo[n].0)]
  }

  function Restore(m: map<u32, u32>, k: u32, backup: Option<u32>): (r: map<u32, u32>) {
    match backup
    case Some(v) => m[k := v]
    case None => m - {k}
  }

  /** Binding never changes a key that was bound. */
  lemma {:induction false} BindKeeps(m: map<u32, u32>, todo: Targets)
    requires Agreeing(m, todo)
    ensures Keeps(m, BindAll(m, todo))
  {
    if todo != [] {
      BindKeeps(m, todo[..|todo| - 1]);
    }
  }

  /** After binding, every target is in place. */
  lemma {:induction false} BindReaches(m: map<u32, u32>, todo: Targets, p: (u32, u32))
    requires Agreeing(m, todo) && p in todo
    ensures p.0 in BindAll(m, todo) && BindAll(m, todo)[p.0] == p.1
  {
    var n := |todo| - 1;
    if p != todo[n] {
      assert p in todo[..n];
      BindReaches(m, todo[..n], p);
    }
  }

  /** Undoing the last binding restores the map as it was before that binding. */
  lemma UndoLast(m: map<u32, u32>, todo: Targets)
    requires todo != []
    ensures
      var n := |todo| - 1;
      Restore(BindAll(m, todo), todo[n].0, Backups(m, todo)[n]) == BindAll(m, todo[..n])
  {
  }
}
