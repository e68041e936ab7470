/** The invariant of the apply machine is kept by every step, hence holds over every run. */
module ApplySafety {
  import opened Words
  import opened Maps
  import opened Policy
  import opened Devmap
  import opened Apply
  import Compile
  import Refinement

  lemma InitInv(env: Env, s: Sys)
    requires Init(s)
    ensures Inv(env, s)
  {
    EmptySlotFacts();
  }

  lemma BeginInv(env: Env, s: Sys, target: Snapshot, keys: seq<MapKey>)
    requires Inv(env, s) && s.phase.Idle? && Acceptable(env, s.node, target)
    requires ClearsAll(SlotAt(s.node.kernel, 1 - s.node.kernel.config.activeSlot), keys)
    ensures Inv(env, DoBegin(s, target, keys))
  {
  }

  /** Writing the inactive slot disturbs nothing else. */
  lemma SlotWrite(env: Env, s: Sys, job: Job, slot: Slot, phase: Phase)
    requires Sound(env, s) && Unflipped(env, s, job) && WellShaped(slot)
    ensures
      var t := s.(node := WithSlot(s.node, job.slot, slot), phase := phase);
      && Sound(env, t) && Unflipped(env, t, job)
      && SlotAt(t.node.kernel, job.slot) == slot && t.node.kernel.devmap == s.node.kernel.devmap
  {
  }

  /** Writing the devmap without changing what was bound disturbs nothing else. */
  lemma DevmapWrite(env: Env, s: Sys, job: Job, m: map<u32, u32>, phase: Phase)
    requires Sound(env, s) && Unflipped(env, s, job) && Keeps(job.before.kernel.devmap, m)
    ensures
      var t := s.(node := WithDevmap(s.node, m), phase := phase);
      && Sound(env, t) && Unflipped(env, t, job)
      && SlotAt(t.node.kernel, job.slot) == SlotAt(s.node.kernel, job.slot) && t.node.kernel.devmap == m
  {
    KeepsBound(job.before.kernel.devmap, m, s.node.record.policy);
    KeepsTransitive(s.committed, job.before.kernel.devmap, m);
  }

  lemma ClearOneInv(env: Env, s: Sys)
    requires Inv(env, s) && s.phase.Clearing? && s.phase.done < |s.phase.keys|
    ensures Inv(env, DoClear(s))
  {
    var p := s.phase;
    var slot := Remove(SlotAt(s.node.kernel, p.job.slot), p.keys[p.done]);
    assert p.keys[..p.done + 1][..p.done] == p.keys[..p.done];
    assert p.keys[p.done] in p.keys;
    RemoveShape(SlotAt(s.node.kernel, p.job.slot), p.keys[p.done]);
    SlotWrite(env, s, p.job, slot, Clearing(p.job, p.keys, p.done + 1));
  }

  lemma ClearFailsInv(env: Env, s: Sys)
    requires Inv(env, s) && s.phase.Clearing?
    ensures Inv(env, GiveUp(s, s.phase.job, AtClear))
  {
  }

  lemma ClearDoneInv(env: Env, s: Sys)
    requires Inv(env, s) && s.phase.Clearing? && s.phase.done == |s.phase.keys|
    ensures Inv(env, s.(phase := Populating(s.phase.job, 0)))
  {
    var p := s.phase;
    assert p.keys[..p.done] == p.keys;
    ClearEmpties(SlotAt(p.job.before.kernel, p.job.slot), p.keys);
  }

  lemma EntryInRange(env: Env, target: Snapshot, i: nat)
    requires Installable(env, target) && i < |EntriesOf(env, target)|
    ensures InRange(EntriesOf(env, target)[i].Key())
  {
    Compile.EntriesDistinct(env, target);
  }

  lemma PutOneInv(env: Env, s: Sys)
    requires Inv(env, s) && s.phase.Populating? && Installable(env, s.phase.job.target)
    requires s.phase.done < |EntriesOf(env, s.phase.job.target)|
    ensures Inv(env, DoPut(env, s))
  {
    var p := s.phase;
    var es := EntriesOf(env, p.job.target);
    var slot := Put(SlotAt(s.node.kernel, p.job.slot), es[p.done]);
    assert es[..p.done + 1][..p.done] == es[..p.done];
    EntryInRange(env, p.job.target, p.done);
    PutShape(SlotAt(s.node.kernel, p.job.slot), es[p.done]);
    SlotWrite(env, s, p.job, slot, Populating(p.job, p.done + 1));
  }

  lemma PutFailsInv(env: Env, s: Sys, keys: seq<MapKey>)
    requires Inv(env, s) && s.phase.Populating? && ClearsAll(SlotAt(s.node.kernel, s.phase.job.slot), keys)
    ensures Inv(env, StartWipe(s, s.phase.job, AtPopulate, keys))
  {
  }

  lemma PutDoneInv(env: Env, s: Sys, todo: Targets)
    requires Inv(env, s) && s.phase.Populating? && Installable(env, s.phase.job.target)
    requires s.phase.done == |EntriesOf(env, s.phase.job.target)| && TargetPlan(s.phase.job.target, todo)
    ensures Inv(env, s.(phase := Binding(s.phase.job, todo, 0)))
  {
    var p := s.phase;
    var es := EntriesOf(env, p.job.target);
    assert es[..p.done] == es;
  }

  lemma KeepsBound(base: map<u32, u32>, m: map<u32, u32>, p: Option<Snapshot>)
    requires Keeps(base, m) && BoundTo(base, p)
    ensures BoundTo(m, p)
  {
  }

  lemma KeepsTransitive(a: map<u32, u32>, b: map<u32, u32>, c: map<u32, u32>)
    requires Keeps(a, b) && Keeps(b, c)
    ensures Keeps(a, c)
  {
  }

  lemma BindOneInv(env: Env, s: Sys)
    requires Inv(env, s) && s.phase.Binding? && s.phase.done < |s.phase.todo|
    requires Get(s.node.kernel.devmap, s.phase.todo[s.phase.done].0) in {None, Some(s.phase.todo[s.phase.done].1)}
    ensures Inv(env, DoBind(s))
  {
    var p := s.phase;
    var base, part := p.job.before.kernel.devmap, p.todo[..p.done + 1];
    assert part[..p.done] == p.todo[..p.done];
    BindKeeps(base, part);
    DevmapWrite(env, s, p.job, BindAll(base, part), Binding(p.job, p.todo, p.done + 1));
  }

  lemma BindFailsInv(env: Env, s: Sys)
    requires Inv(env, s) && s.phase.Binding?
    ensures Inv(env, s.(phase := Unbinding(s.phase.job, AtDevmap, s.phase.todo, s.phase.done)))
  {
  }

  lemma BindDoneInv(env: Env, s: Sys)
    requires Inv(env, s) && s.phase.Binding? && s.phase.done == |s.phase.todo|
    ensures Inv(env, s.(phase := Flipping(s.phase.job, s.phase.todo)))
  {
  }

  /** Once all targets are bound the new policy forwards to its own interfaces. */
  lemma PlanBinds(base: map<u32, u32>, s: Snapshot, todo: Targets)
    requires TargetPlan(s, todo) && Agreeing(base, todo)
    ensures Refinement.Bound(BindAll(base, todo), s)
  {
    forall t | t in s.services
      ensures t.devmapKey in BindAll(base, todo) && BindAll(base, todo)[t.devmapKey] == t.outputIfindex
    {
      BindReaches(base, todo, (t.devmapKey, t.outputIfindex));
    }
  }

  lemma FlipOkInv(env: Env, s: Sys, now: u64)
    requires Inv(env, s) && s.phase.Flipping?
    ensures Inv(env, DoFlip(s, now))
  {
    var p := s.phase;
    assert p.todo[..|p.todo|] == p.todo;
    PlanBinds(p.job.before.kernel.devmap, p.job.target, p.todo);
  }

  lemma FlipFailsInv(env: Env, s: Sys)
    requires Inv(env, s) && s.phase.Flipping?
    ensures Inv(env, s.(phase := Unbinding(s.phase.job, AtFlip, s.phase.todo, |s.phase.todo|)))
  {
  }

  lemma SaveOkInv(env: Env, s: Sys)
    requires Inv(env, s) && s.phase.Saving?
    ensures Inv(env, DoSave(s))
  {
  }

  lemma SaveFailsInv(env: Env, s: Sys)
    requires Inv(env, s) && s.phase.Saving?
    ensures Inv(env, s.(phase := Restoring(s.phase.job, s.phase.todo)))
  {
  }

  lemma RestoreConfigInv(env: Env, s: Sys)
    requires Inv(env, s) && s.phase.Restoring?
    ensures Inv(env, DoRestoreConfig(s))
  {
  }

  lemma UnbindOneInv(env: Env, s: Sys)
    requires Inv(env, s) && s.phase.Unbinding? && 0 < s.phase.left <= |s.phase.todo|
    ensures Inv(env, DoUnbind(s))
  {
    var p := s.phase;
    var base, n, part := p.job.before.kernel.devmap, p.left - 1, p.todo[..p.left];
    assert part[..n] == p.todo[..n];
    BackupAt(base, p.todo, p.left);
    UndoLast(base, part);
    BindKeeps(base, p.todo[..n]);
    DevmapWrite(env, s, p.job, BindAll(base, p.todo[..n]), Unbinding(p.job, p.stage, p.todo, n));
  }

  lemma BackupAt(m: map<u32, u32>, todo: Targets, n: nat)
    requires 0 < n <= |todo|
    ensures Backups(m, todo)[n - 1] == Backups(m, todo[..n])[n - 1]
  {
    BackupsPrefix(m, todo, n);
    assert Backups(m, todo)[..n][n - 1] == Backups(m, todo)[n - 1];
  }

  lemma BackupShared(m: map<u32, u32>, todo: Targets, n: nat, i: nat)
    requires i < n <= |todo|
    ensures Backups(m, todo[..n])[i] == Backups(m, todo)[i]
  {
    BackupsPrefix(m, todo, n);
    assert Backups(m, todo)[..n][i] == Backups(m, todo)[i];
  }

  lemma {:induction false} BackupsPrefix(m: map<u32, u32>, todo: Targets, n: nat)
    requires n <= |todo|
    ensures Backups(m, todo)[..n] == Backups(m, todo[..n])
    decreases |todo| - n
  {
    if n == |todo| {
      assert todo[..n] == todo;
    } else {
      BackupsPrefix(m, todo, n + 1);
      assert todo[..n + 1][..n] == todo[..n];
      assert Backups(m, todo[..n + 1])[..n] == Backups(m, todo[..n]);
      assert Backups(m, todo)[..n] == Backups(m, todo)[..n + 1][..n];
    }
  }

  lemma UnbindDoneInv(env: Env, s: Sys, keys: seq<MapKey>)
    requires Inv(env, s) && s.phase.Unbinding? && s.phase.left == 0
    requires ClearsAll(SlotAt(s.node.kernel, s.phase.job.slot), keys)
    ensures Inv(env, StartWipe(s, s.phase.job, s.phase.stage, keys))
  {
  }

  lemma WipeOneInv(env: Env, s: Sys)
    requires Inv(env, s) && s.phase.Wiping? && s.phase.done < |s.phase.keys|
    ensures Inv(env, DoWipe(s))
  {
    var p := s.phase;
    var slot := Remove(SlotAt(s.node.kernel, p.job.slot), p.keys[p.done]);
    assert p.keys[..p.done + 1][..p.done] == p.keys[..p.done];
    assert p.keys[p.done] in p.keys;
    RemoveShape(SlotAt(s.node.kernel, p.job.slot), p.keys[p.done]);
    SlotWrite(env, s, p.job, slot, Wiping(p.job, p.stage, p.start, p.keys, p.done + 1));
  }

  lemma WipeDoneInv(env: Env, s: Sys)
    requires Inv(env, s) && s.phase.Wiping? && s.phase.done == |s.phase.keys|
    ensures Inv(env, GiveUp(s, s.phase.job, s.phase.stage))
  {
    var p := s.phase;
    assert p.keys[..p.done] == p.keys;
    ClearEmpties(p.start, p.keys);
  }

  lemma CrashInv(env: Env, s: Sys)
    requires Inv(env, s)
    ensures Inv(env, s.(phase := Down, report := NoReport))
  {
  }

  lemma RestartInv(env: Env, s: Sys, now: u64)
    requires Inv(env, s) && s.phase.Down?
    ensures Inv(env, DoRestart(s, now))
  {
  }

  lemma ClearStepInv(env: Env, s: Sys, e: Event)
    requires Inv(env, s) && Enabled(env, s, e) && (e.Begin? || e.ClearOne? || e.ClearFails? || e.ClearDone?)
    ensures Inv(env, After(env, s, e))
  {
    match e
    case Begin(target, keys) => BeginInv(env, s, target, keys);
    case ClearOne => ClearOneInv(env, s);
    case ClearFails => ClearFailsInv(env, s);
    case ClearDone => ClearDoneInv(env, s);
  }

  lemma PutStepInv(env: Env, s: Sys, e: Event)
    requires Inv(env, s) && Enabled(env, s, e) && (e.PutFails? || e.PutDone?)
    ensures Inv(env, After(env, s, e))
  {
    match e
    case PutFails(keys) => PutFailsInv(env, s, keys);
    case PutDone(todo) => PutDoneInv(env, s, todo);
  }

  lemma BindStepInv(env: Env, s: Sys, e: Event)
    requires Inv(env, s) && Enabled(env, s, e) && (e.BindOne? || e.BindFails? || e.BindDone?)
    ensures Inv(env, After(env, s, e))
  {
    match e
    case BindOne => BindOneInv(env, s);
    case BindFails => BindFailsInv(env, s);
    case BindDone => BindDoneInv(env, s);
  }

  lemma CommitStepInv(env: Env, s: Sys, e: Event)
    requires Inv(env, s) && Enabled(env, s, e) && (e.FlipOk? || e.FlipFails? || e.SaveOk? || e.SaveFails?)
    ensures Inv(env, After(env, s, e))
  {
    match e
    case FlipOk(now) => FlipOkInv(env, s, now);
    case FlipFails => FlipFailsInv(env, s);
    case SaveOk => SaveOkInv(env, s);
    case SaveFails => SaveFailsInv(env, s);
  }

  lemma UndoStepInv(env: Env, s: Sys, e: Event)
    requires Inv(env, s) && Enabled(env, s, e) && (e.RestoreConfig? || e.UnbindOne? || e.UnbindDone?)
    ensures Inv(env, After(env, s, e))
  {
    match e
    case RestoreConfig => RestoreConfigInv(env, s);
    case UnbindOne => UnbindOneInv(env, s);
    case UnbindDone(keys) => UnbindDoneInv(env, s, keys);
  }

  lemma WipeStepInv(env: Env, s: Sys, e: Event)
    requires Inv(env, s) && Enabled(env, s, e) && (e.WipeOne? || e.WipeDone?)
    ensures Inv(env, After(env, s, e))
  {
    match e
    case WipeOne => WipeOneInv(env, s);
    case WipeDone => WipeDoneInv(env, s);
  }

  lemma OtherStepInv(env: Env, s: Sys, e: Event)
    requires Inv(env, s) && Enabled(env, s, e) && (e.Reject? || e.Crash? || e.Restart?)
    ensures Inv(env, After(env, s, e))
  {
    match e
    case Reject =>
    case Crash => CrashInv(env, s);
    case Restart(now) => RestartInv(env, s, now);
  }

  /** Every step keeps the invariant. */
  lemma StepInv(env: Env, s: Sys, e: Event)
    requires Inv(env, s) && Enabled(env, s, e)
    ensures Inv(env, After(env, s, e))
  {
    if e.Begin? || e.ClearOne? || e.ClearFails? || e.ClearDone? {
      ClearStepInv(env, s, e);
    } else if e.PutOne? {
      PutOneInv(env, s);
    } else if e.PutFails? || e.PutDone? {
      PutStepInv(env, s, e);
    } else if e.BindOne? || e.BindFails? || e.BindDone? {
      BindStepInv(env, s, e);
    } else if e.FlipOk? || e.FlipFails? || e.SaveOk? || e.SaveFails? {
      CommitStepInv(env, s, e);
    } else if e.WipeOne? || e.WipeDone? {
      WipeStepInv(env, s, e);
    } else if e.RestoreConfig? || e.UnbindOne? || e.UnbindDone? {
      UndoStepInv(env, s, e);
    } else {
      OtherStepInv(env, s, e);
    }
  }

  /** Every state of every run satisfies the invariant. */
  lemma {:induction false} RunInv(env: Env, run: seq<Sys>, n: nat)
    requires IsRun(env, run) && n < |run|
    ensures Inv(env, run[n])
  {
    if n == 0 {
      InitInv(env, run[0]);
    } else {
      RunInv(env, run, n - 1);
      assert Next(env, run[n - 1], run[n]);
      var e :| Enabled(env, run[n - 1], e) && run[n] == After(env, run[n - 1], e);
      StepInv(env, run[n - 1], e);
    }
  }
}
