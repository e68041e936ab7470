/** ApplyPolicySnapshot and the restart as the agent runs them, statement by statement. Every execution is
    a run of the step machine, so every theorem about runs holds of it. */
module ApplyProgram {
  import opened Words
  import opened Contract
  import opened Maps
  import opened Policy
  import opened DataPlane
  import opened Devmap
  import opened Apply
  import opened Prepare
  import Canonical
  import ApplySafety

  /** Configuration, devmap, record and active slot are as before. */
  predicate Undisturbed(before: Node, after: Node) {
    && after.kernel.config == before.kernel.config && after.kernel.devmap == before.kernel.devmap
    && after.record == before.record
    && SlotAt(after.kernel, after.kernel.config.activeSlot) == SlotAt(before.kernel, before.kernel.config.activeSlot)
  }

  method Listing<T>(xs: set<T>) returns (r: seq<T>)
    ensures forall x :: x in r <==> x in xs
  {
    r := [];
    var left := xs;
    while left != {}
      invariant left <= xs
      invariant forall x :: x in r <==> x in xs - left
      decreases left
    {
      var x :| x in left;
      left := left - {x};
      r := r + [x];
    }
  }

  /** The keys clearInactivePolicySlot deletes: what each map's iterator yields, then every rule index. */
  method KeysToClear(s: Slot) returns (keys: seq<MapKey>)
    requires WellShaped(s)
    ensures ClearsAll(s, keys)
  {
    var hashed :=
      (set k | k in s.whitelist.Keys :: WhitelistKey(k))
      + (set k | k in s.serviceWhitelist.Keys :: ServiceWhitelistKey(k))
      + (set k | k in s.blacklist.Keys :: BlacklistKey(k))
      + (set k | k in s.serviceBlacklist.Keys :: ServiceBlacklistKey(k))
      + (set k | k in s.udpBlocks.Keys :: UdpBlockKey(k))
      + (set k | k in s.serviceUdpBlocks.Keys :: ServiceUdpBlockKey(k))
      + (set k | k in s.services.Keys :: AllowKey(k));
    var listed := Listing(hashed);
    var indexes := seq(MAX_RULES, i requires 0 <= i < MAX_RULES => RuleKey(i));
    keys := listed + indexes;
    forall k | Occupied(s, k)
      ensures k in keys
    {
      if k.RuleKey? {
        assert indexes[k.rule] == k;
      } else {
        assert k in hashed;
      }
    }
  }

  /** The targets of updateDevmapTargets, keys ascending. */
  method ListTargets(s: Snapshot) returns (todo: Targets)
    requires forall t | t in s.services :: t.devmapKey < MAX_TX_DEVMAP
    requires forall t, u | t in s.services && u in s.services && t.devmapKey == u.devmapKey ::
      t.outputIfindex == u.outputIfindex
    ensures TargetPlan(s, todo)
  {
    var targets: map<u32, u32> := map[];
    for i := 0 to |s.services|
      invariant forall k | k in targets ::
        exists t :: t in s.services && t.devmapKey == k && t.outputIfindex == targets[k]
      invariant forall j | 0 <= j < i :: s.services[j].devmapKey in targets
    {
      targets := targets[s.services[i].devmapKey := s.services[i].outputIfindex];
    }
    todo := [];
    for key := 0 to MAX_TX_DEVMAP
      invariant forall p | p in todo :: p.0 in targets && p.1 == targets[p.0]
      invariant forall k | k in targets && k < key :: (k, targets[k]) in todo
      invariant forall i | 0 <= i < |todo| :: todo[i].0 < key
      invariant forall i, j | 0 <= i < j < |todo| :: todo[i].0 < todo[j].0
    {
      if key in targets {
        todo := todo + [(key, targets[key])];
      }
    }
    forall t | t in s.services
      ensures (t.devmapKey, t.outputIfindex) in todo
    {
      assert t.devmapKey in targets;
    }
  }

  lemma TargetsListable(env: Env, s: Snapshot)
    requires Installable(env, s)
    ensures forall t | t in s.services :: t.devmapKey < MAX_TX_DEVMAP
    ensures forall t, u | t in s.services && u in s.services && t.devmapKey == u.devmapKey ::
      t.outputIfindex == u.outputIfindex
  {
    InstallableServices(env, s);
    var instant: u64 :| EntriesValid(env, s, instant, false);
  }

  /** Which kernel and disk operations fail. */
  datatype Faults = Faults(clear: nat -> bool, put: nat -> bool, bind: nat -> bool, flip: bool, save: bool)

  class Agent {
    var node: Node
    ghost var state: Sys
    ghost var trace: seq<Sys>

    /** The node is the last state of a run of the machine. */
    ghost predicate Valid(env: Env)
      reads this
    {
      IsRun(env, trace) && trace[|trace| - 1] == state && state.node == node
    }

    ghost predicate Ready(env: Env, e: Event)
      reads this
    {
      IsRun(env, trace) && trace[|trace| - 1] == state && Enabled(env, state, e) && After(env, state, e).node == node
    }

    /** First start on a fresh host. */
    constructor (env: Env, now: u64)
      ensures Valid(env) && state.phase.Idle?
    {
      var start := Node(Kernel(ConfigOf(DEFAULT_RECORD, now), EMPTY_SLOT, EMPTY_SLOT, map[]), DEFAULT_RECORD);
      node := start;
      state := Sys(start, Idle, NoReport, None, None, map[]);
      trace := [Sys(start, Idle, NoReport, None, None, map[])];
    }

    ghost method Record(env: Env, e: Event)
      requires Ready(env, e)
      modifies this`state, this`trace
      ensures Valid(env) && state == After(env, old(state), e) && old(trace) <= trace
    {
      var next := After(env, state, e);
      assert Next(env, state, next);
      trace := trace + [next];
      state := next;
    }

    lemma ClearsInactive(env: Env)
      requires Valid(env) && state.phase.Clearing?
      ensures state.phase.job.slot == 1 - node.kernel.config.activeSlot
    {
      ApplySafety.RunInv(env, trace, |trace| - 1);
    }

    method ClearKey(env: Env, slot: u32, key: MapKey)
      requires Valid(env) && state.phase.Clearing? && state.phase.done < |state.phase.keys|
      requires slot == state.phase.job.slot && key == state.phase.keys[state.phase.done]
      modifies this
      ensures Valid(env) && old(trace) <= trace
      ensures var p := old(state).phase; state.phase == Clearing(p.job, p.keys, p.done + 1)
    {
      node := WithSlot(node, slot, Remove(SlotAt(node.kernel, slot), key));
      Record(env, ClearOne);
    }

    /** clearInactivePolicySlot with failures; false means it stopped at an error. */
    method ClearInactive(env: Env, keys: seq<MapKey>, fails: nat -> bool) returns (ok: bool)
      requires Valid(env) && state.phase.Clearing? && state.phase.keys == keys && state.phase.done == 0
      modifies this
      ensures Valid(env) && old(trace) <= trace
      ensures ok ==> state.phase == Populating(old(state).phase.job, 0)
      ensures !ok ==> state.phase.Idle? && state.report == Failed(old(state).phase.job, AtClear)
    {
      ghost var job := state.phase.job;
      var slot := 1 - node.kernel.config.activeSlot;
      ClearsInactive(env);
      var i := 0;
      while i < |keys|
        invariant i <= |keys| && Valid(env) && old(trace) <= trace
        invariant state.phase == Clearing(job, keys, i)
      {
        if fails(i) {
          Record(env, ClearFails);
          return false;
        }
        ClearKey(env, slot, keys[i]);
        i := i + 1;
      }
      Record(env, ClearDone);
      return true;
    }

    method WipeKey(env: Env, slot: u32, key: MapKey)
      requires Valid(env) && state.phase.Wiping? && state.phase.done < |state.phase.keys|
      requires slot == state.phase.job.slot && key == state.phase.keys[state.phase.done]
      modifies this
      ensures Valid(env) && old(trace) <= trace
      ensures var p := old(state).phase; state.phase == Wiping(p.job, p.stage, p.start, p.keys, p.done + 1)
    {
      node := WithSlot(node, slot, Remove(SlotAt(node.kernel, slot), key));
      Record(env, WipeOne);
    }

    /** rollbackInactive: the clear that ends a failed apply. */
    method WipeInactive(env: Env, slot: u32, keys: seq<MapKey>)
      requires Valid(env) && state.phase.Wiping? && state.phase.keys == keys && state.phase.done == 0
      requires state.phase.job.slot == slot
      modifies this
      ensures Valid(env) && old(trace) <= trace
      ensures state.phase.Idle? && state.report == Failed(old(state).phase.job, old(state).phase.stage)
    {
      ghost var p := state.phase;
      var i := 0;
      while i < |keys|
        invariant i <= |keys| && Valid(env) && old(trace) <= trace
        invariant state.phase == Wiping(p.job, p.stage, p.start, keys, i)
      {
        WipeKey(env, slot, keys[i]);
        i := i + 1;
      }
      Record(env, WipeDone);
    }

    method PutEntry(env: Env, slot: u32, entry: MapEntry)
      requires Valid(env) && state.phase.Populating? && Installable(env, state.phase.job.target)
      requires state.phase.done < |EntriesOf(env, state.phase.job.target)|
      requires slot == state.phase.job.slot && entry == EntriesOf(env, state.phase.job.target)[state.phase.done]
      modifies this
      ensures Valid(env) && old(trace) <= trace
      ensures var p := old(state).phase; state.phase == Populating(p.job, p.done + 1)
    {
      node := WithSlot(node, slot, Put(SlotAt(node.kernel, slot), entry));
      Record(env, PutOne);
    }

    /** The populate* calls: every entry of the policy into the inactive slot. */
    method Populate(env: Env, target: Snapshot, slot: u32, fails: nat -> bool) returns (ok: bool)
      requires Valid(env) && Installable(env, target)
      requires state.phase.Populating? && state.phase.done == 0 && state.phase.job.target == target
      requires state.phase.job.slot == slot
      modifies this
      ensures Valid(env) && old(trace) <= trace
      ensures state.phase.Populating? && state.phase.job == old(state).phase.job
      ensures ok ==> state.phase.done == |EntriesOf(env, target)|
    {
      ghost var job := state.phase.job;
      var entries := EntriesOf(env, target);
      var i := 0;
      while i < |entries|
        invariant i <= |entries| && Valid(env) && old(trace) <= trace
        invariant state.phase == Populating(job, i)
      {
        if fails(i) {
          return false;
        }
        PutEntry(env, slot, entries[i]);
        i := i + 1;
      }
      return true;
    }

    lemma DevmapSoFar(env: Env)
      requires Valid(env) && state.phase.Binding? && state.phase.done <= |state.phase.todo|
      ensures node.kernel.devmap == BindAll(state.phase.job.before.kernel.devmap, state.phase.todo[..state.phase.done])
    {
      ApplySafety.RunInv(env, trace, |trace| - 1);
    }

    /** updateDevmapTargets on the pinned map; done bindings were made, with their backups. */
    method BindTargets(
      env: Env, todo: Targets, fails: nat -> bool) returns (ok: bool, done: nat, backups: seq<Option<u32>>)
      requires Valid(env) && state.phase.Binding? && state.phase.todo == todo && state.phase.done == 0
      modifies this
      ensures Valid(env) && old(trace) <= trace
      ensures done <= |todo| && (ok ==> done == |todo|)
      ensures state.phase == Binding(old(state).phase.job, todo, done)
      ensures backups == Backups(old(state).phase.job.before.kernel.devmap, todo[..done])
    {
      ghost var job := state.phase.job;
      done, backups := 0, [];
      while done < |todo|
        invariant done <= |todo| && Valid(env) && old(trace) <= trace
        invariant state.phase == Binding(job, todo, done)
        invariant backups == Backups(job.before.kernel.devmap, todo[..done])
      {
        var (key, desired) := todo[done];
        var existing := Get(node.kernel.devmap, key);
        if (existing.Some? && existing.value != desired) || fails(done) {
          return false, done, backups;
        }
        DevmapSoFar(env);
        assert todo[..done + 1][..done] == todo[..done];
        node := WithDevmap(node, node.kernel.devmap[key := desired]);
        Record(env, BindOne);
        backups := backups + [existing];
        done := done + 1;
      }
      ok := true;
    }

    /** One binding undone: the backup written back, or the key deleted when it was unbound. */
    method UnbindTarget(env: Env, key: u32, backup: Option<u32>)
      requires Valid(env) && state.phase.Unbinding? && 0 < state.phase.left <= |state.phase.todo|
      requires key == state.phase.todo[state.phase.left - 1].0
      requires backup == Backups(state.phase.job.before.kernel.devmap, state.phase.todo)[state.phase.left - 1]
      modifies this
      ensures Valid(env) && old(trace) <= trace
      ensures var p := old(state).phase; state.phase == Unbinding(p.job, p.stage, p.todo, p.left - 1)
    {
      node := WithDevmap(node, Restore(node.kernel.devmap, key, backup));
      Record(env, UnbindOne);
    }

    /** rollbackDevmap: newest binding first, from the backups. */
    method UnbindTargets(env: Env, todo: Targets, done: nat, backups: seq<Option<u32>>)
      requires Valid(env) && state.phase.Unbinding? && state.phase.todo == todo && state.phase.left == done <= |todo|
      requires backups == Backups(state.phase.job.before.kernel.devmap, todo[..done])
      modifies this
      ensures Valid(env) && old(trace) <= trace
      ensures state.phase == Unbinding(old(state).phase.job, old(state).phase.stage, todo, 0)
    {
      ghost var p := state.phase;
      var i := done;
      while i > 0
        invariant 0 <= i <= done && Valid(env) && old(trace) <= trace
        invariant state.phase == Unbinding(p.job, p.stage, todo, i)
      {
        ApplySafety.BackupShared(p.job.before.kernel.devmap, todo, done, i - 1);
        UnbindTarget(env, todo[i - 1].0, backups[i - 1]);
        i := i - 1;
      }
    }

    /** The end of a failed apply once bindings were made: undo them, then clear the inactive slot. */
    method UndoBindings(env: Env, slot: u32, todo: Targets, done: nat, backups: seq<Option<u32>>)
      requires Valid(env) && state.phase.Unbinding? && state.phase.todo == todo && state.phase.left == done <= |todo|
      requires backups == Backups(state.phase.job.before.kernel.devmap, todo[..done]) && state.phase.job.slot == slot
      modifies this
      ensures Valid(env) && old(trace) <= trace
      ensures state.phase.Idle? && state.report == Failed(old(state).phase.job, old(state).phase.stage)
    {
      UnbindTargets(env, todo, done, backups);
      ShapesKept(env);
      var keys := KeysToClear(SlotAt(node.kernel, slot));
      Record(env, UnbindDone(keys));
      WipeInactive(env, slot, keys);
    }

    lemma ShapesKept(env: Env)
      requires Valid(env)
      ensures WellShaped(node.kernel.slotA) && WellShaped(node.kernel.slotB)
    {
      ApplySafety.RunInv(env, trace, |trace| - 1);
    }

    /** Saving the record; when that fails the previous configuration is put back and everything undone. */
    method Persist(
      env: Env, target: Snapshot, slot: u32, todo: Targets, backups: seq<Option<u32>>, current: RuntimeConfig,
      fails: bool)
      returns (ok: bool)
      requires Valid(env) && state.phase.Saving? && state.phase.todo == todo
      requires state.phase.job.target == target && state.phase.job.slot == slot
      requires state.phase.job.before.kernel.config == current
      requires backups == Backups(state.phase.job.before.kernel.devmap, todo[..|todo|])
      modifies this
      ensures Valid(env) && old(trace) <= trace && state.phase.Idle?
      ensures ok ==>
        state.report == Applied(target.version) && node == old(node).(record := NextRecord(old(state).phase.job))
      ensures !ok ==> state.report == Failed(old(state).phase.job, AtPersist)
    {
      if fails {
        Record(env, SaveFails);
        node := WithConfig(node, current);
        Record(env, RestoreConfig);
        UndoBindings(env, slot, todo, |todo|, backups);
        return false;
      }
      node := node.(record := Apply.Record(slot, target.version, target.runtime.sampleDenom, Some(target)));
      Record(env, SaveOk);
      return true;
    }

    /** The flip of runtime_config, then the record. */
    method Commit(
      env: Env, target: Snapshot, slot: u32, todo: Targets, backups: seq<Option<u32>>, faults: Faults, now: u64)
      returns (ok: bool)
      requires Valid(env) && state.phase.Flipping? && state.phase.todo == todo
      requires state.phase.job.target == target && state.phase.job.slot == slot
      requires state.phase.job.before.kernel.config == node.kernel.config
      requires backups == Backups(state.phase.job.before.kernel.devmap, todo[..|todo|])
      modifies this
      ensures Valid(env) && old(trace) <= trace && state.phase.Idle?
      ensures ok ==> state.report == Applied(target.version) && node.record == NextRecord(old(state).phase.job)
      ensures ok ==> node.kernel.config == NextConfig(old(state).phase.job, now)
      ensures !ok ==> state.report.Failed? && state.report.job == old(state).phase.job
    {
      var current := node.kernel.config;
      if faults.flip {
        Record(env, FlipFails);
        UndoBindings(env, slot, todo, |todo|, backups);
        return false;
      }
      node := WithConfig(node,
        RuntimeConfig(slot, target.version, target.runtime.malformedPolicy, target.runtime.sampleDenom, now));
      Record(env, FlipOk(now));
      ok := Persist(env, target, slot, todo, backups, current, faults.save);
    }

    lemma ConfigKept(env: Env)
      requires Valid(env) && state.phase.Flipping?
      ensures node.kernel.config == state.phase.job.before.kernel.config
    {
      ApplySafety.RunInv(env, trace, |trace| - 1);
    }

    /** From the populated slot on: devmap, flip, record. */
    method Activate(env: Env, target: Snapshot, slot: u32, faults: Faults, now: u64) returns (ok: bool)
      requires Valid(env) && Installable(env, target)
      requires state.phase.Populating? && state.phase.done == |EntriesOf(env, target)|
      requires state.phase.job.target == target && state.phase.job.slot == slot
      modifies this
      ensures Valid(env) && old(trace) <= trace && state.phase.Idle?
      ensures ok ==> state.report == Applied(target.version) && node.record == NextRecord(old(state).phase.job)
      ensures ok ==> node.kernel.config == NextConfig(old(state).phase.job, now)
      ensures !ok ==> state.report.Failed? && state.report.job == old(state).phase.job
    {
      TargetsListable(env, target);
      var todo := ListTargets(target);
      Record(env, PutDone(todo));
      var done, backups;
      ok, done, backups := BindTargets(env, todo, faults.bind);
      if !ok {
        Record(env, BindFails);
        UndoBindings(env, slot, todo, done, backups);
        return;
      }
      Record(env, BindDone);
      ConfigKept(env);
      ok := Commit(env, target, slot, todo, backups, faults, now);
    }

    /** Everything from the clear of the inactive slot on. */
    method Install(
      env: Env, target: Snapshot, slot: u32, keys: seq<MapKey>, faults: Faults, now: u64) returns (ok: bool)
      requires Valid(env) && Installable(env, target)
      requires state.phase == Clearing(Job(target, slot, node), keys, 0) && slot == 1 - node.kernel.config.activeSlot
      modifies this
      ensures Valid(env) && old(trace) <= trace && state.phase.Idle?
      ensures ok ==> state.report == Applied(target.version) && node.record == NextRecord(old(state).phase.job)
      ensures ok ==> node.kernel.config == NextConfig(old(state).phase.job, now)
      ensures !ok ==> state.report.Failed? && state.report.job == old(state).phase.job
    {
      ok := ClearInactive(env, keys, faults.clear);
      if !ok {
        return;
      }
      ok := Populate(env, target, slot, faults.put);
      if !ok {
        ShapesKept(env);
        var found := KeysToClear(SlotAt(node.kernel, slot));
        Record(env, PutFails(found));
        WipeInactive(env, slot, found);
        return;
      }
      ok := Activate(env, target, slot, faults, now);
    }

    lemma IdleFacts(env: Env)
      requires Valid(env) && state.phase.Idle?
      ensures state.report.Failed? ==> Untouched(node, state.report.job)
      ensures Serves(env, node, node.kernel.config.activeSlot, node.record.policy)
    {
      ApplySafety.RunInv(env, trace, |trace| - 1);
    }

    /** ApplyPolicySnapshot on a policy that passed every check. */
    method InstallPrepared(env: Env, target: Snapshot, faults: Faults, now: u64) returns (ok: bool)
      requires Valid(env) && state.phase.Idle? && Acceptable(env, node, target)
      modifies this
      ensures Valid(env) && old(trace) <= trace && state.phase.Idle?
      ensures ok ==> (
        && node.record ==
             Apply.Record(1 - old(node).kernel.config.activeSlot, target.version, target.runtime.sampleDenom,
               Some(target))
        && Serves(env, node, node.kernel.config.activeSlot, Some(target))
        && node.kernel.config.policyVersion == target.version)
      ensures !ok ==> Undisturbed(old(node), node)
    {
      var slot := 1 - node.kernel.config.activeSlot;
      ShapesKept(env);
      var keys := KeysToClear(SlotAt(node.kernel, slot));
      Record(env, Begin(target, keys));
      ok := Install(env, target, slot, keys, faults, now);
      IdleFacts(env);
    }

    /** ApplyPolicySnapshot: check and complete the policy, then install it. A refused or failed apply
        changes nothing that matters. */
    method ApplyPolicySnapshot(
      env: Env, norm: Snapshot -> Snapshot, s: Snapshot, answers: nat -> Option<Forwarding>, objectChecksum: string,
      faults: Faults, now: u64) returns (ok: bool)
      requires Valid(env) && state.phase.Idle? && Canonical.Sorts(norm)
      modifies this
      ensures Valid(env) && old(trace) <= trace && state.phase.Idle?
      ensures ok ==> (
        var prepared :=
          Prepared(env, norm, Gate(old(node).kernel.config.policyVersion, objectChecksum, now), s, answers);
        && prepared.Some? && node.record.policy == prepared
        && node.record.policyVersion == s.version > old(node).kernel.config.policyVersion
        && Serves(env, node, node.kernel.config.activeSlot, prepared)
        && node.kernel.config.policyVersion == s.version)
      ensures !ok ==> Undisturbed(old(node), node)
    {
      var current := node.kernel.config;
      if current.activeSlot > 1 {
        return false;
      }
      var gate := Gate(current.policyVersion, objectChecksum, now);
      if !Canonical.Verify(env, norm, s, Check(gate, true)) {
        return false;
      }
      var services := ResolveServices(norm(s).services, answers);
      if services.None? {
        return false;
      }
      var target := Canonical.Sign(env, norm, WithServices(norm(s), services.value));
      if !Canonical.Verify(env, norm, target, Check(gate, false)) {
        return false;
      }
      assert Prepared(env, norm, gate, s, answers) == Some(target);
      PreparedFaithful(env, norm, gate, s, answers);
      ok := InstallPrepared(env, target, faults, now);
    }

    /** Restart after a crash with a record that verifies: loadOrCreateSnapshot, then seedRuntimeConfig. */
    method Reload(env: Env, now: u64)
      requires Valid(env)
      modifies this
      ensures Valid(env) && old(trace) <= trace && state.phase.Idle? && node.record == old(node).record
    {
      Record(env, Crash);
      node := WithConfig(node, ConfigOf(node.record, now));
      Record(env, Restart(now));
    }
  }
}
