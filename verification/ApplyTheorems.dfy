/** What the apply machine guarantees over every run: packets, failures, crashes, forwarding. */
module ApplyTheorems {
  import opened Words
  import opened Contract
  import opened Maps
  import opened Policy
  import opened DataPlane
  import opened Devmap
  import opened Apply
  import opened ApplySafety
  import Compile
  import Refinement

  // ---------- packets ----------

  /** The kernel as if the policy were alone on it: its slot, its own devmap targets, nothing else. */
  ghost function Alone(env: Env, p: Option<Snapshot>, config: RuntimeConfig): (k: Kernel)
    requires p.Some? ==> Installable(env, p.value)
  {
    match p
    case None => Kernel(config, EMPTY_SLOT, EMPTY_SLOT, map[])
    case Some(s) => Kernel(config, Compiled(env, s), Compiled(env, s), OwnTargets(s))
  }

  ghost predicate Uses(s: Snapshot, key: u32) {
    exists t :: t in s.services && t.devmapKey == key
  }

  ghost function TargetOf(s: Snapshot, key: u32): (ifindex: u32)
    requires Uses(s, key)
  {
    var t :| t in s.services && t.devmapKey == key;
    t.outputIfindex
  }

  ghost function OwnTargets(s: Snapshot): (m: map<u32, u32>) {
    map key: u32 | 0 <= key < MAX_TX_DEVMAP && Uses(s, key) :: TargetOf(s, key)
  }

  /** The devmap matters to the pipeline only at the keys of the slot's services. */
  lemma ProcessDevmap(
    f: Filtered, rules: map<u32, RuleValue>, m: map<u32, u32>, n: map<u32, u32>, denom: u32, rate: RateMap,
    sur: Surroundings)
    requires f.Cleared? ==> Get(m, f.service.devmapKey) == Get(n, f.service.devmapKey)
    ensures Process(f, rules, m, denom, rate, sur) == Process(f, rules, n, denom, rate, sur)
  {
  }

  lemma PipelineDevmap(
    slot: Slot, m: map<u32, u32>, n: map<u32, u32>, denom: u32, rate: RateMap, sur: Surroundings, frame: seq<u8>)
    requires forall k | k in slot.services :: Get(m, slot.services[k].devmapKey) == Get(n, slot.services[k].devmapKey)
    ensures Pipeline(slot, m, denom, rate, sur, frame) == Pipeline(slot, n, denom, rate, sur, frame)
  {
    var meta := DataPlane.Packet.Parse(frame).1;
    ProcessDevmap(Filter(slot, meta), slot.rules, m, n, denom, rate, sur);
  }

  lemma TargetOfBound(s: Snapshot, devmap: map<u32, u32>, key: u32)
    requires Refinement.Bound(devmap, s) && Uses(s, key)
    ensures key in devmap && TargetOf(s, key) == devmap[key]
  {
  }

  lemma ServiceOrigin(env: Env, s: Snapshot, k: ServiceKey) returns (t: Service)
    requires Installable(env, s) && k in Compiled(env, s).services
    ensures t in s.services && t.devmapKey == Compiled(env, s).services[k].devmapKey
  {
    var v := Compiled(env, s).services[k];
    Compile.ServiceHas(env, s, AllowEntry(k, v));
    t :| t in s.services && ServiceEntryOf(env, t).Some? && ServiceMapEntry(env, t) == AllowEntry(k, v);
  }

  /** A policy whose keys are all bound meets only its own targets in the shared devmap. */
  lemma SharedDevmap(env: Env, s: Snapshot, devmap: map<u32, u32>, k: ServiceKey)
    requires Installable(env, s) && Refinement.Bound(devmap, s) && k in Compiled(env, s).services
    ensures
      var key := Compiled(env, s).services[k].devmapKey;
      Get(devmap, key) == Get(OwnTargets(s), key)
  {
    var t := ServiceOrigin(env, s, k);
    InstallableServices(env, s);
    assert Uses(s, t.devmapKey);
    TargetOfBound(s, devmap, t.devmapKey);
  }

  /** In every state of the machine, whatever step the agent is at, a packet is decided exactly as if the
      live policy were alone on the kernel. */
  lemma PacketSeesOnePolicy(env: Env, s: Sys, rate: RateMap, sur: Surroundings, frame: seq<u8>)
    requires Inv(env, s)
    ensures s.live.Some? ==> Installable(env, s.live.value)
    ensures XdpEntry(s.node.kernel, rate, sur, frame) ==
      XdpEntry(Alone(env, s.live, s.node.kernel.config), rate, sur, frame)
  {
    var k := s.node.kernel;
    var slot := SlotAt(k, k.config.activeSlot);
    var alone := Alone(env, s.live, k.config);
    if s.live.Some? {
      forall key | key in slot.services
        ensures Get(k.devmap, slot.services[key].devmapKey) == Get(alone.devmap, slot.services[key].devmapKey)
      {
        SharedDevmap(env, s.live.value, k.devmap, key);
      }
    }
    PipelineDevmap(slot, k.devmap, alone.devmap, k.config.sampleDenom, rate, sur, frame);
  }

  /** Over every run, with any operation failing and crashes anywhere: each packet is decided wholly by
      the policy of the record (the old one until the apply commits) or wholly by the one being applied. */
  lemma NeverAMixture(env: Env, run: seq<Sys>, i: nat, rate: RateMap, sur: Surroundings, frame: seq<u8>)
    requires IsRun(env, run) && i < |run|
    ensures run[i].live == run[i].node.record.policy || run[i].live == run[i].pending
    ensures run[i].live.Some? ==> Installable(env, run[i].live.value)
    ensures XdpEntry(run[i].node.kernel, rate, sur, frame)
            == XdpEntry(Alone(env, run[i].live, run[i].node.kernel.config), rate, sur, frame)
  {
    RunInv(env, run, i);
    PacketSeesOnePolicy(env, run[i], rate, sur, frame);
  }

  /** In a sound state packets are decided by the lists of the policy that is live. */
  lemma StateFollowsTheLists(env: Env, s: Sys, rate: RateMap, sur: Surroundings, frame: seq<u8>)
    requires Inv(env, s) && s.live.Some?
    ensures
      var o := XdpEntry(s.node.kernel, rate, sur, frame);
      var j := Refinement.Judge(env, s.live.value, frame, rate, sur);
      o.verdict == j.verdict && o.meta.reason == j.reason && o.egress == j.egress
  {
    var config := s.node.kernel.config;
    Refinement.EndToEnd(env, s.live.value, s.node.kernel.devmap, config.sampleDenom, rate, sur, frame);
  }

  /** And that decision is the one the policy's own lists prescribe. */
  lemma PacketsFollowTheLists(env: Env, run: seq<Sys>, i: nat, rate: RateMap, sur: Surroundings, frame: seq<u8>)
    requires IsRun(env, run) && i < |run| && run[i].live.Some?
    ensures
      var s := run[i];
      var o := XdpEntry(s.node.kernel, rate, sur, frame);
      var j := Refinement.Judge(env, s.live.value, frame, rate, sur);
      o.verdict == j.verdict && o.meta.reason == j.reason && o.egress == j.egress
  {
    RunInv(env, run, i);
    StateFollowsTheLists(env, run[i], rate, sur, frame);
  }

  // ---------- failed applies ----------

  /** A failed apply, at whatever stage, leaves configuration, active slot, devmap and record as they
      were; past the clear stage it leaves the inactive slot empty. */
  lemma FailedApplyIsNoOp(env: Env, run: seq<Sys>, i: nat)
    requires IsRun(env, run) && i < |run| && run[i].phase.Idle? && run[i].report.Failed?
    ensures
      var job, n := run[i].report.job, run[i].node;
      && Untouched(n, job)
      && (run[i].report.stage != AtClear ==> SlotAt(n.kernel, job.slot) == EMPTY_SLOT)
  {
    RunInv(env, run, i);
  }

  // ---------- crashes ----------

  /** From any state of any run: die, restart on a record that verifies. The reseeded active slot holds
      exactly the policy of the record, fully bound, under its version. */
  lemma CrashConsistent(env: Env, run: seq<Sys>, i: nat, now: u64)
    requires IsRun(env, run) && i < |run|
    ensures
      var n := DoRestart(run[i], now).node;
      && n.record == run[i].node.record
      && Serves(env, n, n.kernel.config.activeSlot, n.record.policy)
      && Describes(n.kernel.config.policyVersion, n.kernel.config.sampleDenom, n.record.policy)
  {
    RunInv(env, run, i);
  }

  /** Restart when the record does not verify: the agent writes the default record and serves slot A. */
  function DefaultRestart(n: Node, now: u64): (r: Node) {
    WithConfig(n, ConfigOf(DEFAULT_RECORD, now)).(record := DEFAULT_RECORD)
  }

  /** An apply is writing slot A. */
  predicate OnSlotA(s: Sys) {
    !s.phase.Idle? && !s.phase.Down? && s.phase.job.slot == 0
  }

  /** What slot A holds in the middle of an apply, and exactly when that is whole: while it is cleared, it
      is still the old policy iff nothing stored was removed and empty iff everything stored was; while it
      is written, it is the new policy iff only zero rules are left; from then on it is the new policy. */
  ghost predicate SlotAKnown(env: Env, s: Sys)
    requires OnSlotA(s)
  {
    var slot := s.node.kernel.slotA;
    match s.phase
    case Clearing(job, keys, done) => done <= |keys| && ShrunkExactly(slot, job.before.kernel.slotA, keys[..done])
    case Populating(job, done) =>
      && Installable(env, job.target) && done <= |EntriesOf(env, job.target)|
      && (slot == Compiled(env, job.target) <==>
            forall k | done <= k < |EntriesOf(env, job.target)| :: ZeroRule(EntriesOf(env, job.target)[k]))
    case Wiping(job, stage, start, keys, done) => done <= |keys| && ShrunkExactly(slot, start, keys[..done])
    case Binding(job, _, _) => Finished(env, slot, job)
    case Flipping(job, _) => Finished(env, slot, job)
    case Saving(job, _) => Finished(env, slot, job)
    case Restoring(job, _) => Finished(env, slot, job)
    case Unbinding(job, _, _, _) => Finished(env, slot, job)
  }

  ghost predicate Finished(env: Env, slot: Slot, job: Job) {
    Installable(env, job.target) && slot == Compiled(env, job.target)
  }

  ghost predicate ShrunkExactly(slot: Slot, start: Slot, removed: seq<MapKey>) {
    && slot == RemoveAll(start, removed)
    && (slot == start <==> forall k | k in removed :: !Occupied(start, k))
    && (slot == EMPTY_SLOT <==> forall k | Occupied(start, k) :: k in removed)
  }

  lemma ClearingKnown(env: Env, s: Sys)
    requires Inv(env, s) && OnSlotA(s) && s.phase.Clearing?
    ensures SlotAKnown(env, s)
  {
    var p := s.phase;
    assert forall k | k in p.keys[..p.done] :: k in p.keys;
    RemovedExactly(p.job.before.kernel.slotA, p.keys[..p.done]);
  }

  lemma WipingKnown(env: Env, s: Sys)
    requires Inv(env, s) && OnSlotA(s) && s.phase.Wiping?
    ensures SlotAKnown(env, s)
  {
    var p := s.phase;
    assert forall k | k in p.keys[..p.done] :: k in p.keys;
    RemovedExactly(p.start, p.keys[..p.done]);
  }

  /** A slot that holds the first entries of a policy is that policy exactly when the rest are zero rules. */
  lemma HalfWrittenExactly(env: Env, target: Snapshot, done: nat)
    requires Installable(env, target) && done <= |EntriesOf(env, target)|
    ensures PutAll(EMPTY_SLOT, EntriesOf(env, target)[..done]) == Compiled(env, target) <==>
      forall k | done <= k < |EntriesOf(env, target)| :: ZeroRule(EntriesOf(env, target)[k])
  {
    Compile.EntriesDistinct(env, target);
    WrittenExactly(EntriesOf(env, target), done);
  }

  lemma PopulatingKnown(env: Env, s: Sys)
    requires Inv(env, s) && OnSlotA(s) && s.phase.Populating?
    ensures SlotAKnown(env, s)
  {
    HalfWrittenExactly(env, s.phase.job.target, s.phase.done);
  }

  lemma InFlightKnown(env: Env, s: Sys)
    requires Inv(env, s) && OnSlotA(s)
    ensures SlotAKnown(env, s)
  {
    if s.phase.Clearing? {
      ClearingKnown(env, s);
    } else if s.phase.Populating? {
      PopulatingKnown(env, s);
    } else if s.phase.Wiping? {
      WipingKnown(env, s);
    }
  }

  /** The latest state, up to i, in which an apply was writing slot A; the first state if there is none. */
  function LastOnSlotA(run: seq<Sys>, i: nat): (j: nat)
    requires i < |run|
    ensures j <= i && (j == 0 || OnSlotA(run[j]))
  {
    if i == 0 || OnSlotA(run[i]) then i else LastOnSlotA(run, i - 1)
  }

  lemma OthersLeaveSlotA(env: Env, s: Sys, e: Event)
    requires Enabled(env, s, e) && !OnSlotA(After(env, s, e))
    ensures After(env, s, e).node.kernel.slotA == s.node.kernel.slotA
  {
  }

  lemma StepLeavesSlotA(env: Env, run: seq<Sys>, i: nat)
    requires IsRun(env, run) && 0 < i < |run| && !OnSlotA(run[i])
    ensures run[i].node.kernel.slotA == run[i - 1].node.kernel.slotA
  {
    assert Next(env, run[i - 1], run[i]);
    var e :| Enabled(env, run[i - 1], e) && run[i] == After(env, run[i - 1], e);
    OthersLeaveSlotA(env, run[i - 1], e);
  }

  lemma {:induction false} SlotAStays(env: Env, run: seq<Sys>, i: nat)
    requires IsRun(env, run) && i < |run|
    ensures run[i].node.kernel.slotA == run[LastOnSlotA(run, i)].node.kernel.slotA
  {
    if i > 0 && !OnSlotA(run[i]) {
      SlotAStays(env, run, i - 1);
      StepLeavesSlotA(env, run, i);
    }
  }

  lemma InitSlotA(s: Sys)
    requires Init(s)
    ensures s.node.kernel.slotA == EMPTY_SLOT && !OnSlotA(s)
  {
  }

  /** Then slot A is served whatever it holds, in every state of every run: the recorded policy when the
      lost record named slot A; in general what the last apply into slot A left there, whole exactly when
      SlotAKnown says so of the state in which it was left; nothing at all when there was no such apply. */
  lemma DefaultRestartServesSlotA(env: Env, run: seq<Sys>, i: nat, now: u64)
    requires IsRun(env, run) && i < |run|
    ensures
      var s, n, last := run[i], DefaultRestart(run[i].node, now), run[LastOnSlotA(run, i)];
      && n.kernel.config.activeSlot == 0 && SlotAt(n.kernel, 0) == last.node.kernel.slotA
      && (s.node.record.activeSlot == 0 ==> Holds(env, SlotAt(n.kernel, 0), s.node.record.policy))
      && (if OnSlotA(last) then SlotAKnown(env, last) else SlotAt(n.kernel, 0) == EMPTY_SLOT)
  {
    RunInv(env, run, i);
    SlotAStays(env, run, i);
    var j := LastOnSlotA(run, i);
    if OnSlotA(run[j]) {
      RunInv(env, run, j);
      InFlightKnown(env, run[j]);
    } else {
      InitSlotA(run[0]);
    }
  }

  // ---------- forwarding ----------

  /** Only a successful apply changes what counts as committed. */
  lemma OnlySavesCommit(env: Env, s: Sys, e: Event)
    requires Enabled(env, s, e) && !e.SaveOk?
    ensures After(env, s, e).committed == s.committed
  {
  }

  /** Bindings of successful applies are never forgotten or changed by a step. */
  lemma StepKeepsCommitted(env: Env, run: seq<Sys>, j: nat)
    requires IsRun(env, run) && j + 1 < |run|
    ensures Keeps(run[j].committed, run[j + 1].committed)
  {
    var s := run[j];
    assert Next(env, s, run[j + 1]);
    var e :| Enabled(env, s, e) && run[j + 1] == After(env, s, e);
    if e.SaveOk? {
      RunInv(env, run, j);
    } else {
      OnlySavesCommit(env, s, e);
    }
  }

  lemma {:induction false} CommittedGrows(env: Env, run: seq<Sys>, i: nat, j: nat)
    requires IsRun(env, run) && i <= j < |run|
    ensures Keeps(run[i].committed, run[j].committed)
    decreases j - i
  {
    if i < j {
      CommittedGrows(env, run, i, j - 1);
      StepKeepsCommitted(env, run, j - 1);
      KeepsTransitive(run[i].committed, run[j - 1].committed, run[j].committed);
    }
  }

  /** A devmap key bound when an apply succeeded keeps its target in every later state. */
  lemma BoundForever(env: Env, run: seq<Sys>, i: nat, j: nat, key: u32)
    requires IsRun(env, run) && i <= j < |run| && key in run[i].committed
    ensures key in run[j].node.kernel.devmap && run[j].node.kernel.devmap[key] == run[i].committed[key]
  {
    CommittedGrows(env, run, i, j);
    RunInv(env, run, j);
  }

  /** Every active service's key leads to its own interface, in every state of every run. */
  lemma ActiveServicesBound(env: Env, run: seq<Sys>, i: nat, t: Service)
    requires IsRun(env, run) && i < |run| && run[i].live.Some? && t in run[i].live.value.services
    ensures
      var devmap := run[i].node.kernel.devmap;
      t.devmapKey in devmap && devmap[t.devmapKey] == t.outputIfindex
  {
    RunInv(env, run, i);
  }

  /** A successful apply makes the record, the configuration and the active slot the new policy. */
  lemma AppliedIsLive(env: Env, s: Sys)
    requires Inv(env, s) && s.phase.Saving?
    ensures
      var t := DoSave(s);
      && t.live == Some(s.phase.job.target) && t.node.record.policy == t.live
      && Serves(env, t.node, t.node.kernel.config.activeSlot, t.live)
      && t.node.kernel.config.policyVersion == s.phase.job.target.version
      && Keeps(s.node.kernel.devmap, t.committed)
  {
    SaveOkInv(env, s);
  }
}
