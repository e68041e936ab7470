/** Applying a policy as a step machine: every map operation is a step that may fail, packets look at
    the maps between any two steps, and the agent may die at any point and restart. */
module Apply {
  import opened Words
  import opened Contract
  import opened Maps
  import opened Policy
  import opened DataPlane
  import opened Devmap
  import Refinement

  /** The last-valid record on disk. No policy stands for the default record. */
  datatype Record = Record(activeSlot: u32, policyVersion: u32, sampleDenom: u32, policy: Option<Snapshot>)

  /** What survives the agent process: pinned maps and the record. */
  datatype Node = Node(kernel: Kernel, record: Record)

  const DEFAULT_RECORD := Record(0, 1, 1, None)

  /** One apply: what to install, into which slot, and the node when it began. */
  datatype Job = Job(target: Snapshot, slot: u32, before: Node)

  datatype Stage = AtClear | AtPopulate | AtDevmap | AtFlip | AtPersist

  datatype Phase =
    | Idle
    | Clearing(job: Job, keys: seq<MapKey>, done: nat)
    | Populating(job: Job, done: nat)
    | Binding(job: Job, todo: Targets, done: nat)
    | Flipping(job: Job, todo: Targets)
    | Saving(job: Job, todo: Targets)
    | Restoring(job: Job, todo: Targets)
    | Unbinding(job: Job, stage: Stage, todo: Targets, left: nat)
    | Wiping(job: Job, stage: Stage, start: Slot, keys: seq<MapKey>, done: nat)
    | Down

  datatype Report = NoReport | Applied(version: u32) | Failed(job: Job, stage: Stage)

  /** The node, the agent, and history: the policy the active slot serves, the policy being applied or
      interrupted, and the devmap bindings of successful applies. */
  datatype Sys = Sys(
    node: Node, phase: Phase, report: Report,
    live: Option<Snapshot>, pending: Option<Snapshot>, committed: map<u32, u32>)

  function SlotAt(k: Kernel, i: u32): (r: Slot) {
    if i == 0 then k.slotA else k.slotB
  }

  function WithSlot(n: Node, i: u32, s: Slot): (r: Node) {
    if i == 0 then n.(kernel := n.kernel.(slotA := s)) else n.(kernel := n.kernel.(slotB := s))
  }

  function WithDevmap(n: Node, m: map<u32, u32>): (r: Node) {
    n.(kernel := n.kernel.(devmap := m))
  }

  function WithConfig(n: Node, c: RuntimeConfig): (r: Node) {
    n.(kernel := n.kernel.(config := c))
  }

  /** LastValidSnapshot.RuntimeConfig. */
  function ConfigOf(r: Record, now: u64): (c: RuntimeConfig) {
    var malformed :=
      if r.policy.Some? && r.policy.value.runtime.malformedPolicy != 0 then r.policy.value.runtime.malformedPolicy
      else ACTION_DROP;
    RuntimeConfig(r.activeSlot, r.policyVersion, malformed, r.sampleDenom, now)
  }

  function NextConfig(job: Job, now: u64): (c: RuntimeConfig) {
    RuntimeConfig(job.slot, job.target.version, job.target.runtime.malformedPolicy, job.target.runtime.sampleDenom, now)
  }

  function NextRecord(job: Job): (r: Record) {
    Record(job.slot, job.target.version, job.target.runtime.sampleDenom, Some(job.target))
  }

  /** A listing of the devmap targets of a policy, keys ascending. */
  ghost predicate TargetPlan(s: Snapshot, todo: Targets) {
    && (forall t | t in s.services :: (t.devmapKey, t.outputIfindex) in todo)
    && (forall p | p in todo :: exists t :: t in s.services && p == (t.devmapKey, t.outputIfindex))
    && (forall i, j | 0 <= i < j < |todo| :: todo[i].0 < todo[j].0)
  }

  function EntriesOf(env: Env, s: Snapshot): (r: seq<MapEntry>)
    requires Installable(env, s)
  {
    InstallableServices(env, s);
    MapEntries(env, s)
  }

  // ---------- steps ----------

  datatype Event =
    | Reject
    | Begin(target: Snapshot, keys: seq<MapKey>)
    | ClearOne | ClearFails | ClearDone
    | PutOne | PutFails(keys: seq<MapKey>) | PutDone(todo: Targets)
    | BindOne | BindFails | BindDone
    | FlipOk(now: u64) | FlipFails
    | SaveOk | SaveFails
    | RestoreConfig
    | UnbindOne | UnbindDone(keys: seq<MapKey>)
    | WipeOne | WipeDone
    | Crash
    | Restart(now: u64)

  /** The policy passed strict verification against the running configuration. */
  ghost predicate Acceptable(env: Env, n: Node, target: Snapshot) {
    && Installable(env, target)
    && target.version > n.kernel.config.policyVersion
    && n.kernel.config.activeSlot <= 1
  }

  ghost predicate Enabled(env: Env, s: Sys, e: Event) {
    match e
    case Reject => s.phase.Idle?
    case Begin(target, keys) =>
      s.phase.Idle? && Acceptable(env, s.node, target)
      && ClearsAll(SlotAt(s.node.kernel, 1 - s.node.kernel.config.activeSlot), keys)
    case ClearOne => s.phase.Clearing? && s.phase.done < |s.phase.keys|
    case ClearFails => s.phase.Clearing?
    case ClearDone => s.phase.Clearing? && s.phase.done == |s.phase.keys|
    case PutOne =>
      s.phase.Populating? && Installable(env, s.phase.job.target)
      && s.phase.done < |EntriesOf(env, s.phase.job.target)|
    case PutFails(keys) => s.phase.Populating? && ClearsAll(SlotAt(s.node.kernel, s.phase.job.slot), keys)
    case PutDone(todo) =>
      s.phase.Populating? && Installable(env, s.phase.job.target)
      && s.phase.done == |EntriesOf(env, s.phase.job.target)| && TargetPlan(s.phase.job.target, todo)
    case BindOne =>
      s.phase.Binding? && s.phase.done < |s.phase.todo|
      && Get(s.node.kernel.devmap, s.phase.todo[s.phase.done].0) in {None, Some(s.phase.todo[s.phase.done].1)}
    case BindFails => s.phase.Binding?
    case BindDone => s.phase.Binding? && s.phase.done == |s.phase.todo|
    case FlipOk(_) => s.phase.Flipping?
    case FlipFails => s.phase.Flipping?
    case SaveOk => s.phase.Saving?
    case SaveFails => s.phase.Saving?
    case RestoreConfig => s.phase.Restoring?
    case UnbindOne => s.phase.Unbinding? && 0 < s.phase.left <= |s.phase.todo|
    case UnbindDone(keys) =>
      s.phase.Unbinding? && s.phase.left == 0
      && ClearsAll(SlotAt(s.node.kernel, s.phase.job.slot), keys)
    case WipeOne => s.phase.Wiping? && s.phase.done < |s.phase.keys|
    case WipeDone => s.phase.Wiping? && s.phase.done == |s.phase.keys|
    case Crash => true
    case Restart(_) => s.phase.Down?
  }

  ghost function DoBegin(s: Sys, target: Snapshot, keys: seq<MapKey>): (r: Sys)
    requires s.node.kernel.config.activeSlot <= 1
  {
    s.(phase := Clearing(Job(target, 1 - s.node.kernel.config.activeSlot, s.node), keys, 0),
       report := NoReport, pending := Some(target))
  }

  function DoClear(s: Sys): (r: Sys)
    requires s.phase.Clearing? && s.phase.done < |s.phase.keys|
  {
    var p := s.phase;
    s.(node := WithSlot(s.node, p.job.slot, Remove(SlotAt(s.node.kernel, p.job.slot), p.keys[p.done])),
       phase := Clearing(p.job, p.keys, p.done + 1))
  }

  ghost function DoPut(env: Env, s: Sys): (r: Sys)
    requires s.phase.Populating? && Installable(env, s.phase.job.target)
    requires s.phase.done < |EntriesOf(env, s.phase.job.target)|
  {
    var p := s.phase;
    var slot := Put(SlotAt(s.node.kernel, p.job.slot), EntriesOf(env, p.job.target)[p.done]);
    s.(node := WithSlot(s.node, p.job.slot, slot),
       phase := Populating(p.job, p.done + 1))
  }

  function DoBind(s: Sys): (r: Sys)
    requires s.phase.Binding? && s.phase.done < |s.phase.todo|
  {
    var p := s.phase;
    s.(node := WithDevmap(s.node, s.node.kernel.devmap[p.todo[p.done].0 := p.todo[p.done].1]),
       phase := Binding(p.job, p.todo, p.done + 1))
  }

  function DoFlip(s: Sys, now: u64): (r: Sys)
    requires s.phase.Flipping?
  {
    var p := s.phase;
    s.(node := WithConfig(s.node, NextConfig(p.job, now)), phase := Saving(p.job, p.todo), live := Some(p.job.target))
  }

  function DoSave(s: Sys): (r: Sys)
    requires s.phase.Saving?
  {
    var job := s.phase.job;
    s.(node := s.node.(record := NextRecord(job)), phase := Idle, report := Applied(job.target.version),
       pending := None, committed := s.node.kernel.devmap)
  }

  function DoRestoreConfig(s: Sys): (r: Sys)
    requires s.phase.Restoring?
  {
    var p := s.phase;
    s.(node := WithConfig(s.node, p.job.before.kernel.config),
       phase := Unbinding(p.job, AtPersist, p.todo, |p.todo|), live := s.node.record.policy)
  }

  function DoUnbind(s: Sys): (r: Sys)
    requires s.phase.Unbinding? && 0 < s.phase.left <= |s.phase.todo|
  {
    var p := s.phase;
    var backup := Backups(p.job.before.kernel.devmap, p.todo)[p.left - 1];
    s.(node := WithDevmap(s.node, Restore(s.node.kernel.devmap, p.todo[p.left - 1].0, backup)),
       phase := Unbinding(p.job, p.stage, p.todo, p.left - 1))
  }

  function DoWipe(s: Sys): (r: Sys)
    requires s.phase.Wiping? && s.phase.done < |s.phase.keys|
  {
    var p := s.phase;
    s.(node := WithSlot(s.node, p.job.slot, Remove(SlotAt(s.node.kernel, p.job.slot), p.keys[p.done])),
       phase := Wiping(p.job, p.stage, p.start, p.keys, p.done + 1))
  }

  function StartWipe(s: Sys, job: Job, stage: Stage, keys: seq<MapKey>): (r: Sys) {
    s.(phase := Wiping(job, stage, SlotAt(s.node.kernel, job.slot), keys, 0))
  }

  function GiveUp(s: Sys, job: Job, stage: Stage): (r: Sys) {
    s.(phase := Idle, report := Failed(job, stage), pending := None)
  }

  function DoRestart(s: Sys, now: u64): (r: Sys) {
    s.(node := WithConfig(s.node, ConfigOf(s.node.record, now)), phase := Idle, report := NoReport,
       live := s.node.record.policy, pending := None)
  }

  ghost function After(env: Env, s: Sys, e: Event): (r: Sys)
    requires Enabled(env, s, e)
  {
    var p := s.phase;
    match e
    case Reject => s
    case Begin(target, keys) => DoBegin(s, target, keys)
    case ClearOne => DoClear(s)
    case ClearFails => GiveUp(s, p.job, AtClear)
    case ClearDone => s.(phase := Populating(p.job, 0))
    case PutOne => DoPut(env, s)
    case PutFails(keys) => StartWipe(s, p.job, AtPopulate, keys)
    case PutDone(todo) => s.(phase := Binding(p.job, todo, 0))
    case BindOne => DoBind(s)
    case BindFails => s.(phase := Unbinding(p.job, AtDevmap, p.todo, p.done))
    case BindDone => s.(phase := Flipping(p.job, p.todo))
    case FlipOk(now) => DoFlip(s, now)
    case FlipFails => s.(phase := Unbinding(p.job, AtFlip, p.todo, |p.todo|))
    case SaveOk => DoSave(s)
    case SaveFails => s.(phase := Restoring(p.job, p.todo))
    case RestoreConfig => DoRestoreConfig(s)
    case UnbindOne => DoUnbind(s)
    case UnbindDone(keys) => StartWipe(s, p.job, p.stage, keys)
    case WipeOne => DoWipe(s)
    case WipeDone => GiveUp(s, p.job, p.stage)
    case Crash => s.(phase := Down, report := NoReport)
    case Restart(now) => DoRestart(s, now)
  }

  /** A fresh host after its first start: empty maps, the default record, the configuration seeded from it. */
  ghost predicate Init(s: Sys) {
    && s.node.kernel.slotA == EMPTY_SLOT && s.node.kernel.slotB == EMPTY_SLOT && s.node.kernel.devmap == map[]
    && s.node.record == DEFAULT_RECORD && (exists now: u64 :: s.node.kernel.config == ConfigOf(DEFAULT_RECORD, now))
    && s.phase.Idle? && s.report.NoReport? && s.live.None? && s.pending.None? && s.committed == map[]
  }

  ghost predicate Next(env: Env, s: Sys, t: Sys) {
    exists e :: Enabled(env, s, e) && t == After(env, s, e)
  }

  ghost predicate IsRun(env: Env, run: seq<Sys>) {
    run != [] && Init(run[0]) && forall i | 0 <= i < |run| - 1 :: Next(env, run[i], run[i + 1])
  }

  // ---------- the invariant ----------

  /** The slot holds exactly the policy; without a policy it is empty. */
  ghost predicate Holds(env: Env, slot: Slot, p: Option<Snapshot>) {
    match p
    case None => slot == EMPTY_SLOT
    case Some(s) => Installable(env, s) && slot == Compiled(env, s)
  }

  ghost predicate BoundTo(devmap: map<u32, u32>, p: Option<Snapshot>) {
    p.Some? ==> Refinement.Bound(devmap, p.value)
  }

  ghost predicate Serves(env: Env, n: Node, slot: u32, p: Option<Snapshot>) {
    slot <= 1 && Holds(env, SlotAt(n.kernel, slot), p) && BoundTo(n.kernel.devmap, p)
  }

  predicate Describes(version: u32, denom: u32, p: Option<Snapshot>) {
    match p
    case None => version == 1 && denom == 1
    case Some(s) => version == s.version && version > 0 && denom == s.runtime.sampleDenom
  }

  /** Holds in every phase: both the running configuration and the record point at a whole policy. */
  ghost predicate Sound(env: Env, s: Sys) {
    var n := s.node;
    && Serves(env, n, n.kernel.config.activeSlot, s.live)
    && Serves(env, n, n.record.activeSlot, n.record.policy)
    && Describes(n.kernel.config.policyVersion, n.kernel.config.sampleDenom, s.live)
    && Describes(n.record.policyVersion, n.record.sampleDenom, n.record.policy)
    && WellShaped(n.kernel.slotA) && WellShaped(n.kernel.slotB)
    && Keeps(s.committed, n.kernel.devmap)
    && (s.live == n.record.policy || s.live == s.pending)
  }

  /** The running configuration and the record agree. */
  ghost predicate Settled(s: Sys) {
    s.live == s.node.record.policy && s.node.kernel.config.activeSlot == s.node.record.activeSlot
  }

  /** What an apply in flight leaves alone. */
  ghost predicate Working(env: Env, s: Sys, job: Job) {
    var n, b := s.node, job.before;
    && Installable(env, job.target) && job.target.version > b.kernel.config.policyVersion
    && s.pending == Some(job.target)
    && b.kernel.config.activeSlot <= 1 && job.slot == 1 - b.kernel.config.activeSlot
    && n.record == b.record && b.record.activeSlot == b.kernel.config.activeSlot
    && SlotAt(n.kernel, 1 - job.slot) == SlotAt(b.kernel, 1 - job.slot)
    && BoundTo(b.kernel.devmap, b.record.policy)
    && Keeps(s.committed, b.kernel.devmap)
    && Describes(b.kernel.config.policyVersion, b.kernel.config.sampleDenom, b.record.policy)
  }

  /** Before the flip, and after it was undone. */
  ghost predicate Unflipped(env: Env, s: Sys, job: Job) {
    Working(env, s, job) && Settled(s) && s.node.kernel.config == job.before.kernel.config
  }

  ghost predicate BoundPart(s: Sys, job: Job, todo: Targets, n: nat) {
    && n <= |todo| && Agreeing(job.before.kernel.devmap, todo[..n])
    && s.node.kernel.devmap == BindAll(job.before.kernel.devmap, todo[..n])
  }

  ghost predicate Populated(env: Env, s: Sys, job: Job) {
    Installable(env, job.target) && SlotAt(s.node.kernel, job.slot) == Compiled(env, job.target)
  }

  ghost predicate Flipped(env: Env, s: Sys, job: Job, todo: Targets) {
    && Working(env, s, job) && Populated(env, s, job) && BoundPart(s, job, todo, |todo|)
    && s.live == Some(job.target) && s.node.kernel.config.activeSlot == job.slot
  }

  /** What the last report promises as long as the agent is idle. */
  ghost predicate Reported(s: Sys) {
    match s.report
    case NoReport => true
    case Applied(version) => s.node.record.policy.Some? && s.node.record.policy.value.version == version
    case Failed(job, stage) =>
      Untouched(s.node, job)
      && (stage != AtClear ==> SlotAt(s.node.kernel, job.slot) == EMPTY_SLOT)
  }

  /** Nothing that matters changed: configuration, active slot, devmap and record are as before. */
  ghost predicate Untouched(n: Node, job: Job) {
    var b := job.before;
    && n.kernel.config == b.kernel.config
    && b.kernel.config.activeSlot <= 1 && job.slot == 1 - b.kernel.config.activeSlot
    && SlotAt(n.kernel, b.kernel.config.activeSlot) == SlotAt(b.kernel, b.kernel.config.activeSlot)
    && n.kernel.devmap == b.kernel.devmap
    && n.record == b.record
  }

  ghost predicate PhaseOk(env: Env, s: Sys) {
    match s.phase
    case Idle => Settled(s) && Reported(s)
    case Clearing(job, keys, done) =>
      && Unflipped(env, s, job) && s.node.kernel.devmap == job.before.kernel.devmap
      && WellShaped(SlotAt(job.before.kernel, job.slot)) && ClearsAll(SlotAt(job.before.kernel, job.slot), keys)
      && done <= |keys|
      && SlotAt(s.node.kernel, job.slot) == RemoveAll(SlotAt(job.before.kernel, job.slot), keys[..done])
    case Populating(job, done) =>
      && Unflipped(env, s, job) && s.node.kernel.devmap == job.before.kernel.devmap
      && done <= |EntriesOf(env, job.target)|
      && SlotAt(s.node.kernel, job.slot) == PutAll(EMPTY_SLOT, EntriesOf(env, job.target)[..done])
    case Binding(job, todo, done) =>
      Unflipped(env, s, job) && Populated(env, s, job) && TargetPlan(job.target, todo) && BoundPart(s, job, todo, done)
    case Flipping(job, todo) =>
      && Unflipped(env, s, job) && Populated(env, s, job) && TargetPlan(job.target, todo)
      && BoundPart(s, job, todo, |todo|)
    case Saving(job, todo) => Flipped(env, s, job, todo)
    case Restoring(job, todo) => Flipped(env, s, job, todo)
    case Unbinding(job, stage, todo, left) =>
      Unflipped(env, s, job) && Populated(env, s, job) && BoundPart(s, job, todo, left) && stage != AtClear
    case Wiping(job, stage, start, keys, done) =>
      && Unflipped(env, s, job) && s.node.kernel.devmap == job.before.kernel.devmap && stage != AtClear
      && WellShaped(start) && ClearsAll(start, keys)
      && done <= |keys| && SlotAt(s.node.kernel, job.slot) == RemoveAll(start, keys[..done])
    case Down => true
  }

  ghost predicate Inv(env: Env, s: Sys) {
    Sound(env, s) && PhaseOk(env, s)
  }
}
