/** Control plane and agent together: the log grows, the agent polls, prepares and applies, packets pass,
    the agent may crash. What is served is always what was published. */
module Fleet {
  import opened Words
  import opened Policy
  import opened Canonical
  import opened Control
  import opened Prepare
  import opened Apply
  import opened ApplyProgram
  import DataPlane
  import Refinement
  import ApplySafety
  import ApplyTheorems

  // ---------- one tick of the agent ----------

  /** For a log of versions 1..n an agent is offered a policy exactly when n exceeds its own version, and
      then it is version n. */
  lemma FetchExact(rows: seq<Row>, active: u32)
    requires Consecutive(rows)
    ensures Fetch(rows, active) == if |rows| > active then Some(rows[|rows| - 1].policy) else None
  {
    LatestIsLast(rows);
  }

  /** An agent that has never applied anything reports version 1, so it is offered nothing while version 1
      is the newest; it gets its first policy exactly from version 2 on. */
  lemma FreshAgentSkipsVersionOne(rows: seq<Row>)
    requires Consecutive(rows)
    ensures Fetch(rows, DEFAULT_RECORD.policyVersion).Some? <==> |rows| >= 2
    ensures DEFAULT_RECORD.policy.None?
  {
    FetchExact(rows, DEFAULT_RECORD.policyVersion);
  }

  /** The tick of RunControlSync. The heartbeat's answer may be out of date or missing; rows is the log
      when the agent fetches. */
  method Tick(
    env: Env, norm: Snapshot -> Snapshot, agent: Agent, heartbeat: Option<u32>, rows: seq<Row>, reachable: bool,
    answers: nat -> Option<Forwarding>, objectChecksum: string, faults: Faults, now: u64) returns (ok: bool)
    requires agent.Valid(env) && agent.state.phase.Idle? && Sorts(norm) && Consecutive(rows)
    modifies agent
    ensures agent.Valid(env) && agent.state.phase.Idle? && old(agent.trace) <= agent.trace
    ensures !ok ==> Undisturbed(old(agent.node), agent.node)
    ensures ok ==> (
      && agent.node.record.policyVersion == |rows| > old(agent.node).record.policyVersion
      && agent.node.record.policy.Some? && Derived(norm(rows[|rows| - 1].policy), agent.node.record.policy.value)
      && Serves(env, agent.node, agent.node.kernel.config.activeSlot, agent.node.record.policy))
    ensures ok ==> Offered(env, norm, rows, old(agent.node).kernel.config.policyVersion, agent.node.record.policy.value)
    ensures ok ==> heartbeat.Some? && heartbeat.value > old(agent.node).record.policyVersion
  {
    var active := agent.node.record.policyVersion;
    if heartbeat.None? || heartbeat.value <= active {
      return false;
    }
    var fetched := if reachable then Fetch(rows, active) else None;
    if fetched.None? {
      return false;
    }
    FetchExact(rows, active);
    ghost var gate := Gate(agent.node.kernel.config.policyVersion, objectChecksum, now);
    ok := agent.ApplyPolicySnapshot(env, norm, fetched.value, answers, objectChecksum, faults, now);
    if ok {
      PreparedFaithful(env, norm, gate, fetched.value, answers);
    }
  }

  // ---------- the whole system ----------

  datatype Cluster = Cluster(rows: seq<Row>, agent: Sys)

  /** The target was prepared from a row of the log. */
  ghost predicate Offered(env: Env, norm: Snapshot -> Snapshot, rows: seq<Row>, current: u32, target: Snapshot) {
    exists i, objectChecksum, now: u64, answers ::
      && 0 <= i < |rows|
      && Prepared(env, norm, Gate(current, objectChecksum, now), rows[i].policy, answers) == Some(target)
  }

  ghost predicate AgentMoves(env: Env, norm: Snapshot -> Snapshot, c: Cluster, e: Event) {
    Enabled(env, c.agent, e)
      && (e.Begin? ==> Offered(env, norm, c.rows, c.agent.node.kernel.config.policyVersion, e.target))
  }

  datatype Move = Publish(op: Op) | Agent(event: Event)

  ghost predicate Can(env: Env, norm: Snapshot -> Snapshot, c: Cluster, m: Move) {
    m.Agent? ==> AgentMoves(env, norm, c, m.event)
  }

  ghost function Moved(env: Env, norm: Snapshot -> Snapshot, c: Cluster, m: Move): (d: Cluster)
    requires Can(env, norm, c, m)
  {
    match m
    case Publish(op) => c.(rows := Perform(env, norm, c.rows, op))
    case Agent(e) => c.(agent := After(env, c.agent, e))
  }

  /** From an empty log and a fresh host, any interleaving of log operations and agent steps. */
  ghost predicate IsHistory(env: Env, norm: Snapshot -> Snapshot, h: seq<Cluster>) {
    && h != [] && h[0].rows == [] && Init(h[0].agent)
    && forall i | 0 <= i < |h| - 1 :: ClusterNext(env, norm, h[i], h[i + 1])
  }

  ghost predicate ClusterNext(env: Env, norm: Snapshot -> Snapshot, c: Cluster, d: Cluster) {
    exists m :: Can(env, norm, c, m) && d == Moved(env, norm, c, m)
  }

  /** The policy is the log's row of its version, with forwarding data filled in. */
  ghost predicate FromLog(rows: seq<Row>, p: Option<Snapshot>) {
    p.Some? ==> 0 < p.value.version <= |rows| && Derived(rows[p.value.version - 1].policy, p.value)
  }

  ghost predicate AllFromLog(rows: seq<Row>, s: Sys) {
    FromLog(rows, s.live) && FromLog(rows, s.pending) && FromLog(rows, s.node.record.policy)
  }

  ghost predicate ClusterInv(env: Env, norm: Snapshot -> Snapshot, c: Cluster) {
    LogInv(env, norm, c.rows) && Inv(env, c.agent) && AllFromLog(c.rows, c.agent)
  }

  predicate Known(s: Sys, begun: Option<Snapshot>, p: Option<Snapshot>) {
    p.None? || p == s.live || p == s.pending || p == s.node.record.policy || p == begun
  }

  /** A policy about to be flipped to or recorded is the pending one, and newer than the record. */
  lemma InFlight(env: Env, s: Sys)
    requires Inv(env, s)
    ensures s.phase.Flipping? || s.phase.Saving? ==>
      s.pending == Some(s.phase.job.target) && s.phase.job.target.version > s.node.record.policyVersion
  {
  }

  /** A step of the agent serves, records or pursues only what it did before or what it begins to apply. */
  lemma AgentPolicies(env: Env, s: Sys, e: Event)
    requires Enabled(env, s, e) && (s.phase.Flipping? || s.phase.Saving? ==> s.pending == Some(s.phase.job.target))
    ensures
      var t := After(env, s, e);
      var begun := if e.Begin? then Some(e.target) else None;
      Known(s, begun, t.live) && Known(s, begun, t.pending) && Known(s, begun, t.node.record.policy)
  {
  }

  lemma DerivedFromRow(p: Snapshot, m: Snapshot, t: Snapshot, checksum: string)
    requires p == m.(checksum := checksum) && Derived(m, t)
    ensures Derived(p, t)
  {
  }

  lemma OfferedFromLog(env: Env, norm: Snapshot -> Snapshot, rows: seq<Row>, current: u32, target: Snapshot)
    requires Sorts(norm) && LogInv(env, norm, rows) && Offered(env, norm, rows, current, target)
    ensures FromLog(rows, Some(target)) && target.version > current
  {
    var i, objectChecksum, now: u64, answers :|
      && 0 <= i < |rows|
      && Prepared(env, norm, Gate(current, objectChecksum, now), rows[i].policy, answers) == Some(target);
    var p := rows[i].policy;
    PreparedFaithful(env, norm, Gate(current, objectChecksum, now), p, answers);
    assert Genuine(env, norm, p);
    DerivedFromRow(p, norm(p), target, p.checksum);
  }

  lemma GrownLog(rows: seq<Row>, more: seq<Row>, s: Sys)
    requires rows <= more && AllFromLog(rows, s)
    ensures AllFromLog(more, s)
  {
  }

  lemma KnownFromLog(rows: seq<Row>, s: Sys, begun: Option<Snapshot>, p: Option<Snapshot>)
    requires AllFromLog(rows, s) && FromLog(rows, begun) && Known(s, begun, p)
    ensures FromLog(rows, p)
  {
  }

  lemma AgentKeepsOrigin(env: Env, rows: seq<Row>, s: Sys, e: Event)
    requires Inv(env, s) && Enabled(env, s, e) && AllFromLog(rows, s) && (e.Begin? ==> FromLog(rows, Some(e.target)))
    ensures AllFromLog(rows, After(env, s, e))
  {
    InFlight(env, s);
    AgentPolicies(env, s, e);
    var begun := if e.Begin? then Some(e.target) else None;
    var t := After(env, s, e);
    KnownFromLog(rows, s, begun, t.live);
    KnownFromLog(rows, s, begun, t.pending);
    KnownFromLog(rows, s, begun, t.node.record.policy);
  }

  lemma MoveInv(env: Env, norm: Snapshot -> Snapshot, c: Cluster, m: Move)
    requires Sorts(norm) && HasDigests(env) && ClusterInv(env, norm, c) && Can(env, norm, c, m)
    ensures ClusterInv(env, norm, Moved(env, norm, c, m))
  {
    match m
    case Publish(op) =>
      PerformInv(env, norm, c.rows, op);
      GrownLog(c.rows, Perform(env, norm, c.rows, op), c.agent);
    case Agent(e) =>
      ApplySafety.StepInv(env, c.agent, e);
      if e.Begin? {
        OfferedFromLog(env, norm, c.rows, c.agent.node.kernel.config.policyVersion, e.target);
      }
      AgentKeepsOrigin(env, c.rows, c.agent, e);
  }

  lemma {:induction false} HistoryInv(env: Env, norm: Snapshot -> Snapshot, h: seq<Cluster>, n: nat)
    requires Sorts(norm) && HasDigests(env) && IsHistory(env, norm, h) && n < |h|
    ensures ClusterInv(env, norm, h[n])
  {
    if n == 0 {
      ApplySafety.InitInv(env, h[0].agent);
    } else {
      HistoryInv(env, norm, h, n - 1);
      assert ClusterNext(env, norm, h[n - 1], h[n]);
      var m :| Can(env, norm, h[n - 1], m) && h[n] == Moved(env, norm, h[n - 1], m);
      MoveInv(env, norm, h[n - 1], m);
    }
  }

  // ---------- what follows ----------

  /** In every state of every history, whatever decides packets is the policy the log holds under the same
      version, with only forwarding data filled in. */
  lemma ServedIsPublished(
    env: Env, norm: Snapshot -> Snapshot, h: seq<Cluster>, n: nat, rate: DataPlane.RateMap,
    sur: DataPlane.Surroundings, frame: seq<u8>)
    requires Sorts(norm) && HasDigests(env) && IsHistory(env, norm, h) && n < |h| && h[n].agent.live.Some?
    ensures
      var t := h[n].agent.live.value;
      && 0 < t.version <= |h[n].rows| && Derived(h[n].rows[t.version - 1].policy, t)
      && var o := DataPlane.XdpEntry(h[n].agent.node.kernel, rate, sur, frame);
         var j := Refinement.Judge(env, t, frame, rate, sur);
         o.verdict == j.verdict && o.meta.reason == j.reason && o.egress == j.egress
  {
    HistoryInv(env, norm, h, n);
    ApplyTheorems.StateFollowsTheLists(env, h[n].agent, rate, sur, frame);
  }

  lemma VersionStep(env: Env, s: Sys, e: Event)
    requires Enabled(env, s, e) && (s.phase.Saving? ==> s.phase.job.target.version > s.node.record.policyVersion)
    ensures
      var t := After(env, s, e);
      if e.SaveOk? then
        && t.node.record.policyVersion > s.node.record.policyVersion
        && t.report == Applied(t.node.record.policyVersion)
      else t.node.record == s.node.record
  {
  }

  lemma HistoryStep(env: Env, norm: Snapshot -> Snapshot, h: seq<Cluster>, n: nat)
    requires Sorts(norm) && HasDigests(env) && IsHistory(env, norm, h) && n + 1 < |h|
    ensures h[n].rows <= h[n + 1].rows
    ensures h[n].agent.node.record.policyVersion <= h[n + 1].agent.node.record.policyVersion
    ensures h[n].agent.node.record != h[n + 1].agent.node.record ==>
      h[n].agent.node.record.policyVersion < h[n + 1].agent.node.record.policyVersion
  {
    HistoryInv(env, norm, h, n);
    assert ClusterNext(env, norm, h[n], h[n + 1]);
    var m :| Can(env, norm, h[n], m) && h[n + 1] == Moved(env, norm, h[n], m);
    match m
    case Publish(op) => PerformInv(env, norm, h[n].rows, op);
    case Agent(e) =>
      InFlight(env, h[n].agent);
      VersionStep(env, h[n].agent, e);
  }

  lemma {:induction false} RecordsGrow(env: Env, norm: Snapshot -> Snapshot, h: seq<Cluster>, i: nat, j: nat)
    requires Sorts(norm) && HasDigests(env) && IsHistory(env, norm, h) && i <= j < |h|
    ensures h[i].rows <= h[j].rows
    ensures h[i].agent.node.record.policyVersion <= h[j].agent.node.record.policyVersion
    ensures h[i].agent.node.record != h[j].agent.node.record ==>
      h[i].agent.node.record.policyVersion < h[j].agent.node.record.policyVersion
    decreases j - i
  {
    if i < j {
      RecordsGrow(env, norm, h, i, j - 1);
      HistoryStep(env, norm, h, j - 1);
    }
  }

  /** Over every history the log only grows, and the agent's record only moves to strictly greater
      versions: once it has changed, it is newer ever after. */
  lemma VersionsIncrease(env: Env, norm: Snapshot -> Snapshot, h: seq<Cluster>, i: nat, k: nat, j: nat)
    requires Sorts(norm) && HasDigests(env) && IsHistory(env, norm, h) && i <= k <= j < |h|
    ensures h[i].rows <= h[j].rows
    ensures h[k].agent.node.record != h[i].agent.node.record ==>
      h[i].agent.node.record.policyVersion < h[j].agent.node.record.policyVersion
  {
    RecordsGrow(env, norm, h, i, k);
    RecordsGrow(env, norm, h, k, j);
  }
}
