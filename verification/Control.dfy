/** The control plane's policy log of one owner: rebuild, rollback and fetch. */
module Control {
  import opened Words
  import opened Policy
  import opened Canonical

  /** One row of policy_snapshots. */
  datatype Row = Row(policy: Snapshot, rollbackFrom: Option<u32>)

  /** The row with the greatest version. */
  function Latest(rows: seq<Row>): (r: Option<Row>) {
    if rows == [] then None
    else
      var last := rows[|rows| - 1];
      match Latest(rows[..|rows| - 1])
      case None => Some(last)
      case Some(best) => if last.policy.version > best.policy.version then Some(last) else Some(best)
  }

  function LatestVersion(rows: seq<Row>): (v: u32) {
    match Latest(rows)
    case None => 0
    case Some(row) => row.policy.version
  }

  function WithVersion(rows: seq<Row>, version: u32): (r: Option<Row>) {
    if rows == [] then None
    else if rows[0].policy.version == version then Some(rows[0])
    else WithVersion(rows[1..], version)
  }

  /** A 32-bit increment: it wraps to 0, which verification refuses. */
  function NextVersion(rows: seq<Row>): (v: u32) {
    (LatestVersion(rows) + 1) % U32_LIMIT
  }

  /** A policy apart from its version and checksum. */
  function Content(s: Snapshot): (t: Snapshot) {
    s.(version := 0, checksum := "")
  }

  /** policyContentFingerprint. */
  function Fingerprint(env: Env, norm: Snapshot -> Snapshot, s: Snapshot): (r: string) {
    Checksum(env, norm, Content(s))
  }

  function Lenient(now: u64): (o: VerifyOptions) {
    VerifyOptions(0, "", now, true)
  }

  /** Sign, then verify, as both operations do before they insert. */
  function Publish(env: Env, norm: Snapshot -> Snapshot, s: Snapshot, now: u64): (r: Option<Snapshot>) {
    if Verify(env, norm, Sign(env, norm, s), Lenient(now)) then Some(Sign(env, norm, s)) else None
  }

  datatype Plan = Append(row: Row) | Unchanged | Refuse

  /** rebuildSnapshotInTx up to the insert; built is what the builder returned, if it did. */
  function PlanRebuild(
    env: Env, norm: Snapshot -> Snapshot, rows: seq<Row>, built: Option<Snapshot>, now: u64): (p: Plan)
  {
    match built
    case None => Refuse
    case Some(content) =>
      match Publish(env, norm, content.(version := NextVersion(rows)), now)
      case None => Refuse
      case Some(signed) =>
        var last := Latest(rows);
        if last.Some? && Fingerprint(env, norm, last.value.policy) == Fingerprint(env, norm, signed) then Unchanged
        else Append(Row(signed, None))
  }

  function Republished(s: Snapshot, version: u32): (t: Snapshot) {
    s.(version := version, checksum := "")
  }

  /** RollbackSnapshot up to the insert. */
  function PlanRollback(env: Env, norm: Snapshot -> Snapshot, rows: seq<Row>, target: u32, now: u64): (p: Plan) {
    if target == 0 || Latest(rows).None? then Refuse
    else
      match WithVersion(rows, target)
      case None => Refuse
      case Some(row) =>
        match Publish(env, norm, Republished(row.policy, NextVersion(rows)), now)
        case None => Refuse
        case Some(signed) => Append(Row(signed, Some(LatestVersion(rows))))
  }

  /** The insert: versions are a primary key, and the database may refuse. */
  function Commit(rows: seq<Row>, p: Plan, stored: bool): (r: seq<Row>) {
    if p.Append? && stored && WithVersion(rows, p.row.policy.version).None? then rows + [p.row] else rows
  }

  datatype Op =
    | Rebuild(built: Option<Snapshot>, now: u64, stored: bool)
    | Rollback(target: u32, now: u64, stored: bool)

  function PlanOf(env: Env, norm: Snapshot -> Snapshot, rows: seq<Row>, op: Op): (p: Plan) {
    match op
    case Rebuild(built, now, _) => PlanRebuild(env, norm, rows, built, now)
    case Rollback(target, now, _) => PlanRollback(env, norm, rows, target, now)
  }

  function Perform(env: Env, norm: Snapshot -> Snapshot, rows: seq<Row>, op: Op): (r: seq<Row>) {
    Commit(rows, PlanOf(env, norm, rows, op), op.stored)
  }

  /** The log after any operations on an empty one. */
  function LogAfter(env: Env, norm: Snapshot -> Snapshot, ops: seq<Op>): (rows: seq<Row>) {
    if ops == [] then [] else Perform(env, norm, LogAfter(env, norm, ops[..|ops| - 1]), ops[|ops| - 1])
  }

  /** FetchSnapshot: the newest policy, when it is newer than the agent's. */
  function Fetch(rows: seq<Row>, active: u32): (r: Option<Snapshot>) {
    match Latest(rows)
    case None => None
    case Some(row) => if active >= row.policy.version then None else Some(row.policy)
  }

  /** The log of one owner, changed only by committed transactions. */
  class Store {
    var rows: seq<Row>

    constructor ()
      ensures rows == []
    {
      rows := [];
    }

    method RebuildSnapshot(
      env: Env, norm: Snapshot -> Snapshot, built: Option<Snapshot>, now: u64, stored: bool)
      returns (meta: Option<Row>)
      modifies this
      ensures rows == Commit(old(rows), PlanRebuild(env, norm, old(rows), built, now), stored)
      ensures rows == if meta.Some? then old(rows) + [meta.value] else old(rows)
    {
      var latest := Latest(rows);
      var next: u32 := 1;
      if latest.Some? {
        next := (latest.value.policy.version + 1) % U32_LIMIT;
      }
      if built.None? {
        return None;
      }
      var signed := Publish(env, norm, built.value.(version := next), now);
      if signed.None? {
        return None;
      }
      if latest.Some? && Fingerprint(env, norm, latest.value.policy) == Fingerprint(env, norm, signed.value) {
        return None;
      }
      meta := Insert(Row(signed.value, None), stored);
    }

    method RollbackSnapshot(
      env: Env, norm: Snapshot -> Snapshot, target: u32, now: u64, stored: bool) returns (meta: Option<Row>)
      modifies this
      ensures rows == Commit(old(rows), PlanRollback(env, norm, old(rows), target, now), stored)
      ensures rows == if meta.Some? then old(rows) + [meta.value] else old(rows)
    {
      var latest := Latest(rows);
      if target == 0 || latest.None? {
        return None;
      }
      var found := WithVersion(rows, target);
      if found.None? {
        return None;
      }
      var newest := latest.value.policy.version;
      assert NextVersion(rows) == (newest + 1) % U32_LIMIT;
      var signed := Publish(env, norm, Republished(found.value.policy, (newest + 1) % U32_LIMIT), now);
      if signed.None? {
        return None;
      }
      var row := Row(signed.value, Some(newest));
      assert PlanRollback(env, norm, rows, target, now) == Append(row);
      meta := Insert(row, stored);
    }

    method Insert(row: Row, stored: bool) returns (meta: Option<Row>)
      modifies this
      ensures rows == Commit(old(rows), Append(row), stored)
      ensures rows == if meta.Some? then old(rows) + [row] else old(rows)
      ensures meta.Some? ==> meta.value == row
    {
      if stored && WithVersion(rows, row.policy.version).None? {
        rows := rows + [row];
        meta := Some(row);
      } else {
        meta := None;
      }
    }
  }

  // ---------- the log is versions 1..n ----------

  ghost predicate Consecutive(rows: seq<Row>) {
    forall i | 0 <= i < |rows| :: rows[i].policy.version == i + 1
  }

  lemma {:induction false} LatestIsLast(rows: seq<Row>)
    requires Consecutive(rows)
    ensures LatestVersion(rows) == |rows|
    ensures rows != [] ==> Latest(rows) == Some(rows[|rows| - 1])
  {
    if rows != [] {
      LatestIsLast(rows[..|rows| - 1]);
    }
  }

  lemma {:induction false} VersionIsIndex(rows: seq<Row>, first: nat, version: u32)
    requires forall i | 0 <= i < |rows| :: rows[i].policy.version == first + i
    ensures WithVersion(rows, version) ==
      if first <= version < first + |rows| then Some(rows[version - first]) else None
  {
    if rows != [] && rows[0].policy.version != version {
      assert forall i | 0 <= i < |rows| - 1 :: rows[1..][i] == rows[i + 1];
      VersionIsIndex(rows[1..], first + 1, version);
    }
  }

  // ---------- rows are genuine ----------

  /** Signed, in normal form, and valid when it was made. */
  ghost predicate Genuine(env: Env, norm: Snapshot -> Snapshot, p: Snapshot) {
    && p.version > 0 && p == norm(p).(checksum := env.digest(norm(p)))
    && exists now: u64 :: ContentValid(env, norm(p), Lenient(now)) && Verify(env, norm, p, Lenient(now))
  }

  /** Why the row is there: a rebuild changed the content, a rollback brought back an earlier one. */
  ghost predicate Justified(rows: seq<Row>, i: nat)
    requires i < |rows|
  {
    match rows[i].rollbackFrom
    case None => i > 0 ==> Content(rows[i].policy) != Content(rows[i - 1].policy)
    case Some(v) => v == i && exists j :: 0 <= j < i && Content(rows[i].policy) == Content(rows[j].policy)
  }

  ghost predicate LogInv(env: Env, norm: Snapshot -> Snapshot, rows: seq<Row>) {
    && Consecutive(rows)
    && (forall i | 0 <= i < |rows| :: Genuine(env, norm, rows[i].policy))
    && (forall i | 0 <= i < |rows| :: Justified(rows, i))
  }

  /** Checksums are never empty. */
  ghost predicate HasDigests(env: Env) {
    forall s :: env.digest(s) != ""
  }

  lemma SignGenuine(env: Env, norm: Snapshot -> Snapshot, s: Snapshot, now: u64)
    requires Sorts(norm) && HasDigests(env) && Verify(env, norm, Sign(env, norm, s), Lenient(now))
    ensures Genuine(env, norm, Sign(env, norm, s)) && Sign(env, norm, s).version == s.version
  {
    SignedVerifies(env, norm, s, Lenient(now));
    assert NormalForm(s, norm(s));
  }

  lemma FormWithVersion(s: Snapshot, n: Snapshot, version: u32, checksum: string)
    requires NormalForm(s, n)
    ensures NormalForm(s.(version := version, checksum := checksum), n.(version := version))
  {
  }

  lemma UnambiguousVersion(s: Snapshot, version: u32, checksum: string)
    requires Unambiguous(s)
    ensures Unambiguous(s.(version := version, checksum := checksum))
    ensures Reordered(s.(version := version, checksum := checksum), s.(version := version, checksum := checksum))
  {
  }

  /** Normalising does not look at the version. */
  lemma NormWithVersion(norm: Snapshot -> Snapshot, s: Snapshot, version: u32, checksum: string)
    requires Sorts(norm) && Unambiguous(s)
    ensures norm(s.(version := version, checksum := checksum)) == norm(s).(version := version)
  {
    var t := s.(version := version, checksum := checksum);
    assert NormalForm(s, norm(s)) && NormalForm(t, norm(t));
    FormWithVersion(s, norm(s), version, checksum);
    UnambiguousVersion(s, version, checksum);
    CanonicalUnique(t, t, norm(t), norm(s).(version := version));
  }

  lemma GenuineUnambiguous(env: Env, norm: Snapshot -> Snapshot, p: Snapshot)
    requires Sorts(norm) && Genuine(env, norm, p)
    ensures Unambiguous(p)
  {
    var now: u64 :| ContentValid(env, norm(p), Lenient(now)) && Verify(env, norm, p, Lenient(now));
    VerifiedContent(env, norm, p, Lenient(now));
  }

  /** Signing a stored policy under another version keeps its content. */
  lemma ResignedContent(env: Env, norm: Snapshot -> Snapshot, p: Snapshot, version: u32)
    requires Sorts(norm) && Genuine(env, norm, p)
    ensures norm(Republished(p, version)) == norm(p).(version := version)
    ensures Content(Sign(env, norm, Republished(p, version))) == Content(p)
  {
    GenuineUnambiguous(env, norm, p);
    NormWithVersion(norm, p, version, "");
  }

  // ---------- every operation keeps the log invariant ----------

  lemma StaysJustified(rows: seq<Row>, row: Row, i: nat)
    requires i < |rows| && Justified(rows, i)
    ensures Justified(rows + [row], i)
  {
    var longer := rows + [row];
    assert longer[i] == rows[i];
    assert i > 0 ==> longer[i - 1] == rows[i - 1];
    if rows[i].rollbackFrom.Some? {
      var j :| 0 <= j < i && Content(rows[i].policy) == Content(rows[j].policy);
      assert longer[j] == rows[j];
    }
  }

  lemma AppendInv(env: Env, norm: Snapshot -> Snapshot, rows: seq<Row>, row: Row)
    requires LogInv(env, norm, rows) && row.policy.version == |rows| + 1 && Genuine(env, norm, row.policy)
    requires Justified(rows + [row], |rows|)
    ensures LogInv(env, norm, rows + [row])
  {
    forall i | 0 <= i < |rows|
      ensures Justified(rows + [row], i)
    {
      StaysJustified(rows, row, i);
    }
  }

  lemma NextIsLength(rows: seq<Row>)
    requires Consecutive(rows)
    ensures NextVersion(rows) > 0 ==> NextVersion(rows) == |rows| + 1
  {
    LatestIsLast(rows);
  }

  lemma RebuildInv(env: Env, norm: Snapshot -> Snapshot, rows: seq<Row>, built: Option<Snapshot>, now: u64)
    requires Sorts(norm) && HasDigests(env) && LogInv(env, norm, rows)
    requires PlanRebuild(env, norm, rows, built, now).Append?
    ensures LogInv(env, norm, rows + [PlanRebuild(env, norm, rows, built, now).row])
    ensures NextVersion(rows) == |rows| + 1
  {
    var row := PlanRebuild(env, norm, rows, built, now).row;
    SignGenuine(env, norm, built.value.(version := NextVersion(rows)), now);
    LatestIsLast(rows);
    NextIsLength(rows);
    AppendInv(env, norm, rows, row);
  }

  lemma RollbackPlan(env: Env, norm: Snapshot -> Snapshot, rows: seq<Row>, target: u32, now: u64)
    requires Consecutive(rows)
    ensures NextVersion(rows) == if |rows| + 1 < U32_LIMIT then |rows| + 1 else 0
    ensures 0 < target <= |rows| ==>
      var signed := Publish(env, norm, Republished(rows[target - 1].policy, NextVersion(rows)), now);
      PlanRollback(env, norm, rows, target, now) ==
        if signed.Some? then Append(Row(signed.value, Some(LatestVersion(rows)))) else Refuse
    ensures !(0 < target <= |rows|) ==> PlanRollback(env, norm, rows, target, now).Refuse?
  {
    LatestIsLast(rows);
    VersionIsIndex(rows, 1, target);
  }

  lemma BroughtBack(rows: seq<Row>, row: Row, target: nat)
    requires 0 < target <= |rows| && row.rollbackFrom == Some(|rows|)
    requires Content(row.policy) == Content(rows[target - 1].policy)
    ensures Justified(rows + [row], |rows|)
  {
    assert (rows + [row])[target - 1] == rows[target - 1];
  }

  lemma RollbackInv(env: Env, norm: Snapshot -> Snapshot, rows: seq<Row>, target: u32, now: u64)
    requires Sorts(norm) && HasDigests(env) && LogInv(env, norm, rows)
    requires PlanRollback(env, norm, rows, target, now).Append?
    ensures LogInv(env, norm, rows + [PlanRollback(env, norm, rows, target, now).row])
    ensures NextVersion(rows) == |rows| + 1 && 0 < target <= |rows|
    ensures Content(PlanRollback(env, norm, rows, target, now).row.policy) == Content(rows[target - 1].policy)
  {
    RollbackPlan(env, norm, rows, target, now);
    LatestIsLast(rows);
    var row := PlanRollback(env, norm, rows, target, now).row;
    var p := rows[target - 1].policy;
    SignGenuine(env, norm, Republished(p, NextVersion(rows)), now);
    ResignedContent(env, norm, p, NextVersion(rows));
    BroughtBack(rows, row, target);
    AppendInv(env, norm, rows, row);
  }

  /** Every operation appends one justified row or leaves the log alone. */
  lemma PerformInv(env: Env, norm: Snapshot -> Snapshot, rows: seq<Row>, op: Op)
    requires Sorts(norm) && HasDigests(env) && LogInv(env, norm, rows)
    ensures LogInv(env, norm, Perform(env, norm, rows, op))
    ensures rows <= Perform(env, norm, rows, op) && |Perform(env, norm, rows, op)| <= |rows| + 1
  {
    var plan := PlanOf(env, norm, rows, op);
    if plan.Append? {
      match op
      case Rebuild(built, now, _) => RebuildInv(env, norm, rows, built, now);
      case Rollback(target, now, _) => RollbackInv(env, norm, rows, target, now);
    }
  }

  /** After any operations the log is exactly versions 1..n, each row genuine, each rebuild a change,
      each rollback the content of an earlier row. */
  lemma {:induction false} LogAlwaysSound(env: Env, norm: Snapshot -> Snapshot, ops: seq<Op>)
    requires Sorts(norm) && HasDigests(env)
    ensures LogInv(env, norm, LogAfter(env, norm, ops))
  {
    if ops != [] {
      LogAlwaysSound(env, norm, ops[..|ops| - 1]);
      PerformInv(env, norm, LogAfter(env, norm, ops[..|ops| - 1]), ops[|ops| - 1]);
    }
  }

  /** Nothing in the log is ever changed or removed. */
  lemma {:induction false} LogAppendOnly(env: Env, norm: Snapshot -> Snapshot, ops: seq<Op>, n: nat)
    requires n <= |ops|
    ensures LogAfter(env, norm, ops[..n]) <= LogAfter(env, norm, ops)
  {
    if n == |ops| {
      assert ops[..n] == ops;
    } else {
      LogAppendOnly(env, norm, ops[..|ops| - 1], n);
      assert ops[..|ops| - 1][..n] == ops[..n];
    }
  }

  // ---------- exactly when an operation appends ----------

  /** Different policies have different checksums. */
  ghost predicate CollisionFree(env: Env) {
    forall s, t :: env.digest(s) == env.digest(t) ==> s == t
  }

  lemma SameFingerprint(env: Env, norm: Snapshot -> Snapshot, p: Snapshot, q: Snapshot)
    requires Sorts(norm) && CollisionFree(env) && Genuine(env, norm, p) && Genuine(env, norm, q)
    ensures Fingerprint(env, norm, p) == Fingerprint(env, norm, q) <==> Content(p) == Content(q)
  {
    GenuineUnambiguous(env, norm, p);
    GenuineUnambiguous(env, norm, q);
    NormWithVersion(norm, p, 0, "");
    NormWithVersion(norm, q, 0, "");
    assert Content(p) == norm(p).(version := 0, checksum := "");
  }

  /** A rebuild is skipped exactly when the content of the last row has not changed, up to the order of
      the built lists. */
  lemma RebuildSkipsExactly(env: Env, norm: Snapshot -> Snapshot, rows: seq<Row>, built: Snapshot, now: u64)
    requires Sorts(norm) && HasDigests(env) && CollisionFree(env) && LogInv(env, norm, rows)
    requires |rows| + 1 < U32_LIMIT && ContentValid(env, norm(built.(version := NextVersion(rows))), Lenient(now))
    ensures
      var signed := norm(built.(version := NextVersion(rows)));
      PlanRebuild(env, norm, rows, Some(built), now).Unchanged? <==>
        rows != [] && Content(signed) == Content(rows[|rows| - 1].policy)
    ensures !PlanRebuild(env, norm, rows, Some(built), now).Refuse?
  {
    var s := built.(version := NextVersion(rows));
    LatestIsLast(rows);
    NextIsLength(rows);
    SignedVerifies(env, norm, s, Lenient(now));
    SignGenuine(env, norm, s, now);
    if rows != [] {
      SameFingerprint(env, norm, rows[|rows| - 1].policy, Sign(env, norm, s));
    }
  }

  predicate AnyExpired(s: Snapshot, now: u64) {
    || (exists e | e in s.whitelist :: Expired(e.expiresAt, now))
    || (exists e | e in s.blacklist :: Expired(e.expiresAt, now))
    || (exists u | u in s.udpBlocks :: Expired(u.expiresAt, now))
    || (exists r | r in s.rules :: Expired(r.expiresAt, now))
  }

  lemma ValidLater(env: Env, s: Snapshot, made: u64, now: u64, version: u32)
    requires ContentValid(env, s, Lenient(made)) && version > 0
    ensures ContentValid(env, s.(version := version), Lenient(now)) <==> !AnyExpired(s, now)
  {
  }

  lemma VersionZeroRefused(env: Env, norm: Snapshot -> Snapshot, s: Snapshot, now: u64)
    requires Sorts(norm) && s.version == 0
    ensures !Verify(env, norm, Sign(env, norm, s), Lenient(now))
  {
    assert NormalForm(s, norm(s));
    assert NormalForm(Sign(env, norm, s), norm(Sign(env, norm, s)));
  }

  lemma RepublishedVerifies(env: Env, norm: Snapshot -> Snapshot, p: Snapshot, version: u32, now: u64)
    requires Sorts(norm) && HasDigests(env) && Genuine(env, norm, p)
    ensures Verify(env, norm, Sign(env, norm, Republished(p, version)), Lenient(now)) <==>
      version > 0 && !AnyExpired(p, now)
  {
    var made: u64 :| ContentValid(env, norm(p), Lenient(made)) && Verify(env, norm, p, Lenient(made));
    ResignedContent(env, norm, p, version);
    SignedVerifies(env, norm, Republished(p, version), Lenient(now));
    if version > 0 {
      ValidLater(env, norm(p), made, now, version);
    } else {
      VersionZeroRefused(env, norm, Republished(p, version), now);
    }
  }

  /** A rollback is accepted exactly when its target exists, the version counter is not exhausted and
      nothing in the target has expired. */
  lemma RollbackExact(env: Env, norm: Snapshot -> Snapshot, rows: seq<Row>, target: u32, now: u64)
    requires Sorts(norm) && HasDigests(env) && LogInv(env, norm, rows)
    ensures PlanRollback(env, norm, rows, target, now).Append? <==>
      0 < target <= |rows| && |rows| + 1 < U32_LIMIT && !AnyExpired(rows[target - 1].policy, now)
  {
    RollbackPlan(env, norm, rows, target, now);
    if 0 < target <= |rows| {
      RepublishedVerifies(env, norm, rows[target - 1].policy, NextVersion(rows), now);
    }
  }
}
