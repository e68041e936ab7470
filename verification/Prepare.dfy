/** What ApplyPolicySnapshot does before it touches a map: verify, resolve forwarding, sign again, verify
    strictly. The result is the fetched policy with forwarding data filled in and nothing else changed. */
module Prepare {
  import opened Words
  import opened Contract
  import opened Policy
  import opened Canonical
  import Sorting

  /** What the neighbour resolver found for one service. */
  datatype Forwarding = Forwarding(ifindex: u32, dstMac: string, srcMac: string)

  function Forwarded(s: Service, f: Forwarding): (t: Service) {
    s.(action := ACTION_REDIRECT, outputIfindex := f.ifindex, neighborStatus := NEIGHBOR_RESOLVED,
       dstMac := f.dstMac, srcMac := f.srcMac)
  }

  function ResolvedOne(s: Service, answer: Option<Forwarding>): (t: Service) {
    if NeedsResolution(s) && answer.Some? then Forwarded(s, answer.value) else s
  }

  predicate Resolvable(ss: seq<Service>, answers: nat -> Option<Forwarding>) {
    forall i | 0 <= i < |ss| :: NeedsResolution(ss[i]) ==> answers(i).Some?
  }

  function ResolvedAll(ss: seq<Service>, answers: nat -> Option<Forwarding>): (r: seq<Service>) {
    seq(|ss|, i requires 0 <= i < |ss| => ResolvedOne(ss[i], answers(i)))
  }

  /** s with the action and the forwarding data of t. */
  function WithForwarding(s: Service, t: Service): (r: Service) {
    s.(action := t.action, outputIfindex := t.outputIfindex, neighborStatus := t.neighborStatus,
       dstMac := t.dstMac, srcMac := t.srcMac)
  }

  /** The same service; forwarding data may have been filled in where it was missing. */
  predicate SameService(s: Service, t: Service) {
    && t == WithForwarding(s, t)
    && (t == s || (NeedsResolution(s) && t.action == ACTION_REDIRECT))
  }

  /** t is p with forwarding data filled in and signed again. */
  ghost predicate Derived(p: Snapshot, t: Snapshot) {
    && t == p.(services := t.services, checksum := t.checksum)
    && |t.services| == |p.services| && forall i | 0 <= i < |p.services| :: SameService(p.services[i], t.services[i])
  }

  /** resolvePolicySnapshotServices: stops at the first service the resolver cannot answer. */
  method ResolveServices(services: seq<Service>, answers: nat -> Option<Forwarding>) returns (r: Option<seq<Service>>)
    ensures r.Some? <==> Resolvable(services, answers)
    ensures r.Some? ==> r.value == ResolvedAll(services, answers)
  {
    var out := services;
    for i := 0 to |services|
      invariant |out| == |services|
      invariant forall j | 0 <= j < i ::
        out[j] == ResolvedOne(services[j], answers(j)) && (NeedsResolution(services[j]) ==> answers(j).Some?)
      invariant forall j | i <= j < |services| :: out[j] == services[j]
    {
      if NeedsResolution(out[i]) {
        var answer := answers(i);
        if answer.None? {
          return None;
        }
        out := out[i := Forwarded(services[i], answer.value)];
      }
    }
    assert out == ResolvedAll(services, answers);
    r := Some(out);
  }

  /** The running version, the loaded object and the clock a policy is checked against. */
  datatype Gate = Gate(current: u32, objectChecksum: string, now: u64)

  function Check(g: Gate, allowUnresolved: bool): (o: VerifyOptions) {
    VerifyOptions(g.current, g.objectChecksum, g.now, allowUnresolved)
  }

  function WithServices(s: Snapshot, services: seq<Service>): (t: Snapshot) {
    s.(services := services)
  }

  /** The policy to install, or none when a check refuses it. */
  function Prepared(
    env: Env, norm: Snapshot -> Snapshot, g: Gate, s: Snapshot, answers: nat -> Option<Forwarding>)
    : (r: Option<Snapshot>)
  {
    if !Verify(env, norm, s, Check(g, true)) || !Resolvable(norm(s).services, answers) then None
    else
      var t := Sign(env, norm, WithServices(norm(s), ResolvedAll(norm(s).services, answers)));
      if Verify(env, norm, t, Check(g, false)) then Some(t) else None
  }

  lemma SortKeyKept(s: Service, answer: Option<Forwarding>)
    ensures ServiceOrder()(ResolvedOne(s, answer)) == ServiceOrder()(s)
  {
  }

  lemma ResolvedStaySorted(ss: seq<Service>, answers: nat -> Option<Forwarding>)
    requires Sorting.Sorted(ss, ServiceOrder())
    ensures Sorting.Sorted(ResolvedAll(ss, answers), ServiceOrder())
  {
    var rs := ResolvedAll(ss, answers);
    forall i | 0 <= i < |ss|
      ensures ServiceOrder()(rs[i]) == ServiceOrder()(ss[i])
    {
      SortKeyKept(ss[i], answers(i));
    }
  }

  /** A normalised snapshot with other services in the same order is still normalised. */
  lemma FormWithServices(s: Snapshot, m: Snapshot, services: seq<Service>)
    requires NormalForm(s, m) && Sorting.Sorted(services, ServiceOrder())
    ensures NormalForm(WithServices(m, services), WithServices(m, services))
  {
  }

  /** Signing the resolved policy does not reorder anything. */
  lemma ResolvedIsNormal(
    env: Env, norm: Snapshot -> Snapshot, s: Snapshot, answers: nat -> Option<Forwarding>, o: VerifyOptions)
    requires Sorts(norm)
    requires
      var r := WithServices(norm(s), ResolvedAll(norm(s).services, answers));
      Verify(env, norm, Sign(env, norm, r), o)
    ensures
      var r := WithServices(norm(s), ResolvedAll(norm(s).services, answers));
      norm(r) == r && ContentValid(env, r, o) && env.digest(r) == Sign(env, norm, r).checksum
  {
    var r := WithServices(norm(s), ResolvedAll(norm(s).services, answers));
    var t := Sign(env, norm, r);
    assert NormalForm(s, norm(s)) && NormalForm(r, norm(r));
    ResolvedStaySorted(norm(s).services, answers);
    FormWithServices(s, norm(s), ResolvedAll(norm(s).services, answers));
    VerifiedContent(env, norm, t, o);
    StableForm(env, norm, r, t.checksum, o);
    CanonicalUnique(r, r, r, norm(r));
  }

  lemma ResolvedDerives(m: Snapshot, answers: nat -> Option<Forwarding>, checksum: string)
    ensures Derived(m, WithServices(m, ResolvedAll(m.services, answers)).(checksum := checksum))
  {
    forall i | 0 <= i < |m.services|
      ensures SameService(m.services[i], ResolvedAll(m.services, answers)[i])
    {
      var s, t := m.services[i], ResolvedOne(m.services[i], answers(i));
      assert t == WithForwarding(s, t);
    }
  }

  lemma ValidIsReady(env: Env, r: Snapshot, checksum: string, g: Gate)
    requires ContentValid(env, r, Check(g, false))
    ensures Installable(env, r.(checksum := checksum)) && r.version > g.current
    ensures g.objectChecksum != "" ==> r.objectChecksum == g.objectChecksum
  {
    assert EntriesValid(env, r.(checksum := checksum), g.now, false);
  }

  lemma FormFields(s: Snapshot, m: Snapshot)
    requires NormalForm(s, m)
    ensures m.version == s.version && m.checksum == ""
  {
  }

  /** What is installed is the fetched policy, list for list and entry for entry; only missing forwarding
      data is filled in, and the checksum is that of the result. It is ready to be populated. */
  lemma PreparedFaithful(env: Env, norm: Snapshot -> Snapshot, g: Gate, s: Snapshot, answers: nat -> Option<Forwarding>)
    requires Sorts(norm) && Prepared(env, norm, g, s, answers).Some?
    ensures
      var t := Prepared(env, norm, g, s, answers).value;
      && Derived(norm(s), t) && t.checksum == env.digest(t.(checksum := ""))
      && Installable(env, t)
      && t.version == s.version && t.version > g.current
      && (g.objectChecksum != "" ==> t.objectChecksum == g.objectChecksum)
  {
    var r := WithServices(norm(s), ResolvedAll(norm(s).services, answers));
    var t := Sign(env, norm, r);
    ResolvedIsNormal(env, norm, s, answers, Check(g, false));
    FormFields(s, norm(s));
    ValidIsReady(env, r, t.checksum, g);
    ResolvedDerives(norm(s), answers, t.checksum);
    assert t.(checksum := "") == r;
  }
}
