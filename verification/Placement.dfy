/** The Patroni primary's placement: who is primary, whether a node may take over, and the one
    switchover the check may order, against whatever the REST API answers from call to call. */
module Placement {
  import opened Options
  import opened PreflightReports

  datatype Node = Node(name: string, host: string)

  /** One HTTP answer: a status, an error status raised as an exception, or no answer. */
  datatype Answer = Answered(status: nat) | HttpError(status: nat) | Unreachable

  datatype Member = Member(replicationState: Option<string>, timeline: Option<int>)

  /** What the API says during one call: the primary endpoint by host, and one node's other endpoints. */
  datatype Reading = Reading(primary: map<string, Answer>, replica: Answer, member: Option<Member>, quorum: Answer)

  predicate Is200(a: Answer) {
    a == Answered(200)
  }

  // ----- Who is primary -----

  datatype Resolution = Primary(node: Node) | NoPrimary | SplitBrain

  predicate ClaimsPrimary(node: Node, r: Reading) {
    node.host in r.primary && Is200(r.primary[node.host])
  }

  function Claimants(nodes: seq<Node>, r: Reading): seq<Node> {
    if nodes == [] then []
    else
      var n := |nodes| - 1;
      Claimants(nodes[..n], r) + if ClaimsPrimary(nodes[n], r) then [nodes[n]] else []
  }

  function Resolve(nodes: seq<Node>, r: Reading): Resolution {
    var claimants := Claimants(nodes, r);
    if |claimants| == 1 then Primary(claimants[0])
    else if claimants == [] then NoPrimary
    else SplitBrain
  }

  method ResolvePatroniPrimary(nodes: seq<Node>, r: Reading) returns (resolution: Resolution)
    ensures resolution == Resolve(nodes, r)
  {
    var primaries := [];
    var i := 0;
    while i < |nodes|
      invariant 0 <= i <= |nodes| && primaries == Claimants(nodes[..i], r)
    {
      assert nodes[..i + 1][..i] == nodes[..i];
      if ClaimsPrimary(nodes[i], r) {
        primaries := primaries + [nodes[i]];
      }
      i := i + 1;
    }
    assert nodes[..i] == nodes;
    if |primaries| == 1 {
      return Primary(primaries[0]);
    }
    return if primaries == [] then NoPrimary else SplitBrain;
  }

  lemma {:induction false} ClaimantsAre(nodes: seq<Node>, r: Reading)
    ensures forall n :: n in Claimants(nodes, r) <==> n in nodes && ClaimsPrimary(n, r)
  {
    if nodes != [] {
      ClaimantsAre(nodes[..|nodes| - 1], r);
      assert nodes == nodes[..|nodes| - 1] + [nodes[|nodes| - 1]];
    }
  }

  ghost predicate Distinct(nodes: seq<Node>) {
    forall i, j | 0 <= i < j < |nodes| :: nodes[i] != nodes[j]
  }

  lemma {:induction false} ClaimantsDistinct(nodes: seq<Node>, r: Reading)
    requires Distinct(nodes)
    ensures Distinct(Claimants(nodes, r))
  {
    hide ClaimsPrimary;
    if nodes != [] {
      var n := |nodes| - 1;
      ClaimantsDistinct(nodes[..n], r);
      ClaimantsAre(nodes[..n], r);
      var before := Claimants(nodes[..n], r);
      forall i | 0 <= i < |before| ensures before[i] != nodes[n] {
        assert before[i] in before;
      }
    }
  }

  /** The node's primary endpoint answers with status 200. */
  ghost predicate Claims(node: Node, r: Reading) {
    node.host in r.primary && r.primary[node.host] == Answered(200)
  }

  /** A node is named exactly when it alone claims to be primary. */
  lemma ResolvesIff(nodes: seq<Node>, r: Reading, node: Node)
    requires Distinct(nodes)
    ensures Resolve(nodes, r) == Primary(node) <==>
            node in nodes && Claims(node, r) && forall n | n in nodes && Claims(n, r) :: n == node
  {
    hide Claimants;
    ClaimantsAre(nodes, r);
    ClaimantsDistinct(nodes, r);
    var c := Claimants(nodes, r);
    if |c| > 1 {
      assert c[0] in c && c[1] in c && c[0] != c[1];
    }
  }

  /** No node is named exactly when none claims to be primary, or two do. */
  lemma UnresolvedIff(nodes: seq<Node>, r: Reading)
    requires Distinct(nodes)
    ensures Resolve(nodes, r).NoPrimary? <==> forall n | n in nodes :: !Claims(n, r)
    ensures Resolve(nodes, r).SplitBrain? <==>
            exists n, m :: n in nodes && m in nodes && n != m && Claims(n, r) && Claims(m, r)
  {
    hide Claimants;
    ClaimantsAre(nodes, r);
    ClaimantsDistinct(nodes, r);
    var c := Claimants(nodes, r);
    if |c| > 1 {
      assert c[0] in c && c[1] in c && c[0] != c[1];
    }
    if c != [] {
      assert c[0] in c;
    }
  }

  // ----- May a node take over -----

  datatype Candidacy = Ready | ReplicaNot200 | MemberUnreadable | NotStreaming | OtherTimeline | NotInQuorum | QuorumUnreachable

  function PatroniCandidateReady(r: Reading, leaderTimeline: Option<int>): Candidacy {
    if !Is200(r.replica) then ReplicaNot200
    else if r.member.None? then MemberUnreadable
    else if r.member.value.replicationState != Some("streaming") then NotStreaming
    else if leaderTimeline.Some? && r.member.value.timeline != leaderTimeline then OtherTimeline
    else if r.quorum.Unreachable? then QuorumUnreachable
    else if !Is200(r.quorum) then NotInQuorum
    else Ready
  }

  /** All three gates at once. */
  predicate ClearsEveryGate(r: Reading, leaderTimeline: Option<int>) {
    && r.replica == Answered(200) && r.quorum == Answered(200)
    && r.member.Some? && r.member.value.replicationState == Some("streaming")
    && (leaderTimeline == None || r.member.value.timeline == leaderTimeline)
  }

  // ----- The check -----

  const POLL := 5.0

  /** Answers from call to call, and the clock each time the wait consults it. */
  datatype Surroundings = Surroundings(
    first: Reading,                // the first resolution
    leader: Option<Member>,        // the primary's own state
    candidate: nat -> Reading,     // successive readings of the candidate
    raises: bool,                  // the switchover command times out, and the call with it
    last: Reading,                 // the resolution after a switchover
    started: real,                 // the clock when the wait began
    clock: nat -> real)            // the clock before each further reading

  /** Each further consultation of the clock comes after a sleep. */
  ghost predicate Advances(s: Surroundings) {
    s.started <= s.clock(0) && forall k: nat :: s.clock(k) + POLL <= s.clock(k + 1)
  }

  datatype Order = Order(nodes: seq<Node>, expected: Node, repair: bool, settle: real)

  datatype Event =
    | Resolved(r: Resolution)
    | Probed(reading: Reading, leaderTimeline: Option<int>)
    | SwitchedOver(leader: string, candidate: string)

  function LeaderTimeline(s: Surroundings): Option<int> {
    if s.leader.Some? then s.leader.value.timeline else None
  }

  predicate ReadyAt(s: Surroundings, k: nat) {
    PatroniCandidateReady(s.candidate(k), LeaderTimeline(s)).Ready?
  }

  /** Reading k is the last: the candidate is ready, or the time is up. */
  predicate Stops(s: Surroundings, settle: real, k: nat) {
    ReadyAt(s, k) || settle <= 0.0 || s.clock(k) >= s.started + settle
  }

  method CheckPlacement(o: Order, s: Surroundings, report: PreflightReport)
      returns (check: Option<Check>, trace: seq<Event>)
    requires Advances(s)
    modifies report
    ensures report.checks == old(report.checks) + if check.Some? then [check.value] else []
    ensures check.Some? ==> check.value.name == "patroni_primary_placement"
    ensures Complies(o, s, check, trace)
  {
    var primary := ResolvePatroniPrimary(o.nodes, s.first);
    trace := [Resolved(primary)];
    if !primary.Primary? {
      check := AddTo(report, false, None);
      return;
    }
    if primary.node.host == o.expected.host {
      check := AddTo(report, true, Some(false));
      return;
    }
    if !o.repair {
      check := AddTo(report, false, Some(false));
      return;
    }
    var timeline := LeaderTimeline(s);
    var k: nat := 0;
    var ready := PatroniCandidateReady(s.candidate(k), timeline).Ready?;
    trace := trace + [Probed(s.candidate(k), timeline)];
    if !ready && o.settle > 0.0 {
      var deadline := s.started + o.settle;
      while !ready && s.clock(k) < deadline
        invariant ready == ReadyAt(s, k)
        invariant forall j | 0 <= j < k :: !Stops(s, o.settle, j)
        invariant trace == [Resolved(primary)] + Probes(s, k + 1)
        decreases deadline - s.clock(k)
      {
        k := k + 1;
        ready := PatroniCandidateReady(s.candidate(k), timeline).Ready?;
        trace := trace + [Probed(s.candidate(k), timeline)];
      }
    }
    assert forall j | 0 <= j < k :: !Stops(s, o.settle, j);
    assert Stops(s, o.settle, k) && trace == [Resolved(primary)] + Probes(s, k + 1);
    if !ready {
      check := AddTo(report, false, Some(false));
      assert Waited(o, s, primary, Resolve(o.nodes, s.last), k, check, trace);
      return;
    }
    trace := trace + [SwitchedOver(primary.node.host, o.expected.host)];
    if s.raises {
      check := None;
      assert Waited(o, s, primary, Resolve(o.nodes, s.last), k, check, trace);
      return;
    }
    var now := ResolvePatroniPrimary(o.nodes, s.last);
    trace := trace + [Resolved(now)];
    check := AddTo(report, now.Primary? && now.node.host == o.expected.host, Some(true));
    assert Waited(o, s, primary, now, k, check, trace);
  }

  method AddTo(report: PreflightReport, passed: bool, repaired: Option<bool>) returns (check: Option<Check>)
    modifies report
    ensures check == Some(Check("patroni_primary_placement", passed, repaired))
    ensures report.checks == old(report.checks) + [check.value]
  {
    check := Some(Check("patroni_primary_placement", passed, repaired));
    report.Add(check.value);
  }

  function Probes(s: Surroundings, n: nat): (r: seq<Event>)
    ensures |r| == n && forall i | 0 <= i < n :: r[i] == Probed(s.candidate(i), LeaderTimeline(s))
  {
    seq(n, i requires 0 <= i => Probed(s.candidate(i), LeaderTimeline(s)))
  }

  // ----- What the check promises -----

  ghost predicate Says(check: Option<Check>, passed: bool, repaired: Option<bool>) {
    check.Some? && check.value.passed == passed && check.value.repaired == repaired
  }

  /** How the run went: not past the first resolution, or so many readings and perhaps a switchover. */
  ghost predicate Complies(o: Order, s: Surroundings, check: Option<Check>, trace: seq<Event>) {
    var first := Resolve(o.nodes, s.first);
    var now := Resolve(o.nodes, s.last);
    if !first.Primary? then trace == [Resolved(first)] && Says(check, false, None)
    else if first.node.host == o.expected.host then trace == [Resolved(first)] && Says(check, true, Some(false))
    else if !o.repair then trace == [Resolved(first)] && Says(check, false, Some(false))
    else exists k: nat :: Waited(o, s, first, now, k, check, trace)
  }

  ghost predicate Waited(o: Order, s: Surroundings, first: Resolution, now: Resolution, k: nat,
                         check: Option<Check>, trace: seq<Event>)
    requires first.Primary?
  {
    && (forall j | 0 <= j < k :: !Stops(s, o.settle, j)) && Stops(s, o.settle, k)
    && var probed := [Resolved(first)] + Probes(s, k + 1);
       var switched := SwitchedOver(first.node.host, o.expected.host);
       if !ReadyAt(s, k) then trace == probed && Says(check, false, Some(false))
       else if s.raises then trace == probed + [switched] && check.None?
       else
         && trace == probed + [switched] + [Resolved(now)]
         && Says(check, now.Primary? && now.node.host == o.expected.host, Some(true))
  }

  /** The position of the last resolution in a trace. */
  ghost predicate LastResolution(trace: seq<Event>, i: nat, r: Resolution) {
    i < |trace| && trace[i] == Resolved(r) && forall j | i < j < |trace| :: !trace[j].Resolved?
  }

  /** A check passes exactly when the last resolution named the expected node. */
  lemma PassesIff(o: Order, s: Surroundings, check: Option<Check>, trace: seq<Event>)
    requires Complies(o, s, check, trace) && check.Some?
    ensures exists i, r :: LastResolution(trace, i, r) &&
              (check.value.passed <==> r.Primary? && r.node.host == o.expected.host)
  {
    hide Resolve, Stops, ReadyAt;
    var first, now := Resolve(o.nodes, s.first), Resolve(o.nodes, s.last);
    if trace == [Resolved(first)] {
      assert LastResolution(trace, 0, first);
    } else {
      var k: nat :| Waited(o, s, first, now, k, check, trace);
      if ReadyAt(s, k) {
        assert LastResolution(trace, |trace| - 1, now);
      } else {
        assert LastResolution(trace, 0, first);
      }
    }
  }

  /** Only a switchover command that raises keeps the check out of the report; it was ordered all the same. */
  lemma NoCheckIff(o: Order, s: Surroundings, check: Option<Check>, trace: seq<Event>)
    requires Complies(o, s, check, trace)
    ensures check.None? <==> s.raises && exists i :: 0 <= i < |trace| && trace[i].SwitchedOver?
  {
    hide Resolve, Stops, ReadyAt;
    var first, now := Resolve(o.nodes, s.first), Resolve(o.nodes, s.last);
    if |trace| != 1 {
      var k: nat :| Waited(o, s, first, now, k, check, trace);
      if ReadyAt(s, k) {
        assert trace[k + 2].SwitchedOver?;
      }
    }
  }

  /** A switchover is ordered at most once, only with repair on and another node resolved as primary, and
      directly after a reading of the candidate that clears every gate on the leader's timeline. */
  lemma SwitchoverIsGuarded(o: Order, s: Surroundings, check: Option<Check>, trace: seq<Event>, i: nat)
    requires Complies(o, s, check, trace) && i < |trace| && trace[i].SwitchedOver?
    ensures forall j | 0 <= j < |trace| && trace[j].SwitchedOver? :: j == i
    ensures o.repair && trace[0].Resolved? && trace[0].r.Primary? && trace[0].r.node.host != o.expected.host
    ensures trace[i] == SwitchedOver(trace[0].r.node.host, o.expected.host)
    ensures i > 1 && trace[i - 1].Probed?
    ensures ClearsEveryGate(trace[i - 1].reading, if s.leader.Some? then s.leader.value.timeline else None)
  {
    hide Resolve, Stops;
    var first, now := Resolve(o.nodes, s.first), Resolve(o.nodes, s.last);
    var k: nat :| Waited(o, s, first, now, k, check, trace);
    assert ReadyAt(s, k);
    assert i == k + 2 && trace[i - 1] == Probes(s, k + 1)[k];
  }

  /** A check reports a repair exactly when a switchover was ordered. */
  lemma RepairedIff(o: Order, s: Surroundings, check: Option<Check>, trace: seq<Event>)
    requires Complies(o, s, check, trace) && check.Some?
    ensures check.value.repaired == Some(true) <==> exists i :: 0 <= i < |trace| && trace[i].SwitchedOver?
  {
    hide Resolve, Stops, ReadyAt;
    if |trace| != 1 {
      var first, now := Resolve(o.nodes, s.first), Resolve(o.nodes, s.last);
      var k: nat :| Waited(o, s, first, now, k, check, trace);
      if ReadyAt(s, k) {
        assert trace[k + 2].SwitchedOver?;
      }
    }
  }

  lemma {:induction false} ClockAfter(s: Surroundings, k: nat)
    requires Advances(s)
    ensures s.clock(k) >= s.started + k as real * POLL
  {
    if k > 0 {
      ClockAfter(s, k - 1);
      assert s.clock(k - 1 + 1) >= s.clock(k - 1) + POLL;
    }
  }

  /** The wait is bounded: reading j + 1 of the candidate is only taken within j polls of the settling time. */
  lemma ReadingsBounded(o: Order, s: Surroundings, check: Option<Check>, trace: seq<Event>, j: nat)
    requires Advances(s) && Complies(o, s, check, trace)
    requires j + 2 < |trace| && trace[j + 2].Probed?
    ensures j as real * 5.0 < o.settle
  {
    hide Resolve, ReadyAt;
    var first, now := Resolve(o.nodes, s.first), Resolve(o.nodes, s.last);
    var k: nat :| Waited(o, s, first, now, k, check, trace);
    assert j < k && !Stops(s, o.settle, j);
    ClockAfter(s, j);
  }

  /** A candidate that clears every gate before the time is up is switched to. */
  lemma ReadyCandidateIsUsed(o: Order, s: Surroundings, check: Option<Check>, trace: seq<Event>, k: nat)
    requires Complies(o, s, check, trace) && o.repair
    requires var first := Resolve(o.nodes, s.first); first.Primary? && first.node.host != o.expected.host
    requires ClearsEveryGate(s.candidate(k), LeaderTimeline(s))
    requires k > 0 ==> o.settle > 0.0 && forall j | 0 <= j < k :: s.clock(j) < s.started + o.settle
    ensures check.None? || check.value.repaired == Some(true)
    ensures exists i :: 0 <= i < |trace| && trace[i] == SwitchedOver(Resolve(o.nodes, s.first).node.host, o.expected.host)
  {
    hide Resolve;
    var first, now := Resolve(o.nodes, s.first), Resolve(o.nodes, s.last);
    var l: nat :| Waited(o, s, first, now, l, check, trace);
    assert Stops(s, o.settle, k);
    assert l < k ==> Stops(s, o.settle, l);
    assert trace[l + 2] == SwitchedOver(first.node.host, o.expected.host);
  }
}
