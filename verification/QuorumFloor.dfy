/** The write-latency floor: the round trip to the follower whose acknowledgement completes quorum. */
module QuorumFloor {
  import opened Numbers
  import opened Ordering

  /** A follower's measured round trip and its host. */
  type Rtt = Keyed<string>

  datatype Floor = Floor(ms: real) | TooFewVoters | TooFewFollowers

  function FloorMs(rtts: seq<Rtt>, voters: int): Floor {
    if voters < 3 then TooFewVoters
    else if |rtts| < voters / 2 then TooFewFollowers
    else Floor(SortReals(Keys(rtts))[voters / 2 - 1])
  }

  /** The measurements are a dictionary: a host has one round trip. */
  ghost predicate OnePerHost(rtts: seq<Rtt>) {
    forall i, j | 0 <= i < j < |rtts| :: rtts[i].value != rtts[j].value
  }

  /** Followers whose acknowledgements, with the leader's own vote, commit a write. */
  ghost predicate IsQuorum(q: set<Rtt>, rtts: seq<Rtt>, voters: int) {
    (forall r | r in q :: r in rtts) && |q| >= voters / 2
  }

  /** Every follower of the quorum has answered within v. */
  ghost predicate Within(q: set<Rtt>, v: real) {
    forall r | r in q :: r.key <= v
  }

  // ----- Counting followers -----

  function UpTo(rtts: seq<Rtt>, v: real): set<Rtt> {
    set r | r in rtts && r.key <= v
  }

  function Below(rtts: seq<Rtt>, v: real): set<Rtt> {
    set r | r in rtts && r.key < v
  }

  lemma {:induction false} CountUpTo(rtts: seq<Rtt>, v: real)
    requires OnePerHost(rtts)
    ensures |UpTo(rtts, v)| == CountLe(Keys(rtts), v)
  {
    if rtts == [] {
      assert UpTo(rtts, v) == {};
    } else {
      var x := rtts[0];
      CountUpTo(rtts[1..], v);
      assert rtts == [x] + rtts[1..] && x !in rtts[1..];
      assert Keys(rtts)[1..] == Keys(rtts[1..]);
      assert UpTo(rtts, v) == (if x.key <= v then {x} else {}) + UpTo(rtts[1..], v);
    }
  }

  lemma {:induction false} CountBelow(rtts: seq<Rtt>, v: real)
    ensures |Below(rtts, v)| <= CountLt(Keys(rtts), v)
  {
    if rtts == [] {
      assert Below(rtts, v) == {};
    } else {
      var x := rtts[0];
      CountBelow(rtts[1..], v);
      assert rtts == [x] + rtts[1..];
      assert Keys(rtts)[1..] == Keys(rtts[1..]);
      assert Below(rtts, v) == (if x.key < v then {x} else {}) + Below(rtts[1..], v);
    }
  }

  lemma SubsetSize<T>(a: set<T>, b: set<T>)
    requires a <= b
    ensures |a| <= |b|
  {
    assert b == a + (b - a);
  }

  // ----- Minimax -----

  /** No quorum is faster than the floor: each has a follower at or beyond it. */
  lemma NoQuorumIsFaster(rtts: seq<Rtt>, voters: int, q: set<Rtt>)
    requires FloorMs(rtts, voters).Floor? && IsQuorum(q, rtts, voters)
    ensures exists r :: r in q && r.key >= FloorMs(rtts, voters).ms
  {
    var v := FloorMs(rtts, voters).ms;
    RankCount(Keys(rtts), voters / 2 - 1);
    CountBelow(rtts, v);
    if forall r | r in q :: r.key < v {
      assert q <= Below(rtts, v);
      SubsetSize(q, Below(rtts, v));
    }
  }

  /** Some quorum is as fast as the floor, and its slowest follower sits exactly on it. */
  lemma SomeQuorumAttains(rtts: seq<Rtt>, voters: int)
    requires FloorMs(rtts, voters).Floor? && OnePerHost(rtts)
    ensures var v := FloorMs(rtts, voters).ms;
      && IsQuorum(UpTo(rtts, v), rtts, voters) && Within(UpTo(rtts, v), v)
      && exists r :: r in UpTo(rtts, v) && r.key == v
  {
    var v := FloorMs(rtts, voters).ms;
    RankCount(Keys(rtts), voters / 2 - 1);
    CountUpTo(rtts, v);
    var i :| 0 <= i < |Keys(rtts)| && Keys(rtts)[i] == v;
    assert rtts[i] in UpTo(rtts, v);
  }

  /** The floor is the least bound that some quorum meets. */
  lemma FloorIsMinimax(rtts: seq<Rtt>, voters: int, v: real)
    requires FloorMs(rtts, voters).Floor? && OnePerHost(rtts)
    ensures v >= FloorMs(rtts, voters).ms <==> exists q :: IsQuorum(q, rtts, voters) && Within(q, v)
  {
    hide FloorMs;
    SomeQuorumAttains(rtts, voters);
    if v >= FloorMs(rtts, voters).ms {
      assert Within(UpTo(rtts, FloorMs(rtts, voters).ms), v);
    }
    if q :| IsQuorum(q, rtts, voters) && Within(q, v) {
      NoQuorumIsFaster(rtts, voters, q);
    }
  }

  // ----- Losing a follower -----

  function Without(rtts: seq<Rtt>, host: string): seq<Rtt> {
    if rtts == [] then []
    else (if rtts[0].value == host then [] else [rtts[0]]) + Without(rtts[1..], host)
  }

  lemma {:induction false} WithoutKeeps(rtts: seq<Rtt>, host: string)
    ensures forall r :: r in Without(rtts, host) <==> r in rtts && r.value != host
    ensures OnePerHost(rtts) ==> OnePerHost(Without(rtts, host))
    ensures |Without(rtts, host)| <= |rtts|
  {
    if rtts != [] {
      WithoutKeeps(rtts[1..], host);
      assert rtts == [rtts[0]] + rtts[1..];
      if OnePerHost(rtts) && rtts[0].value != host {
        var rest := Without(rtts[1..], host);
        forall i | 0 <= i < |rest| ensures rest[i].value != rtts[0].value {
          assert rest[i] in rtts[1..];
        }
      }
    }
  }

  /** Losing a follower never lowers the floor. */
  lemma LossNeverLowers(rtts: seq<Rtt>, voters: int, host: string)
    requires OnePerHost(rtts) && FloorMs(Without(rtts, host), voters).Floor?
    ensures FloorMs(rtts, voters).Floor? && FloorMs(rtts, voters).ms <= FloorMs(Without(rtts, host), voters).ms
  {
    WithoutKeeps(rtts, host);
    assert FloorMs(rtts, voters).Floor?;
    hide FloorMs, Without, OnePerHost;
    var left := Without(rtts, host);
    var v := FloorMs(left, voters).ms;
    SomeQuorumAttains(left, voters);
    FloorIsMinimax(rtts, voters, v);
    assert IsQuorum(UpTo(left, v), rtts, voters);
  }

  /** The host is in every quorum that is as fast as the floor. */
  ghost predicate InEveryFastQuorum(rtts: seq<Rtt>, voters: int, host: string)
    requires FloorMs(rtts, voters).Floor?
  {
    forall q: set<Rtt> | IsQuorum(q, rtts, voters) && Within(q, FloorMs(rtts, voters).ms) ::
      exists r: Rtt :: r in q && r.value == host
  }

  /** A fast quorum that does without the host is a quorum of those left. */
  lemma QuorumWithout(rtts: seq<Rtt>, voters: int, host: string, v: real)
    requires OnePerHost(rtts) && FloorMs(Without(rtts, host), voters).Floor?
    ensures v >= FloorMs(Without(rtts, host), voters).ms <==>
            exists q: set<Rtt> :: IsQuorum(q, rtts, voters) && Within(q, v) && !exists r: Rtt :: r in q && r.value == host
  {
    WithoutKeeps(rtts, host);
    var left := Without(rtts, host);
    FloorIsMinimax(left, voters, v);
    hide FloorMs, Without, OnePerHost;
    if q :| IsQuorum(q, left, voters) && Within(q, v) {
      assert IsQuorum(q, rtts, voters);
    }
    if q :| IsQuorum(q, rtts, voters) && Within(q, v) && !exists r: Rtt :: r in q && r.value == host {
      assert IsQuorum(q, left, voters);
    }
  }

  /** Losing a follower raises the floor exactly when every fast quorum needed it. */
  lemma LossRaisesIff(rtts: seq<Rtt>, voters: int, host: string)
    requires OnePerHost(rtts) && FloorMs(Without(rtts, host), voters).Floor?
    ensures FloorMs(rtts, voters).Floor?
    ensures FloorMs(Without(rtts, host), voters).ms > FloorMs(rtts, voters).ms <==>
            InEveryFastQuorum(rtts, voters, host)
  {
    LossNeverLowers(rtts, voters, host);
    QuorumWithout(rtts, voters, host, FloorMs(rtts, voters).ms);
    hide FloorMs, Without, OnePerHost, IsQuorum, Within;
  }

  // ----- The geometry reported for a fault -----

  const MARGIN := 0.000000001

  datatype Geometry =
    | Unavailable
    | FollowerLost(before: real, after: real, targetInFastQuorum: bool)
    | LeaderLost(before: real, candidates: seq<Rtt>, best: Rtt, worst: Rtt, targetInFastQuorum: bool)

  /** The leader survives and loses a follower. */
  function FollowerGeometry(rtts: seq<Rtt>, voters: int, target: string): Geometry {
    var before, after := FloorMs(rtts, voters), FloorMs(Without(rtts, target), voters);
    if before.Floor? && after.Floor?
    then FollowerLost(before.ms, after.ms, after.ms > before.ms + MARGIN)
    else Unavailable
  }

  /** A floor exists exactly from three voters on, with enough followers measured to complete a majority
      of them with the leader. */
  lemma FloorExistsIff(rtts: seq<Rtt>, voters: int)
    ensures FloorMs(rtts, voters).Floor? <==> voters >= 3 && 2 * (|rtts| + 1) > voters
    ensures FloorMs(rtts, voters).TooFewVoters? <==> voters < 3
  {
  }

  /** What is reported for a lost follower: the least bound that some quorum met before, and the least that
      some quorum of those left still meets; nothing when there is no such floor before or after. */
  lemma FollowerGeometryMeans(rtts: seq<Rtt>, voters: int, target: string, v: real)
    requires OnePerHost(rtts)
    ensures var g, left := FollowerGeometry(rtts, voters, target), Without(rtts, target);
      && (g.Unavailable? <==> voters < 3 || 2 * (|left| + 1) <= voters)
      && (!g.Unavailable? ==>
            && g.FollowerLost?
            && (v >= g.before <==> exists q :: IsQuorum(q, rtts, voters) && Within(q, v))
            && (v >= g.after <==> exists q :: IsQuorum(q, left, voters) && Within(q, v))
            && (g.targetInFastQuorum <==> g.after > g.before + 0.000000001))
  {
    var left := Without(rtts, target);
    WithoutKeeps(rtts, target);
    FloorExistsIff(rtts, voters);
    FloorExistsIff(left, voters);
    hide FloorMs, Without, OnePerHost, IsQuorum, Within;
    if FloorMs(left, voters).Floor? {
      FloorIsMinimax(rtts, voters, v);
      FloorIsMinimax(left, voters, v);
    }
  }

  ghost predicate Recorded(rtts: seq<Rtt>, step: real) {
    step > MARGIN && forall r | r in rtts :: exists k :: r.key == Mark(k, step)
  }

  lemma FloorIsMeasured(rtts: seq<Rtt>, voters: int)
    requires FloorMs(rtts, voters).Floor?
    ensures exists r :: r in rtts && r.key == FloorMs(rtts, voters).ms
  {
    RankCount(Keys(rtts), voters / 2 - 1);
    var i :| 0 <= i < |Keys(rtts)| && Keys(rtts)[i] == FloorMs(rtts, voters).ms;
    assert rtts[i] in rtts;
  }

  /** With round trips recorded to a step wider than the margin, the flag says exactly that the lost
      follower was in every fast quorum. */
  lemma FlagMeansFastQuorum(rtts: seq<Rtt>, voters: int, target: string, step: real)
    requires OnePerHost(rtts) && Recorded(rtts, step) && FollowerGeometry(rtts, voters, target).FollowerLost?
    ensures FloorMs(rtts, voters).Floor?
    ensures FollowerGeometry(rtts, voters, target).targetInFastQuorum <==> InEveryFastQuorum(rtts, voters, target)
  {
    var left := Without(rtts, target);
    LossRaisesIff(rtts, voters, target);
    WithoutKeeps(rtts, target);
    hide InEveryFastQuorum, Mark;
    FloorIsMeasured(rtts, voters);
    FloorIsMeasured(left, voters);
    var k :| FloorMs(left, voters).ms == Mark(k, step);
    var l :| FloorMs(rtts, voters).ms == Mark(l, step);
    MarksApart(k, l, step, MARGIN);
  }

  /** A surviving node and the round trips measured from it. */
  datatype Survivor = Survivor(name: string, rtts: seq<Rtt>)

  /** The survivors that could lead, with the floors they would lead with, in order. */
  function CandidateFloors(survivors: seq<Survivor>, voters: int, target: string): seq<Rtt> {
    if survivors == [] then []
    else
      var n := |survivors| - 1;
      var floor := FloorMs(Without(survivors[n].rtts, target), voters);
      CandidateFloors(survivors[..n], voters, target) + if floor.Floor? then [Keyed(floor.ms, survivors[n].name)] else []
  }

  /** The record is a survivor's name with the floor it would lead with. */
  ghost predicate Leads(c: Rtt, survivors: seq<Survivor>, voters: int, target: string) {
    exists s :: s in survivors && s.name == c.value && FloorMs(Without(s.rtts, target), voters) == Floor(c.key)
  }

  lemma {:induction false} CandidatesAre(survivors: seq<Survivor>, voters: int, target: string)
    ensures forall c :: c in CandidateFloors(survivors, voters, target) <==> Leads(c, survivors, voters, target)
  {
    hide FloorMs, Without;
    if survivors != [] {
      var n := |survivors| - 1;
      CandidatesAre(survivors[..n], voters, target);
      assert survivors == survivors[..n] + [survivors[n]];
    }
  }

  /** The first of the records with the least key, and the first with the greatest. */
  ghost predicate Extremes(candidates: seq<Rtt>, best: Rtt, worst: Rtt) {
    && (exists i :: 0 <= i < |candidates| && candidates[i] == best && forall j | 0 <= j < i :: candidates[j].key > best.key)
    && (exists i :: 0 <= i < |candidates| && candidates[i] == worst && forall j | 0 <= j < i :: candidates[j].key < worst.key)
    && forall c | c in candidates :: best.key <= c.key <= worst.key
  }

  /** The leader is lost: every survivor with enough round trips is tried as its successor. */
  method LeaderGeometry(before: Floor, survivors: seq<Survivor>, voters: int, target: string) returns (g: Geometry)
    ensures g.Unavailable? <==> !before.Floor? || CandidateFloors(survivors, voters, target) == []
    ensures !g.Unavailable? ==>
            && g.LeaderLost? && g.before == before.ms && g.candidates == CandidateFloors(survivors, voters, target)
            && Extremes(g.candidates, g.best, g.worst)
            && (g.targetInFastQuorum <==> g.best.key > before.ms + 0.000000001)
  {
    hide FloorMs, Without;
    if !before.Floor? {
      return Unavailable;
    }
    var candidates: seq<Rtt> := [];
    var i := 0;
    while i < |survivors|
      invariant 0 <= i <= |survivors| && candidates == CandidateFloors(survivors[..i], voters, target)
    {
      var floor := FloorMs(Without(survivors[i].rtts, target), voters);
      assert survivors[..i + 1][..i] == survivors[..i];
      if floor.Floor? {
        candidates := candidates + [Keyed(floor.ms, survivors[i].name)];
      } else {
        assert candidates + [] == candidates;
      }
      i := i + 1;
    }
    assert survivors[..i] == survivors;
    if candidates == [] {
      return Unavailable;
    }
    var best, worst := FirstExtremes(candidates);
    g := LeaderLost(before.ms, candidates, best, worst, best.key > before.ms + MARGIN);
  }

  method FirstExtremes(candidates: seq<Rtt>) returns (best: Rtt, worst: Rtt)
    requires candidates != []
    ensures Extremes(candidates, best, worst)
  {
    var b, w, i := 0, 0, 1;
    while i < |candidates|
      invariant 1 <= i <= |candidates| && 0 <= b < i && 0 <= w < i
      invariant forall j | 0 <= j < i :: candidates[b].key <= candidates[j].key <= candidates[w].key
      invariant forall j | 0 <= j < b :: candidates[j].key > candidates[b].key
      invariant forall j | 0 <= j < w :: candidates[j].key < candidates[w].key
    {
      if candidates[i].key < candidates[b].key {
        b := i;
      }
      if candidates[i].key > candidates[w].key {
        w := i;
      }
      i := i + 1;
    }
    best, worst := candidates[b], candidates[w];
  }

  /** The best case is the least bound met by any survivor with any quorum of the other survivors. */
  lemma BestCaseIsMinimax(survivors: seq<Survivor>, voters: int, target: string, best: Rtt, worst: Rtt, v: real)
    requires forall s | s in survivors :: OnePerHost(s.rtts)
    requires Extremes(CandidateFloors(survivors, voters, target), best, worst)
    ensures v >= best.key <==> exists s, q :: s in survivors && FloorMs(Without(s.rtts, target), voters).Floor?
                                 && IsQuorum(q, Without(s.rtts, target), voters) && Within(q, v)
  {
    hide FloorMs, Without, OnePerHost, IsQuorum, Within, CandidateFloors;
    CandidatesAre(survivors, voters, target);
    assert Leads(best, survivors, voters, target);
    forall s | s in survivors && FloorMs(Without(s.rtts, target), voters).Floor?
      ensures best.key <= FloorMs(Without(s.rtts, target), voters).ms
    {
      assert Leads(Keyed(FloorMs(Without(s.rtts, target), voters).ms, s.name), survivors, voters, target);
    }
    LeastLeader(survivors, voters, target, best, v);
  }

  lemma LeastLeader(survivors: seq<Survivor>, voters: int, target: string, best: Rtt, v: real)
    requires forall s | s in survivors :: OnePerHost(s.rtts)
    requires Leads(best, survivors, voters, target)
    requires forall s | s in survivors && FloorMs(Without(s.rtts, target), voters).Floor? ::
               best.key <= FloorMs(Without(s.rtts, target), voters).ms
    ensures v >= best.key <==> exists s, q :: s in survivors && FloorMs(Without(s.rtts, target), voters).Floor?
                                 && IsQuorum(q, Without(s.rtts, target), voters) && Within(q, v)
  {
    hide FloorMs, Without, OnePerHost, IsQuorum, Within;
    var leader :| leader in survivors && FloorMs(Without(leader.rtts, target), voters) == Floor(best.key);
    forall s | s in survivors && FloorMs(Without(s.rtts, target), voters).Floor?
      ensures v >= FloorMs(Without(s.rtts, target), voters).ms <==>
              exists q :: IsQuorum(q, Without(s.rtts, target), voters) && Within(q, v)
    {
      WithoutKeeps(s.rtts, target);
      FloorIsMinimax(Without(s.rtts, target), voters, v);
    }
  }
}
