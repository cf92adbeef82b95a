/** Performance recovery: the first start after the fault from which throughput holds for a while. */
module Recovery {
  import opened Options

  datatype Tick = Tick(at: real, tps: real)

  ghost predicate Sorted(ticks: seq<Tick>) {
    forall i, j | 0 <= i <= j < |ticks| :: ticks[i].at <= ticks[j].at
  }

  function Post(ticks: seq<Tick>, fault: real): seq<Tick> {
    if ticks == [] then []
    else (if ticks[0].at >= fault then [ticks[0]] else []) + Post(ticks[1..], fault)
  }

  /** The throughputs, from tick i on, that fall before the end of the hold. */
  function Window(post: seq<Tick>, i: nat, until: real): seq<real>
    requires i <= |post|
    decreases |post| - i
  {
    if i == |post| then []
    else (if post[i].at < until then [post[i].tps] else []) + Window(post, i + 1, until)
  }

  const SLACK := 0.000000001

  /** Enough of the series is left after tick i to establish the hold. */
  predicate Fits(post: seq<Tick>, i: nat, hold: real)
    requires i < |post|
  {
    post[|post| - 1].at - post[i].at >= hold - SLACK
  }

  predicate AllAtLeast(window: seq<real>, floor: real) {
    forall k | 0 <= k < |window| :: window[k] >= floor
  }

  /** The scan from tick i: it gives up at the first tick whose hold no longer fits. */
  function Scan(post: seq<Tick>, i: nat, floor: real, hold: real): Option<real>
    requires i <= |post|
    decreases |post| - i
  {
    if i == |post| then None
    else
      var window := Window(post, i, post[i].at + hold);
      if window == [] || !Fits(post, i, hold) then None
      else if AllAtLeast(window, floor) then Some(post[i].at)
      else Scan(post, i + 1, floor, hold)
  }

  function FloorTps(baseline: real, threshold: real): real {
    baseline * threshold
  }

  function Recovery(ticks: seq<Tick>, fault: real, baseline: real, threshold: real, hold: real): Option<real> {
    Scan(Post(ticks, fault), 0, FloorTps(baseline, threshold), hold)
  }

  method FindRecovery(ticks: seq<Tick>, fault: real, baseline: real, threshold: real, hold: real)
      returns (start: Option<real>)
    ensures start == Recovery(ticks, fault, baseline, threshold, hold)
  {
    hide Window, AllAtLeast, Fits, Post;
    var floor, post := FloorTps(baseline, threshold), Post(ticks, fault);
    var index := 0;
    while index < |post|
      invariant 0 <= index <= |post|
      invariant Scan(post, 0, floor, hold) == Scan(post, index, floor, hold)
    {
      var window := Window(post, index, post[index].at + hold);
      if window == [] || !Fits(post, index, hold) {
        break;
      }
      if AllAtLeast(window, floor) {
        return Some(post[index].at);
      }
      index := index + 1;
    }
    return None;
  }

  // ----- What the scan finds -----

  /** Throughput holds from tick k: the hold fits before the last tick, and every tick from k until its
      end is at or above the floor. */
  ghost predicate HoldsFrom(ticks: seq<Tick>, k: nat, floor: real, hold: real)
    requires k < |ticks|
  {
    && ticks[|ticks| - 1].at - ticks[k].at >= hold - 0.000000001
    && forall j | k <= j < |ticks| && ticks[j].at < ticks[k].at + hold :: ticks[j].tps >= floor
  }

  lemma {:induction false} WindowHas(post: seq<Tick>, i: nat, until: real, k: nat)
    requires i <= k < |post| && post[k].at < until
    ensures post[k].tps in Window(post, i, until)
    decreases k - i
  {
    if i < k {
      WindowHas(post, i + 1, until, k);
    }
  }

  lemma {:induction false} WindowFrom(post: seq<Tick>, i: nat, until: real, j: nat) returns (k: nat)
    requires i <= |post| && j < |Window(post, i, until)|
    ensures i <= k < |post| && post[k].at < until && post[k].tps == Window(post, i, until)[j]
    decreases |post| - i
  {
    if post[i].at >= until {
      k := WindowFrom(post, i + 1, until, j);
    } else if j == 0 {
      k := i;
    } else {
      k := WindowFrom(post, i + 1, until, j - 1);
    }
  }

  lemma WindowHolds(post: seq<Tick>, i: nat, floor: real, hold: real)
    requires i < |post|
    ensures Fits(post, i, hold) && AllAtLeast(Window(post, i, post[i].at + hold), floor) <==>
            HoldsFrom(post, i, floor, hold)
  {
    hide Window;
    var until := post[i].at + hold;
    var window := Window(post, i, until);
    if AllAtLeast(window, floor) {
      forall k | i <= k < |post| && post[k].at < until ensures post[k].tps >= floor {
        WindowHas(post, i, until, k);
      }
    } else {
      var j :| 0 <= j < |window| && window[j] < floor;
      var k := WindowFrom(post, i, until, j);
    }
  }

  /** The scan finds the first tick that holds; stopping at the first hold that does not fit loses none. */
  lemma {:induction false} ScanIsFirst(post: seq<Tick>, i: nat, floor: real, hold: real)
    requires Sorted(post) && i <= |post| && hold > 0.0
    ensures var r := Scan(post, i, floor, hold);
      if r.Some?
      then exists k :: i <= k < |post| && IsFirst(post, i, k, floor, hold) && post[k].at == r.value
      else forall k | i <= k < |post| :: !HoldsFrom(post, k, floor, hold)
    decreases |post| - i
  {
    if i < |post| {
      WindowHolds(post, i, floor, hold);
      WindowHas(post, i, post[i].at + hold, i);
      var r := Scan(post, i, floor, hold);
      hide Window, AllAtLeast, HoldsFrom;
      if !Fits(post, i, hold) {
        forall k | i <= k < |post| ensures !HoldsFrom(post, k, floor, hold) {
          LaterDoesNotFit(post, i, k, floor, hold);
        }
      } else if HoldsFrom(post, i, floor, hold) {
        assert IsFirst(post, i, i, floor, hold);
      } else {
        ScanIsFirst(post, i + 1, floor, hold);
        if r.Some? {
          var k :| i + 1 <= k < |post| && IsFirst(post, i + 1, k, floor, hold) && post[k].at == r.value;
          assert IsFirst(post, i, k, floor, hold);
        }
      }
    }
  }

  ghost predicate IsFirst(post: seq<Tick>, i: nat, k: nat, floor: real, hold: real) {
    k < |post| && HoldsFrom(post, k, floor, hold) && forall j | i <= j < k :: !HoldsFrom(post, j, floor, hold)
  }

  lemma LaterDoesNotFit(post: seq<Tick>, i: nat, k: nat, floor: real, hold: real)
    requires Sorted(post) && i <= k < |post| && !Fits(post, i, hold)
    ensures !HoldsFrom(post, k, floor, hold)
  {
    assert post[i].at <= post[k].at;
  }

  /** The post-fault ticks of a sorted series are its ticks from some position on. */
  lemma {:induction false} PostIsSuffix(ticks: seq<Tick>, fault: real) returns (d: nat)
    requires Sorted(ticks)
    ensures d <= |ticks| && Post(ticks, fault) == ticks[d..]
    ensures forall k | 0 <= k < |ticks| :: k >= d <==> ticks[k].at >= fault
  {
    if ticks == [] {
      d := 0;
    } else {
      assert Sorted(ticks[1..]);
      var e := PostIsSuffix(ticks[1..], fault);
      hide Post;
      if ticks[0].at >= fault {
        d := 0;
      } else {
        d := e + 1;
      }
      assert forall k | 0 < k < |ticks| :: ticks[k] == ticks[1..][k - 1];
    }
  }

  /** The tick the recovery starts at: the first at or after the fault from which throughput holds. */
  ghost predicate Recovers(ticks: seq<Tick>, fault: real, k: nat, floor: real, hold: real) {
    && k < |ticks| && ticks[k].at >= fault && HoldsFrom(ticks, k, floor, hold)
    && forall j | 0 <= j < k && ticks[j].at >= fault :: !HoldsFrom(ticks, j, floor, hold)
  }

  lemma HoldsInSuffix(ticks: seq<Tick>, d: nat, i: nat, floor: real, hold: real)
    requires d + i < |ticks|
    ensures HoldsFrom(ticks[d..], i, floor, hold) <==> HoldsFrom(ticks, d + i, floor, hold)
  {
    var p := ticks[d..];
    assert forall j | i <= j < |p| :: p[j] == ticks[d + j];
    assert forall j | d + i <= j < |ticks| :: ticks[j] == p[j - d];
  }

  /** The ticks from d on are those at or after the fault. */
  ghost predicate From(ticks: seq<Tick>, fault: real, d: nat) {
    d <= |ticks| && forall k | 0 <= k < |ticks| :: k >= d <==> ticks[k].at >= fault
  }

  lemma FirstInSuffix(ticks: seq<Tick>, fault: real, d: nat, i: nat, floor: real, hold: real)
    requires From(ticks, fault, d) && IsFirst(ticks[d..], 0, i, floor, hold)
    ensures Recovers(ticks, fault, d + i, floor, hold)
  {
    hide HoldsFrom;
    HoldsInSuffix(ticks, d, i, floor, hold);
    forall j | 0 <= j < d + i && ticks[j].at >= fault ensures !HoldsFrom(ticks, j, floor, hold) {
      HoldsInSuffix(ticks, d, j - d, floor, hold);
    }
  }

  lemma NoneInSuffix(ticks: seq<Tick>, fault: real, d: nat, k: nat, floor: real, hold: real)
    requires From(ticks, fault, d) && k < |ticks| && ticks[k].at >= fault
    requires forall i | 0 <= i < |ticks[d..]| :: !HoldsFrom(ticks[d..], i, floor, hold)
    ensures !HoldsFrom(ticks, k, floor, hold)
  {
    hide HoldsFrom;
    HoldsInSuffix(ticks, d, k - d, floor, hold);
  }

  lemma FloorIsShare(baseline: real, threshold: real)
    ensures FloorTps(baseline, threshold) == baseline * threshold
  {
  }

  /** The recovery is the time of the first tick at or after the fault from which throughput holds at the
      threshold's share of the baseline, and there is none only if no such tick holds. */
  lemma RecoveryIsFirst(ticks: seq<Tick>, fault: real, baseline: real, threshold: real, hold: real)
    requires Sorted(ticks) && hold > 0.0
    ensures var r, floor := Recovery(ticks, fault, baseline, threshold, hold), baseline * threshold;
      if r.Some?
      then exists k :: 0 <= k < |ticks| && Recovers(ticks, fault, k, floor, hold) && ticks[k].at == r.value
      else forall k | 0 <= k < |ticks| && ticks[k].at >= fault :: !HoldsFrom(ticks, k, floor, hold)
  {
    FloorIsShare(baseline, threshold);
    hide FloorTps, Post, Scan, HoldsFrom, Recovers, From, IsFirst;
    var floor := FloorTps(baseline, threshold);
    var d := PostFrom(ticks, fault);
    var p := ticks[d..];
    ScanIsFirst(p, 0, floor, hold);
    var r := Scan(p, 0, floor, hold);
    if r.Some? {
      var i :| 0 <= i < |p| && IsFirst(p, 0, i, floor, hold) && p[i].at == r.value;
      FirstInSuffix(ticks, fault, d, i, floor, hold);
    } else {
      forall k | 0 <= k < |ticks| && ticks[k].at >= fault ensures !HoldsFrom(ticks, k, floor, hold) {
        NoneInSuffix(ticks, fault, d, k, floor, hold);
      }
    }
  }

  lemma PostFrom(ticks: seq<Tick>, fault: real) returns (d: nat)
    requires Sorted(ticks)
    ensures d <= |ticks| && Post(ticks, fault) == ticks[d..] && From(ticks, fault, d) && Sorted(ticks[d..])
  {
    hide Post;
    d := PostIsSuffix(ticks, fault);
  }

  /** No recovery counts as later than any. */
  ghost predicate NotLater(a: Option<real>, b: Option<real>) {
    b.Some? ==> a.Some? && a.value <= b.value
  }

  /** An earlier fault, or a lower threshold on a baseline that is not negative, never recovers later. */
  lemma RecoveryMonotone(ticks: seq<Tick>, early: real, late: real, baseline: real, low: real, high: real, hold: real)
    requires Sorted(ticks) && hold > 0.0
    requires early <= late && low <= high && baseline >= 0.0
    ensures NotLater(Recovery(ticks, early, baseline, low, hold), Recovery(ticks, late, baseline, high, hold))
  {
    hide Recovery, FloorTps;
    RecoveryIsFirst(ticks, early, baseline, low, hold);
    RecoveryIsFirst(ticks, late, baseline, high, hold);
    var a, b := Recovery(ticks, early, baseline, low, hold), Recovery(ticks, late, baseline, high, hold);
    LowerThreshold(baseline, low, high);
    FloorIsShare(baseline, low);
    FloorIsShare(baseline, high);
    var lesser, greater := FloorTps(baseline, low), FloorTps(baseline, high);
    if b.Some? {
      var k :| 0 <= k < |ticks| && Recovers(ticks, late, k, greater, hold) && ticks[k].at == b.value;
      LowerFloor(ticks, k, lesser, greater, hold);
      hide HoldsFrom;
      var j :| 0 <= j < |ticks| && Recovers(ticks, early, j, lesser, hold) && ticks[j].at == a.value;
      assert j <= k;
    }
  }

  lemma LowerThreshold(baseline: real, low: real, high: real)
    requires low <= high && baseline >= 0.0
    ensures FloorTps(baseline, low) <= FloorTps(baseline, high)
  {
    assert baseline * (high - low) >= 0.0;
  }

  lemma LowerFloor(ticks: seq<Tick>, k: nat, low: real, high: real, hold: real)
    requires k < |ticks| && low <= high && HoldsFrom(ticks, k, high, hold)
    ensures HoldsFrom(ticks, k, low, hold)
  {
  }

  /** Without a positive hold the first window is empty, and no recovery is found. */
  lemma NoHoldNoRecovery(ticks: seq<Tick>, fault: real, baseline: real, threshold: real, hold: real)
    requires Sorted(ticks) && hold <= 0.0
    ensures Recovery(ticks, fault, baseline, threshold, hold) == None
  {
    var d := PostIsSuffix(ticks, fault);
    var p := ticks[d..];
    assert forall k | 0 <= k < |p| :: p[0].at + hold <= p[k].at;
    if p != [] && Window(p, 0, p[0].at + hold) != [] {
      var _ := WindowFrom(p, 0, p[0].at + hold, 0);
    }
  }
}
