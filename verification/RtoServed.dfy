/** Which attempts stand behind the sorted completion times, and which write closed a gap. */
module RtoServed {
  import opened Options
  import opened Ordering
  import opened RtoAnalysis
  import opened RtoFloor
  import opened RtoInvariance

  // ----- Counting attempts -----

  datatype Span = At(t: real) | Before(t: real) | From(t: real)

  /** The attempt was served, and completed there. */
  predicate ServedIn(a: Attempt, span: Span) {
    && a.outcome.Ok?
    && match span
       case At(t) => a.complete == t
       case Before(t) => a.complete < t
       case From(t) => a.complete >= t
  }

  /** The places in the log of the attempts served there. */
  ghost function ServedAt(attempts: seq<Attempt>, span: Span): set<int> {
    set i | 0 <= i < |attempts| && ServedIn(attempts[i], span)
  }

  lemma ServedAtNext(attempts: seq<Attempt>, x: Attempt, span: Span)
    ensures |ServedAt(attempts + [x], span)| == |ServedAt(attempts, span)| + if ServedIn(x, span) then 1 else 0
  {
    hide ServedIn;
    var n := |attempts|;
    if ServedIn(x, span) {
      assert ServedAt(attempts + [x], span) == ServedAt(attempts, span) + {n};
    } else {
      assert ServedAt(attempts + [x], span) == ServedAt(attempts, span);
    }
  }

  lemma NoneServed(span: Span)
    ensures |ServedAt([], span)| == 0
  {
    assert ServedAt([], span) == {};
  }

  lemma CountsOfOne(x: Attempt, t: real)
    ensures var s := ServedTimes([x]);
      && multiset(s)[t] == (if ServedIn(x, At(t)) then 1 else 0)
      && CountLt(s, t) == (if ServedIn(x, Before(t)) then 1 else 0)
      && |s| - CountLt(s, t) == (if ServedIn(x, From(t)) then 1 else 0)
  {
    ServedTimesOne(x);
    hide ServedTimes;
    var s := ServedTimes([x]);
    if s != [] {
      assert s[1..] == [];
    }
  }

  lemma {:induction false} ServedCounts(attempts: seq<Attempt>, t: real)
    ensures var s := ServedTimes(attempts);
      && multiset(s)[t] == |ServedAt(attempts, At(t))|
      && CountLt(s, t) == |ServedAt(attempts, Before(t))|
      && |s| - CountLt(s, t) == |ServedAt(attempts, From(t))|
  {
    if attempts == [] {
      NoneServed(At(t));
      NoneServed(Before(t));
      NoneServed(From(t));
    } else {
      hide *;
      var rest, x := attempts[..|attempts| - 1], attempts[|attempts| - 1];
      assert attempts == rest + [x];
      ServedCounts(rest, t);
      CountsOfOne(x, t);
      ServedTimesSplit(rest, [x]);
      CountSplit(ServedTimes(rest), ServedTimes([x]), t);
      ServedAtNext(rest, x, At(t));
      ServedAtNext(rest, x, Before(t));
      ServedAtNext(rest, x, From(t));
    }
  }

  lemma CompletionsSorted(attempts: seq<Attempt>)
    ensures Completions(attempts) == SortReals(ServedTimes(attempts))
  {
  }

  /** The completion times are ascending, and hold each time once for every attempt served then. */
  lemma CompletionsCount(attempts: seq<Attempt>)
    ensures Ascending(Completions(attempts))
    ensures forall t :: multiset(Completions(attempts))[t] == |ServedAt(attempts, At(t))|
  {
    CompletionsSorted(attempts);
    SortRealsAscending(ServedTimes(attempts));
    hide *;
    forall t ensures multiset(Completions(attempts))[t] == |ServedAt(attempts, At(t))| {
      ServedCounts(attempts, t);
    }
  }

  /** The served counts before the fault, and from the fault on. */
  lemma CompletionCounts(attempts: seq<Attempt>, t: real)
    ensures var times := Completions(attempts);
      && CountLt(times, t) == |ServedAt(attempts, Before(t))|
      && |times| - CountLt(times, t) == |ServedAt(attempts, From(t))|
  {
    CompletionsSorted(attempts);
    hide *;
    ServedCounts(attempts, t);
    CountPermutation(Completions(attempts), ServedTimes(attempts), t);
  }

  // ----- The write behind a completion time -----

  /** The first record with that key. */
  function First(s: seq<Keyed<real>>, k: real): Option<Keyed<real>> {
    if s == [] then None else if s[0].key == k then Some(s[0]) else First(s[1..], k)
  }

  lemma {:induction false} InsertFirst(x: Keyed<real>, s: seq<Keyed<real>>, k: real)
    ensures First(Insert(x, s), k) == if x.key == k then Some(x) else First(s, k)
  {
    if s != [] && x.key > s[0].key {
      InsertFirst(x, s[1..], k);
    } else {
      assert ([x] + s)[1..] == s;
    }
  }

  /** Sorting is stable: among equal keys the first stays first. */
  lemma {:induction false} SortFirst(s: seq<Keyed<real>>, k: real)
    ensures First(Sort(s), k) == First(s, k)
  {
    if s != [] {
      SortFirst(s[1..], k);
      InsertFirst(s[0], Sort(s[1..]), k);
    }
  }

  lemma {:induction false} FirstAt(s: seq<Keyed<real>>, i: nat)
    requires i < |s| && forall j | 0 <= j < i :: s[j].key != s[i].key
    ensures First(s, s[i].key) == Some(s[i])
  {
    if i > 0 {
      assert s[0].key != s[i].key;
      FirstAt(s[1..], i - 1);
    }
  }

  /** Entry q is the first one recorded of a write served at that time. */
  ghost predicate FirstServedAt(attempts: seq<Attempt>, q: int, t: real) {
    && 0 <= q < |attempts| && ServedIn(attempts[q], At(t))
    && forall p | 0 <= p < q :: !ServedIn(attempts[p], At(t))
  }

  lemma {:induction false} FirstOfServed(attempts: seq<Attempt>, t: real) returns (q: int)
    requires First(Served(attempts), t).Some?
    ensures FirstServedAt(attempts, q, t)
    ensures First(Served(attempts), t) == Some(Keyed(t, attempts[q].dispatch))
  {
    var a := attempts[0];
    if ServedIn(a, At(t)) {
      q := 0;
      ServedUnfold(attempts);
    } else {
      ServedUnfold(attempts);
      SkipFirst(ServedOne(a), Served(attempts[1..]), t);
      var p := FirstOfServed(attempts[1..], t);
      q := p + 1;
    }
  }

  lemma SkipFirst(s: seq<Keyed<real>>, rest: seq<Keyed<real>>, t: real)
    requires |s| <= 1 && forall i | 0 <= i < |s| :: s[i].key != t
    ensures First(s + rest, t) == First(rest, t)
  {
    if s == [] {
      assert s + rest == rest;
    } else {
      assert (s + rest)[1..] == rest;
    }
  }

  lemma RecordsKeys(attempts: seq<Attempt>)
    ensures Keys(Sort(Served(attempts))) == Completions(attempts)
  {
    SortKeys(Served(attempts));
    hide SortReals, Sort, Served;
  }

  /** The write that closes a gap, whose dispatch the sorted records hold: of those served when it closed,
      the one recorded first. */
  lemma ClosingWrite(attempts: seq<Attempt>, i: nat) returns (q: int)
    requires var times := Completions(attempts); i + 1 < |times| && times[i] < times[i + 1]
    ensures var r, times := Sort(Served(attempts)), Completions(attempts);
      && |r| == |times| && r[i].key == times[i] && FirstServedAt(attempts, q, times[i + 1])
      && r[i + 1] == Keyed(times[i + 1], attempts[q].dispatch)
  {
    var r, times := Sort(Served(attempts)), Completions(attempts);
    CompletionsSorted(attempts);
    SortRealsAscending(ServedTimes(attempts));
    RecordsKeys(attempts);
    hide Completions, Served, Sort, SortReals, ServedTimes, FirstServedAt, First;
    forall j | 0 <= j < i + 1 ensures r[j].key != r[i + 1].key {
      assert times[j] <= times[i];
    }
    FirstAt(r, i + 1);
    SortFirst(Served(attempts), times[i + 1]);
    q := FirstOfServed(attempts, times[i + 1]);
  }
}
