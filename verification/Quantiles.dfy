/** The two nearest-rank quantiles of the harness: the RTO probe's, which rounds half to even,
    and Phase I's, which takes a ceiling. */
module Quantiles {
  import opened Numbers
  import opened Options
  import opened Ordering

  /** Python's `round`: to the nearest integer, ties to the even one. */
  function RoundHalfEven(x: real): (r: int)
    ensures x - 0.5 <= r as real <= x + 0.5
  {
    var f := x.Floor;
    var d := x - f as real;
    if d < 0.5 || (d == 0.5 && f % 2 == 0) then f else f + 1
  }

  function Clamp(low: int, x: int, high: int): (r: int)
    requires low <= high
    ensures low <= r <= high
  {
    if x < low then low else if x > high then high else x
  }

  /** The part of n samples that a quantile q has to cover. */
  function Share(q: real, n: nat): real {
    q * n as real
  }

  /** The rank, counted from 1, that the probe reads off the sorted values. */
  function ProbeRank(n: nat, q: real): (rank: nat)
    requires n > 0
    ensures 1 <= rank <= n
  {
    Clamp(0, RoundHalfEven(Share(q, n) + 0.5) - 1, n - 1) + 1
  }

  function Quantile(values: seq<real>, q: real): Option<real> {
    if values == [] then None else Some(SortReals(values)[ProbeRank(|values|, q) - 1])
  }

  function Ceil(x: real): int {
    -(-x).Floor
  }

  function PhaseOneRank(n: nat, q: real): (rank: nat)
    requires n > 0
    ensures 1 <= rank <= n
  {
    Clamp(1, Ceil(Share(q, n)), n)
  }

  /** Phase I's quantile of an already sorted list; it raises on an empty one. */
  function PhaseOneQuantile(ordered: seq<real>, q: real): Option<real> {
    if ordered == [] then None else Some(ordered[PhaseOneRank(|ordered|, q) - 1])
  }

  ghost predicate IsOddInteger(x: real) {
    x == x.Floor as real && x.Floor % 2 == 1
  }

  /** Rounding x + 1/2 half to even is the ceiling of x, except at odd integers: there it is one more. */
  lemma HalfEvenAgainstCeil(x: real)
    ensures RoundHalfEven(x + 0.5) == if IsOddInteger(x) then Ceil(x) + 1 else Ceil(x)
  {
    var f, y := x.Floor, x + 0.5;
    if x == f as real {
      assert (-x).Floor == -f;
      assert y.Floor == f;
    } else {
      assert (-x).Floor == -f - 1;
      if x - f as real < 0.5 {
        assert y.Floor == f;
      } else {
        assert y.Floor == f + 1;
      }
    }
  }

  lemma ShareRange(q: real, n: nat)
    requires 0.0 <= q <= 1.0
    ensures 0.0 <= Share(q, n) <= n as real
  {
    var m := n as real;
    NonNegativeProduct(q, m);
    NonNegativeProduct(1.0 - q, m);
    assert (1.0 - q) * m == m - q * m;
  }

  /** The two ranks agree unless q * n is an odd integer; there the probe reads one rank higher. */
  lemma RanksDiffer(n: nat, q: real)
    requires n > 0 && 0.0 <= q <= 1.0
    ensures ProbeRank(n, q) ==
            if IsOddInteger(Share(q, n)) && PhaseOneRank(n, q) < n
            then PhaseOneRank(n, q) + 1
            else PhaseOneRank(n, q)
    ensures ProbeRank(n, q) as real >= Share(q, n)
  {
    hide Share, RoundHalfEven;
    var x := Share(q, n);
    ShareRange(q, n);
    HalfEvenAgainstCeil(x);
  }

  lemma SortedAt(values: seq<real>, rank: nat, v: real)
    requires 1 <= rank <= |values| && v == SortReals(values)[rank - 1]
    ensures v in values && CountLe(values, v) >= rank
  {
    RankCount(values, rank - 1);
  }

  lemma RankCovers(n: nat, q: real)
    requires n > 0 && 0.0 <= q <= 1.0
    ensures ProbeRank(n, q) as real >= Share(q, n)
  {
    RanksDiffer(n, q);
  }

  lemma QuantileRank(values: seq<real>, q: real, v: real, rank: nat)
    requires values != [] && rank == ProbeRank(|values|, q) && Quantile(values, q) == Some(v)
    ensures v in values && CountLe(values, v) >= rank
  {
    SortedAt(values, rank, v);
  }

  lemma AboveRank(n: nat, q: real, count: nat)
    requires n > 0 && 0.0 <= q <= 1.0 && count >= ProbeRank(n, q)
    ensures count as real >= Share(q, n)
  {
    RankCovers(n, q);
  }

  /** Every quantile the probe quotes was observed, and at least q of the values are at or below it. */
  lemma QuantileCovers(values: seq<real>, q: real, v: real)
    requires 0.0 <= q <= 1.0 && Quantile(values, q) == Some(v)
    ensures v in values
    ensures CountLe(values, v) as real >= Share(q, |values|)
  {
    var rank := ProbeRank(|values|, q);
    QuantileRank(values, q, v, rank);
    AboveRank(|values|, q, CountLe(values, v));
  }

  lemma RankOrder(n: nat, q: real)
    requires n > 0 && 0.0 <= q <= 1.0
    ensures ProbeRank(n, q) >= PhaseOneRank(n, q)
    ensures !IsOddInteger(Share(q, n)) ==> ProbeRank(n, q) == PhaseOneRank(n, q)
  {
    RanksDiffer(n, q);
  }

  lemma RankedValues(values: seq<real>, i: nat, j: nat)
    requires j <= i < |values|
    ensures SortReals(values)[j] <= SortReals(values)[i]
  {
    SortRealsAscending(values);
  }

  /** On the same samples the probe's quantile is Phase I's whenever q * n is not an odd integer,
      and never lies below it. */
  lemma QuantilesAgree(values: seq<real>, q: real)
    requires values != [] && 0.0 <= q <= 1.0
    ensures Quantile(values, q).value >= PhaseOneQuantile(SortReals(values), q).value
    ensures !IsOddInteger(Share(q, |values|)) ==> Quantile(values, q) == PhaseOneQuantile(SortReals(values), q)
  {
    hide ProbeRank, PhaseOneRank, SortReals;
    RankOrder(|values|, q);
    RankedValues(values, ProbeRank(|values|, q) - 1, PhaseOneRank(|values|, q) - 1);
  }

  /** Phase I's rank is the least from 1 on that covers the share. */
  lemma PhaseOneRankIs(n: nat, q: real)
    requires n > 0 && 0.0 <= q <= 1.0
    ensures var rank := PhaseOneRank(n, q);
      rank as real >= Share(q, n) && (rank > 1 ==> (rank - 1) as real < Share(q, n))
  {
    ShareRange(q, n);
    hide Share;
  }
}
