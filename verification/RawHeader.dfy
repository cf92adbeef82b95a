/** What a sample says, read off the raw tokens of its own line and of the header line above it. */
module RawHeader {
  import opened Numbers
  import opened Options
  import opened WorkloadParser
  import opened HeaderBinding

  // ----- How the columns are spelled -----

  const ELAPSED := {"elapsed", "elapsed_s"}
  const ERRORS := {"errors", "errors_cum"}
  const TPS := {"ops/sec(inst)", "tps"}
  const TOTALS := {"ops(total)", "ops_total", "avg(ms)", "avg_ms"}
  const OTHERS := {"ops/sec(cum)", "tps_cum", "p50(ms)", "p50_ms", "p95(ms)", "p95_ms", "p99(ms)", "p99_ms",
                   "pMax(ms)", "pmax(ms)", "pmax_ms"}

  /** The raw header tokens that name a measured column. */
  predicate NamesMetric(token: string) {
    token in ELAPSED || token in ERRORS || token in TPS || token in TOTALS || token in OTHERS
  }

  lemma Spellings(token: string)
    ensures Alias(token) == "elapsed_s" <==> token in ELAPSED
    ensures Alias(token) == "errors_cum" <==> token in ERRORS
    ensures Alias(token) == "tps" <==> token in TPS
    ensures Alias(token) in SUMMARY_MARKERS <==> token in TOTALS
  {
  }

  lemma MetricSpellings(token: string)
    ensures Alias(token) in METRIC_COLUMNS <==> NamesMetric(token)
  {
  }

  // ----- The header -----

  /** How many of the raw tokens are columns: all, but for a last one that names no metric. */
  function ColumnCount(raw: seq<string>): (n: nat)
    ensures n <= |raw|
  {
    if raw != [] && !NamesMetric(raw[|raw| - 1]) then |raw| - 1 else |raw|
  }

  lemma ColumnsAre(raw: seq<string>)
    ensures var columns := ParseHeader(raw).columns;
      |columns| == ColumnCount(raw) && forall i | 0 <= i < |columns| :: columns[i] == Alias(raw[i])
  {
    hide Alias, METRIC_COLUMNS, NamesMetric, KindOf;
    if raw != [] {
      MetricSpellings(raw[|raw| - 1]);
    }
  }

  lemma KindOfHeader(raw: seq<string>)
    ensures ParseHeader(raw).kind.Summary? <==>
            exists i :: 0 <= i < |ParseHeader(raw).columns| && ParseHeader(raw).columns[i] in SUMMARY_MARKERS
  {
    hide Aliases, DropOpColumn, SUMMARY_MARKERS;
  }

  /** A header is a summary's exactly when one of its tokens names the total number of operations or the
      average latency; neither is ever dropped as an operation column. */
  lemma SummaryIff(raw: seq<string>)
    ensures ParseHeader(raw).kind.Summary? <==> exists token :: token in raw && token in TOTALS
  {
    hide ParseHeader, Alias, TOTALS, SUMMARY_MARKERS;
    ColumnsAre(raw);
    KindOfHeader(raw);
    var columns := ParseHeader(raw).columns;
    forall i | 0 <= i < |columns| ensures columns[i] in SUMMARY_MARKERS <==> raw[i] in TOTALS {
      Spellings(raw[i]);
    }
    if token :| token in raw && token in TOTALS {
      var i :| 0 <= i < |raw| && raw[i] == token;
      assert columns[i] in SUMMARY_MARKERS;
    }
  }

  // ----- Binding, whatever the names -----

  /** The last column of that name, which is the one that counts. */
  ghost predicate LastNamed(columns: seq<string>, name: string, i: int) {
    0 <= i < |columns| && columns[i] == name && forall j | i < j < |columns| :: columns[j] != name
  }

  lemma BindUnfold(columns: seq<string>, tokens: seq<Token>)
    requires |columns| == |tokens| > 0
    ensures var n := |columns| - 1;
      BindColumns(columns, tokens) == BindOne(BindColumns(columns[..n], tokens[..n]), columns[n], tokens[n])
  {
    hide BindOne;
  }

  /** A line fails to bind exactly when some column's token cannot be read. */
  lemma {:induction false} UnreadableIff(columns: seq<string>, tokens: seq<Token>)
    requires |columns| == |tokens|
    ensures BindColumns(columns, tokens).NotNumeric? <==> exists i :: 0 <= i < |columns| && !Readable(columns[i], tokens[i])
  {
    if columns != [] {
      var n := |columns| - 1;
      var c, t := columns[..n], tokens[..n];
      BindUnfold(columns, tokens);
      hide BindColumns;
      UnreadableIff(c, t);
      if i :| 0 <= i < n && !Readable(c[i], t[i]) {
        assert !Readable(columns[i], tokens[i]);
      }
      if i :| 0 <= i < |columns| && !Readable(columns[i], tokens[i]) {
        assert i < n ==> !Readable(c[i], t[i]);
      }
    }
  }

  /** What a value is bound to: the token under the last column of its name. */
  ghost predicate BoundAs(b: Bound, name: string, token: Token)
    requires b.Bound?
  {
    && (name == "elapsed_s" ==> token.seconds == Some(b.elapsed))
    && (name == "errors_cum" ==> token.number.Some? && b.errors == Truncate(token.number.value))
    && (name != "elapsed_s" && name != "errors_cum" ==> name in b.values && token.number == Some(b.values[name]))
  }

  lemma BindOneOther(b: Bound, column: string, token: Token, name: string, other: Token)
    requires b.Bound? && BindOne(b, column, token).Bound? && column != name && BoundAs(b, name, other)
    ensures BoundAs(BindOne(b, column, token), name, other)
  {
  }

  lemma BindOneSame(b: Bound, name: string, token: Token)
    requires b.Bound? && BindOne(b, name, token).Bound?
    ensures BoundAs(BindOne(b, name, token), name, token)
  {
  }

  lemma {:induction false} LastCounts(columns: seq<string>, tokens: seq<Token>, name: string, i: nat)
    requires |columns| == |tokens| && LastNamed(columns, name, i) && BindColumns(columns, tokens).Bound?
    ensures BoundAs(BindColumns(columns, tokens), name, tokens[i])
  {
    var n := |columns| - 1;
    BindUnfold(columns, tokens);
    hide BindColumns, BoundAs;
    var before := BindColumns(columns[..n], tokens[..n]);
    if i == n {
      BindOneSame(before, name, tokens[n]);
    } else {
      LastCounts(columns[..n], tokens[..n], name, i);
      BindOneOther(before, columns[n], tokens[n], name, tokens[i]);
    }
  }

  /** A column that is not there leaves nothing, and the times and counts at zero. */
  lemma {:induction false} AbsentStays(columns: seq<string>, tokens: seq<Token>, name: string)
    requires |columns| == |tokens| && name !in columns && BindColumns(columns, tokens).Bound?
    ensures var b := BindColumns(columns, tokens);
      && (name == "elapsed_s" ==> b.elapsed == 0.0) && (name == "errors_cum" ==> b.errors == 0)
      && name !in b.values
  {
    if columns != [] {
      var n := |columns| - 1;
      assert columns == columns[..n] + [columns[n]];
      BindUnfold(columns, tokens);
      AbsentStays(columns[..n], tokens[..n], name);
    }
  }

  // ----- A sample -----

  /** Of the columns of a header, the last one spelled in one of these ways. */
  ghost predicate LastSpelled(raw: seq<string>, spellings: set<string>, i: int) {
    && 0 <= i < ColumnCount(raw) && raw[i] in spellings
    && forall j | i < j < ColumnCount(raw) :: raw[j] !in spellings
  }

  ghost predicate NotSpelled(raw: seq<string>, spellings: set<string>) {
    forall j | 0 <= j < ColumnCount(raw) :: raw[j] !in spellings
  }

  /** The line has a token for every column, and they can be read; one more is a label and no number. */
  ghost predicate Fits(raw: seq<string>, fields: seq<Token>) {
    var n := ColumnCount(raw);
    && (|fields| == n || (|fields| == n + 1 && !fields[n].opIsNumeric))
    && forall i | 0 <= i < n :: if raw[i] in ELAPSED then fields[i].seconds.Some? else fields[i].number.Some?
  }

  /** The sample carries its line's label, "all" when there is none, and its line's numbers. */
  ghost predicate Says(sample: Sample, raw: seq<string>, fields: seq<Token>)
    requires Fits(raw, fields)
  {
    var n := ColumnCount(raw);
    && (sample.kind.Summary? <==> exists token :: token in raw && token in TOTALS)
    && sample.op == (if |fields| == n + 1 && fields[n].op != "" then fields[n].op else "all")
    && (forall i | LastSpelled(raw, ELAPSED, i) :: fields[i].seconds == Some(sample.elapsed))
    && (NotSpelled(raw, ELAPSED) ==> sample.elapsed == 0.0)
    && (forall i | LastSpelled(raw, ERRORS, i) :: fields[i].number.Some? && sample.errors == Truncate(fields[i].number.value))
    && (NotSpelled(raw, ERRORS) ==> sample.errors == 0)
    && (forall i | LastSpelled(raw, TPS, i) :: "tps" in sample.values && fields[i].number == Some(sample.values["tps"]))
    && (NotSpelled(raw, TPS) ==> "tps" !in sample.values)
  }

  lemma LastSpelledIs(raw: seq<string>, columns: seq<string>, spellings: set<string>, name: string, i: int)
    requires |columns| == ColumnCount(raw) && forall j | 0 <= j < |columns| :: columns[j] == name <==> raw[j] in spellings
    ensures LastSpelled(raw, spellings, i) <==> LastNamed(columns, name, i)
    ensures NotSpelled(raw, spellings) <==> name !in columns
  {
    hide ColumnCount;
  }

  lemma SpelledBinding(raw: seq<string>, tokens: seq<Token>, spellings: set<string>, name: string)
    requires var columns := ParseHeader(raw).columns;
      |columns| == ColumnCount(raw) == |tokens| && (forall j | 0 <= j < |columns| :: columns[j] == name <==> raw[j] in spellings)
    requires BindColumns(ParseHeader(raw).columns, tokens).Bound?
    ensures var b := BindColumns(ParseHeader(raw).columns, tokens);
      && (forall i | LastSpelled(raw, spellings, i) :: 0 <= i < |tokens| && BoundAs(b, name, tokens[i]))
      && (NotSpelled(raw, spellings) ==>
            && (name == "elapsed_s" ==> b.elapsed == 0.0) && (name == "errors_cum" ==> b.errors == 0)
            && name !in b.values)
  {
    hide *;
    var columns := ParseHeader(raw).columns;
    forall i | LastSpelled(raw, spellings, i) ensures 0 <= i < |tokens| && BoundAs(BindColumns(columns, tokens), name, tokens[i]) {
      LastSpelledIs(raw, columns, spellings, name, i);
      LastInside(columns, name, i);
      LastCounts(columns, tokens, name, i);
    }
    LastSpelledIs(raw, columns, spellings, name, 0);
    if name !in columns {
      AbsentStays(columns, tokens, name);
    }
  }

  lemma LastInside(columns: seq<string>, name: string, i: int)
    requires LastNamed(columns, name, i)
    ensures 0 <= i < |columns|
  {
  }

  lemma BoundAsMeans(b: Bound, token: Token)
    requires b.Bound?
    ensures BoundAs(b, "elapsed_s", token) ==> token.seconds == Some(b.elapsed)
    ensures BoundAs(b, "errors_cum", token) ==> token.number.Some? && b.errors == Truncate(token.number.value)
    ensures BoundAs(b, "tps", token) ==> "tps" in b.values && token.number == Some(b.values["tps"])
  {
  }

  lemma ReadableIs(raw: string, token: Token)
    ensures Readable(Alias(raw), token) <==> if raw in ELAPSED then token.seconds.Some? else token.number.Some?
  {
    Spellings(raw);
    hide Alias, ELAPSED;
  }

  lemma FitsIff(raw: seq<string>, fields: seq<Token>)
    ensures Bind(fields, ParseHeader(raw)).Parsed? <==> Fits(raw, fields)
    ensures !Bind(fields, ParseHeader(raw)).Nothing?
  {
    hide ParseHeader, ColumnCount, Readable, BindColumns, Alias, ELAPSED;
    ColumnsAre(raw);
    var columns, n := ParseHeader(raw).columns, ColumnCount(raw);
    if |fields| == n || |fields| == n + 1 {
      var tokens := fields[..n];
      assert |fields| == n ==> tokens == fields;
      UnreadableIff(columns, tokens);
      forall i | 0 <= i < n
        ensures Readable(columns[i], tokens[i]) <==> if raw[i] in ELAPSED then fields[i].seconds.Some? else fields[i].number.Some?
      {
        ReadableIs(raw[i], fields[i]);
      }
    }
  }

  lemma BindMeans(fields: seq<Token>, header: Header)
    requires Bind(fields, header).Parsed?
    ensures var n, s := |header.columns|, Bind(fields, header).sample;
      && n <= |fields| <= n + 1
      && s.kind == header.kind && s.op == (if |fields| == n + 1 && fields[n].op != "" then fields[n].op else "all")
      && BindColumns(header.columns, fields[..n]) == Bound(s.elapsed, s.errors, s.values)
  {
    hide BindColumns;
    var n := |header.columns|;
    assert |fields| == n ==> fields[..n] == fields;
  }

  /** Under a header, a data line raises exactly when its tokens do not fit the header; otherwise its sample
      says what line and header say. */
  lemma LineSays(strict: bool, raw: seq<string>, first: Token, rest: seq<Token>)
    requires first.isElapsed
    ensures var fields, fed := [first] + rest, FedBy(strict, Some(ParseHeader(raw)), Fields(first, rest));
      && (fed.Parsed? <==> Fits(raw, fields)) && (fed.ParseError? <==> !Fits(raw, fields))
      && (fed.Parsed? ==> Says(fed.sample, raw, fields))
  {
    hide *;
    var fields := [first] + rest;
    FedIsBound(strict, ParseHeader(raw), first, rest);
    FitsIff(raw, fields);
    if Fits(raw, fields) {
      SampleSays(raw, fields);
    }
  }

  lemma FedIsBound(strict: bool, header: Header, first: Token, rest: seq<Token>)
    requires first.isElapsed
    ensures FedBy(strict, Some(header), Fields(first, rest)) == Bind([first] + rest, header)
  {
    hide Bind;
  }

  lemma SampleSays(raw: seq<string>, fields: seq<Token>)
    requires Fits(raw, fields) && Bind(fields, ParseHeader(raw)).Parsed?
    ensures Says(Bind(fields, ParseHeader(raw)).sample, raw, fields)
  {
    hide *;
    var header, s := ParseHeader(raw), Bind(fields, ParseHeader(raw)).sample;
    BindMeans(fields, header);
    SummaryIff(raw);
    ColumnsAre(raw);
    var columns := header.columns;
    forall j | 0 <= j < |columns|
      ensures (columns[j] == "elapsed_s" <==> raw[j] in ELAPSED) && (columns[j] == "errors_cum" <==> raw[j] in ERRORS)
      ensures columns[j] == "tps" <==> raw[j] in TPS
    {
      Spellings(raw[j]);
    }
    var tokens := fields[..|columns|];
    SpelledBinding(raw, tokens, ELAPSED, "elapsed_s");
    SpelledBinding(raw, tokens, ERRORS, "errors_cum");
    SpelledBinding(raw, tokens, TPS, "tps");
    SaysIt(s, raw, fields, tokens);
  }

  lemma SaysIt(s: Sample, raw: seq<string>, fields: seq<Token>, tokens: seq<Token>)
    requires Fits(raw, fields) && ColumnCount(raw) <= |fields| && tokens == fields[..ColumnCount(raw)]
    requires s.kind.Summary? <==> exists token :: token in raw && token in TOTALS
    requires s.op == if |fields| == ColumnCount(raw) + 1 && fields[ColumnCount(raw)].op != "" then fields[ColumnCount(raw)].op else "all"
    requires var b := Bound(s.elapsed, s.errors, s.values);
      && (forall i | LastSpelled(raw, ELAPSED, i) :: 0 <= i < |tokens| && BoundAs(b, "elapsed_s", tokens[i]))
      && (forall i | LastSpelled(raw, ERRORS, i) :: 0 <= i < |tokens| && BoundAs(b, "errors_cum", tokens[i]))
      && (forall i | LastSpelled(raw, TPS, i) :: 0 <= i < |tokens| && BoundAs(b, "tps", tokens[i]))
      && (NotSpelled(raw, ELAPSED) ==> b.elapsed == 0.0) && (NotSpelled(raw, ERRORS) ==> b.errors == 0)
      && (NotSpelled(raw, TPS) ==> "tps" !in b.values)
    ensures Says(s, raw, fields)
  {
    hide ColumnCount, BoundAs, TOTALS, ELAPSED, ERRORS, TPS, NotSpelled, Truncate;
    forall i | 0 <= i < |tokens| ensures tokens[i] == fields[i] {
    }
    forall i | 0 <= i < |tokens|
      ensures BoundAs(Bound(s.elapsed, s.errors, s.values), "elapsed_s", tokens[i]) ==> fields[i].seconds == Some(s.elapsed)
      ensures BoundAs(Bound(s.elapsed, s.errors, s.values), "errors_cum", tokens[i]) ==>
        fields[i].number.Some? && s.errors == Truncate(fields[i].number.value)
      ensures BoundAs(Bound(s.elapsed, s.errors, s.values), "tps", tokens[i]) ==>
        "tps" in s.values && fields[i].number == Some(s.values["tps"])
    {
      BoundAsMeans(Bound(s.elapsed, s.errors, s.values), tokens[i]);
    }
  }

  // ----- A stream -----

  /** Line h is the header line in force at line i. */
  ghost predicate HeaderAbove(lines: seq<Line>, h: int, i: int) {
    0 <= h < i <= |lines| && lines[h].HeaderLine? && forall j | h < j < i :: !lines[j].HeaderLine?
  }

  ghost predicate NoHeaderAbove(lines: seq<Line>, i: int) {
    forall j | 0 <= j < i && j < |lines| :: !lines[j].HeaderLine?
  }

  lemma {:induction false} LatestIs(lines: seq<Line>, i: nat) returns (h: int)
    requires i <= |lines|
    ensures LatestHeader(lines[..i]).None? <==> NoHeaderAbove(lines, i)
    ensures LatestHeader(lines[..i]).Some? ==>
              HeaderAbove(lines, h, i) && LatestHeader(lines[..i]) == Some(ParseHeader(lines[h].raw))
  {
    hide ParseHeader;
    h := 0;
    if i > 0 {
      var n := i - 1;
      assert lines[..i][n] == lines[n] && lines[..i][..n] == lines[..n];
      if lines[n].HeaderLine? {
        h := n;
      } else {
        h := LatestIs(lines, n);
      }
    }
  }

  predicate IsData(line: Line) {
    line.Fields? && line.first.isElapsed
  }

  function Tokens(line: Line): seq<Token>
    requires line.Fields?
  {
    [line.first] + line.rest
  }

  /** A data line raises under a header it does not fit, and in strict mode under none. */
  ghost predicate Raises(strict: bool, lines: seq<Line>, i: int)
    requires 0 <= i < |lines|
  {
    && IsData(lines[i])
    && ((strict && NoHeaderAbove(lines, i)) || exists h :: HeaderAbove(lines, h, i) && !Fits(lines[h].raw, Tokens(lines[i])))
  }

  /** The sample is that of a data line and the header in force there. */
  ghost predicate Read(lines: seq<Line>, i: int, sample: Sample) {
    && 0 <= i < |lines| && IsData(lines[i])
    && exists h :: HeaderAbove(lines, h, i) && Fits(lines[h].raw, Tokens(lines[i])) && Says(sample, lines[h].raw, Tokens(lines[i]))
  }

  lemma OneHeaderAbove(lines: seq<Line>, i: int, h: int, g: int)
    requires HeaderAbove(lines, h, i)
    ensures HeaderAbove(lines, g, i) ==> g == h
    ensures !NoHeaderAbove(lines, i)
  {
  }

  lemma FedAtMeans(strict: bool, lines: seq<Line>, i: nat)
    requires i < |lines|
    ensures FedAt(strict, lines, i).ParseError? <==> Raises(strict, lines, i)
    ensures FedAt(strict, lines, i).Parsed? ==> Read(lines, i, FedAt(strict, lines, i).sample)
  {
    var h := LatestIs(lines, i);
    if IsData(lines[i]) && LatestHeader(lines[..i]).Some? {
      LineSays(strict, lines[h].raw, lines[i].first, lines[i].rest);
      hide *;
      FedAtUnder(strict, lines, i, lines[h].raw);
      RaisesUnder(strict, lines, i, h);
    } else {
      hide LatestHeader, Fits, Says;
    }
  }

  lemma FedAtUnder(strict: bool, lines: seq<Line>, i: nat, raw: seq<string>)
    requires i < |lines| && IsData(lines[i]) && LatestHeader(lines[..i]) == Some(ParseHeader(raw))
    ensures FedAt(strict, lines, i) == FedBy(strict, Some(ParseHeader(raw)), Fields(lines[i].first, lines[i].rest))
  {
    hide LatestHeader, ParseHeader, Bind;
  }

  lemma RaisesUnder(strict: bool, lines: seq<Line>, i: int, h: int)
    requires 0 <= i < |lines| && IsData(lines[i]) && HeaderAbove(lines, h, i)
    ensures Raises(strict, lines, i) <==> !Fits(lines[h].raw, [lines[i].first] + lines[i].rest)
    ensures var fields := [lines[i].first] + lines[i].rest;
      forall sample: Sample | Fits(lines[h].raw, fields) && Says(sample, lines[h].raw, fields) :: Read(lines, i, sample)
  {
    hide HeaderAbove, NoHeaderAbove, Fits, Says;
    forall g ensures HeaderAbove(lines, g, i) ==> g == h {
      OneHeaderAbove(lines, i, h, g);
    }
    OneHeaderAbove(lines, i, h, h);
    assert Tokens(lines[i]) == [lines[i].first] + lines[i].rest;
  }

  lemma {:induction false} FedFromMeans(strict: bool, lines: seq<Line>, i: nat)
    requires i <= |lines|
    ensures var o := FedFrom(strict, lines, i);
      && (o.raised <==> exists k :: i <= k < |lines| && Raises(strict, lines, k))
      && forall sample | sample in o.samples :: exists k :: Read(lines, k, sample)
    decreases |lines| - i
  {
    hide Raises, Read, FedAt;
    if i < |lines| {
      FedAtMeans(strict, lines, i);
      FedFromMeans(strict, lines, i + 1);
    }
  }

  /** Parsing a stream raises exactly when some data line does not fit the header in force there, or in
      strict mode has none; and every sample says what its line says under that header. */
  lemma StreamSays(strict: bool, lines: seq<Line>)
    ensures var o := Stream(strict, None, lines);
      && (o.raised <==> exists k :: 0 <= k < |lines| && Raises(strict, lines, k))
      && forall sample | sample in o.samples :: exists k :: Read(lines, k, sample)
  {
    hide *;
    SamplesAreLocal(strict, lines);
    FedFromMeans(strict, lines, 0);
  }

  /** A line kept aside: it holds tokens but no data, or data above every header of a parser that tolerates it. */
  ghost predicate Aside(strict: bool, lines: seq<Line>, i: int) {
    && 0 <= i < |lines| && lines[i].Fields?
    && (!lines[i].first.isElapsed || (!strict && NoHeaderAbove(lines, i)))
  }

  lemma ChatterAt(strict: bool, lines: seq<Line>, i: nat)
    requires i < |lines|
    ensures IsChatter(strict, LatestHeader(lines[..i]), lines[i]) <==> Aside(strict, lines, i)
  {
    hide LatestHeader;
    var _ := LatestIs(lines, i);
  }

  lemma {:induction false} ChatterFrom(strict: bool, lines: seq<Line>, i: nat, x: Line)
    requires i <= |lines| && !Stream(strict, LatestHeader(lines[..i]), lines[i..]).raised
    ensures x in Chatter(strict, LatestHeader(lines[..i]), lines[i..]) <==>
            exists k :: i <= k < |lines| && lines[k] == x && Aside(strict, lines, k)
    decreases |lines| - i
  {
    if i < |lines| {
      var h := LatestHeader(lines[..i]);
      assert lines[i..][1..] == lines[i + 1..] && lines[..i + 1][..i] == lines[..i];
      assert LatestHeader(lines[..i + 1]) == NextHeader(h, lines[i]);
      hide FedBy, IsChatter, LatestHeader, NextHeader, Aside;
      ChatterAt(strict, lines, i);
      ChatterFrom(strict, lines, i + 1, x);
    }
  }

  /** When nothing raises, the parser keeps aside exactly the lines that are neither header nor data, and
      data above the first header when it is not strict. */
  lemma ChatterIs(strict: bool, lines: seq<Line>, x: Line)
    requires !Stream(strict, None, lines).raised
    ensures x in Chatter(strict, None, lines) <==> exists k :: 0 <= k < |lines| && lines[k] == x && Aside(strict, lines, k)
  {
    hide Stream, Chatter, Aside;
    assert lines[..0] == [] && lines[0..] == lines;
    ChatterFrom(strict, lines, 0, x);
  }
}
