/** The header-driven parser of the load generator's output. A line arrives already split into tokens;
    a token carries what the regular expressions and `float` make of its text. */
module WorkloadParser {
  import opened Numbers
  import opened Options

  datatype Token = Token(
    isElapsed: bool,             // looks like "12.0s"
    seconds: Option<real>,       // float(text without trailing "s"), None when that raises
    number: Option<real>,        // float(text), None when that raises
    op: string,                  // text with surrounding underscores stripped
    opIsNumeric: bool)        // the stripped text looks like a number

  datatype Line =
    | Blank
    | HeaderLine(raw: seq<string>)       // starts with "_elapsed"; split at runs of underscores
    | Fields(first: Token, rest: seq<Token>)

  datatype Kind = Periodic | Summary

  datatype Header = Header(columns: seq<string>, kind: Kind)

  datatype Sample = Sample(kind: Kind, elapsed: real, op: string, errors: int, values: map<string, real>)

  /** What feeding a line gives: a sample, nothing, or the parser's own error. */
  datatype Fed = Parsed(sample: Sample) | Nothing | ParseError

  function Alias(raw: string): string {
    match raw
    case "elapsed" => "elapsed_s"
    case "errors" => "errors_cum"
    case "ops/sec(inst)" => "tps"
    case "ops/sec(cum)" => "tps_cum"
    case "ops(total)" => "ops_total"
    case "avg(ms)" => "avg_ms"
    case "p50(ms)" => "p50_ms"
    case "p95(ms)" => "p95_ms"
    case "p99(ms)" => "p99_ms"
    case "pMax(ms)" => "pmax_ms"
    case "pmax(ms)" => "pmax_ms"
    case _ => raw
  }

  const METRIC_COLUMNS := {"elapsed_s", "errors_cum", "tps", "tps_cum", "ops_total", "avg_ms",
                           "p50_ms", "p95_ms", "p99_ms", "pmax_ms"}

  const SUMMARY_MARKERS := {"ops_total", "avg_ms"}

  function Aliases(raw: seq<string>): (r: seq<string>)
    ensures |r| == |raw| && forall i | 0 <= i < |r| :: r[i] == Alias(raw[i])
  {
    if raw == [] then [] else [Alias(raw[0])] + Aliases(raw[1..])
  }

  /** A trailing column that is no metric names the operation type; it is not bound. */
  function DropOpColumn(columns: seq<string>): seq<string> {
    if columns != [] && columns[|columns| - 1] !in METRIC_COLUMNS then columns[..|columns| - 1] else columns
  }

  function KindOf(columns: seq<string>): Kind {
    if exists i | 0 <= i < |columns| :: columns[i] in SUMMARY_MARKERS then Summary else Periodic
  }

  function ParseHeader(raw: seq<string>): Header {
    var columns := DropOpColumn(Aliases(raw));
    Header(columns, KindOf(columns))
  }

  // ----- Binding a data line -----

  datatype Bound = Bound(elapsed: real, errors: int, values: map<string, real>) | NotNumeric

  function BindOne(b: Bound, name: string, token: Token): Bound {
    if b.NotNumeric? then b
    else if name == "elapsed_s" then
      (if token.seconds.Some? then b.(elapsed := token.seconds.value) else NotNumeric)
    else if name == "errors_cum" then
      (if token.number.Some? then b.(errors := Truncate(token.number.value)) else NotNumeric)
    else if token.number.Some? then b.(values := b.values[name := token.number.value])
    else NotNumeric
  }

  /** Columns bound to tokens from left to right. */
  function BindColumns(columns: seq<string>, tokens: seq<Token>): Bound
    requires |columns| == |tokens|
  {
    if columns == [] then Bound(0.0, 0, map[])
    else
      var n := |columns| - 1;
      BindOne(BindColumns(columns[..n], tokens[..n]), columns[n], tokens[n])
  }

  function OpLabel(token: Token): string {
    if token.op == "" then "all" else token.op
  }

  function ToSample(b: Bound, kind: Kind, op: string): Fed {
    if b.NotNumeric? then ParseError else Parsed(Sample(kind, b.elapsed, op, b.errors, b.values))
  }

  function Bind(fields: seq<Token>, header: Header): Fed {
    var n := |header.columns|;
    if |fields| == n + 1 then
      (if fields[n].opIsNumeric then ParseError
       else ToSample(BindColumns(header.columns, fields[..n]), header.kind, OpLabel(fields[n])))
    else if |fields| == n then ToSample(BindColumns(header.columns, fields), header.kind, "all")
    else ParseError
  }

  /** What a line gives under the header that is in force. */
  function FedBy(strict: bool, header: Option<Header>, line: Line): Fed {
    match line
    case Blank => Nothing
    case HeaderLine(_) => Nothing
    case Fields(first, rest) =>
      if !first.isElapsed then Nothing
      else if header.None? then (if strict then ParseError else Nothing)
      else Bind([first] + rest, header.value)
  }

  function NextHeader(header: Option<Header>, line: Line): Option<Header> {
    if line.HeaderLine? then Some(ParseHeader(line.raw)) else header
  }

  /** Lines kept aside as chatter. */
  predicate IsChatter(strict: bool, header: Option<Header>, line: Line) {
    line.Fields? && (!line.first.isElapsed || (header.None? && !strict))
  }

  class Parser {
    const strict: bool
    var header: Option<Header>
    var unparsed: seq<Line>

    constructor (strict: bool)
      ensures this.strict == strict && header == None && unparsed == []
    {
      this.strict := strict;
      header, unparsed := None, [];
    }

    method BindLine(fields: seq<Token>, h: Header) returns (r: Fed)
      ensures r == Bind(fields, h)
    {
      var n := |h.columns|;
      var op, payload := "all", fields;
      if |fields| == n + 1 {
        op, payload := OpLabel(fields[n]), fields[..n];
        if fields[n].opIsNumeric {
          return ParseError;
        }
      } else if |fields| != n {
        return ParseError;
      }
      var elapsed, errors, values := 0.0, 0, map[];
      var i := 0;
      while i < n
        invariant 0 <= i <= n
        invariant BindColumns(h.columns[..i], payload[..i]) == Bound(elapsed, errors, values)
      {
        var name, token := h.columns[i], payload[i];
        assert h.columns[..i + 1][..i] == h.columns[..i] && payload[..i + 1][..i] == payload[..i];
        if (if name == "elapsed_s" then token.seconds.None? else token.number.None?) {
          NotNumericStays(h.columns, payload, i + 1);
          return ParseError;
        }
        if name == "elapsed_s" {
          elapsed := token.seconds.value;
        } else if name == "errors_cum" {
          errors := Truncate(token.number.value);
        } else {
          values := values[name := token.number.value];
        }
        i := i + 1;
      }
      assert h.columns[..n] == h.columns && payload[..n] == payload;
      return Parsed(Sample(h.kind, elapsed, op, errors, values));
    }

    method Feed(line: Line) returns (r: Fed)
      modifies this
      ensures r == FedBy(strict, old(header), line)
      ensures header == NextHeader(old(header), line)
      ensures unparsed == old(unparsed) + if IsChatter(strict, old(header), line) then [line] else []
    {
      match line {
        case Blank => r := Nothing;
        case HeaderLine(raw) =>
          header := Some(ParseHeader(raw));
          r := Nothing;
        case Fields(first, rest) =>
          if !first.isElapsed {
            unparsed := unparsed + [line];
            r := Nothing;
          } else if header.None? {
            if strict {
              return ParseError;
            }
            unparsed := unparsed + [line];
            r := Nothing;
          } else {
            r := BindLine([first] + rest, header.value);
          }
      }
    }

    /** Samples until the lines end or one of them raises. */
    method ParseStream(lines: seq<Line>) returns (samples: seq<Sample>, raised: bool)
      modifies this
      ensures Stream(strict, old(header), lines) == Output(samples, raised)
      ensures unparsed == old(unparsed) + Chatter(strict, old(header), lines)
    {
      hide FedBy, NextHeader, IsChatter, Chatter;
      assert unparsed + Chatter(strict, header, lines) == old(unparsed) + Chatter(strict, old(header), lines);
      samples, raised := [], false;
      var i := 0;
      assert lines[0..] == lines;
      while i < |lines|
        invariant 0 <= i <= |lines| && !raised
        invariant Stream(strict, old(header), lines) == Prepend(samples, Stream(strict, header, lines[i..]))
        invariant old(unparsed) + Chatter(strict, old(header), lines) == unparsed + Chatter(strict, header, lines[i..])
      {
        assert lines[i..][1..] == lines[i + 1..];
        ChatterStep(strict, header, lines[i..], unparsed);
        ErrorIsNoChatter(strict, header, lines[i]);
        var r := Feed(lines[i]);
        match r {
          case Parsed(sample) => samples := samples + [sample];
          case Nothing =>
          case ParseError =>
            assert unparsed + [] == unparsed;
            return samples, true;
        }
        i := i + 1;
      }
      assert lines[i..] == [];
      ChatterEnds(strict, header, unparsed);
    }
  }

  lemma ChatterEnds(strict: bool, header: Option<Header>, unparsed: seq<Line>)
    ensures unparsed + Chatter(strict, header, []) == unparsed
  {
  }

  /** The lines kept aside, up to the first that raises. */
  function Chatter(strict: bool, header: Option<Header>, lines: seq<Line>): seq<Line>
    decreases |lines|
  {
    if lines == [] || FedBy(strict, header, lines[0]).ParseError? then []
    else (if IsChatter(strict, header, lines[0]) then [lines[0]] else [])
         + Chatter(strict, NextHeader(header, lines[0]), lines[1..])
  }

  lemma ChatterStep(strict: bool, header: Option<Header>, lines: seq<Line>, unparsed: seq<Line>)
    requires lines != []
    ensures unparsed + Chatter(strict, header, lines) ==
            if FedBy(strict, header, lines[0]).ParseError? then unparsed
            else unparsed + (if IsChatter(strict, header, lines[0]) then [lines[0]] else [])
                 + Chatter(strict, NextHeader(header, lines[0]), lines[1..])
  {
    hide FedBy, IsChatter, NextHeader;
  }

  lemma ErrorIsNoChatter(strict: bool, header: Option<Header>, line: Line)
    ensures FedBy(strict, header, line).ParseError? ==> !IsChatter(strict, header, line)
  {
    hide Bind;
  }

  lemma {:induction false} NotNumericStays(columns: seq<string>, tokens: seq<Token>, i: nat)
    requires i <= |columns| == |tokens| && BindColumns(columns[..i], tokens[..i]).NotNumeric?
    ensures BindColumns(columns, tokens).NotNumeric?
  {
    var n := |columns|;
    if i == n {
      assert columns[..i] == columns && tokens[..i] == tokens;
    } else {
      assert columns[..n - 1][..i] == columns[..i] && tokens[..n - 1][..i] == tokens[..i];
      NotNumericStays(columns[..n - 1], tokens[..n - 1], i);
    }
  }

  /** The samples of a whole stream, and whether a line raised and ended it. */
  datatype Output = Output(samples: seq<Sample>, raised: bool)

  function Prepend(samples: seq<Sample>, rest: Output): Output {
    rest.(samples := samples + rest.samples)
  }

  function Stream(strict: bool, header: Option<Header>, lines: seq<Line>): Output
    decreases |lines|
  {
    if lines == [] then Output([], false)
    else
      var rest := Stream(strict, NextHeader(header, lines[0]), lines[1..]);
      match FedBy(strict, header, lines[0])
      case ParseError => Output([], true)
      case Nothing => rest
      case Parsed(sample) => Prepend([sample], rest)
  }
}
