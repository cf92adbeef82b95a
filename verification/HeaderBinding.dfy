/** Columns are bound by name: their order does not matter, and a sample depends on nothing but its own
    line and the header in force. */
module HeaderBinding {
  import opened Numbers
  import opened Options
  import opened Ordering
  import opened WorkloadParser

  // ----- Samples depend on their own line and the latest header -----

  /** The header the lines seen so far leave in force. */
  function LatestHeader(lines: seq<Line>): Option<Header> {
    if lines == [] then None
    else
      var n := |lines| - 1;
      if lines[n].HeaderLine? then Some(ParseHeader(lines[n].raw)) else LatestHeader(lines[..n])
  }

  /** What line i of a stream is fed as. */
  function FedAt(strict: bool, lines: seq<Line>, i: nat): Fed
    requires i < |lines|
  {
    FedBy(strict, LatestHeader(lines[..i]), lines[i])
  }

  /** The samples of lines i.. in order, up to the first that raises. */
  function FedFrom(strict: bool, lines: seq<Line>, i: nat): Output
    requires i <= |lines|
    decreases |lines| - i
  {
    if i == |lines| then Output([], false)
    else
      match FedAt(strict, lines, i)
      case ParseError => Output([], true)
      case Nothing => FedFrom(strict, lines, i + 1)
      case Parsed(sample) => Prepend([sample], FedFrom(strict, lines, i + 1))
  }

  lemma {:induction false} StreamFrom(strict: bool, lines: seq<Line>, i: nat)
    requires i <= |lines|
    ensures Stream(strict, LatestHeader(lines[..i]), lines[i..]) == FedFrom(strict, lines, i)
    decreases |lines| - i
  {
    if i < |lines| {
      StreamFrom(strict, lines, i + 1);
      assert lines[i..][1..] == lines[i + 1..] && lines[..i + 1][..i] == lines[..i];
    }
  }

  /** The parser's incremental state is only the latest header: the stream is what each line, read on its
      own under the latest header line before it, gives. */
  lemma SamplesAreLocal(strict: bool, lines: seq<Line>)
    ensures Stream(strict, None, lines) == FedFrom(strict, lines, 0)
  {
    StreamFrom(strict, lines, 0);
    assert lines[..0] == [] && lines[0..] == lines;
  }

  // ----- Columns bind by name -----

  function Zip(columns: seq<string>, tokens: seq<Token>): (r: seq<(string, Token)>)
    requires |columns| == |tokens|
    ensures |r| == |columns| && forall i | 0 <= i < |r| :: r[i] == (columns[i], tokens[i])
  {
    if columns == [] then [] else [(columns[0], tokens[0])] + Zip(columns[1..], tokens[1..])
  }

  ghost predicate DistinctNames(columns: seq<string>) {
    forall i, j | 0 <= i < j < |columns| :: columns[i] != columns[j]
  }

  predicate Readable(name: string, token: Token) {
    if name == "elapsed_s" then token.seconds.Some? else token.number.Some?
  }

  /** What a binding of these pairs must say, whatever their order. */
  ghost predicate Binds(pairs: seq<(string, Token)>, b: Bound) {
    && (b.NotNumeric? <==> exists p :: p in pairs && !Readable(p.0, p.1))
    && (b.Bound? ==>
          && (forall p | p in pairs && p.0 == "elapsed_s" :: p.1.seconds == Some(b.elapsed))
          && ((forall p | p in pairs :: p.0 != "elapsed_s") ==> b.elapsed == 0.0)
          && (forall p | p in pairs && p.0 == "errors_cum" :: p.1.number.Some? && b.errors == Truncate(p.1.number.value))
          && ((forall p | p in pairs :: p.0 != "errors_cum") ==> b.errors == 0)
          && (forall p | p in pairs && p.0 != "elapsed_s" && p.0 != "errors_cum" ::
                p.0 in b.values && p.1.number == Some(b.values[p.0]))
          && (forall name | name in b.values :: name != "elapsed_s" && name != "errors_cum" &&
                exists p :: p in pairs && p.0 == name))
  }

  lemma {:induction false} BindColumnsBinds(columns: seq<string>, tokens: seq<Token>)
    requires |columns| == |tokens| && DistinctNames(columns)
    ensures Binds(Zip(columns, tokens), BindColumns(columns, tokens))
  {
    hide Truncate, Readable, Zip, DistinctNames, Binds, BindOne;
    if columns == [] {
      NothingBinds();
    } else {
      var n := |columns| - 1;
      var before := Zip(columns[..n], tokens[..n]);
      DistinctPrefix(columns, n);
      BindColumnsBinds(columns[..n], tokens[..n]);
      assert Zip(columns, tokens) == before + [(columns[n], tokens[n])];
      NotAmong(columns, tokens);
      BindOneMore(before, BindColumns(columns[..n], tokens[..n]), columns[n], tokens[n]);
    }
  }

  lemma NothingBinds()
    ensures Binds(Zip([], []), Bound(0.0, 0, map[]))
  {
  }

  lemma DistinctPrefix(columns: seq<string>, n: nat)
    requires n <= |columns| && DistinctNames(columns)
    ensures DistinctNames(columns[..n])
  {
  }

  lemma NotAmong(columns: seq<string>, tokens: seq<Token>)
    requires |columns| == |tokens| > 0 && DistinctNames(columns)
    ensures var n := |columns| - 1; forall p | p in Zip(columns[..n], tokens[..n]) :: p.0 != columns[n]
  {
    hide Zip;
    var n := |columns| - 1;
    var before := Zip(columns[..n], tokens[..n]);
    forall p | p in before ensures p.0 != columns[n] {
      var i :| 0 <= i < n && before[i] == p;
    }
  }

  lemma BindOneMore(pairs: seq<(string, Token)>, b: Bound, name: string, token: Token)
    requires Binds(pairs, b) && forall p | p in pairs :: p.0 != name
    ensures Binds(pairs + [(name, token)], BindOne(b, name, token))
  {
    var more, next := pairs + [(name, token)], BindOne(b, name, token);
    assert forall p :: p in more <==> p in pairs || p == (name, token);
    assert (name, token) in more;
  }

  lemma BindsUnique(p: seq<(string, Token)>, q: seq<(string, Token)>, a: Bound, b: Bound)
    requires Binds(p, a) && Binds(q, b) && forall x :: x in p <==> x in q
    ensures a == b
  {
    if a.Bound? && b.Bound? {
      assert a.values.Keys == b.values.Keys;
      forall name | name in a.values ensures a.values[name] == b.values[name] {
        var x :| x in p && x.0 == name;
        assert x in q;
      }
      assert a.values == b.values;
    }
  }

  /** The same names paired with the same tokens, in another order. */
  ghost predicate SamePairs(c: seq<string>, s: seq<Token>, d: seq<string>, t: seq<Token>) {
    |c| == |s| == |d| == |t| && multiset(Zip(c, s)) == multiset(Zip(d, t))
  }

  lemma RearrangedBind(c: seq<string>, s: seq<Token>, d: seq<string>, t: seq<Token>)
    requires SamePairs(c, s, d, t) && DistinctNames(c) && DistinctNames(d)
    ensures BindColumns(c, s) == BindColumns(d, t)
  {
    SameMembers(Zip(c, s), Zip(d, t));
    BindColumnsBinds(c, s);
    BindColumnsBinds(d, t);
    BindsUnique(Zip(c, s), Zip(d, t), BindColumns(c, s), BindColumns(d, t));
  }

  // ----- Rearranging a whole stream -----

  /** Two headers that name the same distinct columns, in any order. */
  ghost predicate SameLayout(h: Header, g: Header) {
    && h.kind == g.kind && |h.columns| == |g.columns|
    && DistinctNames(h.columns) && DistinctNames(g.columns)
  }

  /** The same line under two layouts: a header rearranged, or a data line rearranged like its header,
      with anything beyond the columns (the operation label) left in place. */
  ghost predicate SameLine(h: Option<Header>, g: Option<Header>, l: Line, m: Line) {
    match (l, m)
    case (Blank, Blank) => true
    case (HeaderLine(r), HeaderLine(q)) => SameLayout(ParseHeader(r), ParseHeader(q))
    case (Fields(a, s), Fields(b, t)) =>
      a == b && |s| == |t| && h.Some? == g.Some? &&
      (h.Some? && g.Some? && |h.value.columns| == |g.value.columns| <= |s| + 1 ==>
         var n, f, e := |h.value.columns|, [a] + s, [b] + t;
         SamePairs(h.value.columns, f[..n], g.value.columns, e[..n]) && f[n..] == e[n..])
    case _ => false
  }

  ghost predicate SameHeader(h: Option<Header>, g: Option<Header>) {
    h.Some? == g.Some? && (h.Some? ==> SameLayout(h.value, g.value))
  }

  ghost predicate SameStream(h: Option<Header>, g: Option<Header>, lines: seq<Line>, others: seq<Line>)
    decreases |lines|
  {
    && |lines| == |others|
    && (lines != [] ==> SameLine(h, g, lines[0], others[0]) &&
                        SameStream(NextHeader(h, lines[0]), NextHeader(g, others[0]), lines[1..], others[1..]))
  }

  lemma RearrangedFields(h: Header, g: Header, f: seq<Token>, e: seq<Token>)
    requires SameLayout(h, g) && |f| == |e|
    requires var n := |h.columns|; n <= |f| ==> SamePairs(h.columns, f[..n], g.columns, e[..n]) && f[n..] == e[n..]
    ensures Bind(f, h) == Bind(e, g)
  {
    var n := |h.columns|;
    if n <= |f| {
      RearrangedBind(h.columns, f[..n], g.columns, e[..n]);
      assert |f| == n ==> f[..n] == f && e[..n] == e;
      assert |f| > n ==> f[n] == f[n..][0] && e[n] == e[n..][0];
    }
  }

  lemma RearrangedLine(strict: bool, h: Option<Header>, g: Option<Header>, l: Line, m: Line)
    requires SameHeader(h, g) && SameLine(h, g, l, m)
    ensures FedBy(strict, h, l) == FedBy(strict, g, m)
    ensures SameHeader(NextHeader(h, l), NextHeader(g, m))
  {
    if l.Fields? && h.Some? {
      hide Bind;
      RearrangedFields(h.value, g.value, [l.first] + l.rest, [m.first] + m.rest);
    }
  }

  /** Rearranging the columns of every header and, identically, the tokens of the rows below it changes
      no sample, with or without an operation label behind the columns. */
  lemma {:induction false} RearrangedStream(strict: bool, h: Option<Header>, g: Option<Header>, lines: seq<Line>, others: seq<Line>)
    requires SameHeader(h, g) && SameStream(h, g, lines, others)
    ensures Stream(strict, h, lines) == Stream(strict, g, others)
    decreases |lines|
  {
    if lines != [] {
      RearrangedLine(strict, h, g, lines[0], others[0]);
      hide SameHeader, SameLine, FedBy, NextHeader;
      RearrangedStream(strict, NextHeader(h, lines[0]), NextHeader(g, others[0]), lines[1..], others[1..]);
    }
  }

  lemma {:induction false} NameOnce(columns: seq<string>, name: string)
    requires DistinctNames(columns)
    ensures multiset(columns)[name] <= 1
  {
    if columns != [] {
      NameOnce(columns[1..], name);
      DropHead(columns);
      if name == columns[0] {
        assert name !in columns[1..];
      }
    }
  }

  lemma NameTwice(columns: seq<string>, i: nat, j: nat)
    requires i < j < |columns| && columns[i] == columns[j]
    ensures multiset(columns)[columns[i]] >= 2
  {
    assert columns == columns[..j] + columns[j..];
    assert columns[..j][i] in columns[..j] && columns[j..][0] in columns[j..];
  }

  lemma DistinctPermutation(c: seq<string>, d: seq<string>)
    requires DistinctNames(c) && multiset(c) == multiset(d)
    ensures DistinctNames(d)
  {
    forall i, j | 0 <= i < j < |d| ensures d[i] != d[j] {
      if d[i] == d[j] {
        NameTwice(d, i, j);
        NameOnce(c, d[i]);
      }
    }
  }

  lemma AliasesAppend(r: seq<string>, q: seq<string>)
    ensures Aliases(r + q) == Aliases(r) + Aliases(q)
  {
    hide *;
  }

  lemma AliasesRemove(r: seq<string>, i: nat)
    requires i < |r|
    ensures Aliases(r[..i] + r[i + 1..]) == Aliases(r)[..i] + Aliases(r)[i + 1..]
  {
    hide *;
    AliasesAppend(r[..i], r[i + 1..]);
    assert Aliases(r[..i]) == Aliases(r)[..i];
    assert Aliases(r[i + 1..]) == Aliases(r)[i + 1..];
  }

  lemma {:induction false} AliasesPermutation(r: seq<string>, q: seq<string>)
    requires multiset(r) == multiset(q)
    ensures multiset(Aliases(r)) == multiset(Aliases(q))
  {
    hide *;
    SameMembers(r, q);
    if r != [] {
      var i := DropPair(r, q);
      AliasesPermutation(r[..0] + r[1..], q[..i] + q[i + 1..]);
      AliasesWithout(r, 0);
      AliasesWithout(q, i);
    }
  }

  lemma AliasesWithout(r: seq<string>, i: nat)
    requires i < |r|
    ensures multiset(Aliases(r)) == multiset(Aliases(r[..i] + r[i + 1..])) + multiset{Alias(r[i])}
  {
    hide *;
    var a := Aliases(r);
    RemoveAt(a, i);
    AliasesRemove(r, i);
    assert a[i] in a && a[i] == Alias(r[i]);
  }

  /** Rearranging the known columns between the elapsed column and the operation column of a header line
      gives a header with the same layout. */
  lemma HeaderRearranged(first: string, middle: seq<string>, other: seq<string>, tail: seq<string>)
    requires multiset(middle) == multiset(other)
    requires forall i | 0 <= i < |middle| :: Alias(middle[i]) in METRIC_COLUMNS
    requires Alias(first) in METRIC_COLUMNS && |tail| <= 1 && (|tail| == 1 ==> Alias(tail[0]) !in METRIC_COLUMNS)
    requires DistinctNames(Aliases([first] + middle))
    ensures ParseHeader([first] + middle + tail).columns == Aliases([first] + middle)
    ensures ParseHeader([first] + other + tail).columns == Aliases([first] + other)
    ensures SameLayout(ParseHeader([first] + middle + tail), ParseHeader([first] + other + tail))
  {
    var c, d := Aliases([first] + middle), Aliases([first] + other);
    assert multiset([first] + middle) == multiset([first] + other);
    AliasesPermutation([first] + middle, [first] + other);
    DistinctPermutation(c, d);
    SameMembers(middle, other);
    SameMembers(c, d);
    HeaderColumns(first, middle, tail);
    forall i | 0 <= i < |other| ensures Alias(other[i]) in METRIC_COLUMNS {
      assert other[i] in other;
    }
    HeaderColumns(first, other, tail);
    SameKind(c, d);
  }

  lemma SameKind(c: seq<string>, d: seq<string>)
    requires forall x :: x in c <==> x in d
    ensures KindOf(c) == KindOf(d)
  {
    if i :| 0 <= i < |c| && c[i] in SUMMARY_MARKERS {
      assert c[i] in c && c[i] in d;
    }
    if i :| 0 <= i < |d| && d[i] in SUMMARY_MARKERS {
      assert d[i] in d && d[i] in c;
    }
  }

  lemma HeaderColumns(first: string, middle: seq<string>, tail: seq<string>)
    requires forall i | 0 <= i < |middle| :: Alias(middle[i]) in METRIC_COLUMNS
    requires Alias(first) in METRIC_COLUMNS && |tail| <= 1 && (|tail| == 1 ==> Alias(tail[0]) !in METRIC_COLUMNS)
    ensures ParseHeader([first] + middle + tail).columns == Aliases([first] + middle)
  {
    hide *;
    var known := [first] + middle;
    AliasesAppend(known, tail);
    if tail == [] {
      assert known + tail == known;
      assert Aliases(known)[|middle|] == Alias(known[|middle|]);
      KnownKept(known);
    } else {
      assert Aliases(tail) == [Alias(tail[0])];
      LabelDropped(known + tail, Aliases(known), Alias(tail[0]));
    }
  }

  lemma KnownKept(raw: seq<string>)
    requires raw != [] && Aliases(raw)[|raw| - 1] in METRIC_COLUMNS
    ensures ParseHeader(raw).columns == Aliases(raw)
  {
    hide Alias, Aliases, KindOf, METRIC_COLUMNS;
  }

  lemma LabelDropped(raw: seq<string>, columns: seq<string>, name: string)
    requires Aliases(raw) == columns + [name] && name !in METRIC_COLUMNS
    ensures ParseHeader(raw).columns == columns
  {
    hide Alias, Aliases, KindOf, METRIC_COLUMNS;
  }
}
