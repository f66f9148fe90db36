/**
 The log reader: each line of a latency log is matched against the pattern
 `^\s*(\d+):\s+(\d+):\s+(\d+)\s+\d+\s*$`; a matching line gives one sample
 (CPU, Tick, Latency) and the fourth number is discarded; any other line is
 dropped without an error. A captured number too long for `int()` raises
 `ValueError`, which ends the read without a table.
 */
module LogParser {
  import opened Wrappers
  import opened Lexer
  import opened Seqs

  /** One row of the parsed table. */
  datatype Sample = Sample(cpu: nat, tick: nat, latency: nat)

  /** The nine consecutive pieces of a line the pattern accepts. */
  datatype Layout = Layout(
    lead: string, cpu: string, gap1: string, tick: string, gap2: string,
    latency: string, gap3: string, extra: string, trail: string)

  /** A run of whitespace of length one or more, what `\s+` matches. */
  predicate IsGap(s: string) {
    s != [] && All(IsWs, s)
  }

  /** The pattern's shape: `\s*` numeral `:` `\s+` numeral `:` `\s+` numeral
      `\s+` numeral `\s*`. */
  predicate WellFormed(l: Layout) {
    && All(IsWs, l.lead)
    && IsNumeral(l.cpu)
    && IsGap(l.gap1)
    && IsNumeral(l.tick)
    && IsGap(l.gap2)
    && IsNumeral(l.latency)
    && IsGap(l.gap3)
    && IsNumeral(l.extra)
    && All(IsWs, l.trail)
  }

  /** The line a layout spells. */
  function Render(l: Layout): string {
    l.lead + (l.cpu + (":" + (l.gap1 + (l.tick + (":" + (l.gap2
      + (l.latency + (l.gap3 + (l.extra + l.trail)))))))))
  }

  /** A run of a class without the colon holds no colon. */
  lemma ColonFree(p: char -> bool, s: string)
    requires All(p, s) && !p(':')
    ensures multiset(s)[':'] == 0
  {
    assert ':' !in s;
  }

  /** A line of the pattern's shape holds exactly two colons: the one after
      the CPU and the one after the tick. */
  lemma RenderColons(l: Layout)
    requires WellFormed(l)
    ensures multiset(Render(l))[':'] == 2
  {
    ColonFree(IsDigit, l.extra);
    ColonFree(IsWs, l.trail);
    var r7 := l.gap3 + (l.extra + l.trail);
    ColonFree(IsWs, l.gap3);
    assert multiset(r7)[':'] == 0;
    var r5 := l.gap2 + (l.latency + r7);
    ColonFree(IsWs, l.gap2);
    ColonFree(IsDigit, l.latency);
    assert multiset(r5)[':'] == 0;
    var r3 := l.tick + (":" + r5);
    ColonFree(IsDigit, l.tick);
    assert multiset(r3)[':'] == 1;
    var r1 := ":" + (l.gap1 + r3);
    ColonFree(IsWs, l.gap1);
    assert multiset(r1)[':'] == 2;
    ColonFree(IsWs, l.lead);
    ColonFree(IsDigit, l.cpu);
    assert Render(l) == l.lead + (l.cpu + r1);
  }

  /** The three captured groups of a matching line, converted with `int()`. */
  function Reading(l: Layout): Sample
    requires WellFormed(l)
  {
    Sample(DecimalValue(l.cpu), DecimalValue(l.tick), DecimalValue(l.latency))
  }

  /** Cuts a line into the pieces of the pattern, left to right, or reports
      that it does not match. */
  function Split(s: string): (r: Option<Layout>)
    ensures r.Some? ==> WellFormed(r.value) && Render(r.value) == s
  {
    var (lead, s1) := Span(IsWs, s);
    var (cpu, s2) := Span(IsDigit, s1);
    if cpu == [] || s2 == [] || s2[0] != ':' then None
    else
      assert s2 == ":" + s2[1..];
      var (gap1, s3) := Span(IsWs, s2[1..]);
      var (tick, s4) := Span(IsDigit, s3);
      if gap1 == [] || tick == [] || s4 == [] || s4[0] != ':' then None
      else
        assert s4 == ":" + s4[1..];
        var (gap2, s5) := Span(IsWs, s4[1..]);
        var (latency, s6) := Span(IsDigit, s5);
        var (gap3, s7) := Span(IsWs, s6);
        var (extra, s8) := Span(IsDigit, s7);
        var (trail, s9) := Span(IsWs, s8);
        if gap2 == [] || latency == [] || gap3 == [] || extra == [] || s9 != [] then None
        else
          assert s8 == trail;
          Some(Layout(lead, cpu, gap1, tick, gap2, latency, gap3, extra, trail))
  }

  /** Every well-formed layout is recovered from the line it spells: the
      scanner accepts everything the pattern describes, and cuts it uniquely. */
  lemma SplitRender(l: Layout)
    requires WellFormed(l)
    ensures Split(Render(l)) == Some(l)
  {
    var r8 := l.extra + l.trail;
    var r7 := l.gap3 + r8;
    var r6 := l.latency + r7;
    var r5 := l.gap2 + r6;
    var r4 := ":" + r5;
    var r3 := l.tick + r4;
    var r2 := l.gap1 + r3;
    var r1 := ":" + r2;
    var r0 := l.cpu + r1;
    assert r0[0] == l.cpu[0];
    SpanSplitsAtFirstMiss(IsWs, l.lead, r0);
    SpanSplitsAtFirstMiss(IsDigit, l.cpu, r1);
    assert r1[1..] == r2;
    assert r2[0] == l.gap1[0] && r3[0] == l.tick[0];
    SpanSplitsAtFirstMiss(IsWs, l.gap1, r3);
    SpanSplitsAtFirstMiss(IsDigit, l.tick, r4);
    assert r4[1..] == r5;
    assert r6[0] == l.latency[0] && r7[0] == l.gap3[0] && r8[0] == l.extra[0];
    SpanSplitsAtFirstMiss(IsWs, l.gap2, r6);
    SpanSplitsAtFirstMiss(IsDigit, l.latency, r7);
    SpanSplitsAtFirstMiss(IsWs, l.gap3, r8);
    SpanSplitsAtFirstMiss(IsDigit, l.extra, l.trail);
    assert l.trail + [] == l.trail;
    SpanSplitsAtFirstMiss(IsWs, l.trail, []);
  }

  /** The three captured numerals are short enough for `int()`; the fourth
      number is never converted. */
  predicate Converts(l: Layout) {
    |l.cpu| <= MaxStrDigits && |l.tick| <= MaxStrDigits && |l.latency| <= MaxStrDigits
  }

  /** Why no table comes back: `int()` raised on a captured number of this line. */
  datatype LogError = TooManyDigits(line: string)

  /** The captures of a matching line go through `int()`: each gives its
      decimal value when it is short enough, and one that is too long makes
      `int()` raise. */
  lemma CapturesConvert(l: Layout)
    requires WellFormed(l)
    ensures Converts(l) ==>
      ParseInt(l.cpu) == Some(Reading(l).cpu) && ParseInt(l.tick) == Some(Reading(l).tick)
      && ParseInt(l.latency) == Some(Reading(l).latency)
    ensures !Converts(l) ==> None in [ParseInt(l.cpu), ParseInt(l.tick), ParseInt(l.latency)]
  {
    NumeralConverts(l.cpu);
    NumeralConverts(l.tick);
    NumeralConverts(l.latency);
  }

  /** `int()` of a bare numeral. */
  lemma NumeralConverts(ds: string)
    requires IsNumeral(ds)
    ensures ParseInt(ds) == if |ds| <= MaxStrDigits then Some(DecimalValue(ds)) else None
  {
    assert [] + ("" + (ds + [])) == ds;
    ParseIntNumeral([], "", ds, []);
  }

  /** `pattern.match(line)` followed by the three `int()` conversions: no
      match gives `Success(None)`, a match gives its sample, and a match with
      a capture over the digit limit makes the read fail. */
  function ParseLine(line: string): (r: Result<Option<Sample>, LogError>)
    ensures r.Success? && r.value.Some? ==>
      exists l :: WellFormed(l) && Converts(l) && Render(l) == line && Reading(l) == r.value.value
    ensures r.Failure? ==>
      r.error == TooManyDigits(line) && exists l :: WellFormed(l) && !Converts(l) && Render(l) == line
  {
    match Split(line)
    case None => Success(None)
    case Some(l) => if Converts(l) then Success(Some(Reading(l))) else Failure(TooManyDigits(line))
  }

  /** A line is dropped exactly when it does not have the pattern's shape;
      one that has it gives the sample of its first three numbers, or fails
      when one of them is over the digit limit. */
  lemma ParseLineExact(line: string)
    ensures ParseLine(line) == Success(None) <==> !exists l :: WellFormed(l) && Render(l) == line
    ensures forall l :: WellFormed(l) && Render(l) == line ==>
      ParseLine(line) == if Converts(l) then Success(Some(Reading(l))) else Failure(TooManyDigits(line))
  {
    forall l | WellFormed(l) && Render(l) == line
      ensures ParseLine(line) == if Converts(l) then Success(Some(Reading(l))) else Failure(TooManyDigits(line))
    {
      SplitRender(l);
    }
  }

  /** How `Render` spells a layout with single spaces and no padding. */
  lemma RenderPrinted(a: string, b: string, c: string, d: string)
    ensures Render(Layout([], a, " ", b, " ", c, " ", d, [])) == a + ": " + b + ": " + c + " " + d
  {
  }

  /** The line `CPU: Tick: Latency X` for a sample parses back to that
      sample whatever the trailing number is, unless a field is over the
      digit limit. */
  lemma PrintedLineParses(x: Sample, extra: nat)
    ensures var line := ShowDecimal(x.cpu) + ": " + ShowDecimal(x.tick) + ": "
                        + ShowDecimal(x.latency) + " " + ShowDecimal(extra);
      ParseLine(line) == if && |ShowDecimal(x.cpu)| <= MaxStrDigits
                            && |ShowDecimal(x.tick)| <= MaxStrDigits
                            && |ShowDecimal(x.latency)| <= MaxStrDigits
                         then Success(Some(x)) else Failure(TooManyDigits(line))
  {
    var l := Layout([], ShowDecimal(x.cpu), " ", ShowDecimal(x.tick), " ",
                    ShowDecimal(x.latency), " ", ShowDecimal(extra), []);
    assert WellFormed(l);
    RenderPrinted(l.cpu, l.tick, l.latency, l.extra);
    SplitRender(l);
  }

  /** A blank line or a header without the pattern's colons is dropped. */
  lemma LinesWithoutColonsDropped(line: string)
    requires forall k :: 0 <= k < |line| ==> line[k] != ':'
    ensures ParseLine(line) == Success(None)
  {
    if Split(line).Some? {
      RenderColons(Split(line).value);
    }
  }

  /** `read_and_filter_data`: the table built from the lines that match, one
      row per matching line in line order, or the error of the first line
      whose conversion raises. */
  function ParseLog(lines: seq<string>): (r: Result<seq<Sample>, LogError>)
    ensures r.Success? <==> forall i :: 0 <= i < |lines| ==> ParseLine(lines[i]).Success?
    ensures r.Success? ==> |r.value| <= |lines|
    ensures r.Success? ==> (r.value == [] <==> forall i :: 0 <= i < |lines| ==> ParseLine(lines[i]) == Success(None))
    ensures r.Failure? ==> exists i: nat :: FailsFirstAt(ParseLine, lines, i, r.error)
  {
    TryFilterMap(ParseLine, lines)
  }

  /** Exactly the samples of matching lines appear in the table. */
  lemma ParseLogMembers(lines: seq<string>, x: Sample)
    requires ParseLog(lines).Success?
    ensures x in ParseLog(lines).value <==> exists i :: 0 <= i < |lines| && ParseLine(lines[i]) == Success(Some(x))
  {
    TryFilterMapMembers(ParseLine, lines, x);
  }

  /** Parsing is line by line: on a concatenation of two inputs, an error in
      the first wins, and otherwise the table is the concatenation of their
      tables, so row order follows line order. */
  lemma ParseLogAppend(a: seq<string>, b: seq<string>)
    ensures ParseLog(a + b) == match ParseLog(a)
      case Failure(e) => Failure(e)
      case Success(ra) => match ParseLog(b)
        case Failure(e) => Failure(e)
        case Success(rb) => Success(ra + rb)
  {
    TryFilterMapAppend(ParseLine, a, b);
  }

  /** A single line contributes one row if it matches, none if it does not,
      and its error if a conversion raises. */
  lemma ParseLogSingle(line: string)
    ensures ParseLog([line]) == match ParseLine(line)
      case Failure(e) => Failure(e)
      case Success(Some(x)) => Success([x])
      case Success(None) => Success([])
  {
    TryFilterMapSingle(ParseLine, line);
  }
}
