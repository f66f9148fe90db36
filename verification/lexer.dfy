/**
 Character classes, maximal-run scanning and decimal numerals: the pieces the
 log-line pattern and Python's `int()` conversion are built from.
 */
module Lexer {
  import opened Wrappers

  /** Python's `\s` on ASCII text: space, the controls 9..13 (tab, line feed,
      vertical tab, form feed, carriage return) and the separators 0x1C..0x1F. */
  predicate IsWs(c: char) {
    c == ' ' || 9 <= c as int <= 13 || 28 <= c as int <= 31
  }

  /** The whitespace `int()` strips around a numeral: space and the controls
      9..13. Unlike `\s` it leaves out the separators 0x1C..0x1F, so
      `int("\x1c10")` raises `ValueError`. */
  predicate IsIntWs(c: char) {
    c == ' ' || 9 <= c as int <= 13
  }

  /** Python's `\d`, restricted to the ASCII digits. */
  predicate IsDigit(c: char) {
    '0' <= c <= '9'
  }

  /** Every character of `s` belongs to the class `p`. */
  predicate All(p: char -> bool, s: string) {
    forall k :: 0 <= k < |s| ==> p(s[k])
  }

  /** A non-empty run of digits, what `\d+` matches. */
  predicate IsNumeral(s: string) {
    s != [] && All(IsDigit, s)
  }

  /** Splits `s` into its longest prefix of class `p` and the rest: the greedy
      `p*` of a regular expression, which never needs to backtrack here
      because each class is followed by a character outside it. */
  function Span(p: char -> bool, s: string): (r: (string, string))
    ensures r.0 + r.1 == s
    ensures All(p, r.0)
    ensures r.1 == [] || !p(r.1[0])
  {
    if s != [] && p(s[0]) then
      var (run, rest) := Span(p, s[1..]);
      assert [s[0]] + run + rest == [s[0]] + (run + rest);
      ([s[0]] + run, rest)
    else
      ([], s)
  }

  /** The contract of `Span` determines its result: a run of class `p`
      followed by a character outside `p` (or by nothing) is split there. */
  lemma SpanSplitsAtFirstMiss(p: char -> bool, run: string, rest: string)
    requires All(p, run)
    requires rest == [] || !p(rest[0])
    ensures Span(p, run + rest) == (run, rest)
  {
    var (a, b) := Span(p, run + rest);
    assert a == (a + b)[..|a|] == (run + rest)[..|run|] == run;
  }

  /** The character of a decimal digit value. */
  function Digit(d: nat): (c: char)
    requires d < 10
    ensures IsDigit(c)
  {
    ('0' as int + d) as char
  }

  function DigitValue(c: char): (d: nat)
    requires IsDigit(c)
    ensures d < 10
    ensures Digit(d) == c
  {
    c as int - '0' as int
  }

  /** The number a run of ASCII digits denotes, read most significant digit first
      as Python's `int()` does (leading zeros allowed). It is zero exactly
      when every digit is. */
  function DecimalValue(ds: string): (v: nat)
    requires All(IsDigit, ds)
    ensures v == 0 <==> forall k :: 0 <= k < |ds| ==> ds[k] == '0'
  {
    if ds == [] then 0
    else
      var init := ds[..|ds| - 1];
      assert forall k :: 0 <= k < |init| ==> init[k] == ds[k];
      10 * DecimalValue(init) + DigitValue(ds[|ds| - 1])
  }

  /** The decimal numeral of `n` without leading zeros; its decimal value is
      `n`. (`str(n)` and `int()` give and read this numeral only up to 4300
      digits; `ParseIntShowInt` states the limit.) */
  function ShowDecimal(n: nat): (ds: string)
    ensures IsNumeral(ds)
    ensures DecimalValue(ds) == n
    ensures ds[0] != '0' || n == 0
  {
    if n < 10 then [Digit(n)]
    else
      var prefix := ShowDecimal(n / 10);
      var ds := prefix + [Digit(n % 10)];
      assert ds[..|ds| - 1] == prefix;
      ds
  }

  /** Reading a numeral without a leading zero and printing the number again
      gives the numeral back: `str(int(ds)) == ds`. */
  lemma {:induction false} ShowDecimalValue(ds: string)
    requires IsNumeral(ds) && ds[0] != '0'
    ensures ShowDecimal(DecimalValue(ds)) == ds
  {
    var init := ds[..|ds| - 1];
    var last := DigitValue(ds[|ds| - 1]);
    if init == [] {
      assert ds == [Digit(last)];
    } else {
      assert init[0] == ds[0];
      ShowDecimalValue(init);
      var v := DecimalValue(ds);
      assert v == 10 * DecimalValue(init) + last;
      assert v / 10 == DecimalValue(init) && v % 10 == last;
      assert ds == init + [Digit(last)];
    }
  }

  /** Leading zeros do not change the decimal value of a numeral, which is why
      `int("007") == 7`; `int()` still counts them towards its digit limit. */
  lemma {:induction false} LeadingZeroIgnored(ds: string)
    requires All(IsDigit, ds)
    ensures DecimalValue(['0'] + ds) == DecimalValue(ds)
  {
    if ds != [] {
      var init := ds[..|ds| - 1];
      assert (['0'] + ds)[..|ds|] == ['0'] + init;
      LeadingZeroIgnored(init);
    }
  }

  /** The default limit on the digits `int()` converts from text; a longer
      numeral raises `ValueError`. Leading zeros count, the sign does not. */
  const MaxStrDigits := 4300

  /** An optional sign, as `int()` accepts it. */
  predicate IsSign(sign: string) {
    sign == "" || sign == "+" || sign == "-"
  }

  /** The value of a signed numeral. */
  function Signed(sign: string, ds: string): int
    requires All(IsDigit, ds)
  {
    var magnitude: int := DecimalValue(ds);
    if sign == "-" then -magnitude else magnitude
  }

  /** `s` is the text of `v` as `int()` reads it: whitespace, an optional sign,
      at most `MaxStrDigits` digits, whitespace. */
  ghost predicate IntText(s: string, v: int) {
    exists lead, sign, ds, trail ::
      && All(IsIntWs, lead) && IsSign(sign) && IsNumeral(ds) && All(IsIntWs, trail)
      && |ds| <= MaxStrDigits && s == lead + (sign + (ds + trail)) && v == Signed(sign, ds)
  }

  /** Python's `int(s)` for a string in base 10. Anything that is not the text
      of an integer raises `ValueError`, modelled as `None`. */
  function ParseInt(s: string): Option<int>
  {
    ParseSigned(Span(IsIntWs, s).1)
  }

  /** The text after the leading whitespace: an optional sign, then the digits. */
  function ParseSigned(s: string): Option<int>
  {
    if s != [] && (s[0] == '-' || s[0] == '+') then
      match ParseUnsigned(s[1..])
      case None => None
      case Some(n) =>
        var v: int := n;
        Some(if s[0] == '-' then -v else v)
    else
      match ParseUnsigned(s)
      case None => None
      case Some(n) => Some(n)
  }

  /** At least one and at most `MaxStrDigits` digits, then nothing but
      whitespace. */
  function ParseUnsigned(s: string): Option<nat>
  {
    var (ds, rest) := Span(IsDigit, s);
    if ds != [] && |ds| <= MaxStrDigits && Span(IsIntWs, rest).1 == [] then Some(DecimalValue(ds)) else None
  }

  /** What `ParseUnsigned` accepts is a numeral within the limit followed by
      whitespace. */
  lemma ParseUnsignedSound(s: string)
    requires ParseUnsigned(s).Some?
    ensures exists ds, trail ::
      && IsNumeral(ds) && All(IsIntWs, trail) && |ds| <= MaxStrDigits
      && s == ds + trail && ParseUnsigned(s).value == DecimalValue(ds)
  {
    var (ds, rest) := Span(IsDigit, s);
    assert Span(IsIntWs, rest).0 + [] == rest;
  }

  /** What `ParseSigned` accepts is an optional sign, a numeral within the
      limit and whitespace. */
  lemma ParseSignedSound(s: string)
    requires ParseSigned(s).Some?
    ensures exists sign, ds, trail ::
      && IsSign(sign) && IsNumeral(ds) && All(IsIntWs, trail) && |ds| <= MaxStrDigits
      && s == sign + (ds + trail) && ParseSigned(s).value == Signed(sign, ds)
  {
    if s != [] && (s[0] == '-' || s[0] == '+') {
      ParseUnsignedSound(s[1..]);
      var ds, trail :| && IsNumeral(ds) && All(IsIntWs, trail) && |ds| <= MaxStrDigits
        && s[1..] == ds + trail && ParseUnsigned(s[1..]).value == DecimalValue(ds);
      assert s == s[..1] + (ds + trail);
      assert Signed(s[..1], ds) == ParseSigned(s).value;
    } else {
      ParseUnsignedSound(s);
      var ds, trail :| && IsNumeral(ds) && All(IsIntWs, trail) && |ds| <= MaxStrDigits
        && s == ds + trail && ParseUnsigned(s).value == DecimalValue(ds);
      assert s == "" + (ds + trail);
    }
  }

  /** Whatever `int()` accepts is the text of the integer it returns. */
  lemma ParseIntSound(s: string)
    requires ParseInt(s).Some?
    ensures IntText(s, ParseInt(s).value)
  {
    var (lead, rest) := Span(IsIntWs, s);
    ParseSignedSound(rest);
    var sign, ds, trail :| && IsSign(sign) && IsNumeral(ds) && All(IsIntWs, trail)
      && |ds| <= MaxStrDigits && rest == sign + (ds + trail) && ParseSigned(rest).value == Signed(sign, ds);
    assert s == lead + (sign + (ds + trail));
  }

  lemma ParseUnsignedNumeral(ds: string, trail: string)
    requires IsNumeral(ds) && All(IsIntWs, trail)
    ensures ParseUnsigned(ds + trail) == if |ds| <= MaxStrDigits then Some(DecimalValue(ds)) else None
  {
    assert trail == [] || !IsDigit(trail[0]);
    SpanSplitsAtFirstMiss(IsDigit, ds, trail);
    assert trail + [] == trail;
    SpanSplitsAtFirstMiss(IsIntWs, trail, []);
  }

  /** The decimal text of an integer, as `str(i)` prints it. */
  function ShowInt(i: int): (s: string)
    ensures s != []
  {
    if i < 0 then "-" + ShowDecimal(-i) else ShowDecimal(i)
  }

  /** After the leading whitespace, an optional sign and a numeral followed by
      whitespace give the signed value of the numeral, if it is not too long. */
  lemma ParseSignedNumeral(sign: string, ds: string, trail: string)
    requires IsSign(sign) && IsNumeral(ds) && All(IsIntWs, trail)
    ensures ParseSigned(sign + (ds + trail))
         == if |ds| <= MaxStrDigits then Some(Signed(sign, ds)) else None
  {
    var unsigned := ds + trail;
    ParseUnsignedNumeral(ds, trail);
    assert unsigned[0] == ds[0];
    if sign == "" {
      assert sign + unsigned == unsigned;
    } else {
      assert (sign + unsigned)[1..] == unsigned;
    }
  }

  /** `int()` accepts whitespace, an optional sign, a numeral and whitespace,
      and gives the signed value of the numeral; a numeral over the digit
      limit is rejected. */
  lemma ParseIntNumeral(lead: string, sign: string, ds: string, trail: string)
    requires All(IsIntWs, lead) && IsSign(sign) && IsNumeral(ds) && All(IsIntWs, trail)
    ensures ParseInt(lead + (sign + (ds + trail)))
         == if |ds| <= MaxStrDigits then Some(Signed(sign, ds)) else None
  {
    var body := sign + (ds + trail);
    assert body[0] == '-' || body[0] == '+' || body[0] == ds[0];
    SpanSplitsAtFirstMiss(IsIntWs, lead, body);
    ParseSignedNumeral(sign, ds, trail);
  }

  /** `int(s)` gives `v` exactly when `s` is the text of `v`. */
  lemma ParseIntExact(s: string, v: int)
    ensures ParseInt(s) == Some(v) <==> IntText(s, v)
  {
    if ParseInt(s) == Some(v) {
      ParseIntSound(s);
    }
    if IntText(s, v) {
      var lead, sign, ds, trail :| && All(IsIntWs, lead) && IsSign(sign) && IsNumeral(ds)
        && All(IsIntWs, trail) && |ds| <= MaxStrDigits && s == lead + (sign + (ds + trail))
        && v == Signed(sign, ds);
      ParseIntNumeral(lead, sign, ds, trail);
    }
  }

  /** Printing an integer and converting it back with `int()` is the identity,
      with or without whitespace around it, unless the numeral is over the
      digit limit. */
  lemma ParseIntShowInt(i: int, lead: string, trail: string)
    requires All(IsIntWs, lead) && All(IsIntWs, trail)
    ensures ParseInt(lead + ShowInt(i) + trail)
         == if |ShowDecimal(if i < 0 then -i else i)| <= MaxStrDigits then Some(i) else None
  {
    var shown := ShowInt(i);
    assert lead + shown + trail == lead + (shown + trail);
    if i < 0 {
      var ds := ShowDecimal(-i);
      assert shown + trail == "-" + (ds + trail);
      ParseIntNumeral(lead, "-", ds, trail);
    } else {
      var ds := ShowDecimal(i);
      assert shown + trail == "" + (ds + trail);
      ParseIntNumeral(lead, "", ds, trail);
    }
  }

  /** A string with no digit is never an integer. */
  lemma ParseIntNeedsDigit(s: string)
    requires forall k :: 0 <= k < |s| ==> !IsDigit(s[k])
    ensures ParseInt(s) == None
  {
    var afterLead := Span(IsIntWs, s).1;
    assert afterLead == s[|s| - |afterLead|..];
    if afterLead != [] {
      assert afterLead[0] in s;
      assert afterLead[1..] == [] || afterLead[1..][0] in s;
    }
  }

  /** The separators 0x1C..0x1F are whitespace to the log pattern's `\s` but
      not to `int()`: a key that starts with one is rejected. */
  lemma SeparatorNotIntSpace(c: char, rest: string)
    requires 28 <= c as int <= 31
    ensures IsWs(c) && !IsIntWs(c)
    ensures ParseInt([c] + rest) == None
  {
    var s := [c] + rest;
    SpanSplitsAtFirstMiss(IsIntWs, [], s);
    assert !IsDigit(s[0]);
    SpanSplitsAtFirstMiss(IsDigit, [], s);
  }
}
