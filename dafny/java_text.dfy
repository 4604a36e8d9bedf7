/** The parts of java.lang.String, java.lang.Long and Spring's StringUtils
    that the modelled code relies on: whitespace tests, trim, prefix and
    infix tests, ASCII upper-casing, decimal parsing and rendering of longs,
    and joining with a separator. A Java string is written here as a
    `string`, a sequence of Unicode scalar values; surrogate pairs are not
    modelled apart. */
module JavaText {
  import opened Outcomes

  /** Character.isWhitespace: the Unicode space, line and paragraph
      separators other than the no-break ones, plus the ASCII separators
      U+0009..U+000D and U+001C..U+001F. */
  predicate IsWhitespace(c: char) {
    ('\t' <= c <= '\r') || ('\U{1C}' <= c <= ' ') || c == '\U{1680}'
    || ('\U{2000}' <= c <= '\U{2006}') || ('\U{2008}' <= c <= '\U{200A}')
    || c == '\U{2028}' || c == '\U{2029}' || c == '\U{205F}' || c == '\U{3000}'
  }

  /** String.isBlank: empty or whitespace only. */
  predicate IsBlank(s: string) {
    forall i :: 0 <= i < |s| ==> IsWhitespace(s[i])
  }

  /** StringUtils.hasText on a non-null string. */
  predicate HasText(s: string) {
    !IsBlank(s)
  }

  /** StringUtils.hasText on a nullable string. */
  predicate HasTextOrNull(s: Option<string>) {
    s.Some? && HasText(s.value)
  }

  /** The characters String.trim removes from both ends: U+0000..U+0020. */
  predicate IsTrimmable(c: char) {
    c <= ' '
  }

  /** Drops the leading trimmable characters: the result is the longest
      suffix that does not start with one. */
  function TrimStart(s: string): (r: string)
    ensures |r| <= |s| && r == s[|s| - |r|..]
    ensures r == [] || !IsTrimmable(r[0])
    ensures forall i :: 0 <= i < |s| - |r| ==> IsTrimmable(s[i])
  {
    if s != [] && IsTrimmable(s[0]) then TrimStart(s[1..]) else s
  }

  /** Drops the trailing trimmable characters: the result is the longest
      prefix that does not end with one. */
  function TrimEnd(s: string): (r: string)
    ensures |r| <= |s| && r == s[..|r|]
    ensures r == [] || !IsTrimmable(r[|r| - 1])
    ensures forall i :: |r| <= i < |s| ==> IsTrimmable(s[i])
  {
    if s != [] && IsTrimmable(s[|s| - 1]) then TrimEnd(s[..|s| - 1]) else s
  }

  /** A string String.trim leaves as it is. */
  predicate IsTrimmed(s: string) {
    s == [] || (!IsTrimmable(s[0]) && !IsTrimmable(s[|s| - 1]))
  }

  /** String.trim. */
  function Trim(s: string): (r: string)
    ensures IsTrimmed(r)
  {
    TrimEnd(TrimStart(s))
  }

  /** What String.trim returns is a piece of its input. */
  lemma TrimIsInfix(s: string)
    ensures exists k :: IsInfixAt(Trim(s), s, k)
  {
    var t := TrimStart(s);
    var r := TrimEnd(t);
    var k := |s| - |t|;
    assert t == s[k..];
    assert r == t[..|r|];
    PrefixOfSuffix(s, k, |r|);
    assert s[k..k + |r|] == r;
    assert Trim(s) == r;
    assert IsInfixAt(Trim(s), s, k);
  }

  /** A prefix of a suffix is a piece of the whole. */
  lemma PrefixOfSuffix(s: string, k: nat, n: nat)
    requires k + n <= |s|
    ensures s[k..][..n] == s[k..k + n]
  {
  }

  /** A piece that follows a prefix of s is found in s right after it. */
  lemma PieceAt(s: string, before: string, piece: string)
    requires before + piece <= s
    ensures s[|before|..|before| + |piece|] == piece
  {
    assert forall j :: |before| <= j < |before| + |piece| ==> s[j] == (before + piece)[j];
  }

  /** Two pieces found side by side in s make up the slice they span. */
  lemma AdjacentPieces(s: string, i: nat, x: string, y: string)
    requires i + |x| + |y| <= |s|
    requires s[i..i + |x|] == x && s[i + |x|..i + |x| + |y|] == y
    ensures s[i..i + |x| + |y|] == x + y
  {
    assert forall j :: 0 <= j < |x| + |y| ==> s[i..i + |x| + |y|][j] == (x + y)[j] by {
      forall j | 0 <= j < |x| + |y|
        ensures s[i..i + |x| + |y|][j] == (x + y)[j]
      {
        if j < |x| {
          assert s[i..i + |x|][j] == x[j];
        } else {
          assert s[i + |x|..i + |x| + |y|][j - |x|] == y[j - |x|];
        }
      }
    }
  }

  /** A prefix of a prefix is a prefix. */
  lemma PrefixOfPrefix(a: string, b: string, c: string)
    requires a <= b && b <= c
    ensures a <= c
  {
  }

  /** Eleven pieces written one after another, as a format string with
      five arguments writes them: each piece is found right after the
      pieces before it, and nothing else is written. */
  lemma ElevenPieces(x0: string, x1: string, x2: string, x3: string, x4: string, x5: string, x6: string, x7: string, x8: string, x9: string, x10: string)
    ensures |x0 + x1 + x2 + x3 + x4 + x5 + x6 + x7 + x8 + x9 + x10| == |x0| + |x1| + |x2| + |x3| + |x4| + |x5| + |x6| + |x7| + |x8| + |x9| + |x10|
    ensures (x0 + x1 + x2 + x3 + x4 + x5 + x6 + x7 + x8 + x9 + x10)[..|x0|] == x0
    ensures (x0 + x1 + x2 + x3 + x4 + x5 + x6 + x7 + x8 + x9 + x10)[|x0|..|x0| + |x1|] == x1
    ensures (x0 + x1 + x2 + x3 + x4 + x5 + x6 + x7 + x8 + x9 + x10)[|x0| + |x1|..|x0| + |x1| + |x2|] == x2
    ensures (x0 + x1 + x2 + x3 + x4 + x5 + x6 + x7 + x8 + x9 + x10)[|x0| + |x1| + |x2|..|x0| + |x1| + |x2| + |x3|] == x3
    ensures (x0 + x1 + x2 + x3 + x4 + x5 + x6 + x7 + x8 + x9 + x10)[|x0| + |x1| + |x2| + |x3|..|x0| + |x1| + |x2| + |x3| + |x4|] == x4
    ensures (x0 + x1 + x2 + x3 + x4 + x5 + x6 + x7 + x8 + x9 + x10)[|x0| + |x1| + |x2| + |x3| + |x4|..|x0| + |x1| + |x2| + |x3| + |x4| + |x5|] == x5
    ensures (x0 + x1 + x2 + x3 + x4 + x5 + x6 + x7 + x8 + x9 + x10)[|x0| + |x1| + |x2| + |x3| + |x4| + |x5|..|x0| + |x1| + |x2| + |x3| + |x4| + |x5| + |x6|] == x6
    ensures (x0 + x1 + x2 + x3 + x4 + x5 + x6 + x7 + x8 + x9 + x10)[|x0| + |x1| + |x2| + |x3| + |x4| + |x5| + |x6|..|x0| + |x1| + |x2| + |x3| + |x4| + |x5| + |x6| + |x7|] == x7
    ensures (x0 + x1 + x2 + x3 + x4 + x5 + x6 + x7 + x8 + x9 + x10)[|x0| + |x1| + |x2| + |x3| + |x4| + |x5| + |x6| + |x7|..|x0| + |x1| + |x2| + |x3| + |x4| + |x5| + |x6| + |x7| + |x8|] == x8
    ensures (x0 + x1 + x2 + x3 + x4 + x5 + x6 + x7 + x8 + x9 + x10)[|x0| + |x1| + |x2| + |x3| + |x4| + |x5| + |x6| + |x7| + |x8|..|x0| + |x1| + |x2| + |x3| + |x4| + |x5| + |x6| + |x7| + |x8| + |x9|] == x9
    ensures (x0 + x1 + x2 + x3 + x4 + x5 + x6 + x7 + x8 + x9 + x10)[|x0| + |x1| + |x2| + |x3| + |x4| + |x5| + |x6| + |x7| + |x8| + |x9|..] == x10
  {
    var p0 := x0;
    var p1 := p0 + x1;
    var p2 := p1 + x2;
    var p3 := p2 + x3;
    var p4 := p3 + x4;
    var p5 := p4 + x5;
    var p6 := p5 + x6;
    var p7 := p6 + x7;
    var p8 := p7 + x8;
    var p9 := p8 + x9;
    var p10 := p9 + x10;
    PrefixOfPrefix(p8, p9, p10);
    PrefixOfPrefix(p7, p8, p10);
    PrefixOfPrefix(p6, p7, p10);
    PrefixOfPrefix(p5, p6, p10);
    PrefixOfPrefix(p4, p5, p10);
    PrefixOfPrefix(p3, p4, p10);
    PrefixOfPrefix(p2, p3, p10);
    PrefixOfPrefix(p1, p2, p10);
    PrefixOfPrefix(p0, p1, p10);
    PieceAt(p10, [], p0);
    PieceAt(p10, p0, x1);
    PieceAt(p10, p1, x2);
    PieceAt(p10, p2, x3);
    PieceAt(p10, p3, x4);
    PieceAt(p10, p4, x5);
    PieceAt(p10, p5, x6);
    PieceAt(p10, p6, x7);
    PieceAt(p10, p7, x8);
    PieceAt(p10, p8, x9);
    PieceAt(p10, p9, x10);
  }

  /** A string whose trimmed form opens with a non-whitespace character
      is not blank. */
  lemma NotBlankWhenTrimOpensWithText(s: string)
    requires Trim(s) != [] && !IsWhitespace(Trim(s)[0])
    ensures !IsBlank(s)
  {
    var t := Trim(s);
    TrimIsInfix(s);
    var k :| IsInfixAt(t, s, k);
    assert s[k] == t[0];
  }

  /** Trimming a trimmed string changes nothing. */
  lemma TrimOfTrimmed(s: string)
    requires IsTrimmed(s)
    ensures Trim(s) == s
  {
  }

  /** Trailing blanks after a trimmed, non-empty string are all that
      String.trim removes. */
  lemma TrimDropsTrailing(s: string, pad: string)
    requires s != [] && IsTrimmed(s)
    requires forall i :: 0 <= i < |pad| ==> IsTrimmable(pad[i])
    ensures Trim(s + pad) == s
  {
    var x := s + pad;
    var t := TrimStart(x);
    assert x[0] == s[0];
    assert t == x;
    var r := TrimEnd(t);
    assert x[|s| - 1] == s[|s| - 1];
    assert |r| == |s|;
    assert r == x[..|s|] == s;
  }

  /** String.trim is idempotent. */
  lemma TrimIdempotent(s: string)
    ensures Trim(Trim(s)) == Trim(s)
  {
    TrimOfTrimmed(Trim(s));
  }

  /** String.startsWith. */
  predicate StartsWith(s: string, prefix: string) {
    prefix <= s
  }

  /** String.endsWith. */
  predicate EndsWith(s: string, suffix: string) {
    |suffix| <= |s| && s[|s| - |suffix|..] == suffix
  }

  /** `part` occurs in `s` starting at index k. */
  predicate IsInfixAt(part: string, s: string, k: int) {
    0 <= k <= |s| - |part| && s[k..k + |part|] == part
  }

  /** String.contains. */
  predicate Contains(s: string, part: string) {
    exists k | 0 <= k <= |s| - |part| :: IsInfixAt(part, s, k)
  }

  /** Character.toUpperCase restricted to ASCII letters. */
  function UpperAscii(c: char): char {
    if 'a' <= c <= 'z' then (c as int - 32) as char else c
  }

  /** String.toUpperCase on ASCII text: same length, letter by letter. */
  function ToUpperAscii(s: string): (r: string)
    ensures |r| == |s|
    ensures forall i :: 0 <= i < |s| ==> r[i] == UpperAscii(s[i])
  {
    seq(|s|, i requires 0 <= i < |s| => UpperAscii(s[i]))
  }

  // ---------- decimal digits ----------

  predicate IsDigit(c: char) {
    '0' <= c <= '9'
  }

  predicate AllDigits(s: string) {
    forall i :: 0 <= i < |s| ==> IsDigit(s[i])
  }

  function DigitValue(c: char): (d: nat)
    requires IsDigit(c)
    ensures d < 10
  {
    c as int - '0' as int
  }

  function DigitChar(d: nat): (c: char)
    requires d < 10
    ensures IsDigit(c) && DigitValue(c) == d
  {
    ('0' as int + d) as char
  }

  /** The value of a string of decimal digits, most significant first. */
  function DigitsValue(ds: string): nat
    requires AllDigits(ds)
  {
    if ds == [] then 0 else 10 * DigitsValue(ds[..|ds| - 1]) + DigitValue(ds[|ds| - 1])
  }

  /** The shortest decimal rendering of a natural number. */
  function NatToDigits(n: nat): (r: string)
    ensures |r| > 0 && AllDigits(r)
    ensures |r| > 1 ==> r[0] != '0'
  {
    if n < 10 then [DigitChar(n)] else NatToDigits(n / 10) + [DigitChar(n % 10)]
  }

  /** Reading back the decimal rendering of a number gives the number. */
  lemma {:induction false} DigitsRoundTrip(n: nat)
    ensures DigitsValue(NatToDigits(n)) == n
  {
    if n >= 10 {
      var r := NatToDigits(n);
      assert r[..|r| - 1] == NatToDigits(n / 10);
      DigitsRoundTrip(n / 10);
    }
  }

  /** Digits that do not open with '0' are worth at least one. */
  lemma {:induction false} DigitsValuePositive(ds: string)
    requires ds != [] && AllDigits(ds) && ds[0] != '0'
    ensures DigitsValue(ds) >= 1
  {
    if |ds| > 1 {
      var init := ds[..|ds| - 1];
      assert init[0] == ds[0];
      DigitsValuePositive(init);
    }
  }

  /** Two or more digits that do not open with '0' are worth at least ten. */
  lemma DigitsValueAtLeastTen(ds: string)
    requires |ds| >= 2 && AllDigits(ds) && ds[0] != '0'
    ensures DigitsValue(ds) >= 10
  {
    var init := ds[..|ds| - 1];
    assert init[0] == ds[0];
    DigitsValuePositive(init);
  }

  const IntMin: int := -0x8000_0000
  const IntMax: int := 0x7FFF_FFFF

  const LongMin: int := -0x8000_0000_0000_0000
  const LongMax: int := 0x7FFF_FFFF_FFFF_FFFF

  /** Long.parseLong in radix 10: an optional '+' or '-', then one or more
      digits, with a value inside the range of a Java long; anything else is
      a NumberFormatException, modelled as None. */
  function ParseLong(s: string): (r: Option<int>)
    ensures r.Some? ==> LongMin <= r.value <= LongMax
  {
    if s == [] then None
    else
      var digits := if s[0] == '-' || s[0] == '+' then s[1..] else s;
      if digits == [] || !AllDigits(digits) then None
      else
        var magnitude: int := DigitsValue(digits);
        var v := if s[0] == '-' then -magnitude else magnitude;
        if LongMin <= v <= LongMax then Some(v) else None
  }

  /** Long.toString: an optional '-' followed by the digits. */
  function LongToString(n: int): string {
    if n < 0 then "-" + NatToDigits(-n) else NatToDigits(n)
  }

  /** Long.toString opens with '-' or a digit, never with whitespace. */
  lemma LongToStringOpens(n: int)
    ensures LongToString(n) != [] && !IsWhitespace(LongToString(n)[0])
  {
    var s := LongToString(n);
    assert s[0] == '-' || IsDigit(s[0]);
  }

  /** Long.parseLong undoes Long.toString on every long. */
  lemma ParseLongOfToString(n: int)
    requires LongMin <= n <= LongMax
    ensures ParseLong(LongToString(n)) == Some(n)
  {
    var s := LongToString(n);
    if n < 0 {
      var d := NatToDigits(-n);
      assert s[0] == '-' && s[1..] == d;
      DigitsRoundTrip(-n);
      assert DigitsValue(d) == -n;
    } else {
      var d := NatToDigits(n);
      assert s == d && IsDigit(s[0]);
      DigitsRoundTrip(n);
      assert DigitsValue(d) == n;
    }
  }

  /** Joins the parts with the separator between consecutive parts, the way
      a left reduction `(a, b) -> a + sep + b` does. */
  function Join(parts: seq<string>, sep: string): string {
    if |parts| == 0 then ""
    else if |parts| == 1 then parts[0]
    else Join(parts[..|parts| - 1], sep) + sep + parts[|parts| - 1]
  }

  /** What a StringBuilder holds after appending the parts in order. */
  function Concat(parts: seq<string>): string {
    if parts == [] then "" else Concat(parts[..|parts| - 1]) + parts[|parts| - 1]
  }

  /** Appending one more part appends its text. */
  lemma ConcatSnoc(parts: seq<string>, p: string)
    ensures Concat(parts + [p]) == Concat(parts) + p
  {
    assert (parts + [p])[..|parts|] == parts;
  }

  /** Appending two runs of parts gives the first's text followed by the
      second's. */
  lemma {:induction false} ConcatAppend(a: seq<string>, b: seq<string>)
    ensures Concat(a + b) == Concat(a) + Concat(b)
    decreases |b|
  {
    if b == [] {
      assert a + b == a;
    } else {
      var init := b[..|b| - 1];
      var x := b[|b| - 1];
      assert b == init + [x];
      assert a + b == (a + init) + [x];
      ConcatSnoc(a + init, x);
      ConcatAppend(a, init);
      ConcatSnoc(init, x);
    }
  }
}
