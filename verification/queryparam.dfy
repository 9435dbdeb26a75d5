/**
 * Parsing of the `objectType` query parameter of the `/askFind` endpoint
 * (packages/hardhat/scripts/server.ts): `slice(1, -1)`, `split(",")` and
 * `parseInt` on each piece, as JavaScript defines them, except that a string
 * here is a sequence of code points rather than of UTF-16 code units.
 */
module QueryParam {
  import opened Wrappers
  import opened JsValues

  const Comma: char := ','

  /** `s.slice(1, -1)`: drops the first and the last character; a string shorter than two becomes empty. */
  function SliceInner(s: string): (r: string)
    ensures |s| < 2 ==> r == ""
    ensures |s| >= 2 ==> |r| == |s| - 2
    ensures forall a: char, b: char, inner: string :: s == [a] + inner + [b] ==> r == inner
  {
    if |s| < 2 then "" else s[1..|s| - 1]
  }

  /** Number of occurrences of `c` in `s`. */
  function Count(s: string, c: char): nat {
    if |s| == 0 then 0 else (if s[0] == c then 1 else 0) + Count(s[1..], c)
  }

  /**
   * `s.split(sep)` for a one-character separator: the pieces between
   * separators, in order; there is always one more piece than separators,
   * and the empty string splits into one empty piece.
   */
  function Split(s: string, sep: char): (r: seq<string>)
    ensures |r| == Count(s, sep) + 1
    ensures forall i :: 0 <= i < |r| ==> sep !in r[i]
  {
    if |s| == 0 then [""]
    else
      var rest := Split(s[1..], sep);
      if s[0] == sep then [""] + rest
      else [[s[0]] + rest[0]] + rest[1..]
  }

  /** `parts.join(sep)`. */
  function Join(parts: seq<string>, sep: char): string {
    if |parts| == 0 then ""
    else if |parts| == 1 then parts[0]
    else parts[0] + [sep] + Join(parts[1..], sep)
  }

  /** Joining the pieces back with the separator restores the string. */
  lemma {:induction false} JoinSplit(s: string, sep: char)
    ensures Join(Split(s, sep), sep) == s
  {
    if |s| > 0 {
      JoinSplit(s[1..], sep);
      var rest := Split(s[1..], sep);
      if s[0] == sep {
        assert ([""] + rest)[1..] == rest;
      } else if |rest| > 1 {
        assert ([[s[0]] + rest[0]] + rest[1..])[1..] == rest[1..];
        assert Join(rest, sep) == rest[0] + [sep] + Join(rest[1..], sep);
      }
    }
  }

  /** Pieces free of the separator, joined and split again, come back unchanged. */
  lemma {:induction false} SplitJoin(parts: seq<string>, sep: char)
    requires |parts| >= 1
    requires forall i :: 0 <= i < |parts| ==> sep !in parts[i]
    ensures Split(Join(parts, sep), sep) == parts
  {
    if |parts| == 1 {
      SplitNoSeparator(parts[0], sep);
    } else {
      SplitJoin(parts[1..], sep);
      SplitPrefix(parts[0], Join(parts[1..], sep), sep);
      assert parts == [parts[0]] + parts[1..];
    }
  }

  /** A string without the separator is one piece. */
  lemma {:induction false} SplitNoSeparator(s: string, sep: char)
    requires sep !in s
    ensures Split(s, sep) == [s]
  {
    if |s| > 0 {
      SplitNoSeparator(s[1..], sep);
      assert [s[0]] + s[1..] == s;
    }
  }

  /** A separator-free prefix followed by the separator becomes the first piece. */
  lemma {:induction false} SplitPrefix(p: string, t: string, sep: char)
    requires sep !in p
    ensures Split(p + [sep] + t, sep) == [p] + Split(t, sep)
  {
    if |p| == 0 {
      assert p + [sep] + t == [sep] + t;
      assert ([sep] + t)[1..] == t;
    } else {
      assert (p + [sep] + t)[1..] == p[1..] + [sep] + t;
      SplitPrefix(p[1..], t, sep);
      assert [p[0]] + p[1..] == p;
    }
  }

  /**
   * The characters `parseInt` skips at the start: JavaScript white space
   * (tab, vertical tab, form feed, no-break space, byte-order mark and the
   * space separators) and line terminators.
   */
  predicate IsJsWhiteSpace(c: char) {
    || c == '\t' || c == '\U{000B}' || c == '\U{000C}' || c == ' ' || c == '\U{00A0}' || c == '\U{FEFF}'
    || c == '\U{1680}' || ('\U{2000}' <= c <= '\U{200A}') || c == '\U{202F}' || c == '\U{205F}' || c == '\U{3000}'
    || c == '\n' || c == '\r' || c == '\U{2028}' || c == '\U{2029}'
  }

  function TrimStart(s: string): (r: string)
    ensures |r| <= |s| && r == s[|s| - |r|..]
    ensures forall i :: 0 <= i < |s| - |r| ==> IsJsWhiteSpace(s[i])
    ensures |r| > 0 ==> !IsJsWhiteSpace(r[0])
  {
    if |s| > 0 && IsJsWhiteSpace(s[0]) then TrimStart(s[1..]) else s
  }

  /** Whether `c` is a digit of base `radix` (10 or 16 here), letters in either case. */
  predicate IsRadixDigit(c: char, radix: nat) {
    || ('0' <= c <= '9' && (c as int - '0' as int) < radix)
    || ('a' <= c <= 'z' && (c as int - 'a' as int) + 10 < radix)
    || ('A' <= c <= 'Z' && (c as int - 'A' as int) + 10 < radix)
  }

  /** The value of the digit `c`; only meaningful when `IsRadixDigit(c, radix)`. */
  function DigitValue(c: char, radix: nat): (d: nat)
    ensures IsRadixDigit(c, radix) ==> d < radix
  {
    if '0' <= c <= '9' then c as int - '0' as int
    else if 'a' <= c <= 'z' then c as int - 'a' as int + 10
    else if 'A' <= c <= 'Z' then c as int - 'A' as int + 10
    else 0
  }

  /** Whether every character of `ds` is a base-`radix` digit. */
  predicate AllRadixDigits(ds: string, radix: nat) {
    forall i :: 0 <= i < |ds| ==> IsRadixDigit(ds[i], radix)
  }

  /**
   * The value of a string of base-`radix` digits, most significant first
   * (callers pass strings satisfying `AllRadixDigits`).
   */
  function DigitsValue(ds: string, radix: nat): nat
  {
    if |ds| == 0 then 0
    else DigitsValue(ds[..|ds| - 1], radix) * radix + DigitValue(ds[|ds| - 1], radix)
  }

  /** The longest prefix of `s` made of base-`radix` digits. */
  function DigitPrefix(s: string, radix: nat): (r: string)
    ensures |r| <= |s| && r == s[..|r|]
    ensures AllRadixDigits(r, radix)
    ensures |r| < |s| ==> !IsRadixDigit(s[|r|], radix)
  {
    if |s| == 0 || !IsRadixDigit(s[0], radix) then ""
    else [s[0]] + DigitPrefix(s[1..], radix)
  }

  /** `t` without its leading sign, if it has one. */
  function Unsigned(t: string): string {
    if |t| > 0 && (t[0] == '-' || t[0] == '+') then t[1..] else t
  }

  /**
   * `parseInt(s)` with no radix: skip leading white space, then read a signed
   * number. The result is NaN or an integer, and it is NaN when no decimal
   * digit follows the white space and the sign.
   */
  function ParseInt(s: string): (r: JsNumber)
    ensures r.Finite? ==> r.value == r.value.Floor as real
    ensures var u := Unsigned(TrimStart(s)); |u| == 0 || !IsRadixDigit(u[0], 10) ==> r.NaN?
  {
    ParseSigned(TrimStart(s))
  }

  /** `parseInt` after the white space: an optional sign, then the magnitude. */
  function ParseSigned(t: string): (r: JsNumber)
    ensures r.Finite? ==> r.value == r.value.Floor as real
    ensures |Unsigned(t)| == 0 || !IsRadixDigit(Unsigned(t)[0], 10) ==> r.NaN?
  {
    var negative := |t| > 0 && t[0] == '-';
    var u := Unsigned(t);
    match ParseMagnitude(u)
    case None => NaN
    case Some(magnitude) => NumberOfInt(if negative then -(magnitude as int) else magnitude)
  }

  /** Whether `u` starts with `0x` or `0X`. */
  predicate HexPrefixed(u: string) {
    |u| >= 2 && u[0] == '0' && (u[1] == 'x' || u[1] == 'X')
  }

  /**
   * The unsigned part of `parseInt`: base 16 after a `0x`/`0X` prefix and
   * base 10 otherwise, the value of the longest run of digits; none when
   * the run is empty.
   */
  function ParseMagnitude(u: string): (r: Option<nat>)
    ensures r.None? <==>
              if HexPrefixed(u) then |u| == 2 || !IsRadixDigit(u[2], 16)
              else |u| == 0 || !IsRadixDigit(u[0], 10)
  {
    var hex := HexPrefixed(u);
    var radix := if hex then 16 else 10;
    var digits := DigitPrefix(if hex then u[2..] else u, radix);
    if |digits| == 0 then None else Some(DigitsValue(digits, radix))
  }

  predicate IsDecimalDigits(s: string) {
    forall i :: 0 <= i < |s| ==> '0' <= s[i] <= '9'
  }

  /**
   * A run of decimal digits that does not start a hex prefix, followed by a
   * non-digit, has the value of the run.
   */
  lemma MagnitudeOfDigits(s: string, rest: string)
    requires |s| > 0 && IsDecimalDigits(s)
    requires |rest| > 0 ==> !('0' <= rest[0] <= '9')
    requires !HexPrefixed(s + rest)
    ensures AllRadixDigits(s, 10)
    ensures ParseMagnitude(s + rest) == Some(DigitsValue(s, 10))
  {
    assert AllRadixDigits(s, 10);
    DigitPrefixStops(s, rest, 10);
  }

  /** A non-empty string of decimal digits parses to the integer it denotes. */
  lemma DecimalDigitsParse(s: string)
    requires |s| > 0 && IsDecimalDigits(s)
    ensures AllRadixDigits(s, 10)
    ensures ParseInt(s) == NumberOfInt(DigitsValue(s, 10))
  {
    assert !IsJsWhiteSpace(s[0]);
    assert TrimStart(s) == s;
    assert s + "" == s;
    MagnitudeOfDigits(s, "");
  }

  /** The digit run stops at the first character that is not a digit. */
  lemma {:induction false} DigitPrefixStops(s: string, rest: string, radix: nat)
    requires AllRadixDigits(s, radix)
    requires |rest| > 0 ==> !IsRadixDigit(rest[0], radix)
    ensures DigitPrefix(s + rest, radix) == s
  {
    if |s| > 0 {
      assert (s + rest)[1..] == s[1..] + rest;
      DigitPrefixStops(s[1..], rest, radix);
      assert [s[0]] + s[1..] == s;
    } else {
      assert s + rest == rest;
    }
  }

  /** Leading white space is skipped. */
  lemma ParseIntSkipsWhiteSpace(c: char, s: string)
    requires IsJsWhiteSpace(c)
    ensures ParseInt([c] + s) == ParseInt(s)
  {
    assert ([c] + s)[1..] == s;
    assert TrimStart([c] + s) == TrimStart(s);
    assert ParseInt([c] + s) == ParseSigned(TrimStart(s));
  }

  /**
   * `parseInt` reads the longest leading number: a rendered natural number
   * followed by anything that neither continues it nor turns a leading `0`
   * into a hex prefix parses to that number.
   */
  lemma ParseIntStopsAtNonDigit(n: nat, rest: string)
    requires |rest| > 0 ==> !('0' <= rest[0] <= '9') && (n == 0 ==> rest[0] != 'x' && rest[0] != 'X')
    ensures ParseInt(ShowNat(n) + rest) == NumberOfInt(n)
  {
    var s := ShowNat(n);
    var t := s + rest;
    assert t[0] == s[0] && '0' <= t[0] <= '9';
    assert !IsJsWhiteSpace(t[0]);
    assert TrimStart(t) == t;
    assert |s| == 1 ==> |t| >= 2 ==> t[1] == rest[0];
    assert !(|t| >= 2 && s[0] == '0' && (t[1] == 'x' || t[1] == 'X'));
    ShowNatValue(n);
    MagnitudeOfDigits(s, rest);
  }

  /** A minus sign negates what follows it. */
  lemma ParseIntNegative(n: nat)
    ensures ParseInt("-" + ShowNat(n)) == NumberOfInt(-(n as int))
  {
    var s := ShowNat(n);
    var t := "-" + s;
    assert !IsJsWhiteSpace(t[0]);
    assert TrimStart(t) == t;
    assert Unsigned(t) == s + "";
    assert !HexPrefixed(s + "") by {
      assert |s| >= 2 ==> s[1] != 'x' && s[1] != 'X';
    }
    ShowNatValue(n);
    MagnitudeOfDigits(s, "");
    assert ParseMagnitude(Unsigned(t)) == Some(n);
  }

  /** The decimal rendering of a natural number, without leading zeros. */
  function ShowNat(n: nat): (r: string)
    ensures |r| > 0 && IsDecimalDigits(r)
    ensures |r| > 1 ==> r[0] != '0'
    ensures r[0] == '0' ==> n == 0
  {
    if n < 10 then [('0' as int + n) as char]
    else ShowNat(n / 10) + [('0' as int + n % 10) as char]
  }

  /** `parseInt` reads back the rendering of every natural number. */
  lemma {:induction false} ParseIntShowNat(n: nat)
    ensures ParseInt(ShowNat(n)) == NumberOfInt(n)
  {
    ShowNatValue(n);
    DecimalDigitsParse(ShowNat(n));
  }

  lemma {:induction false} ShowNatValue(n: nat)
    ensures AllRadixDigits(ShowNat(n), 10)
    ensures DigitsValue(ShowNat(n), 10) == n
  {
    var s := ShowNat(n);
    if n >= 10 {
      ShowNatValue(n / 10);
      assert s[..|s| - 1] == ShowNat(n / 10);
    }
  }

  /**
   * The `objectType` parse: the ids between the outer characters, one per
   * comma-separated piece, NaN for a piece without a leading number.
   */
  function ParseObjectType(param: string): (r: seq<JsNumber>)
    ensures |r| == Count(SliceInner(param), Comma) + 1
    ensures forall i :: 0 <= i < |r| ==> r[i] == ParseInt(Split(SliceInner(param), Comma)[i])
  {
    var pieces := Split(SliceInner(param), Comma);
    seq(|pieces|, i requires 0 <= i < |pieces| => ParseInt(pieces[i]))
  }

  /** An empty bracketed list parses to a single NaN, not to no ids. */
  lemma EmptyListIsOneNaN()
    ensures ParseObjectType("[]") == [NaN]
  {
    assert SliceInner("[]") == "";
  }

  /** The parameter as a client writes it: `[` ids joined by `,` `]`. */
  function FormatObjectType(ids: seq<nat>): string {
    "[" + Join(seq(|ids|, i requires 0 <= i < |ids| => ShowNat(ids[i])), Comma) + "]"
  }

  /** A non-empty list of ids survives formatting and parsing. */
  lemma FormatParse(ids: seq<nat>)
    requires |ids| >= 1
    ensures ParseObjectType(FormatObjectType(ids)) == seq(|ids|, i requires 0 <= i < |ids| => NumberOfInt(ids[i]))
  {
    var shown := seq(|ids|, i requires 0 <= i < |ids| => ShowNat(ids[i]));
    var inner := Join(shown, Comma);
    assert FormatObjectType(ids) == ['['] + inner + [']'];
    assert SliceInner(FormatObjectType(ids)) == inner;
    forall i | 0 <= i < |shown| ensures Comma !in shown[i] {
      assert IsDecimalDigits(ShowNat(ids[i]));
    }
    SplitJoin(shown, Comma);
    var parsed := ParseObjectType(FormatObjectType(ids));
    assert |parsed| == |Split(inner, Comma)| == |ids|;
    forall i | 0 <= i < |ids| ensures parsed[i] == NumberOfInt(ids[i]) {
      assert parsed[i] == ParseInt(shown[i]);
      ParseIntShowNat(ids[i]);
    }
  }
}
