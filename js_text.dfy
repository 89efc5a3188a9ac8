/**
 * Text conversions the pages rely on: `parseInt(s, 10)`, the decimal rendering
 * a JavaScript integer gets when it is concatenated to a string, and
 * `Array.prototype.join(', ')` together with its inverse, `split(', ')`.
 */
module JsText {
  import opened Wrappers

  predicate IsDigit(c: char) {
    '0' <= c <= '9'
  }

  function DigitValue(c: char): nat
    requires IsDigit(c)
  {
    c as int - '0' as int
  }

  function DigitChar(d: nat): char
    requires d < 10
  {
    ('0' as int + d) as char
  }

  predicate AllDigits(s: string) {
    forall i :: 0 <= i < |s| ==> IsDigit(s[i])
  }

  /** The characters `parseInt` skips before the number (ECMAScript StrWhiteSpaceChar). */
  predicate IsWhiteSpace(c: char) {
    || c == '\t' || c == '\n' || c == '\U{B}' || c == '\U{C}' || c == '\r'
    || c == ' ' || c == '\U{A0}' || c == '\U{1680}' || '\U{2000}' <= c <= '\U{200A}'
    || c == '\U{2028}' || c == '\U{2029}' || c == '\U{202F}' || c == '\U{205F}'
    || c == '\U{3000}' || c == '\U{FEFF}'
  }

  /** `s` without its leading white space. */
  function TrimStart(s: string): (t: string)
    ensures |t| <= |s| && t == s[|s| - |t|..]
    ensures forall i :: 0 <= i < |s| - |t| ==> IsWhiteSpace(s[i])
    ensures t == [] || !IsWhiteSpace(t[0])
  {
    if |s| > 0 && IsWhiteSpace(s[0]) then TrimStart(s[1..]) else s
  }

  /** The longest prefix of `s` made of decimal digits. */
  function DigitPrefix(s: string): (ds: string)
    ensures ds <= s && AllDigits(ds)
    ensures |ds| == |s| || !IsDigit(s[|ds|])
  {
    if |s| > 0 && IsDigit(s[0]) then [s[0]] + DigitPrefix(s[1..]) else []
  }

  /** The number a string of decimal digits denotes, most significant digit first. */
  function DigitsValue(ds: string): nat
    requires AllDigits(ds)
  {
    if ds == [] then 0 else DigitsValue(ds[..|ds| - 1]) * 10 + DigitValue(ds[|ds| - 1])
  }

  /** The value of the decimal digits `s` starts with; `None` when it starts with none. */
  function LeadingDigitsValue(s: string): Option<int>
  {
    var ds := DigitPrefix(s);
    if ds == [] then None else Some(DigitsValue(ds))
  }

  /**
   * `parseInt(s, 10)`: leading white space is skipped, then one optional sign,
   * then the longest run of decimal digits is read and anything after it is
   * ignored. `None` stands for NaN, the result when there is no digit.
   * The sign of a negative zero is not kept (it is compared only with `<= 0`).
   */
  function ParseInt(s: string): Option<int>
  {
    var t := TrimStart(s);
    if |t| > 0 && t[0] == '-' then
      match LeadingDigitsValue(t[1..])
      case None => None
      case Some(v) => Some(-v)
    else if |t| > 0 && t[0] == '+' then LeadingDigitsValue(t[1..])
    else LeadingDigitsValue(t)
  }

  /** What `parseInt` reads digits from: the text after one optional sign. */
  function AfterSign(t: string): string {
    if |t| > 0 && (t[0] == '-' || t[0] == '+') then t[1..] else t
  }

  /**
   * `parseInt` gives NaN exactly when no digit follows the leading white
   * space and the optional sign; a number read after '-' is not positive,
   * any other is not negative.
   */
  lemma ParseIntDefined(s: string)
    ensures var t := TrimStart(s);
            && (ParseInt(s).Some? <==> |AfterSign(t)| > 0 && IsDigit(AfterSign(t)[0]))
            && (ParseInt(s).Some? && t[0] == '-' ==> ParseInt(s).value <= 0)
            && (ParseInt(s).Some? && t[0] != '-' ==> ParseInt(s).value >= 0)
  {
    var t := TrimStart(s);
    LeadingDigitsDefined(AfterSign(t));
  }

  lemma LeadingDigitsDefined(u: string)
    ensures LeadingDigitsValue(u).Some? <==> |u| > 0 && IsDigit(u[0])
  {
    var ds := DigitPrefix(u);
    if ds != [] {
      assert ds[0] == u[0];
    }
  }

  /** The decimal digits of `n` without leading zeros. */
  function NatToDecimal(n: nat): (s: string)
    ensures |s| > 0 && AllDigits(s)
    ensures s[0] == '0' ==> n == 0
  {
    if n < 10 then [DigitChar(n)] else NatToDecimal(n / 10) + [DigitChar(n % 10)]
  }

  /** How JavaScript writes an integral number when it is turned into a string. */
  function IntToDecimal(n: int): (s: string)
    ensures |s| > 0 && (IsDigit(s[0]) || s[0] == '-')
    ensures forall i :: 0 <= i < |s| ==> s[i] != ',' && s[i] != ' '
  {
    if n < 0 then "-" + NatToDecimal(-n) else NatToDecimal(n)
  }

  lemma {:induction false} DigitsValueOfDecimal(n: nat)
    ensures DigitsValue(NatToDecimal(n)) == n
  {
    var s := NatToDecimal(n);
    if n >= 10 {
      DigitsValueOfDecimal(n / 10);
      assert s[..|s| - 1] == NatToDecimal(n / 10);
    }
  }

  lemma {:induction false} DigitPrefixStopsAtNonDigit(ds: string, rest: string)
    requires AllDigits(ds)
    requires rest == [] || !IsDigit(rest[0])
    ensures DigitPrefix(ds + rest) == ds
  {
    if ds != [] {
      DigitPrefixStopsAtNonDigit(ds[1..], rest);
      assert (ds + rest)[1..] == ds[1..] + rest;
    } else {
      assert ds + rest == rest;
    }
  }

  /**
   * `parseInt` reads back the decimal rendering of any integer, and ignores
   * whatever follows it when that does not start with a digit.
   */
  lemma ParseIntOfDecimal(n: int, rest: string)
    requires rest == [] || !IsDigit(rest[0])
    ensures ParseInt(IntToDecimal(n) + rest) == Some(n)
  {
    var s := IntToDecimal(n) + rest;
    if n < 0 {
      ParseIntOfNegativeDecimal(s, -n, rest);
    } else {
      assert s == NatToDecimal(n) + rest;
      LeadingDigitsOfDecimal(n, rest);
      ParseIntNonNegative(s, n);
    }
  }

  lemma ParseIntOfNegativeDecimal(s: string, m: nat, rest: string)
    requires rest == [] || !IsDigit(rest[0])
    requires s == "-" + NatToDecimal(m) + rest
    ensures ParseInt(s) == Some(-(m as int))
  {
    assert s[1..] == NatToDecimal(m) + rest;
    LeadingDigitsOfDecimal(m, rest);
    ParseIntNegative(s, m);
  }

  lemma LeadingDigitsOfDecimal(m: nat, rest: string)
    requires rest == [] || !IsDigit(rest[0])
    ensures LeadingDigitsValue(NatToDecimal(m) + rest) == Some(m)
    ensures IsDigit((NatToDecimal(m) + rest)[0])
  {
    DigitPrefixStopsAtNonDigit(NatToDecimal(m), rest);
    DigitsValueOfDecimal(m);
  }

  lemma ParseIntNegative(s: string, m: int)
    requires |s| > 0 && s[0] == '-' && LeadingDigitsValue(s[1..]) == Some(m)
    ensures ParseInt(s) == Some(-m)
  {
    assert !IsWhiteSpace(s[0]);
    assert TrimStart(s) == s;
  }

  lemma ParseIntNonNegative(s: string, m: int)
    requires |s| > 0 && IsDigit(s[0]) && LeadingDigitsValue(s) == Some(m)
    ensures ParseInt(s) == Some(m)
  {
    DigitIsNotSpace(s[0]);
    assert TrimStart(s) == s;
    assert s[0] != '-' && s[0] != '+';
  }

  lemma DigitIsNotSpace(c: char)
    requires IsDigit(c)
    ensures !IsWhiteSpace(c) && c != '-' && c != '+'
  {
  }

  /** The total length of the pieces. */
  function TotalLength(parts: seq<string>): nat {
    if parts == [] then 0 else |parts[0]| + TotalLength(parts[1..])
  }

  /**
   * `parts.join(', ')`: the pieces in order with one separator between
   * neighbours, so the first piece leads and the text is two characters per
   * separator longer than the pieces.
   */
  function Join(parts: seq<string>): (s: string)
    ensures |parts| > 0 ==> parts[0] <= s && |s| == TotalLength(parts) + 2 * (|parts| - 1)
    ensures parts == [] ==> s == []
  {
    if |parts| == 0 then ""
    else if |parts| == 1 then parts[0]
    else parts[0] + ", " + Join(parts[1..])
  }

  /** `s.split(', ')`: the pieces between the separators, from left to right. */
  function Split(s: string): (parts: seq<string>)
    ensures |parts| >= 1
  {
    if |s| < 2 then [s]
    else if s[0] == ',' && s[1] == ' ' then [""] + Split(s[2..])
    else
      var tail := Split(s[1..]);
      [[s[0]] + tail[0]] + tail[1..]
  }

  predicate NoComma(s: string) {
    forall i :: 0 <= i < |s| ==> s[i] != ','
  }

  lemma {:induction false} SplitNoComma(s: string)
    requires NoComma(s)
    ensures Split(s) == [s]
  {
    if |s| >= 2 {
      SplitNoComma(s[1..]);
      assert [s[0]] + s[1..] == s;
    }
  }

  lemma {:induction false} SplitPiece(a: string, rest: string)
    requires NoComma(a)
    ensures Split(a + ", " + rest) == [a] + Split(rest)
  {
    if a == [] {
      assert a + ", " + rest == ", " + rest;
      assert (", " + rest)[2..] == rest;
    } else {
      SplitPiece(a[1..], rest);
      var s := a + ", " + rest;
      assert s[1..] == a[1..] + ", " + rest;
      assert [a[0]] + a[1..] == a;
    }
  }

  /** Splitting on `", "` undoes joining with it, when no piece holds a comma. */
  lemma {:induction false} SplitJoin(parts: seq<string>)
    requires |parts| >= 1
    requires forall i :: 0 <= i < |parts| ==> NoComma(parts[i])
    ensures Split(Join(parts)) == parts
  {
    if |parts| == 1 {
      SplitNoComma(parts[0]);
    } else {
      SplitJoin(parts[1..]);
      SplitPiece(parts[0], Join(parts[1..]));
      assert [parts[0]] + parts[1..] == parts;
    }
  }
}
