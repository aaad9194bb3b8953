/**
 * Python's decimal number syntax on text: what `int(s)` accepts and the
 * value it returns, `str(n)` for an integer, and which texts `float(s)`
 * accepts. Only the ASCII digits 0-9 are digits here.
 */
module PyNum {
  import opened Wrappers
  import opened PyText

  predicate IsDigit(c: char) { '0' <= c <= '9' }

  function DigitValue(c: char): (d: nat)
    requires IsDigit(c)
    ensures d < 10
  {
    (c as int) - ('0' as int)
  }

  function DigitChar(d: nat): (c: char)
    requires d < 10
    ensures IsDigit(c) && DigitValue(c) == d
  {
    ('0' as int + d) as char
  }

  /** Python's `digitpart ::= digit (["_"] digit)*`: digits, with single
      underscores allowed between two digits. */
  predicate IsDigitPart(s: string)
  {
    && |s| > 0
    && IsDigit(s[0])
    && IsDigit(s[|s| - 1])
    && (forall i :: 0 <= i < |s| ==> IsDigit(s[i]) || s[i] == '_')
    && (forall i :: 0 <= i < |s| - 1 ==> s[i] == '_' ==> IsDigit(s[i + 1]))
  }

  /** The value of a digit part, underscores ignored. */
  function DigitsValue(s: string): nat
    requires forall i :: 0 <= i < |s| ==> IsDigit(s[i]) || s[i] == '_'
  {
    if s == [] then 0
    else if s[|s| - 1] == '_' then DigitsValue(s[..|s| - 1])
    else 10 * DigitsValue(s[..|s| - 1]) + DigitValue(s[|s| - 1])
  }

  predicate IsSign(c: char) { c == '+' || c == '-' }

  /** Python's default bound on the decimal digits `int()` reads from text and
      `str()` writes (`sys.int_info.default_max_str_digits`); past it both
      raise `ValueError`. */
  const MaxStrDigits := 4300

  /** The number of digits of a digit part, underscores not counted. */
  function DigitCount(s: string): nat
  {
    if s == [] then 0 else DigitCount(s[..|s| - 1]) + (if s[|s| - 1] == '_' then 0 else 1)
  }

  /** The whitespace `int()` and `float()` skip around their text. CPython
      first turns each non-ASCII whitespace character into a space, then
      skips the ASCII whitespace of `Py_ISSPACE`. So the separators U+001C
      to U+001F, which `str.isspace()` accepts, are not skipped here. */
  predicate IsNumberSpace(c: char)
  {
    IsSpace(c) && !('\U{1C}' <= c <= '\U{1F}')
  }

  /** The text `int()` and `float()` read: `text` without number whitespace
      at either end. */
  function NumberText(text: string): string
  {
    Trim(text, IsNumberSpace)
  }

  /** `int(text)` in base 10: surrounding whitespace, an optional sign, then a
      digit part of at most `MaxStrDigits` digits. `None` is the `ValueError`
      Python raises. */
  function ParseInt(text: string): Option<int>
  {
    ParseIntLiteral(NumberText(text))
  }

  /** `int()` once the whitespace around the text is gone. */
  function ParseIntLiteral(t: string): Option<int>
  {
    if |t| > 0 && IsSign(t[0]) then
      var magnitude :- ParseDigits(t[1..]);
      var m: int := magnitude;
      var n := if t[0] == '-' then -m else m;
      Some(n)
    else
      var n :- ParseDigits(t);
      Some(n)
  }

  /** The value of an unsigned digit part, refused past `MaxStrDigits` digits. */
  function ParseDigits(d: string): Option<nat>
  {
    if IsDigitPart(d) && DigitCount(d) <= MaxStrDigits then Some(DigitsValue(d)) else None
  }

  /** The decimal digits of `n`, most significant first, no leading zero. */
  function NatToString(n: nat): (s: string)
    ensures |s| > 0
    ensures forall i :: 0 <= i < |s| ==> IsDigit(s[i])
    ensures |s| > 1 ==> s[0] != '0'
  {
    if n < 10 then [DigitChar(n)] else NatToString(n / 10) + [DigitChar(n % 10)]
  }

  /** `str(n)` for an integer `n`, as written when the digit bound allows. */
  function IntToString(n: int): string
  {
    if n < 0 then "-" + NatToString(-n) else NatToString(n)
  }

  function Abs(n: int): nat { if n < 0 then -n else n }

  /** `str(n)` and `int()` of its text are within the digit bound. */
  predicate FitsStrDigits(n: int)
  {
    |NatToString(Abs(n))| <= MaxStrDigits
  }

  function Pow10(k: nat): nat
  {
    if k == 0 then 1 else 10 * Pow10(k - 1)
  }

  /** The digits of `str(n)` denote `n`. */
  lemma {:induction false} NatToStringValue(n: nat)
    ensures DigitsValue(NatToString(n)) == n
  {
    var s := NatToString(n);
    if n >= 10 {
      NatToStringValue(n / 10);
      assert s[..|s| - 1] == NatToString(n / 10);
    }
  }

  /** `str(n)` holds no whitespace, no comma and no quote: it is a sign and digits. */
  lemma IntToStringChars(n: int)
    ensures forall i :: 0 <= i < |IntToString(n)| ==>
      IsDigit(IntToString(n)[i]) || (i == 0 && IntToString(n)[i] == '-')
  {
  }

  /** `str(n)` starts with a sign or a digit and ends with a digit, so
      neither `strip()` nor `int()` cuts anything off it. */
  lemma IntToStringStripped(n: int)
    ensures Strip(IntToString(n)) == IntToString(n)
    ensures NumberText(IntToString(n)) == IntToString(n)
  {
    var s := IntToString(n);
    assert IsDigit(s[|s| - 1]);
    assert IsDigit(s[0]) || s[0] == '-';
    TrimNoSpaceEnds(s, IsSpace);
    TrimNoSpaceEnds(s, IsNumberSpace);
  }

  /** Every character `str(n)` writes for a natural number is a digit. */
  lemma {:induction false} NatToStringDigitCount(n: nat)
    ensures DigitCount(NatToString(n)) == |NatToString(n)|
  {
    var s := NatToString(n);
    if n >= 10 {
      NatToStringDigitCount(n / 10);
      assert s[..|s| - 1] == NatToString(n / 10);
    }
  }

  /** `int(str(n)) == n` within the digit bound; past it `int()` refuses the
      text `str()` would have written. */
  lemma IntToStringRoundTrip(n: int)
    ensures FitsStrDigits(n) ==> ParseInt(IntToString(n)) == Some(n)
    ensures !FitsStrDigits(n) ==> ParseInt(IntToString(n)) == None
  {
    IntToStringStripped(n);
    var s := IntToString(n);
    var m := Abs(n);
    NatToStringValue(m);
    NatToStringDigitCount(m);
    if n < 0 {
      assert s[1..] == NatToString(m);
    }
  }

  /** A digit part denotes less than ten to the number of its digits. */
  lemma {:induction false} DigitsValueBound(s: string)
    requires forall i :: 0 <= i < |s| ==> IsDigit(s[i]) || s[i] == '_'
    ensures DigitsValue(s) < Pow10(DigitCount(s))
    decreases |s|
  {
    if s != [] {
      DigitsValueBound(s[..|s| - 1]);
    }
  }

  /** A number below ten to the `k` is written with at most `k` digits. */
  lemma {:induction false} NatToStringLength(n: nat, k: nat)
    requires 1 <= k && n < Pow10(k)
    ensures |NatToString(n)| <= k
  {
    if n >= 10 {
      assert k >= 2;
      assert n / 10 < Pow10(k - 1);
      NatToStringLength(n / 10, k - 1);
    }
  }

  /** Every integer `int()` returns can be written back by `str()`. */
  lemma ParsedIntFits(text: string)
    requires ParseInt(text).Some?
    ensures FitsStrDigits(ParseInt(text).value)
  {
    var t := NumberText(text);
    var d := if |t| > 0 && IsSign(t[0]) then t[1..] else t;
    assert ParseDigits(d).Some?;
    var k := DigitCount(d);
    DigitsValueBound(d);
    NatToStringLength(DigitsValue(d), k);
    assert Abs(ParseInt(text).value) == DigitsValue(d);
  }

  /** The index of the first exponent letter `e` or `E`, or `|s|`. */
  function IndexOfExponent(s: string): (i: nat)
    ensures i <= |s|
    ensures forall k :: 0 <= k < i ==> s[k] != 'e' && s[k] != 'E'
    ensures i < |s| ==> s[i] == 'e' || s[i] == 'E'
  {
    if s == [] || s[0] == 'e' || s[0] == 'E' then 0 else 1 + IndexOfExponent(s[1..])
  }

  /** `number ::= [digitpart] "." digitpart | digitpart ["."]`. */
  predicate IsNumber(s: string)
  {
    var d := IndexOf(s, '.');
    if d == |s| then IsDigitPart(s)
    else
      var whole, fraction := s[..d], s[d + 1..];
      && (whole == [] || IsDigitPart(whole))
      && (fraction == [] || IsDigitPart(fraction))
      && (whole != [] || fraction != [])
  }

  /** `exponent ::= ("e" | "E") [sign] digitpart`, the letter already read. */
  predicate IsExponentDigits(s: string)
  {
    if |s| > 0 && IsSign(s[0]) then IsDigitPart(s[1..]) else IsDigitPart(s)
  }

  /** `floatnumber ::= number [exponent]`. */
  predicate IsFloatNumber(s: string)
  {
    var e := IndexOfExponent(s);
    IsNumber(s[..e]) && (e == |s| || IsExponentDigits(s[e + 1..]))
  }

  /** ASCII lower-casing, enough to compare with "inf", "infinity" and "nan". */
  function Lower(s: string): (r: string)
    ensures |r| == |s|
  {
    if s == [] then []
    else [if 'A' <= s[0] <= 'Z' then (s[0] as int + 32) as char else s[0]] + Lower(s[1..])
  }

  /** The texts `float(text)` accepts: surrounding whitespace, an optional sign,
      then a float number or, in any letter case, `inf`, `infinity` or `nan`. */
  predicate IsFloatText(text: string)
  {
    IsFloatLiteral(NumberText(text))
  }

  /** `float()` once the whitespace around the text is gone. */
  predicate IsFloatLiteral(t: string)
  {
    var u := if |t| > 0 && IsSign(t[0]) then t[1..] else t;
    IsFloatNumber(u) || Lower(u) in ["inf", "infinity", "nan"]
  }
}
