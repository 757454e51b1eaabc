/** Which strings Python's `float()` accepts, and the whitespace rules of
    `str.strip()`. Only acceptance is modelled: the numeric value a sample
    denotes never matters to the acquisition logic, only whether `float()`
    raises on it. */
module FloatSyntax {

  /** `str.isspace()` for one character. */
  predicate IsSpace(c: char)
  {
    var n := c as int;
    (0x09 <= n <= 0x0D) || (0x1C <= n <= 0x20) || n == 0x85 || n == 0xA0 || n == 0x1680
    || (0x2000 <= n <= 0x200A) || n == 0x2028 || n == 0x2029 || n == 0x202F || n == 0x205F
    || n == 0x3000
  }

  /** A string that `strip()` reduces to the empty string. */
  predicate IsBlank(s: string)
  {
    forall i :: 0 <= i < |s| ==> IsSpace(s[i])
  }

  function StripLeft(s: string): (r: string)
    ensures r == [] || !IsSpace(r[0])
    ensures r == [] <==> IsBlank(s)
  {
    if s != [] && IsSpace(s[0]) then StripLeft(s[1..]) else s
  }

  function StripRight(s: string): (r: string)
    ensures r == [] <==> IsBlank(s)
  {
    if s != [] && IsSpace(s[|s| - 1]) then StripRight(s[..|s| - 1]) else s
  }

  /** `str.strip()` with no argument; `float()` strips the same way. */
  function Strip(s: string): (r: string)
    ensures r == [] <==> IsBlank(s)
  {
    StripRight(StripLeft(s))
  }

  predicate IsDigit(c: char)
  {
    '0' <= c <= '9'
  }

  /** `digit (["_"] digit)*`: digits, single underscores between them. */
  predicate IsDigitPart(s: string)
    decreases |s|
  {
    |s| > 0 && IsDigit(s[0])
    && (|s| == 1 || (if s[1] == '_' then IsDigitPart(s[2..]) else IsDigitPart(s[1..])))
  }

  /** Index of the first occurrence of `a` or `b` in `s`. */
  function IndexOf(s: string, a: char, b: char): (r: int)
    ensures -1 <= r < |s|
    ensures r >= 0 ==> (s[r] == a || s[r] == b)
    ensures forall j :: 0 <= j < |s| && (r < 0 || j < r) ==> s[j] != a && s[j] != b
  {
    if s == [] then -1
    else if s[0] == a || s[0] == b then 0
    else
      var k := IndexOf(s[1..], a, b);
      if k < 0 then -1 else k + 1
  }

  function Lower(s: string): string
  {
    if s == [] then ""
    else [if 'A' <= s[0] <= 'Z' then (s[0] as int + 32) as char else s[0]] + Lower(s[1..])
  }

  /** `[digitpart] "." digitpart | digitpart ["."]` */
  predicate IsNumber(s: string)
  {
    var dot := IndexOf(s, '.', '.');
    if dot < 0 then IsDigitPart(s)
    else
      var whole, fraction := s[..dot], s[dot + 1..];
      ((whole == [] || IsDigitPart(whole)) && IsDigitPart(fraction))
      || (IsDigitPart(whole) && fraction == [])
  }

  function Unsigned(s: string): string
  {
    if |s| > 0 && (s[0] == '+' || s[0] == '-') then s[1..] else s
  }

  /** `number [("e" | "E") [sign] digitpart]` */
  predicate IsFloatNumber(s: string)
  {
    var e := IndexOf(s, 'e', 'E');
    if e < 0 then IsNumber(s) else IsNumber(s[..e]) && IsDigitPart(Unsigned(s[e + 1..]))
  }

  /** `[sign] (floatnumber | "inf" | "infinity" | "nan")`, the words in any case. */
  predicate IsFloatValue(s: string)
  {
    var u := Unsigned(s);
    var w := Lower(u);
    w == "inf" || w == "infinity" || w == "nan" || IsFloatNumber(u)
  }

  /** `float(token)` returns instead of raising `ValueError`; surrounding
      whitespace is allowed. */
  predicate IsFloat(token: string)
  {
    IsFloatValue(Strip(token))
  }

  lemma {:induction false} LowerLength(s: string)
    ensures |Lower(s)| == |s|
  {
    if s != [] {
      LowerLength(s[1..]);
    }
  }

  /** `float()` raises on a blank string, so every accepted token is non-blank. */
  lemma FloatIsNotBlank(token: string)
    requires IsFloat(token)
    ensures !IsBlank(token)
  {
    var s := Strip(token);
    if s == [] {
      var u := Unsigned(s);
      LowerLength(u);
      assert IndexOf(u, 'e', 'E') < 0 && IndexOf(u, '.', '.') < 0;
      assert !IsDigitPart(u);
      assert false;
    }
  }

  /** A one-digit decimal such as `1.0` or `3.3` is accepted. */
  lemma ShortDecimal(x: char, y: char)
    requires IsDigit(x) && IsDigit(y)
    ensures IsFloat([x, '.', y])
  {
    var s := [x, '.', y];
    assert StripLeft(s) == s;
    assert StripRight(s) == s;
    assert Unsigned(s) == s;
    assert IndexOf(s, 'e', 'E') == -1;
    assert IndexOf(s, '.', '.') == 1;
    assert s[..1] == [x] && s[2..] == [y];
    assert IsDigitPart([x]) && IsDigitPart([y]);
  }
}
