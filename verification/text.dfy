/** The string operations of the Python runtime the connector relies on:
    slicing a prefix, `int()` of a string, `str()` of an int, and
    `str.lower()`, each modelled on ASCII text. */
module Text {
  import opened Wrappers

  predicate IsDigit(c: char) {
    '0' <= c <= '9'
  }

  predicate IsUpper(c: char) {
    'A' <= c <= 'Z'
  }

  /** The characters Python's `int()` ignores at both ends of an ASCII
      argument: space, tab, newline, vertical tab, form feed and carriage
      return. The separators `\x1c`-`\x1f`, which `str.isspace()` accepts,
      are not among them. */
  predicate IsSpace(c: char) {
    c == ' ' || c == '\t' || c == '\n' || c == '\r' || c == '\U{B}' || c == '\U{C}'
  }

  /** Python's `s[:n]`: the first `n` characters, or all of `s` when shorter. */
  function Prefix(s: string, n: nat): (r: string)
    ensures |r| == if |s| < n then |s| else n
    ensures r <= s
  {
    if |s| < n then s else s[..n]
  }

  // ---------------------------------------------------------------------
  // Decimal digits

  function DigitValue(c: char): (d: nat)
    requires IsDigit(c)
    ensures d < 10
  {
    (c - '0') as nat
  }

  function DigitChar(d: nat): (c: char)
    requires d < 10
    ensures IsDigit(c) && DigitValue(c) == d
  {
    ('0' as int + d) as char
  }

  predicate AllDigits(s: string) {
    forall i :: 0 <= i < |s| ==> IsDigit(s[i])
  }

  /** The number a string of decimal digits denotes, most significant first. */
  function DigitsValue(s: string): nat
    requires AllDigits(s)
  {
    if |s| == 0 then 0
    else DigitsValue(s[..|s| - 1]) * 10 + DigitValue(s[|s| - 1])
  }

  /** Python's `str(n)` for a natural number: its decimal digits without
      leading zeros. */
  function FormatNat(n: nat): (r: string)
    ensures |r| > 0 && AllDigits(r)
    ensures n < 10 <==> |r| == 1
    ensures |r| > 1 ==> r[0] != '0'
  {
    if n < 10 then [DigitChar(n)] else FormatNat(n / 10) + [DigitChar(n % 10)]
  }

  /** Python's `str(i)` for any integer. */
  function FormatInt(i: int): (r: string)
    ensures i >= 0 ==> AllDigits(r)
    ensures i < 0 ==> |r| > 1 && r[0] == '-' && AllDigits(r[1..])
  {
    if i >= 0 then FormatNat(i) else "-" + FormatNat(-i)
  }

  /** Reading back the digits `str(n)` produces yields `n`. */
  lemma {:induction false} FormatNatValue(n: nat)
    ensures DigitsValue(FormatNat(n)) == n
  {
    if n >= 10 {
      var r := FormatNat(n);
      var p := FormatNat(n / 10);
      assert r == p + [DigitChar(n % 10)];
      assert r[..|r| - 1] == p;
      FormatNatValue(n / 10);
    }
  }

  /** `str(n)` has four characters exactly for the four-digit numbers. */
  lemma {:induction false} FormatNatFourDigits(n: nat)
    requires 1000 <= n <= 9999
    ensures |FormatNat(n)| == 4
  {
    assert FormatNat(n) == FormatNat(n / 10) + [DigitChar(n % 10)];
    assert FormatNat(n / 10) == FormatNat(n / 100) + [DigitChar(n / 10 % 10)];
    assert FormatNat(n / 100) == FormatNat(n / 1000) + [DigitChar(n / 100 % 10)];
    assert |FormatNat(n / 1000)| == 1;
  }

  // ---------------------------------------------------------------------
  // Python's int() of a string, base 10

  function StripLeft(s: string): (r: string)
    ensures |r| <= |s| && r == s[|s| - |r|..]
    ensures |r| > 0 ==> !IsSpace(r[0])
  {
    if |s| > 0 && IsSpace(s[0]) then StripLeft(s[1..]) else s
  }

  function StripRight(s: string): (r: string)
    ensures |r| <= |s| && r == s[..|r|]
    ensures |r| > 0 ==> !IsSpace(r[|r| - 1])
  {
    if |s| > 0 && IsSpace(s[|s| - 1]) then StripRight(s[..|s| - 1]) else s
  }

  /** The argument of `int()` with the characters it ignores removed from
      both ends. */
  function Strip(s: string): string {
    StripRight(StripLeft(s))
  }

  /** The digit part `int()` accepts: digits, with single underscores allowed
      between two digits. */
  predicate WellFormedDigits(b: string) {
    && |b| > 0
    && IsDigit(b[0])
    && IsDigit(b[|b| - 1])
    && (forall i :: 0 <= i < |b| ==> IsDigit(b[i]) || b[i] == '_')
    && (forall i :: 0 <= i < |b| - 1 && b[i] == '_' ==> b[i + 1] != '_')
  }

  function RemoveUnderscores(b: string): (r: string)
    requires forall i :: 0 <= i < |b| ==> IsDigit(b[i]) || b[i] == '_'
    ensures AllDigits(r)
    ensures AllDigits(b) ==> r == b
  {
    if |b| == 0 then []
    else (if b[0] == '_' then [] else [b[0]]) + RemoveUnderscores(b[1..])
  }

  /** Python's `int(s)`: `None` stands for the `ValueError` it raises. */
  function ParseInt(s: string): Option<int> {
    ParseSigned(Strip(s))
  }

  /** Removing underscores never lengthens the digit part. */
  lemma {:induction false} RemoveUnderscoresShorter(b: string)
    requires forall i :: 0 <= i < |b| ==> IsDigit(b[i]) || b[i] == '_'
    ensures |RemoveUnderscores(b)| <= |b|
  {
    if |b| > 0 {
      RemoveUnderscoresShorter(b[1..]);
    }
  }

  /** `int()` reads a plain run of decimal digits as the number it denotes. */
  lemma ParseIntDigits(s: string)
    requires |s| > 0 && AllDigits(s)
    ensures ParseInt(s) == Some(DigitsValue(s))
  {
    DigitsUnstripped(s);
    ParseSignedUnsigned(s);
    ParseDigitsPlain(s);
  }

  /** Text that starts with a digit has no sign for `int()` to read. */
  lemma ParseSignedUnsigned(t: string)
    requires |t| > 0 && IsDigit(t[0])
    ensures ParseSigned(t) == ParseDigits(t)
  {
    assert t[0] != '-' && t[0] != '+';
  }

  lemma ParseDigitsPlain(s: string)
    requires |s| > 0 && AllDigits(s)
    ensures ParseDigits(s) == Some(DigitsValue(s) as int)
  {
    assert WellFormedDigits(s);
    assert RemoveUnderscores(s) == s;
  }

  /** `int()` after stripping: an optional sign, then the digit part. */
  function ParseSigned(t: string): Option<int> {
    if |t| > 0 && t[0] == '-' then Negate(ParseDigits(t[1..]))
    else if |t| > 0 && t[0] == '+' then ParseDigits(t[1..])
    else ParseDigits(t)
  }

  function Negate(o: Option<int>): Option<int> {
    match o
    case None => None
    case Some(v) => Some(-v)
  }

  /** The unsigned digit part, underscores between digits ignored. */
  function ParseDigits(b: string): Option<int> {
    if WellFormedDigits(b) then Some(DigitsValue(RemoveUnderscores(b)) as int) else None
  }

  lemma DigitsUnstripped(s: string)
    ensures AllDigits(s) && |s| > 0 ==> Strip(s) == s && WellFormedDigits(s)
  {
    if AllDigits(s) && |s| > 0 {
      StripUnspaced(s);
    }
  }

  lemma StripUnspaced(s: string)
    requires |s| > 0 && !IsSpace(s[0]) && !IsSpace(s[|s| - 1])
    ensures Strip(s) == s
  {
  }

  /** A character that can never appear in an argument `int()` accepts. */
  predicate Foreign(c: char) {
    !IsDigit(c) && !IsSpace(c) && c != '+' && c != '-' && c != '_'
  }

  /** `int()` rejects any string holding a character outside digits, signs,
      underscores and the whitespace it ignores. */
  lemma ParseIntRejectsForeign(s: string, k: nat)
    requires k < |s| && Foreign(s[k])
    ensures ParseInt(s) == None
  {
    var l := StripLeft(s);
    var t := StripRight(l);
    var off := |s| - |l|;
    if k < off {
      StripLeftSkipsSpaces(s, k);
      assert false;
    }
    if k - off >= |t| {
      StripRightSkipsSpaces(l, k - off);
      assert false;
    }
    assert t[k - off] == l[k - off] == s[k];
    ParseSignedRejectsForeign(t, k - off);
  }

  lemma ParseSignedRejectsForeign(t: string, j: nat)
    requires j < |t| && Foreign(t[j])
    ensures ParseSigned(t) == None
  {
    if t[0] == '-' || t[0] == '+' {
      assert t[1..][j - 1] == t[j];
      ParseDigitsRejectsForeign(t[1..], j - 1);
    } else {
      ParseDigitsRejectsForeign(t, j);
    }
  }

  lemma ParseDigitsRejectsForeign(b: string, j: nat)
    requires j < |b| && Foreign(b[j])
    ensures ParseDigits(b) == None
  {
  }

  lemma {:induction false} StripLeftSkipsSpaces(s: string, k: nat)
    requires k < |s| - |StripLeft(s)|
    ensures IsSpace(s[k])
  {
    if k > 0 {
      StripLeftSkipsSpaces(s[1..], k - 1);
    }
  }

  lemma {:induction false} StripRightSkipsSpaces(s: string, k: nat)
    requires |StripRight(s)| <= k < |s|
    ensures IsSpace(s[k])
  {
    if k < |s| - 1 {
      StripRightSkipsSpaces(s[..|s| - 1], k);
    }
  }

  /** `int()` reads back what `str()` writes, for every natural number. */
  lemma ParseIntFormatNat(n: nat)
    ensures ParseInt(FormatNat(n)) == Some(n)
  {
    FormatNatValue(n);
    ParseIntDigits(FormatNat(n));
  }

  /** `10` to the power `n`. */
  function Pow10(n: nat): (p: nat)
    ensures p >= 1
  {
    if n == 0 then 1 else 10 * Pow10(n - 1)
  }

  /** A string of `n` decimal digits denotes a number below `10^n`. */
  lemma {:induction false} DigitsValueBound(s: string)
    requires AllDigits(s)
    ensures DigitsValue(s) < Pow10(|s|)
  {
    if |s| > 0 {
      DigitsValueBound(s[..|s| - 1]);
    }
  }

  lemma {:induction false} Pow10Monotone(m: nat, n: nat)
    requires m <= n
    ensures Pow10(m) <= Pow10(n)
  {
    if m < n {
      Pow10Monotone(m, n - 1);
    }
  }

  /** The digit part of at most `n` characters denotes a number below `10^n`. */
  lemma ParseDigitsBound(b: string, n: nat)
    requires |b| <= n
    ensures ParseDigits(b).Some? ==> 0 <= ParseDigits(b).value < Pow10(n)
  {
    if WellFormedDigits(b) {
      var d := RemoveUnderscores(b);
      RemoveUnderscoresShorter(b);
      DigitsValueBound(d);
      Pow10Monotone(|d|, n);
    }
  }

  /** `int()` of at most four characters lies between -999 and 9999: a sign
      leaves room for three digits only. */
  lemma ParseIntFourChars(s: string)
    requires |s| <= 4
    ensures ParseInt(s).Some? ==> -999 <= ParseInt(s).value <= 9999
  {
    var t := Strip(s);
    assert Pow10(3) == 1000 && Pow10(4) == 10000;
    if |t| > 0 && (t[0] == '-' || t[0] == '+') {
      ParseDigitsBound(t[1..], 3);
    } else {
      ParseDigitsBound(t, 4);
    }
  }

  // ---------------------------------------------------------------------
  // Case and affixes

  /** Python's `str.lower()` on one character, for the ASCII letters. */
  function LowerChar(c: char): (d: char)
    ensures !IsUpper(d)
    ensures IsUpper(c) ==> d as int == c as int + 32
    ensures !IsUpper(c) ==> d == c
  {
    if IsUpper(c) then (c as int + 32) as char else c
  }

  /** Python's `s.lower()` for ASCII text. */
  function Lower(s: string): (r: string)
    ensures |r| == |s|
    ensures forall i :: 0 <= i < |s| ==> r[i] == LowerChar(s[i])
  {
    seq(|s|, i requires 0 <= i < |s| => LowerChar(s[i]))
  }

  /** Lower-casing leaves no upper-case letter and is idempotent. */
  lemma LowerIsLower(s: string)
    ensures forall i :: 0 <= i < |Lower(s)| ==> !IsUpper(Lower(s)[i])
    ensures Lower(Lower(s)) == Lower(s)
  {
  }

  /** `s` with the leading `prefix` removed, if it starts with it. */
  function StripPrefix(s: string, prefix: string): (r: Option<string>)
    ensures r.Some? <==> prefix <= s
    ensures r.Some? ==> s == prefix + r.value
  {
    if prefix <= s then Some(s[|prefix|..]) else None
  }

  /** `s` with the trailing `suffix` removed, if it ends with it. */
  function StripSuffix(s: string, suffix: string): (r: Option<string>)
    ensures r.Some? <==> |suffix| <= |s| && s[|s| - |suffix|..] == suffix
    ensures r.Some? ==> s == r.value + suffix
  {
    if |suffix| <= |s| && s[|s| - |suffix|..] == suffix then Some(s[..|s| - |suffix|]) else None
  }
}
