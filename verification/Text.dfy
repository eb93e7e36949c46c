/** Decimal numerals, `std::stoi`, and the string facts the storage keys and the topics rest on. */
module Text {

  datatype Option<+T> = None | Some(value: T)

  predicate IsDigit(c: char) {
    '0' <= c <= '9'
  }

  predicate AllDigits(s: string) {
    forall i :: 0 <= i < |s| ==> IsDigit(s[i])
  }

  predicate Free(s: string, c: char) {
    forall i :: 0 <= i < |s| ==> s[i] != c
  }

  predicate SlashFree(s: string) {
    Free(s, '/')
  }

  /** The order of `std::string`. */
  predicate Less(a: string, b: string) {
    if b == "" then false
    else if a == "" then true
    else if a[0] != b[0] then a[0] < b[0]
    else Less(a[1..], b[1..])
  }

  lemma {:induction false} LessIsTotal(a: string, b: string)
    ensures Less(a, b) ==> !Less(b, a)
    ensures a == b || Less(a, b) || Less(b, a)
  {
    if a == "" || b == "" || a[0] != b[0] {
    } else {
      LessIsTotal(a[1..], b[1..]);
      assert a == [a[0]] + a[1..] && b == [b[0]] + b[1..];
    }
  }

  lemma {:induction false} LessIsTransitive(a: string, b: string, c: string)
    requires Less(a, b) && Less(b, c)
    ensures Less(a, c)
  {
    if a == "" || a[0] != b[0] || b[0] != c[0] {
    } else {
      LessIsTransitive(a[1..], b[1..], c[1..]);
    }
  }

  function Digit(d: nat): char
    requires d < 10
  {
    ('0' as int + d) as char
  }

  /** `std::to_string` of an unsigned integer. */
  function Dec(n: nat): string {
    if n < 10 then [Digit(n)] else Dec(n / 10) + [Digit(n % 10)]
  }

  function Value(s: string): (n: nat)
    requires AllDigits(s)
  {
    if s == "" then 0 else Value(s[..|s| - 1]) * 10 + (s[|s| - 1] as int - '0' as int)
  }

  lemma {:induction false} DecValue(n: nat)
    ensures AllDigits(Dec(n)) && Dec(n) != "" && Value(Dec(n)) == n
  {
    if n < 10 {
      assert Dec(n)[..0] == "";
    } else {
      DecValue(n / 10);
      assert Dec(n)[..|Dec(n)| - 1] == Dec(n / 10);
    }
  }

  lemma DecInjective(m: nat, n: nat)
    ensures Dec(m) == Dec(n) ==> m == n
  {
    DecValue(m);
    DecValue(n);
  }

  /** A separator missing from both tails splits a string in only one way, whatever the heads hold. */
  lemma SplitAtLast(a: string, b: string, c: string, d: string, sep: char)
    requires Free(b, sep) && Free(d, sep)
    requires a + [sep] + b == c + [sep] + d
    ensures a == c && b == d
  {
    var s := a + [sep] + b;
    assert s[|a|] == sep && s[|c|] == sep;
    assert forall k | |a| < k < |s| :: s[k] == b[k - |a| - 1];
    assert forall k | |c| < k < |s| :: s[k] == d[k - |c| - 1];
    assert b == s[|a| + 1..] && d == s[|c| + 1..];
    assert a == s[..|a|] && c == s[..|c|];
  }

  // ---- std::stoi -------------------------------------------------------------------

  const INT_MAX: int := 0x7FFF_FFFF
  const INT_MIN: int := -0x8000_0000

  datatype Stoi = Number(value: int) | InvalidArgument | OutOfRange

  predicate IsSpace(c: char) {
    c == ' ' || '\t' <= c <= '\r'
  }

  function SkipSpaces(s: string): string {
    if s != "" && IsSpace(s[0]) then SkipSpaces(s[1..]) else s
  }

  /** The length of the leading run of digits. */
  function DigitRun(s: string): (n: nat)
    ensures n <= |s| && AllDigits(s[..n])
    ensures n < |s| ==> !IsDigit(s[n])
  {
    if s == "" || !IsDigit(s[0]) then 0
    else
      var n := 1 + DigitRun(s[1..]);
      assert s[..n] == [s[0]] + s[1..][..n - 1];
      n
  }

  /** Leading white space, an optional sign, then the longest run of digits; what follows is ignored. */
  function ParseInt(s: string): Stoi {
    var t := SkipSpaces(s);
    var negative := t != "" && t[0] == '-';
    var u := if t != "" && (t[0] == '-' || t[0] == '+') then t[1..] else t;
    var n := DigitRun(u);
    if n == 0 then InvalidArgument
    else
      var v: int := if negative then -(Value(u[..n]) as int) else Value(u[..n]);
      if INT_MIN <= v <= INT_MAX then Number(v) else OutOfRange
  }

  lemma {:induction false} SkipsAllSpaces(spaces: string, t: string)
    requires forall i :: 0 <= i < |spaces| ==> IsSpace(spaces[i])
    requires t == "" || !IsSpace(t[0])
    ensures SkipSpaces(spaces + t) == t
  {
    if spaces == "" {
      assert spaces + t == t;
    } else {
      assert (spaces + t)[1..] == spaces[1..] + t;
      SkipsAllSpaces(spaces[1..], t);
    }
  }

  lemma DigitRunOf(digits: string, rest: string)
    requires AllDigits(digits) && (rest == "" || !IsDigit(rest[0]))
    ensures DigitRun(digits + rest) == |digits|
  {
    var s := digits + rest;
    var n := DigitRun(s);
    assert forall i :: 0 <= i < |digits| ==> s[i] == digits[i];
    assert rest != "" ==> s[|digits|] == rest[0];
    assert forall i :: 0 <= i < n ==> s[..n][i] == s[i];
  }

  /** White space, a sign if there is one, digits if there are any, and the rest: every text is of this form. */
  lemma ParseIntReads(spaces: string, sign: string, digits: string, rest: string)
    requires forall i :: 0 <= i < |spaces| ==> IsSpace(spaces[i])
    requires sign == "" || sign == "+" || sign == "-"
    requires AllDigits(digits) && (rest == "" || !IsDigit(rest[0]))
    requires sign == "" && digits == "" && rest != "" ==> !IsSpace(rest[0]) && rest[0] != '+' && rest[0] != '-'
    ensures var v: int := if sign == "-" then -(Value(digits) as int) else Value(digits);
      ParseInt(spaces + (sign + (digits + rest))) ==
        if digits == "" then InvalidArgument else if INT_MIN <= v <= INT_MAX then Number(v) else OutOfRange
  {
    var u := digits + rest;
    var t := sign + u;
    assert digits != "" ==> u[0] == digits[0] && IsDigit(u[0]);
    assert sign == "" ==> t == u;
    assert sign != "" ==> t[0] == sign[0] && t[1..] == u;
    SkipsAllSpaces(spaces, t);
    DigitRunOf(digits, rest);
    assert u[..|digits|] == digits;
  }

  /** Printing a number and reading it back with `std::stoi` is the identity. */
  lemma ParseIntOfDec(n: nat)
    requires n <= INT_MAX
    ensures ParseInt(Dec(n)) == Number(n)
  {
    DecValue(n);
    var s := Dec(n);
    assert IsDigit(s[0]);
    assert SkipSpaces(s) == s;
    assert DigitRun(s) == |s|;
    assert s[..|s|] == s;
  }
}
