/**
 * The C-string operations the rebuild tool applies to attribute text.
 * Every `char` of a string stands for one byte of the document text,
 * as the C program sees it; the text holds no NUL byte.
 */
module CText {

  /** `s[0]` on a C string: the terminating NUL when `s` is empty. */
  function FirstChar(s: string): char
  {
    if s == [] then '\0' else s[0]
  }

  /** `STARTS_WITH(s, prefix)`: a case-sensitive prefix test. */
  predicate StartsWith(s: string, prefix: string)
  {
    |prefix| <= |s| && s[..|prefix|] == prefix
  }

  /** `snprintf(buf, size, "%s", s)`: at most `size - 1` bytes of `s` fit before the NUL. */
  function Snprintf(s: string, size: nat): (r: string)
    requires size > 0
    ensures |r| <= size - 1 && r <= s
    ensures |r| == if |s| < size then |s| else size - 1
    ensures |s| < size ==> r == s
  {
    if |s| < size then s else s[..size - 1]
  }

  // ---------------------------------------------------------------------
  // atoi and "%d"
  // ---------------------------------------------------------------------

  /** `isspace` in the C locale: blank, tab, newline, vertical tab, form feed, carriage return. */
  predicate IsSpace(c: char)
  {
    c == ' ' || 9 <= c as int <= 13
  }

  predicate IsDigit(c: char)
  {
    '0' <= c <= '9'
  }

  predicate AllDigits(s: string)
  {
    forall i :: 0 <= i < |s| ==> IsDigit(s[i])
  }

  /** `s` without its leading white space: what remains starts with a byte that is not white space. */
  function SkipSpace(s: string): (t: string)
    ensures t != [] ==> !IsSpace(t[0])
  {
    if s != [] && IsSpace(s[0]) then SkipSpace(s[1..]) else s
  }

  /** Skipping white space only drops bytes from the front: what remains is a suffix of `s`. */
  lemma {:induction false} SkipSpaceSuffix(s: string)
    ensures var t := SkipSpace(s); |t| <= |s| && t == s[|s| - |t|..]
  {
    if s != [] && IsSpace(s[0]) {
      SkipSpaceSuffix(s[1..]);
    }
  }

  /** Length of the run of decimal digits that starts `s`. */
  function DigitRun(s: string): (n: nat)
    ensures n <= |s| && AllDigits(s[..n])
    ensures n < |s| ==> !IsDigit(s[n])
  {
    if s != [] && IsDigit(s[0]) then 1 + DigitRun(s[1..]) else 0
  }

  /** The value of a string of decimal digits, most significant first. */
  function DigitsValue(ds: string): nat
    requires AllDigits(ds)
  {
    if ds == [] then 0
    else DigitsValue(ds[..|ds| - 1]) * 10 + (ds[|ds| - 1] as int - '0' as int)
  }

  /**
   * `atoi(s)`: leading white space, an optional sign, then the longest run of
   * decimal digits; zero when no digit follows. C's `int` overflow is not
   * modelled (the integers here are unbounded).
   */
  function Atoi(s: string): int
  {
    var t := SkipSpace(s);
    if t != [] && (t[0] == '-' || t[0] == '+') then
      var u := t[1..];
      var m: int := DigitsValue(u[..DigitRun(u)]);
      if t[0] == '-' then -m else m
    else
      DigitsValue(t[..DigitRun(t)])
  }

  /** The decimal digits of `n`, most significant first, without leading zeros. */
  function Digits(n: nat): (ds: string)
    ensures ds != [] && AllDigits(ds)
  {
    if n < 10 then [('0' as int + n) as char]
    else Digits(n / 10) + [('0' as int + n % 10) as char]
  }

  /** `printf("%d", n)`. */
  function FormatInt(n: int): (s: string)
    ensures s != [] && !IsSpace(s[0])
  {
    if n < 0 then "-" + Digits(-n) else Digits(n)
  }

  lemma {:induction false} DigitsValueOfDigits(n: nat)
    ensures DigitsValue(Digits(n)) == n
  {
    if n >= 10 {
      var ds := Digits(n);
      assert ds[..|ds| - 1] == Digits(n / 10);
      DigitsValueOfDigits(n / 10);
    }
  }

  lemma {:induction false} DigitRunOfDigits(ds: string)
    requires AllDigits(ds)
    ensures DigitRun(ds) == |ds|
  {
    if ds != [] {
      DigitRunOfDigits(ds[1..]);
    }
  }

  /** The digit run of a printed number is the whole string, and it reads back as the number. */
  lemma DigitsRead(n: nat)
    ensures var ds := Digits(n); DigitsValue(ds[..DigitRun(ds)]) == n
  {
    var ds := Digits(n);
    DigitRunOfDigits(ds);
    assert ds[..DigitRun(ds)] == ds;
    DigitsValueOfDigits(n);
  }

  /**
   * Reading back what "%d" printed gives the number back: this is why a
   * setting whose attribute is absent keeps its current value.
   */
  lemma AtoiFormatInt(n: int)
    ensures Atoi(FormatInt(n)) == n
  {
    var s := FormatInt(n);
    assert SkipSpace(s) == s;
    if n < 0 {
      assert s[1..] == Digits(-n);
      DigitsRead(-n);
    } else {
      assert s == Digits(n) && s[0] != '-' && s[0] != '+';
      DigitsRead(n);
    }
  }
}
