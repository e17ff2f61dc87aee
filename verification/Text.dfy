/** Strings: concatenation of pieces, decimal numerals, and the options shared by the modules. */
module Text {

  datatype Option<+T> = None | Some(value: T)

  function Min(a: nat, b: nat): nat { if a <= b then a else b }

  /** `"".join(pieces)`. */
  function Concat(pieces: seq<string>): string {
    if pieces == [] then "" else pieces[0] + Concat(pieces[1..])
  }

  // Facts about sequences, kept apart because they are costly inside larger proofs.

  lemma Regroup<T>(x: seq<T>, y: seq<T>, z: seq<T>)
    ensures x + (y + z) == (x + y) + z
  {
  }

  lemma Append<T>(a: seq<T>, b: seq<T>)
    requires a != []
    ensures (a + b)[0] == a[0] && (a + b)[1..] == a[1..] + b
  {
  }

  lemma AppendLast<T>(a: seq<T>, b: seq<T>)
    requires b != []
    ensures (a + b)[|a + b| - 1] == b[|b| - 1] && (a + b)[..|a + b| - 1] == a + b[..|b| - 1]
  {
  }

  lemma Prefix<T>(a: seq<T>, b: seq<T>, k: nat)
    requires k <= |a|
    ensures (a + b)[..k] == a[..k]
  {
  }

  lemma ConcatUnfolds(pieces: seq<string>)
    requires pieces != []
    ensures Concat(pieces) == pieces[0] + Concat(pieces[1..])
  {
  }

  lemma {:induction false} ConcatAppend(a: seq<string>, b: seq<string>)
    ensures Concat(a + b) == Concat(a) + Concat(b)
  {
    if a == [] {
      assert a + b == b;
    } else {
      hide Concat;
      ConcatAppend(a[1..], b);
      ConcatUnfolds(a);
      ConcatUnfolds(a + b);
      Append(a, b);
      Regroup(a[0], Concat(a[1..]), Concat(b));
    }
  }

  /** The label that stands for the value of an environment variable. */
  function EnvLabel(env: string): string { "${" + env + "}" }

  // ---------------------------------------------------------------- decimal numerals

  function Digit(d: int): char
    requires 0 <= d < 10
  {
    "0123456789"[d]
  }

  /** `str(n)`. */
  function Decimal(n: nat): (s: string)
    ensures s != ""
  {
    if n < 10 then [Digit(n)] else Decimal(n / 10) + [Digit(n % 10)]
  }

  lemma LastDigit(n: nat)
    ensures var s := Decimal(n);
            && s[|s| - 1] == Digit(n % 10)
            && (10 <= n ==> s[..|s| - 1] == Decimal(n / 10))
            && (10 <= n <==> |s| > 1)
  {
  }

  lemma SameDigit(a: int, b: int)
    requires 0 <= a < 10 && 0 <= b < 10 && Digit(a) == Digit(b)
    ensures a == b
  {
  }

  lemma {:induction false} DecimalInjective(m: nat, n: nat)
    requires Decimal(m) == Decimal(n)
    ensures m == n
  {
    LastDigit(m);
    LastDigit(n);
    SameDigit(m % 10, n % 10);
    if 10 <= m && 10 <= n {
      DecimalInjective(m / 10, n / 10);
    }
  }

  lemma {:induction false} DecimalDigits(n: nat, c: char)
    requires c in Decimal(n)
    ensures '0' <= c <= '9'
  {
    if 10 <= n && c in Decimal(n / 10) {
      DecimalDigits(n / 10, c);
    }
  }

  /** A numeral read digit by digit, by the distance of each character from '0'. */
  function Value(s: string): int {
    if s == "" then 0 else 10 * Value(s[..|s| - 1]) + (s[|s| - 1] as int - '0' as int)
  }

  /** The decimal numeral of a number: digits only, no leading zero, and the number's value. */
  predicate Numeral(s: string, n: nat) {
    && s != "" && (forall i | 0 <= i < |s| :: '0' <= s[i] <= '9')
    && (s[0] == '0' ==> |s| == 1)
    && Value(s) == n
  }

  lemma DigitValue(d: int)
    requires 0 <= d < 10
    ensures Digit(d) as int - '0' as int == d
  {
  }

  lemma {:induction false} DecimalIsNumeral(n: nat)
    ensures Numeral(Decimal(n), n)
  {
    LastDigit(n);
    DigitValue(n % 10);
    if 10 <= n {
      DecimalIsNumeral(n / 10);
      MoreDigits(Decimal(n / 10), n / 10, n % 10);
    } else {
      OneDigit(Decimal(n));
    }
  }

  /** One more digit behind a numeral of a positive number. */
  lemma MoreDigits(s: string, n: nat, d: nat)
    requires Numeral(s, n) && n > 0 && d < 10
    ensures Numeral(s + [Digit(d)], 10 * n + d)
  {
    DigitValue(d);
    var t := s + [Digit(d)];
    assert t[..|t| - 1] == s;
    if s[0] == '0' {
      OneDigit(s);
    }
  }

  lemma OneDigit(s: string)
    requires |s| == 1
    ensures Value(s) == s[0] as int - '0' as int
  {
    assert s[..0] == "";
  }

  /** A signed numeral: a minus sign before the numeral of a negative number's amount. */
  predicate SignedNumeral(s: string, n: int) {
    if n < 0 then s != "" && s[0] == '-' && Numeral(s[1..], -n) else Numeral(s, n)
  }
}
