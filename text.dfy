/**
  String helpers shared by the file-naming and configuration code:
  ASCII case mapping, prefix/suffix tests, `rpartition`, `find`,
  zero-padded decimal formatting and decimal parsing.
  Python's case mapping is Unicode-wide; this model covers ASCII only.
 */
module Text {

  predicate IsUpper(c: char) { 'A' <= c <= 'Z' }

  predicate IsLowerLetter(c: char) { 'a' <= c <= 'z' }

  function LowerChar(c: char): char
  {
    if IsUpper(c) then (c as int + 32) as char else c
  }

  function UpperChar(c: char): char
  {
    if IsLowerLetter(c) then (c as int - 32) as char else c
  }

  /** `str.lower()` restricted to ASCII letters. */
  function Lower(s: string): string
  {
    seq(|s|, i requires 0 <= i < |s| => LowerChar(s[i]))
  }

  /** `str.capitalize()`: first character upper-cased, the rest lower-cased. */
  function Capitalize(s: string): string
  {
    if s == [] then [] else [UpperChar(s[0])] + Lower(s[1..])
  }

  /** Two strings that `Lower` maps to the same text differ only in letter case. */
  predicate EqualsIgnoringCase(a: string, b: string)
  {
    Lower(a) == Lower(b)
  }

  lemma LowerIdempotent(s: string)
    ensures Lower(Lower(s)) == Lower(s)
  {
  }

  /** Lower-casing keeps every character that is not an upper-case letter. */
  lemma LowerKeepsNonLetters(s: string, c: char)
    requires !IsUpper(c) && !IsLowerLetter(c)
    ensures c in Lower(s) <==> c in s
  {
    if c in s {
      var i :| 0 <= i < |s| && s[i] == c;
      assert Lower(s)[i] == c;
    }
  }

  /** `Capitalize` only looks at the lower-cased text, and lower-cases back to it. */
  lemma CapitalizeDependsOnlyOnCase(s: string)
    ensures Capitalize(Lower(s)) == Capitalize(s)
    ensures Lower(Capitalize(s)) == Lower(s)
  {
    if s != [] {
      assert Lower(s)[1..] == Lower(s[1..]);
      LowerIdempotent(s[1..]);
    }
  }

  /**
    For a word already in capitalized form (such as "Monday"), capitalizing
    a label yields the word exactly when the label spells it in any casing.
   */
  lemma CapitalizeMatches(raw: string, word: string)
    requires Capitalize(word) == word
    ensures Capitalize(raw) == word <==> EqualsIgnoringCase(raw, word)
  {
    CapitalizeDependsOnlyOnCase(raw);
    CapitalizeDependsOnlyOnCase(word);
    if EqualsIgnoringCase(raw, word) {
      calc {
        Capitalize(raw);
        Capitalize(Lower(raw));
        Capitalize(Lower(word));
        Capitalize(word);
      }
    }
  }

  /** A text that equals a capitalized word up to letter case starts with a letter, not a digit. */
  lemma SameCaseInitialNotDigit(a: string, w: string)
    requires EqualsIgnoringCase(a, w) && w != [] && IsUpper(w[0])
    ensures a != [] && !IsDigit(a[0])
  {
    assert |Lower(a)| == |Lower(w)|;
    assert Lower(a)[0] == Lower(w)[0];
  }

  predicate StartsWith(s: string, prefix: string)
  {
    |prefix| <= |s| && s[..|prefix|] == prefix
  }

  /** `str.endswith(suffix)`; every string ends with the empty suffix. */
  predicate EndsWith(s: string, suffix: string)
  {
    |suffix| <= |s| && s[|s| - |suffix|..] == suffix
  }

  /** `s.rpartition(c)[-1]`: the text after the last `c`, or all of `s` when `c` is absent. */
  function AfterLast(s: string, c: char): (r: string)
    ensures |r| <= |s| && r == s[|s| - |r|..]
    ensures c !in r
    ensures |r| < |s| ==> s[|s| - |r| - 1] == c
    ensures |r| == |s| <==> c !in s
  {
    if s == [] then []
    else if s[|s| - 1] == c then []
    else AfterLast(s[..|s| - 1], c) + [s[|s| - 1]]
  }

  /** Whatever precedes the last `c`, the text after it is what follows it. */
  lemma {:induction false} AfterLastOfJoin(prefix: string, c: char, tail: string)
    requires c !in tail
    ensures AfterLast(prefix + [c] + tail, c) == tail
    decreases |tail|
  {
    if tail != [] {
      var s := prefix + [c] + tail;
      assert s[..|s| - 1] == prefix + [c] + tail[..|tail| - 1];
      AfterLastOfJoin(prefix, c, tail[..|tail| - 1]);
    }
  }

  /** `s.rpartition(c)[0]`: the text before the last `c`, or "" when `c` is absent. */
  function BeforeLast(s: string, c: char): (r: string)
    ensures c in s ==> s == r + [c] + AfterLast(s, c)
    ensures c !in s ==> r == []
  {
    if c in s then s[..|s| - |AfterLast(s, c)| - 1] else []
  }

  /** `s.find(c)`: the index of the first `c`, or -1. */
  function Find(s: string, c: char): (r: int)
    ensures -1 <= r < |s|
    ensures r == -1 <==> c !in s
    ensures r >= 0 ==> s[r] == c && c !in s[..r]
  {
    if s == [] then -1
    else if s[0] == c then 0
    else
      var k := Find(s[1..], c);
      assert s[1..][..if k < 0 then 0 else k] == s[1..if k < 0 then 1 else k + 1];
      if k < 0 then -1 else k + 1
  }

  function DigitChar(d: nat): char
    requires d < 10
  {
    ('0' as int + d) as char
  }

  predicate IsDigit(c: char) { '0' <= c <= '9' }

  /** The decimal digits of `n`, without leading zeros. */
  function Digits(n: nat): (r: string)
    ensures |r| >= 1
    ensures forall i :: 0 <= i < |r| ==> IsDigit(r[i])
    decreases n
  {
    if n < 10 then [DigitChar(n)] else Digits(n / 10) + [DigitChar(n % 10)]
  }

  /** The value of a string of decimal digits (`int(s)`, ASCII digits only). */
  function ParseDigits(s: string): nat
    requires forall i :: 0 <= i < |s| ==> IsDigit(s[i])
  {
    if s == [] then 0
    else
      assert IsDigit(s[|s| - 1]);
      10 * ParseDigits(s[..|s| - 1]) + (s[|s| - 1] as int - '0' as int)
  }

  lemma {:induction false} ParseDigitsOfDigits(n: nat)
    ensures ParseDigits(Digits(n)) == n
    decreases n
  {
    if n >= 10 {
      var d := Digits(n);
      assert d[..|d| - 1] == Digits(n / 10);
      ParseDigitsOfDigits(n / 10);
    }
  }

  function Zeros(k: nat): (r: string)
    ensures |r| == k
    ensures forall i :: 0 <= i < k ==> r[i] == '0'
  {
    if k == 0 then [] else "0" + Zeros(k - 1)
  }

  /** `%0<width>d` for a non-negative value. */
  function ZeroPad(n: nat, width: nat): (r: string)
  {
    var d := Digits(n);
    if |d| < width then Zeros(width - |d|) + d else d
  }

  /** The number of digits of `n` is at most `w` when `n < 10^w`. */
  lemma {:induction false} DigitsLength(n: nat, w: nat)
    requires 1 <= w && n < Pow10(w)
    ensures |Digits(n)| <= w
    decreases w
  {
    if n >= 10 {
      assert n / 10 < Pow10(w - 1);
      DigitsLength(n / 10, w - 1);
    }
  }

  /** A value with `w` digits (`10^(w-1) <= n < 10^w`) is written with exactly `w` digits. */
  lemma {:induction false} DigitsLengthExactly(n: nat, w: nat)
    requires 1 <= w && Pow10(w - 1) <= n < Pow10(w)
    ensures |Digits(n)| == w
    decreases w
  {
    if w > 1 {
      assert n >= 10 by { Pow10AtLeastTen(w - 1); }
      assert Pow10(w - 2) <= n / 10 < Pow10(w - 1);
      DigitsLengthExactly(n / 10, w - 1);
    } else {
      DigitsLength(n, w);
    }
  }

  lemma {:induction false} Pow10AtLeastTen(k: nat)
    requires k >= 1
    ensures Pow10(k) >= 10
  {
    if k > 1 {
      Pow10AtLeastTen(k - 1);
    }
  }

  function Pow10(w: nat): nat
  {
    if w == 0 then 1 else 10 * Pow10(w - 1)
  }

  lemma ZeroPadLength(n: nat, w: nat)
    requires 1 <= w && n < Pow10(w)
    ensures |ZeroPad(n, w)| == w
  {
    DigitsLength(n, w);
  }

  /** Leading zeros do not change the value of a string of digits. */
  lemma {:induction false} ParseDigitsLeadingZeros(k: nat, d: string)
    requires forall i :: 0 <= i < |d| ==> IsDigit(d[i])
    ensures forall i :: 0 <= i < |Zeros(k) + d| ==> IsDigit((Zeros(k) + d)[i])
    ensures ParseDigits(Zeros(k) + d) == ParseDigits(d)
    decreases |d|, k
  {
    var s := Zeros(k) + d;
    if d != [] {
      assert s[..|s| - 1] == Zeros(k) + d[..|d| - 1];
      ParseDigitsLeadingZeros(k, d[..|d| - 1]);
    } else if k != 0 {
      assert s == Zeros(k);
      assert s[..|s| - 1] == Zeros(k - 1) + d;
      ParseDigitsLeadingZeros(k - 1, d);
    }
  }

  /** `%0<width>d` gives back its value when read as `int`, and is made of digits only. */
  lemma ParseDigitsOfZeroPad(n: nat, width: nat)
    ensures forall i :: 0 <= i < |ZeroPad(n, width)| ==> IsDigit(ZeroPad(n, width)[i])
    ensures ParseDigits(ZeroPad(n, width)) == n
  {
    var d := Digits(n);
    ParseDigitsOfDigits(n);
    if |d| < width {
      ParseDigitsLeadingZeros(width - |d|, d);
    }
  }

  /** Formatting of an integer field that may in principle be negative. */
  function Decimal(v: int, width: nat): string
  {
    if v < 0 then "-" + ZeroPad(-v, width) else ZeroPad(v, width)
  }
}
