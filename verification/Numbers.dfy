/** Printing and reading numbers (kernel/utils.c). */
module Numbers {
  import opened Common

  const NUL: char := '\0'

  type Base = b: nat | 2 <= b <= 16 witness 10

  // ----- digits -----

  function Power(base: Base, k: nat): (p: nat)
    ensures p > 0
  {
    if k == 0 then 1 else Power(base, k - 1) * base
  }

  /** The last `width` digits, leading zeros included. */
  function Padded(num: nat, base: Base, width: nat): (ds: seq<nat>)
    ensures |ds| == width
    ensures forall i: nat :: i < width ==> ds[i] < base
  {
    if width == 0 then [] else Padded(num / base, base, width - 1) + [num % base]
  }

  /** The digits of a number, without leading zeros. */
  function Digits(num: nat, base: Base): (ds: seq<nat>)
    ensures ds != [] && forall i: nat :: i < |ds| ==> ds[i] < base
    ensures |ds| > 1 ==> ds[0] > 0
  {
    if num < base then [num] else Digits(num / base, base) + [num % base]
  }

  function Value(ds: seq<nat>, base: nat): nat {
    if ds == [] then 0 else Value(ds[..|ds| - 1], base) * base + ds[|ds| - 1]
  }

  lemma ValueMore(ds: seq<nat>, d: nat, base: nat)
    ensures Value(ds + [d], base) == Value(ds, base) * base + d
  {
    assert (ds + [d])[..|ds|] == ds;
  }

  lemma DivMod(n: nat, m: nat)
    requires m > 0
    ensures n == n / m * m + n % m && n % m < m
  {
  }

  lemma QuotientIsLess(n: nat, m: nat)
    requires 1 < m <= n
    ensures n / m < n
  {
    DivMod(n, m);
    TimesAtMost(2, m, n / m);
    assert n / m * 2 <= n;
  }

  lemma DigitsMore(num: nat, base: Base)
    ensures Digits(num, base) == if num < base then [num] else Digits(num / base, base) + [num % base]
  {
  }

  /** The digits say which number it is. */
  lemma {:induction false} ValueOfDigits(num: nat, base: Base)
    ensures Value(Digits(num, base), base) == num
  {
    hide Digits, Value;
    DivMod(num, base);
    DigitsMore(num, base);
    if num >= base {
      QuotientIsLess(num, base);
      ValueOfDigits(num / base, base);
      ValueMore(Digits(num / base, base), num % base, base);
    } else {
      ValueMore([], num, base);
      NoValue(base);
      assert [] + [num] == [num];
    }
  }

  lemma NoValue(base: nat)
    ensures Value([], base) == 0
  {
  }

  lemma TimesAtMost(a: nat, b: nat, m: nat)
    requires a <= b
    ensures a * m <= b * m
  {
  }

  lemma Regroup(a: nat, p: nat, b: nat, base: nat, r: nat)
    ensures (a * p + b) * base + r == a * (p * base) + (b * base + r)
  {
  }

  lemma Rejoined(num: nat, base: Base, p: nat, q: nat, r: nat, a: nat, b: nat)
    requires num == q * base + r && q == a * p + b && r < base && b < p
    ensures num == a * (p * base) + (b * base + r) && b * base + r < p * base
  {
    Regroup(a, p, b, base, r);
    TimesAtMost(b + 1, p, base);
  }

  lemma DivisionStepsFrom(num: nat, base: Base, p: nat, q: nat, r: nat, a: nat, b: nat)
    requires num == q * base + r && q == a * p + b && r < base && b < p
    ensures p * base > 0 && num / (p * base) == a && num % (p * base) == b * base + r
    ensures (b * base + r) / base == b && (b * base + r) % base == r
  {
    Rejoined(num, base, p, q, r, a, b);
    DivisionIsUnique(num, p * base, a, b * base + r);
    DivisionIsUnique(b * base + r, base, b, r);
  }

  /** Dividing in two steps, with the remainders. */
  lemma DivisionSteps(num: nat, base: Base, p: nat)
    requires p > 0
    ensures num / (p * base) == num / base / p
    ensures var rest := num % (p * base); rest / base == num / base % p && rest % base == num % base
  {
    var q, r := num / base, num % base;
    var a, b := q / p, q % p;
    DivMod(num, base);
    DivMod(q, p);
    DivisionStepsFrom(num, base, p, q, r, a, b);
  }

  lemma PaddedMore(num: nat, base: Base, k: nat)
    ensures Padded(num, base, k + 1) == Padded(num / base, base, k) + [num % base]
    ensures Power(base, k + 1) == Power(base, k) * base && Power(base, 0) == 1 && Padded(num, base, 0) == []
  {
  }

  /** Rest, first digit and remaining digits of a number of k + 1 digits. */
  ghost predicate Top(num: nat, base: Base, k: nat, first: nat, rest: nat) {
    && num / Power(base, k) == first < base && num % Power(base, k) == rest < Power(base, k)
    && Padded(num, base, k + 1) == [first] + Padded(rest, base, k)
  }

  lemma TopMore(num: nat, base: Base, k: nat, first: nat, rest: nat) returns (left: nat)
    requires Top(num / base, base, k, first, rest)
    ensures Top(num, base, k + 1, first, left)
  {
    hide Padded;
    var p := Power(base, k);
    left := num % (p * base);
    DivisionSteps(num, base, p);
    DivMod(num, p * base);
    TopDigits(num, base, k, first, rest, left);
  }

  lemma TopDigits(num: nat, base: Base, k: nat, first: nat, rest: nat, left: nat)
    requires Padded(num / base, base, k + 1) == [first] + Padded(rest, base, k)
    requires left / base == rest && left % base == num % base
    ensures Padded(num, base, k + 2) == [first] + Padded(left, base, k + 1)
  {
    hide Padded;
    PaddedMore(num, base, k + 1);
    PaddedMore(left, base, k);
  }

  /** The first digit is the quotient by the greatest power, the others those of the rest. */
  lemma {:induction false} PaddedFromTop(num: nat, base: Base, k: nat) returns (first: nat, rest: nat)
    requires num < Power(base, k + 1)
    ensures Top(num, base, k, first, rest)
  {
    hide Padded, Power, Top;
    if k > 0 {
      QuotientFits(num, base, k);
      first, rest := PaddedFromTop(num / base, base, k - 1);
      rest := TopMore(num, base, k - 1, first, rest);
    } else {
      first, rest := num, 0;
      TopOfOne(num, base);
    }
  }

  lemma QuotientFits(num: nat, base: Base, k: nat)
    requires num < Power(base, k + 1)
    ensures num / base < Power(base, k)
  {
    Quotient(num, base, Power(base, k));
  }

  lemma TopOfOne(num: nat, base: Base)
    requires num < Power(base, 1)
    ensures Top(num, base, 0, num, 0)
  {
    hide Padded;
    PaddedMore(num, base, 0);
    PaddedMore(num / base, base, 0);
    DivisionIsUnique(num, base, 0, num);
    DivisionIsUnique(num, 1, num, 0);
  }

  lemma Quotient(num: nat, base: Base, p: nat)
    requires num < p * base
    ensures num / base < p
  {
    if p <= num / base { TimesAtMost(p, num / base, base); }
  }

  /** Without leading zeros the digits are the padded ones. */
  lemma {:induction false} DigitsArePadded(num: nat, base: Base, k: nat)
    requires num < Power(base, k + 1) && (k > 0 ==> num >= Power(base, k))
    ensures Digits(num, base) == Padded(num, base, k + 1)
  {
    hide Digits, Padded, Power;
    DigitsMore(num, base);
    PaddedMore(num, base, k);
    if k > 0 {
      PaddedMore(num, base, k - 1);
      Quotient(num, base, Power(base, k));
      AtLeast(num, base, Power(base, k - 1));
      DigitsArePadded(num / base, base, k - 1);
    } else {
      PaddedMore(num / base, base, 0);
      DivisionIsUnique(num, base, 0, num);
    }
  }

  lemma AtLeast(num: nat, base: Base, p: nat)
    requires num >= p * base && p > 0
    ensures num >= base && num / base >= p
  {
    TimesAtMost(1, p, base);
    if num / base < p {
      TimesAtMost(num / base + 1, p, base);
    }
  }

  lemma {:induction false} PowerGrows(base: Base, j: nat, k: nat)
    requires j <= k
    ensures Power(base, j) <= Power(base, k)
  {
    if j < k {
      PowerGrows(base, j, k - 1);
      assert Power(base, k - 1) * base >= Power(base, k - 1);
    }
  }

  lemma {:induction false} PowerAtLeastTen(base: Base, k: nat)
    requires base >= 10
    ensures Power(base, k) >= Power(10, k)
  {
    if k > 0 {
      PowerAtLeastTen(base, k - 1);
      TimesAtMost(Power(10, k - 1), Power(base, k - 1), base);
      TimesAtMost(10, base, Power(10, k - 1));
    }
  }

  /** A 32-bit number has at most ten digits in base ten and above. */
  lemma AtMostTenDigits(num: nat, base: Base, k: nat)
    requires num < WORD && base >= 10 && (k > 0 ==> num >= Power(base, k))
    ensures k < 10
  {
    if k >= 10 {
      PowerGrows(base, 10, k);
      PowerAtLeastTen(base, 10);
      TenToTheTenth();
    }
  }

  lemma {:induction false} DigitsReach(num: nat, base: Base)
    ensures |Digits(num, base)| > 1 ==> num >= Power(base, |Digits(num, base)| - 1)
  {
    hide Digits;
    DigitsMore(num, base);
    if num >= base {
      var k := |Digits(num / base, base)|;
      QuotientIsLess(num, base);
      DivMod(num, base);
      DigitsReach(num / base, base);
      if k > 1 { TimesAtMost(Power(base, k - 1), num / base, base); }
    }
  }

  /** A buffer of eleven cells holds every 32-bit number in bases 10 to 16. */
  lemma TenDigitsAreEnough(num: nat, base: Base)
    requires num < WORD && base >= 10
    ensures |Digits(num, base)| <= 10
  {
    DigitsReach(num, base);
    AtMostTenDigits(num, base, |Digits(num, base)| - 1);
  }

  lemma TenToTheTenth()
    ensures Power(10, 10) == 10_000_000_000
  {
    assert Power(10, 2) == 100;
    assert Power(10, 4) == 10_000;
    assert Power(10, 6) == 1_000_000;
    assert Power(10, 8) == 100_000_000;
  }

  // ----- characters -----

  function DigitChar(d: nat): char
    requires d < 16
  {
    if d < 10 then '0' + d as char else 'a' + (d - 10) as char
  }

  /** _sa2d: what a character is worth as a digit, -1 for none. */
  function Sa2d(ch: char): int {
    if '0' <= ch <= '9' then (ch - '0') as int
    else if 'a' <= ch <= 'f' then (ch - 'a') as int + 10
    else if 'A' <= ch <= 'F' then (ch - 'A') as int + 10
    else -1
  }

  lemma DigitOfChar(d: nat)
    requires d < 16
    ensures Sa2d(DigitChar(d)) == d
  {
  }

  const LOWER := "0123456789abcdef"
  const UPPER := "0123456789ABCDEF"

  /** A digit is written in lower case and read in both. */
  lemma DigitsAreThese(d: nat, ch: char)
    requires d < 16
    ensures DigitChar(d) == LOWER[d]
    ensures Sa2d(ch) == d <==> ch == LOWER[d] || ch == UPPER[d]
    ensures -1 <= Sa2d(ch) < 16
  {
  }

  function Text(ds: seq<nat>): (s: string)
    requires forall i: nat :: i < |ds| ==> ds[i] < 16
    ensures |s| == |ds| && forall i: nat :: i < |s| ==> s[i] == DigitChar(ds[i])
  {
    seq(|ds|, i requires 0 <= i < |ds| => DigitChar(ds[i]))
  }

  function Numeral(num: nat, base: Base): string {
    Text(Digits(num, base))
  }

  // ----- printing -----

  /** Division of unsigned words, and its remainder. */
  function Over(n: nat, m: nat): nat
    requires m > 0
  {
    n / m
  }

  function Rest(n: nat, m: nat): nat
    requires m > 0
  {
    n % m
  }

  /** The first loop of _sui2a: the greatest power that is not above the number. It stays below
      2^32. */
  method Divisor(num: nat, base: Base) returns (d: nat, ghost k: nat)
    requires num < WORD
    ensures 0 < d < WORD && Over(num, d) < base && (d > 1 ==> d <= num)
    ensures d == Power(base, k) && num < Power(base, k + 1) && (k > 0 ==> num >= d)
  {
    hide Power, Over;
    k := 0;
    d := 1;
    PowerDivides(base, 0);
    while Over(num, d) >= base
      invariant d == Power(base, k) && d < WORD && (k > 0 ==> num >= d)
      decreases num - d
    {
      AtLeastDivisor(num, base, d);
      PowerDivides(base, k + 1);
      d := d * base;
      k := k + 1;
    }
    Below(num, base, d);
    PowerDivides(base, k + 1);
  }

  /** _sui2a: the digits are written from the left into the buffer from cell `at` on, followed by a
      zero. */
  method Sui2a(num: nat, base: Base, bf: array<char>, at: nat) returns (n: nat)
    requires num < WORD && at + |Digits(num, base)| < bf.Length
    modifies bf
    ensures n == |Digits(num, base)| && bf[..at] == old(bf[..at])
    ensures bf[at..][..n] == Numeral(num, base) && bf[at + n] == NUL
    ensures bf[at..][n + 1..] == old(bf[at..])[n + 1..]
  {
    hide Writing, Digits, DigitChar, Power, Padded, Text, Over, Rest;
    var d: nat, k := Divisor(num, base);
    DigitsArePadded(num, base, k);
    ghost var ds, front, was := Digits(num, base), bf[..at], bf[at..];
    n := 0;
    var rest: nat := num;
    WritingStarts(ds, base, k, was, rest, d);
    while d != 0
      invariant d > 0 ==> n <= k
      invariant bf[..at] == front && Writing(ds, base, k, was, bf[at..], n, rest, d)
      decreases d
    {
      var dgt := Over(rest, d);
      WritingStep(ds, base, k, was, bf[at..], n, rest, d, dgt, Rest(rest, d), Over(d, base));
      rest := Rest(rest, d);
      d := Over(d, base);
      if n > 0 || dgt > 0 || d == 0 {
        CellWritten(bf[..], at, n, DigitChar(dgt));
        bf[at + n] := DigitChar(dgt);
        n := n + 1;
      }
    }
    WritingEnds(ds, base, k, was, bf[at..], n, rest);
    CellWritten(bf[..], at, n, NUL);
    bf[at + n] := NUL;
  }

  lemma CellWritten(bf: string, at: nat, n: nat, c: char)
    requires at + n < |bf|
    ensures bf[at + n := c][at..] == bf[at..][n := c] && bf[at + n := c][..at] == bf[..at]
  {
  }

  /** The state of the second loop: n of the k + 1 digits are written, and the rest holds the
      others. */
  ghost predicate Writing(ds: seq<nat>, base: Base, k: nat, was: string, bf: string, n: nat, rest: nat, d: nat) {
    && n <= k + 1 == |ds| && (forall i: nat :: i < |ds| ==> ds[i] < base) && (k > 0 ==> ds[0] > 0)
    && d == (if n <= k then Power(base, k - n) else 0)
    && (n <= k ==> rest < Power(base, k - n + 1) && ds[n..] == Padded(rest, base, k - n + 1))
    && k + 1 < |was| == |bf| && bf[..n] == Text(ds)[..n] && bf[n..] == was[n..]
  }

  lemma WritingStarts(ds: seq<nat>, base: Base, k: nat, was: string, num: nat, d: nat)
    requires ds == Digits(num, base) == Padded(num, base, k + 1) && num < Power(base, k + 1) && d == Power(base, k)
    requires k + 1 < |was|
    ensures Writing(ds, base, k, was, was, 0, num, d)
  {
  }

  lemma WritingStep(
    ds: seq<nat>, base: Base, k: nat, was: string, bf: string, n: nat, rest: nat, d: nat,
    dgt: nat, left: nat, next: nat)
    requires Writing(ds, base, k, was, bf, n, rest, d) && d > 0
    requires dgt == Over(rest, d) && left == Rest(rest, d) && next == Over(d, base)
    ensures n < |bf| && dgt < base && (n > 0 || dgt > 0 || next == 0) && (next > 0 ==> n < k) && next < d
    ensures Writing(ds, base, k, was, bf[n := DigitChar(dgt)], n + 1, left, next)
  {
    hide Padded, Power, DigitChar, Text;
    DigitStep(ds, rest, base, k, n);
    PowerDivides(base, k - n);
    Written(bf, was, Text(ds), n);
    PowerIsGreater(base, k - n);
  }

  lemma PowerIsGreater(base: Base, k: nat)
    ensures k > 0 ==> Power(base, k - 1) < Power(base, k)
  {
    if k > 0 { TimesAtMost(2, base, Power(base, k - 1)); }
  }

  lemma WritingEnds(ds: seq<nat>, base: Base, k: nat, was: string, bf: string, n: nat, rest: nat)
    requires Writing(ds, base, k, was, bf, n, rest, 0)
    ensures n == |ds| < |bf| == |was|
    ensures bf[n := NUL][..n] == Text(ds) && bf[n := NUL][n + 1..] == was[n + 1..]
  {
    hide Padded;
    Written(bf, was, Text(ds) + [NUL], n);
    assert Text(ds)[..n] == Text(ds);
  }

  /** Writing cell n of a buffer whose first n cells are written. */
  lemma Written(bf: string, was: string, text: string, n: nat)
    requires n < |text| && n < |bf| == |was| && bf[..n] == text[..n] && bf[n..] == was[n..]
    ensures bf[n := text[n]][..n + 1] == text[..n + 1] && bf[n := text[n]][n + 1..] == was[n + 1..]
  {
    assert bf[n..][1..] == was[n..][1..];
  }

  lemma DigitStep(ds: seq<nat>, rest: nat, base: Base, k: nat, n: nat)
    requires n <= k && |ds| == k + 1 && rest < Power(base, k - n + 1) && ds[n..] == Padded(rest, base, k - n + 1)
    ensures var p := Power(base, k - n);
      rest / p == ds[n] && rest % p < p && ds[n + 1..] == Padded(rest % p, base, k - n)
  {
    hide Padded, Power;
    var first, left := PaddedFromTop(rest, base, k - n);
    assert ds[n..][1..] == ds[n + 1..] && ds[n..][0] == ds[n];
  }

  lemma AtLeastDivisor(num: nat, base: Base, d: nat)
    requires d > 0 && Over(num, d) >= base
    ensures num >= d * base > d
  {
    assert num / d * d >= base * d;
  }

  lemma Below(num: nat, base: Base, d: nat)
    requires d > 0 && Over(num, d) < base
    ensures num < d * base
  {
    assert (num / d + 1) * d <= base * d;
  }

  lemma PowerDivides(base: Base, k: nat)
    ensures Power(base, k) / base == if k == 0 then 0 else Power(base, k - 1)
    ensures Power(base, k) == if k == 0 then 1 else Power(base, k - 1) * base
  {
    if k > 0 { DivisionIsUnique(Power(base, k), base, Power(base, k - 1), 0); }
  }

  /** _si2a: a minus sign and the digits of the magnitude; -2^31 included. */
  method Si2a(num: int, bf: array<char>) returns (n: nat)
    requires -0x8000_0000 <= num < 0x8000_0000 && bf.Length >= 12
    modifies bf
    ensures n < 12 && bf[n] == NUL
    ensures bf[..n] == if num < 0 then "-" + Numeral(-num, 10) else Numeral(num, 10)
  {
    hide Numeral, Digits;
    var sign := if num < 0 then 1 else 0;
    var magnitude := if num < 0 then -num else num;
    TenDigitsAreEnough(magnitude, 10);
    if num < 0 { bf[0] := '-'; }
    n := Sui2a(magnitude, 10, bf, sign);
    assert bf[..sign + n] == bf[..sign] + bf[sign..][..n];
    n := sign + n;
  }

  // ----- reading -----

  /** A 32-bit int. */
  function Int32(x: int): (r: int)
    ensures -0x8000_0000 <= r < 0x8000_0000
  {
    (x + 0x8000_0000) % WORD - 0x8000_0000
  }

  /** A character that reading does not stop at. A digit equal to the base goes through. */
  predicate Accepted(ch: char, base: Base) {
    0 <= Sa2d(ch) <= base
  }

  /** Where reading stops. */
  function Stop(s: string, base: Base): (k: nat)
    ensures k <= |s| && (k < |s| ==> !Accepted(s[k], base))
    ensures forall i: nat :: i < k ==> Accepted(s[i], base)
  {
    if s == [] || !Accepted(s[0], base) then 0 else 1 + Stop(s[1..], base)
  }

  function DigitsOf(s: string): (ds: seq<nat>)
    requires forall i: nat :: i < |s| ==> Sa2d(s[i]) >= 0
    ensures |ds| == |s| && forall i: nat :: i < |s| ==> ds[i] == Sa2d(s[i])
  {
    seq(|s|, i requires 0 <= i < |s| => Sa2d(s[i]))
  }

  /** What is read, before it is cut to 32 bits. */
  function Read(s: string, base: Base): nat {
    Value(DigitsOf(s[..Stop(s, base)]), base)
  }

  lemma Int32Step(x: int, y: int, base: nat, digit: int)
    requires y == Int32(x)
    ensures Int32(y * base + digit) == Int32(x * base + digit)
  {
    var q := (x + 0x8000_0000) / WORD;
    assert x == y + q * WORD;
    assert x * base + digit == (y * base + digit) + (q * base) * WORD;
    SameRemainder(y * base + digit + 0x8000_0000, q * base, WORD);
  }

  lemma SameRemainder(x: int, q: int, m: nat)
    requires m > 0
    ensures (x + q * m) % m == x % m
  {
    var d := (x + q * m) / m - q - x / m;
    assert d >= 1 ==> d * m >= m;
    assert d <= -1 ==> d * m + m <= 0;
    assert d * m == x % m - (x + q * m) % m;
  }

  /** _sa2i: the text holds a character at which reading stops; it is returned, and reading
      would go on after it. */
  method Sa2i(text: string, base: Base) returns (num: int, ch: char, next: nat)
    requires Stop(text, base) < |text|
    ensures num == Int32(Read(text, base))
    ensures next == Stop(text, base) + 1 && ch == text[next - 1]
  {
    hide Stop, DigitsOf, Int32;
    num := 0;
    ch := text[0];
    next := 1;
    ghost var k := Stop(text, base);
    ghost var ds := DigitsOf(text[..k]);
    assert Int32(0) == 0 && ds[..0] == [] by { SmallIsSame(0); }
    while Sa2d(ch) >= 0
      invariant 1 <= next <= k + 1 && ch == text[next - 1]
      invariant num == Int32(Value(ds[..next - 1], base))
      decreases |text| - next
    {
      if Sa2d(ch) > base { break; }
      assert Accepted(text[next - 1], base);
      Int32Step(Value(ds[..next - 1], base), num, base, Sa2d(ch));
      num := Int32(num * base + Sa2d(ch));
      assert ds[..next][..next - 1] == ds[..next - 1] && ds[next - 1] == Sa2d(ch);
      ch := text[next];
      next := next + 1;
    }
    assert ds[..k] == ds;
  }

  lemma SmallIsSame(x: int)
    ensures Int32(x) == x <==> -0x8000_0000 <= x < 0x8000_0000
  {
  }

  // ----- there and back -----

  /** Reading a numeral and the character after it gives the number back, and stops at that
      character, exactly if the number fits in an int and the character is one to stop at. */
  lemma ReadingUndoesPrinting(num: nat, base: Base, after: char)
    ensures var text := Numeral(num, base) + [after];
      Stop(text, base) == |text| - 1 && Int32(Read(text, base)) == num <==>
        num < 0x8000_0000 && !Accepted(after, base)
  {
    hide Digits, DigitChar, Int32, Read;
    var ds := Digits(num, base);
    var text := Numeral(num, base) + [after];
    forall i: nat | i < |ds| ensures Accepted(text[i], base) && Sa2d(text[i]) == ds[i] { DigitOfChar(ds[i]); }
    assert Stop(text, base) >= |ds|;
    if !Accepted(after, base) {
      assert text[|ds|] == after;
      assert DigitsOf(text[..|ds|]) == ds;
      ReadIs(text, base, |ds|);
      ValueOfDigits(num, base);
      SmallIsSame(num);
    }
  }

  lemma ReadIs(text: string, base: Base, k: nat)
    requires Stop(text, base) == k
    ensures Read(text, base) == Value(DigitsOf(text[..k]), base)
  {
  }

  /** A digit equal to the base is not refused: in base ten "1a" reads as twenty. */
  lemma DigitEqualToBaseIsRead()
    ensures Read("1a ", 10) == 20 && Stop("1a ", 10) == 2
  {
    var s := "1a ";
    assert s[1..] == "a " && s[1..][1..] == " ";
    assert Stop(" ", 10) == 0 && Stop("a ", 10) == 1 && Stop(s, 10) == 2;
    var ds := DigitsOf(s[..2]);
    assert ds == [] + [1] + [10];
    ValueMore([1], 10, 10);
    ValueMore([], 1, 10);
    assert [] + [1] == [1];
  }

  predicate IsDigit(ch: char, base: Base) {
    0 <= Sa2d(ch) < base
  }

  /** The end of the longest prefix of digits of the base. */
  function ProperStop(s: string, base: Base): (k: nat)
    ensures k <= |s| && (k < |s| ==> !IsDigit(s[k], base))
    ensures forall i: nat :: i < k ==> IsDigit(s[i], base)
  {
    if s == [] || !IsDigit(s[0], base) then 0 else 1 + ProperStop(s[1..], base)
  }

  /** Reading stops at the end of the numeral exactly if the character there is not a digit that
      equals the base. */
  lemma StopsAtNumeralIff(s: string, base: Base)
    ensures var k := ProperStop(s, base);
      k <= Stop(s, base) && (Stop(s, base) == k <==> k == |s| || Sa2d(s[k]) != base)
  {
    hide Stop, ProperStop, Sa2d;
    var k, j := ProperStop(s, base), Stop(s, base);
    assert forall i: nat :: i < k ==> Accepted(s[i], base);
    assert k < j ==> Accepted(s[k], base);
  }

  /** In base 16 there is no such digit, so reading never goes past the numeral. */
  lemma HexadecimalIsReadRight(s: string)
    ensures Stop(s, 16) == ProperStop(s, 16)
  {
    StopsAtNumeralIff(s, 16);
  }
}
