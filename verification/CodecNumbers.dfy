/** The canonical integer fast path (src/distributed.rs): eight digits packed in one
    machine word, a bounded decimal evaluator and the integer parser. */
module CodecNumbers {
  import opened Prelude

  type Byte = b: int | 0 <= b < 256
  type Bytes = seq<Byte>

  const ZERO: Byte := 48
  const MINUS: Byte := 45
  const MAX_I64: nat := 0x7FFF_FFFF_FFFF_FFFF
  const TWO_64: nat := 0x1_0000_0000_0000_0000

  predicate IsDigit(b: Byte) { 48 <= b <= 57 }

  predicate AllDigits(s: Bytes) { forall i | 0 <= i < |s| :: IsDigit(s[i]) }

  // ---- Reference: positional decimal value -----------------------------------------

  /** The number a string of digits denotes. */
  function Value(s: Bytes): nat
    requires AllDigits(s)
  {
    if s == [] then 0 else 10 * Value(s[..|s| - 1]) + (s[|s| - 1] - ZERO)
  }

  function Pow10(n: nat): nat { if n == 0 then 1 else 10 * Pow10(n - 1) }

  lemma {:induction false} ValueConcat(a: Bytes, b: Bytes)
    requires AllDigits(a) && AllDigits(b)
    ensures AllDigits(a + b) && Value(a + b) == Value(a) * Pow10(|b|) + Value(b)
    decreases |b|
  {
    if b == [] {
      assert a + b == a;
    } else {
      var init := b[..|b| - 1];
      assert (a + b)[..|a + b| - 1] == a + init;
      ValueConcat(a, init);
      assert Value(a) * Pow10(|b|) == 10 * (Value(a) * Pow10(|init|));
    }
  }

  lemma {:induction false} ValueBound(s: Bytes)
    requires AllDigits(s)
    ensures Value(s) < Pow10(|s|)
    decreases |s|
  {
    if s != [] {
      ValueBound(s[..|s| - 1]);
    }
  }

  lemma {:induction false} Pow10Monotone(m: nat, n: nat)
    requires m <= n
    ensures Pow10(m) <= Pow10(n)
    decreases n - m
  {
    if m < n {
      Pow10Monotone(m, n - 1);
    }
  }

  /** A number without a leading zero is at least the power of ten of its length. */
  lemma {:induction false} ValueAtLeast(s: Bytes)
    requires AllDigits(s) && s != [] && s[0] != ZERO
    ensures Value(s) >= Pow10(|s| - 1)
    decreases |s|
  {
    if |s| > 1 {
      ValueAtLeast(s[..|s| - 1]);
    }
  }

  // ---- Packed evaluation of eight digits ---------------------------------------------

  /** `u64::from_le_bytes`. */
  function LittleEndian(s: Bytes): nat {
    if s == [] then 0 else s[0] + 256 * LittleEndian(s[1..])
  }

  /** `word & 0x00FF_00FF_00FF_00FF`: the low byte of each 16-bit lane. */
  function KeepBytes(x: nat): nat {
    x % 0x100
    + (x / 0x1_0000 % 0x100) * 0x1_0000
    + (x / 0x1_0000_0000 % 0x100) * 0x1_0000_0000
    + (x / 0x1_0000_0000_0000 % 0x100) * 0x1_0000_0000_0000
  }

  /** `word & 0x0000_FFFF_0000_FFFF`: the low half of each 32-bit lane. */
  function KeepHalves(x: nat): nat {
    x % 0x1_0000 + (x / 0x1_0000_0000 % 0x1_0000) * 0x1_0000_0000
  }

  lemma Split100(lo: int, hi: int)
    requires 0 <= lo < 0x100
    ensures (lo + 0x100 * hi) / 0x100 == hi && (lo + 0x100 * hi) % 0x100 == lo
  {
  }

  lemma Split1_0000(lo: int, hi: int)
    requires 0 <= lo < 0x1_0000
    ensures (lo + 0x1_0000 * hi) / 0x1_0000 == hi && (lo + 0x1_0000 * hi) % 0x1_0000 == lo
  {
  }

  lemma Split1_0000_0000(lo: int, hi: int)
    requires 0 <= lo < 0x1_0000_0000
    ensures (lo + 0x1_0000_0000 * hi) / 0x1_0000_0000 == hi && (lo + 0x1_0000_0000 * hi) % 0x1_0000_0000 == lo
  {
  }

  lemma Split1_0000_0000_0000(lo: int, hi: int)
    requires 0 <= lo < 0x1_0000_0000_0000
    ensures (lo + 0x1_0000_0000_0000 * hi) / 0x1_0000_0000_0000 == hi
  {
  }

  /** Masking keeps the even bytes when no byte lane has carried. */
  lemma KeepBytesOfLanes(a: nat, b: nat, c: nat, e: nat, p: nat, q: nat, r: nat, t: nat)
    requires a < 0x100 && b < 0x100 && c < 0x100 && e < 0x100 && p < 0x100 && q < 0x100 && r < 0x100 && t < 0x100
    ensures KeepBytes((a + 0x100 * p) + 0x1_0000 * (b + 0x100 * q) + 0x1_0000_0000 * (c + 0x100 * r) + 0x1_0000_0000_0000 * (e + 0x100 * t))
         == a + 0x1_0000 * b + 0x1_0000_0000 * c + 0x1_0000_0000_0000 * e
  {
    var l0, l1, l2, l3 := a + 0x100 * p, b + 0x100 * q, c + 0x100 * r, e + 0x100 * t;
    var x := l0 + 0x1_0000 * l1 + 0x1_0000_0000 * l2 + 0x1_0000_0000_0000 * l3;
    assert x % 0x100 == a by {
      assert x == a + 0x100 * (p + 0x100 * l1 + 0x1_0000_00 * l2 + 0x1_0000_0000_00 * l3);
      Split100(a, p + 0x100 * l1 + 0x1_0000_00 * l2 + 0x1_0000_0000_00 * l3);
    }
    assert x / 0x1_0000 % 0x100 == b by {
      Split1_0000(l0, l1 + 0x1_0000 * l2 + 0x1_0000_0000 * l3);
      Split100(b, q + 0x100 * l2 + 0x1_0000_00 * l3);
    }
    assert x / 0x1_0000_0000 % 0x100 == c by {
      Split1_0000_0000(l0 + 0x1_0000 * l1, l2 + 0x1_0000 * l3);
      Split100(c, r + 0x100 * l3);
    }
    assert x / 0x1_0000_0000_0000 % 0x100 == e by {
      Split1_0000_0000_0000(l0 + 0x1_0000 * l1 + 0x1_0000_0000 * l2, l3);
      Split100(e, t);
    }
  }

  lemma KeepHalvesOfLanes(a: nat, c: nat, p: nat, r: nat)
    requires a < 0x1_0000 && c < 0x1_0000 && p < 0x1_0000 && r < 0x1_0000
    ensures KeepHalves((a + 0x1_0000 * p) + 0x1_0000_0000 * (c + 0x1_0000 * r)) == a + 0x1_0000_0000 * c
  {
    var x := (a + 0x1_0000 * p) + 0x1_0000_0000 * (c + 0x1_0000 * r);
    assert x % 0x1_0000 == a by { Split1_0000(a, p + 0x1_0000 * (c + 0x1_0000 * r)); }
    assert x / 0x1_0000_0000 % 0x1_0000 == c by {
      Split1_0000_0000(a + 0x1_0000 * p, c + 0x1_0000 * r);
      Split1_0000(c, r);
    }
  }

  newtype u64 = x: int | 0 <= x < 0x1_0000_0000_0000_0000

  /** Subtracting the packed zeros leaves one digit per byte, the first digit lowest. */
  lemma Unpack(s: Bytes)
    requires |s| == 8 && AllDigits(s)
    ensures var d := seq(8, i requires 0 <= i < 8 => s[i] - ZERO);
      LittleEndian(s) - 0x3030_3030_3030_3030
      == d[0] + 0x100 * (d[1] + 0x100 * (d[2] + 0x100 * (d[3] + 0x100 * (d[4] + 0x100 * (d[5] + 0x100 * (d[6] + 0x100 * d[7]))))))
  {
    assert LittleEndian(s[8..]) == 0;
    assert s[7..][1..] == s[8..] && LittleEndian(s[7..]) == s[7];
    assert s[6..][1..] == s[7..] && LittleEndian(s[6..]) == s[6] + 256 * LittleEndian(s[7..]);
    assert s[5..][1..] == s[6..] && LittleEndian(s[5..]) == s[5] + 256 * LittleEndian(s[6..]);
    assert s[4..][1..] == s[5..] && LittleEndian(s[4..]) == s[4] + 256 * LittleEndian(s[5..]);
    assert s[3..][1..] == s[4..] && LittleEndian(s[3..]) == s[3] + 256 * LittleEndian(s[4..]);
    assert s[2..][1..] == s[3..] && LittleEndian(s[2..]) == s[2] + 256 * LittleEndian(s[3..]);
    assert s[1..][1..] == s[2..] && LittleEndian(s[1..]) == s[1] + 256 * LittleEndian(s[2..]);
    assert s[0..] == s;
  }

  lemma ValueOfEight(s: Bytes)
    requires |s| == 8 && AllDigits(s)
    ensures var d := seq(8, i requires 0 <= i < 8 => s[i] - ZERO);
      Value(s) == 10000 * (100 * (10 * d[0] + d[1]) + (10 * d[2] + d[3])) + (100 * (10 * d[4] + d[5]) + (10 * d[6] + d[7]))
  {
    assert Value(s[..0]) == 0;
    assert s[..1][..0] == s[..0] && Value(s[..1]) == s[0] - ZERO;
    assert s[..2][..1] == s[..1] && Value(s[..2]) == 10 * Value(s[..1]) + s[1] - ZERO;
    assert s[..3][..2] == s[..2] && Value(s[..3]) == 10 * Value(s[..2]) + s[2] - ZERO;
    assert s[..4][..3] == s[..3] && Value(s[..4]) == 10 * Value(s[..3]) + s[3] - ZERO;
    assert s[..5][..4] == s[..4] && Value(s[..5]) == 10 * Value(s[..4]) + s[4] - ZERO;
    assert s[..6][..5] == s[..5] && Value(s[..6]) == 10 * Value(s[..5]) + s[5] - ZERO;
    assert s[..7][..6] == s[..6] && Value(s[..7]) == 10 * Value(s[..6]) + s[6] - ZERO;
    assert s[..8] == s && Value(s) == 10 * Value(s[..7]) + s[7] - ZERO;
  }

  /** The three combining steps on digits `d0..d7`: no step overflows the word. */
  lemma Combine(d0: nat, d1: nat, d2: nat, d3: nat, d4: nat, d5: nat, d6: nat, d7: nat)
    requires d0 <= 9 && d1 <= 9 && d2 <= 9 && d3 <= 9 && d4 <= 9 && d5 <= 9 && d6 <= 9 && d7 <= 9
    ensures var w0 := d0 + 0x100 * (d1 + 0x100 * (d2 + 0x100 * (d3 + 0x100 * (d4 + 0x100 * (d5 + 0x100 * (d6 + 0x100 * d7))))));
      var w1 := KeepBytes(w0 * 10 + w0 / 0x100);
      var a, b, c, e := 10 * d0 + d1, 10 * d2 + d3, 10 * d4 + d5, 10 * d6 + d7;
      && w0 * 10 + w0 / 0x100 < TWO_64
      && w1 == a + 0x1_0000 * b + 0x1_0000_0000 * c + 0x1_0000_0000_0000 * e
  {
    var tail := d1 + 0x100 * (d2 + 0x100 * (d3 + 0x100 * (d4 + 0x100 * (d5 + 0x100 * (d6 + 0x100 * d7)))));
    var w0 := d0 + 0x100 * tail;
    Split100(d0, tail);
    var a, b, c, e := 10 * d0 + d1, 10 * d2 + d3, 10 * d4 + d5, 10 * d6 + d7;
    var p, q, r, t := 10 * d1 + d2, 10 * d3 + d4, 10 * d5 + d6, 10 * d7;
    KeepBytesOfLanes(a, b, c, e, p, q, r, t);
    assert w0 * 10 + tail == (a + 0x100 * p) + 0x1_0000 * (b + 0x100 * q) + 0x1_0000_0000 * (c + 0x100 * r) + 0x1_0000_0000_0000 * (e + 0x100 * t);
  }

  lemma CombinePairs(a: nat, b: nat, c: nat, e: nat)
    requires a <= 99 && b <= 99 && c <= 99 && e <= 99
    ensures var w1 := a + 0x1_0000 * b + 0x1_0000_0000 * c + 0x1_0000_0000_0000 * e;
      var w2 := KeepHalves(w1 * 100 + w1 / 0x1_0000);
      && w1 * 100 + w1 / 0x1_0000 < TWO_64
      && w2 == (100 * a + b) + 0x1_0000_0000 * (100 * c + e)
      && w2 * 10_000 + w2 / 0x1_0000_0000 < TWO_64
      && (w2 * 10_000 + w2 / 0x1_0000_0000) % 0x1_0000_0000 == 10_000 * (100 * a + b) + (100 * c + e)
  {
    var tail := b + 0x1_0000 * c + 0x1_0000_0000 * e;
    var w1 := a + 0x1_0000 * tail;
    Split1_0000(a, tail);
    KeepHalvesOfLanes(100 * a + b, 100 * c + e, 100 * b + c, 100 * e);
    assert w1 * 100 + tail == ((100 * a + b) + 0x1_0000 * (100 * b + c)) + 0x1_0000_0000 * ((100 * c + e) + 0x1_0000 * (100 * e));
    Split1_0000_0000(100 * a + b, 100 * c + e);
    Split1_0000_0000(10_000 * (100 * a + b) + (100 * c + e), 10_000 * (100 * c + e));
  }

  /** The value of the pair of digits at `2 * j`. */
  function Pair(chunk: Bytes, j: nat): (v: nat)
    requires |chunk| == 8 && AllDigits(chunk) && j < 4
    ensures v <= 99
  {
    10 * (chunk[2 * j] - ZERO) + (chunk[2 * j + 1] - ZERO)
  }

  lemma FirstStep(chunk: Bytes)
    requires |chunk| == 8 && AllDigits(chunk)
    ensures var w0 := LittleEndian(chunk) - 0x3030_3030_3030_3030;
      && w0 >= 0 && w0 * 10 + w0 / 0x100 < TWO_64
      && KeepBytes(w0 * 10 + w0 / 0x100)
         == Pair(chunk, 0) + 0x1_0000 * Pair(chunk, 1) + 0x1_0000_0000 * Pair(chunk, 2) + 0x1_0000_0000_0000 * Pair(chunk, 3)
  {
    Unpack(chunk);
    Combine(chunk[0] - ZERO, chunk[1] - ZERO, chunk[2] - ZERO, chunk[3] - ZERO,
            chunk[4] - ZERO, chunk[5] - ZERO, chunk[6] - ZERO, chunk[7] - ZERO);
  }

  /** The value of the eight digits, from their pairs. */
  function PairsValue(chunk: Bytes): nat
    requires |chunk| == 8 && AllDigits(chunk)
  {
    10_000 * (100 * Pair(chunk, 0) + Pair(chunk, 1)) + (100 * Pair(chunk, 2) + Pair(chunk, 3))
  }

  lemma ValueOfPairs(chunk: Bytes)
    requires |chunk| == 8 && AllDigits(chunk)
    ensures Value(chunk) == PairsValue(chunk)
  {
    ValueOfEight(chunk);
  }

  lemma PackedSteps(chunk: Bytes)
    requires |chunk| == 8 && AllDigits(chunk)
    ensures LittleEndian(chunk) >= 0x3030_3030_3030_3030
    ensures var w0 := LittleEndian(chunk) - 0x3030_3030_3030_3030;
      var x1 := w0 * 10 + w0 / 0x100;
      var x2 := KeepBytes(x1) * 100 + KeepBytes(x1) / 0x1_0000;
      var x3 := KeepHalves(x2) * 10_000 + KeepHalves(x2) / 0x1_0000_0000;
      x1 < TWO_64 && x2 < TWO_64 && x3 < TWO_64 && x3 % 0x1_0000_0000 == PairsValue(chunk)
  {
    FirstStep(chunk);
    CombinePairs(Pair(chunk, 0), Pair(chunk, 1), Pair(chunk, 2), Pair(chunk, 3));
  }

  /** Combines eight ASCII digits pairwise in one register. Every u64 operation stays in
      range, and the result is the decimal value of the digits. */
  method EightDigits(chunk: Bytes) returns (value: u64)
    requires |chunk| == 8 && AllDigits(chunk)
    ensures value as nat == Value(chunk)
  {
    PackedSteps(chunk);
    ValueOfPairs(chunk);
    var word := (LittleEndian(chunk) - 0x3030_3030_3030_3030) as u64;
    var sum := word * 10 + word / 0x100;
    word := KeepBytes(sum as int) as u64;
    sum := word * 100 + word / 0x1_0000;
    word := KeepHalves(sum as int) as u64;
    value := (word * 10_000 + word / 0x1_0000_0000) % 0x1_0000_0000;
  }

  lemma Powers()
    ensures Pow10(8) == 100_000_000 && Pow10(19) == 10_000_000_000_000_000_000 && Pow10(1) == 10
  {
    assert Pow10(4) == 10_000;
    assert Pow10(12) == 1_000_000_000_000 by { assert Pow10(8) == 100_000_000; }
    assert Pow10(16) == 10_000_000_000_000_000;
  }

  /** The exact value of at most nineteen digits, eight per step, within a u64. */
  method Decimal(digits: Bytes) returns (value: u64)
    requires |digits| <= 19 && AllDigits(digits)
    ensures value as nat == Value(digits)
  {
    Powers();
    value := 0;
    var n := 0;
    while n + 8 <= |digits|
      invariant 0 <= n <= |digits| && value as nat == Value(digits[..n])
    {
      PrefixStep(digits, n, 8);
      var packed := EightDigits(digits[n..n + 8]);
      value := value * 100_000_000 + packed;
      n := n + 8;
    }
    while n < |digits|
      invariant 0 <= n <= |digits| && value as nat == Value(digits[..n])
    {
      PrefixStep(digits, n, 1);
      value := value * 10 + (digits[n] - ZERO) as u64;
      n := n + 1;
    }
    assert digits[..n] == digits;
  }

  lemma PrefixStep(digits: Bytes, n: nat, k: nat)
    requires |digits| <= 19 && AllDigits(digits) && n + k <= |digits|
    ensures AllDigits(digits[..n]) && AllDigits(digits[n..n + k]) && AllDigits(digits[..n + k])
    ensures Value(digits[..n + k]) == Value(digits[..n]) * Pow10(k) + Value(digits[n..n + k])
    ensures Value(digits[..n + k]) < Pow10(19)
    ensures k == 1 ==> Value(digits[n..n + k]) == digits[n] - ZERO
  {
    assert digits[..n + k] == digits[..n] + digits[n..n + k];
    ValueConcat(digits[..n], digits[n..n + k]);
    ValueBound(digits[..n + k]);
    Pow10Monotone(n + k, 19);
    if k == 1 {
      assert digits[n..n + 1][..0] == [];
    }
  }

  // ---- The canonical integer ------------------------------------------------------------

  /** Length of the longest run of digits at the front. */
  function DigitRun(s: Bytes): (n: nat)
    ensures n <= |s| && AllDigits(s[..n]) && (n < |s| ==> !IsDigit(s[n]))
  {
    if s == [] || !IsDigit(s[0]) then 0
    else
      var n := 1 + DigitRun(s[1..]);
      assert forall i | 0 < i < n :: s[..n][i] == s[1..][..n - 1][i - 1];
      n
  }

  /** The longest digit run is the only one that ends where digits end. */
  lemma {:induction false} DigitRunUnique(a: Bytes, rest: Bytes)
    requires AllDigits(a) && (rest == [] || !IsDigit(rest[0]))
    ensures DigitRun(a + rest) == |a|
    decreases |a|
  {
    if a == [] {
      assert a + rest == rest;
    } else {
      assert (a + rest)[1..] == a[1..] + rest;
      DigitRunUnique(a[1..], rest);
    }
  }

  /** Specification: an optional minus sign and the longest digit run, accepted exactly if
      the run is nonempty, has no leading zero and its magnitude fits. */
  function CanonicalI64(s: Bytes): Option<(int, Bytes)> {
    if s != [] && s[0] == MINUS then CanonicalDigits(true, s[1..]) else CanonicalDigits(false, s)
  }

  function CanonicalDigits(negative: bool, digits: Bytes): Option<(int, Bytes)> {
    var run := digits[..DigitRun(digits)];
    if run == [] || (|run| > 1 && run[0] == ZERO) || Value(run) > MAX_I64 then None
    else Some((if negative then 0 - Value(run) else Value(run), digits[|run|..]))
  }

  /** The parser as written, with its nineteen-digit cut and the packed evaluator. */
  method ParseI64(s: Bytes) returns (r: Option<(int, Bytes)>)
    ensures r == CanonicalI64(s)
  {
    if s == [] {
      return None;
    }
    var negative := s[0] == MINUS;
    var digits := if negative then s[1..] else s;
    var length := DigitRun(digits);
    if length > 19 && digits[0] != ZERO {
      ValueAtLeast(digits[..length]);
      Powers();
      Pow10Monotone(19, length - 1);
    }
    if length == 0 || length > 19 || (length > 1 && digits[0] == ZERO) {
      return None;
    }
    var magnitude := Decimal(digits[..length]);
    if magnitude as int > MAX_I64 {
      return None;
    }
    r := Some((if negative then -(magnitude as int) else magnitude as int, digits[length..]));
  }

  // ---- Printing -------------------------------------------------------------------------

  function PrintNat(n: nat): (s: Bytes)
    ensures s != [] && AllDigits(s) && Value(s) == n && (|s| > 1 ==> s[0] != ZERO)
  {
    if n < 10 then
      assert [ZERO + n][..0] == [];
      [ZERO + n]
    else
      var init := PrintNat(n / 10);
      var s := init + [ZERO + n % 10];
      assert s[..|s| - 1] == init;
      assert s[0] == ZERO ==> init == [ZERO] && Value([ZERO][..0]) == 0;
      s
  }

  function PrintI64(n: int): Bytes { if n < 0 then [MINUS] + PrintNat(-n) else PrintNat(n) }

  lemma DigitsRead(negative: bool, text: Bytes, rest: Bytes)
    requires text != [] && AllDigits(text) && (|text| > 1 ==> text[0] != ZERO)
    requires rest == [] || !IsDigit(rest[0])
    ensures CanonicalDigits(negative, text + rest)
         == if Value(text) > MAX_I64 then None else Some((if negative then 0 - Value(text) else Value(text), rest))
  {
    DigitRunUnique(text, rest);
    assert (text + rest)[..|text|] == text && (text + rest)[|text|..] == rest;
  }

  /** Round trip: printing any integer and parsing it back returns it together with the
      untouched remainder, whatever non-digit follows, unless its magnitude is above the
      bound (as that of i64::MIN is), which is left to the general decoder. */
  lemma PrintParse(n: int, rest: Bytes)
    requires rest == [] || !IsDigit(rest[0])
    ensures CanonicalI64(PrintI64(n) + rest) == if -(MAX_I64 as int) <= n <= MAX_I64 then Some((n, rest)) else None
  {
    var text := PrintNat(if n < 0 then -n else n);
    DigitsRead(n < 0, text, rest);
    if n < 0 {
      assert ([MINUS] + text + rest)[1..] == text + rest;
    } else {
      assert IsDigit((text + rest)[0]);
    }
  }
}
