/** UUIDv7 packing (section 5.7 of RFC 9562) over Python's unbounded integers. */
module Uuid7 {
  import opened Wrappers
  import opened Text

  // ---- Python's <<, >>, | and & on non-negative integers ---------------------------

  function Pow2(n: nat): (p: nat)
    ensures p >= 1
  {
    if n == 0 then 1 else 2 * Pow2(n - 1)
  }

  function Shl(a: nat, n: nat): nat {
    a * Pow2(n)
  }

  function Shr(a: nat, n: nat): nat {
    Quotient(a, Pow2(n))
  }

  function Quotient(a: nat, d: nat): nat
    requires d >= 1
  {
    a / d
  }

  function Or(a: nat, b: nat): nat {
    if a == 0 && b == 0 then 0
    else (if a % 2 == 1 || b % 2 == 1 then 1 else 0) + 2 * Or(a / 2, b / 2)
  }

  function And(a: nat, b: nat): nat {
    if a == 0 && b == 0 then 0
    else (if a % 2 == 1 && b % 2 == 1 then 1 else 0) + 2 * And(a / 2, b / 2)
  }

  /** The ranges of the 48-bit clock, the two random fields and the whole value. */
  const CLOCK_RANGE: nat := 0x1_0000_0000_0000
  const RAND_A_RANGE: nat := 0x1000
  const RAND_B_RANGE: nat := 0x4000_0000_0000_0000
  const UUID_RANGE: nat := 0x1_0000_0000_0000_0000_0000_0000_0000_0000

  // ---- new_uuidv7 ----------------------------------------------------------------------

  /** The 128-bit integer, with the clock in milliseconds and the random fields as inputs. */
  function NewUuid7(clockMs: nat, randA: nat, randB: nat): nat {
    Or(Or(Or(Or(Shl(And(clockMs, Shl(1, 48) - 1), 80), Shl(0x7, 76)), Shl(randA, 64)), Shl(2, 62)), randB)
  }

  function Timestamp(v: nat): nat {
    Shr(v, 80)
  }

  function Version(v: nat): nat {
    And(Shr(v, 76), Shl(1, 4) - 1)
  }

  function RandA(v: nat): nat {
    And(Shr(v, 64), Shl(1, 12) - 1)
  }

  function Variant(v: nat): nat {
    And(Shr(v, 62), Shl(1, 2) - 1)
  }

  function RandB(v: nat): nat {
    And(v, Shl(1, 62) - 1)
  }

  // ---- bit-field arithmetic ----------------------------------------------------------------

  lemma {:induction false} OrZero(a: nat)
    ensures Or(a, 0) == a
  {
    if a != 0 {
      OrZero(a / 2);
    }
  }

  /** Or-ing a value into vacant low bits adds it. */
  lemma {:induction false} OrDisjoint(a: nat, n: nat, b: nat)
    requires b < Pow2(n)
    ensures Or(Shl(a, n), b) == Shl(a, n) + b
  {
    if n == 0 {
      OrZero(a);
      assert Shl(a, 0) == a;
    } else {
      var x := Shl(a, n - 1);
      assert Shl(a, n) == 2 * x by {
        var p := Pow2(n - 1);
        assert a * (2 * p) == 2 * (a * p);
      }
      OrDisjoint(a, n - 1, b / 2);
      assert 2 * x / 2 == x && 2 * x % 2 == 0;
    }
  }

  lemma {:induction false} AndMaskHalf(a: nat, p: nat)
    requires p > 0
    ensures a % (2 * p) == a % 2 + 2 * (a / 2 % p)
  {
    var h, r := a / 2, a % 2;
    var q, m := h / p, h % p;
    assert h == q * p + m;
    assert a == 2 * h + r == (2 * p) * q + (2 * m + r) by {
      assert 2 * (q * p) == (2 * p) * q;
    }
    DivUnique(a, 2 * p, q, 2 * m + r);
  }

  lemma MulMonotone(d: nat, x: nat, y: nat)
    requires x <= y
    ensures d * x <= d * y
  {}

  lemma DivUnique(a: nat, d: nat, q: nat, r: nat)
    requires d > 0 && r < d && a == d * q + r
    ensures a / d == q && a % d == r
  {
    var q', r' := a / d, a % d;
    assert a == d * q' + r';
    if q' < q {
      MulMonotone(d, q' + 1, q);
    } else if q < q' {
      MulMonotone(d, q + 1, q');
    }
  }

  lemma {:induction false} AndZero(a: nat)
    ensures And(a, 0) == 0
  {
    if a != 0 {
      AndZero(a / 2);
    }
  }

  /** Masking with `2^n - 1` takes the remainder. */
  lemma {:induction false} AndMask(a: nat, n: nat)
    ensures And(a, Pow2(n) - 1) == a % Pow2(n)
  {
    if n == 0 {
      AndZero(a);
    } else {
      var p := Pow2(n - 1);
      assert (2 * p - 1) / 2 == p - 1 && (2 * p - 1) % 2 == 1;
      AndMask(a / 2, n - 1);
      AndMaskHalf(a, p);
    }
  }

  lemma {:induction false} Pow2Add(m: nat, n: nat)
    ensures Pow2(m + n) == Pow2(m) * Pow2(n)
  {
    if m != 0 {
      Pow2Add(m - 1, n);
      assert 2 * (Pow2(m - 1) * Pow2(n)) == (2 * Pow2(m - 1)) * Pow2(n);
    }
  }

  lemma PowerSum(m: nat, n: nat, a: nat, b: nat, sum: nat)
    requires sum == m + n && Pow2(m) == a && Pow2(n) == b
    ensures Pow2(sum) == a * b
  {
    Pow2Add(m, n);
  }

  lemma SmallPowers()
    ensures Pow2(2) == 0x4 && Pow2(4) == 0x10 && Pow2(8) == 0x100 && Pow2(12) == 0x1000
  {
    assert Pow2(1) == 2;
    PowerSum(2, 2, 4, 4, 4);
    PowerSum(4, 4, 0x10, 0x10, 8);
    PowerSum(8, 4, 0x100, 0x10, 12);
  }

  lemma Powers()
    ensures Pow2(2) == 0x4 && Pow2(4) == 0x10 && Pow2(12) == 0x1000
    ensures Pow2(48) == 0x1_0000_0000_0000
    ensures Pow2(62) == 0x4000_0000_0000_0000
    ensures Pow2(64) == 0x1_0000_0000_0000_0000
    ensures Pow2(76) == 0x1000_0000_0000_0000_0000
    ensures Pow2(80) == 0x1_0000_0000_0000_0000_0000
    ensures Pow2(128) == 0x1_0000_0000_0000_0000_0000_0000_0000_0000
  {
    SmallPowers();
    PowerSum(12, 12, 0x1000, 0x1000, 24);
    PowerSum(24, 24, 0x100_0000, 0x100_0000, 48);
    PowerSum(12, 2, 0x1000, 0x4, 14);
    PowerSum(48, 14, 0x1_0000_0000_0000, 0x4000, 62);
    PowerSum(62, 2, 0x4000_0000_0000_0000, 0x4, 64);
    PowerSum(64, 12, 0x1_0000_0000_0000_0000, 0x1000, 76);
    PowerSum(76, 4, 0x1000_0000_0000_0000_0000, 0x10, 80);
    PowerSum(80, 48, 0x1_0000_0000_0000_0000_0000, 0x1_0000_0000_0000, 128);
  }

  lemma MaskField(a: nat, n: nat, p: nat)
    requires p == Pow2(n)
    ensures And(a, Shl(1, n) - 1) == a % p
  {
    AndMask(a, n);
    assert Shl(1, n) == p;
  }

  /** The two upper fields and the version, or-ed together. */
  lemma UpperFields(ts: nat, randA: nat)
    requires randA < 0x1000
    ensures Or(Or(Shl(ts, 80), Shl(0x7, 76)), Shl(randA, 64)) == Shl((ts * 16 + 7) * 0x1000 + randA, 64)
  {
    JoinUpper(ts, randA, 80, 76, 64);
  }

  lemma {:induction false} JoinUpper(ts: nat, randA: nat, a: nat, b: nat, c: nat)
    requires randA < 0x1000 && a == b + 4 && b == c + 12
    ensures Or(Or(Shl(ts, a), Shl(0x7, b)), Shl(randA, c)) == Shl((ts * 16 + 7) * 0x1000 + randA, c)
  {
    SmallPowers();
    Pow2Add(4, b);
    Pow2Add(12, c);
    ShlOr(ts, a, Pow2(a), 7, b, Pow2(b), 16);
    ShlOr(ts * 16 + 7, b, Pow2(b), randA, c, Pow2(c), 0x1000);
  }

  /** The variant and the lower field, or-ed in. */
  lemma LowerFields(upper: nat, randB: nat)
    requires randB < 0x4000_0000_0000_0000
    ensures Or(Or(Shl(upper, 64), Shl(2, 62)), randB)
         == upper * 0x1_0000_0000_0000_0000 + 0x8000_0000_0000_0000 + randB
  {
    Powers();
    JoinLower(upper, randB, 64, 62);
  }

  lemma {:induction false} JoinLower(upper: nat, randB: nat, a: nat, b: nat)
    requires a == b + 2 && randB < Pow2(b)
    ensures Or(Or(Shl(upper, a), Shl(2, b)), randB) == upper * Pow2(a) + 2 * Pow2(b) + randB
  {
    SmallPowers();
    Pow2Add(2, b);
    ShlOr(upper, a, Pow2(a), 2, b, Pow2(b), 4);
    OrDisjoint(upper * 4 + 2, b, randB);
    Regroup(upper, 2, Pow2(b), 4);
  }

  /** The packed value as a sum of its fields. */
  lemma PackedSum(clockMs: nat, randA: nat, randB: nat)
    requires randA < RAND_A_RANGE && randB < RAND_B_RANGE
    ensures NewUuid7(clockMs, randA, randB)
         == clockMs % CLOCK_RANGE * 0x1_0000_0000_0000_0000_0000 + 0x7000_0000_0000_0000_0000
            + randA * 0x1_0000_0000_0000_0000 + 0x8000_0000_0000_0000 + randB
  {
    var ts := clockMs % CLOCK_RANGE;
    Powers();
    MaskField(clockMs, 48, CLOCK_RANGE);
    UpperFields(ts, randA);
    LowerFields((ts * 16 + 7) * 0x1000 + randA, randB);
  }

  /** Two adjacent fields form one: `(x << m) | (y << n)` is `(x * 2^(m-n) + y) << n`. */
  lemma ShlOr(x: nat, m: nat, p: nat, y: nat, n: nat, q: nat, width: nat)
    requires p == Pow2(m) && q == Pow2(n) && p == width * q && y < width
    ensures Or(Shl(x, m), Shl(y, n)) == Shl(x * width + y, n)
  {
    FieldFits(q, y, width);
    OrDisjoint(x, m, y * q);
    Regroup(x, y, q, width);
  }

  lemma FieldFits(q: nat, y: nat, width: nat)
    requires q > 0 && y < width
    ensures y * q < width * q
  {
    MulMonotone(q, y + 1, width);
    assert q * (y + 1) == y * q + q;
    assert q * width == width * q;
  }

  lemma Regroup(x: nat, y: nat, q: nat, width: nat)
    ensures x * (width * q) + y * q == (x * width + y) * q
  {
    assert x * (width * q) == (x * width) * q;
  }

  /** A field of `w` bits above `n` low bits is read by shifting and masking. */
  lemma FieldAt(v: nat, high: nat, f: nat, low: nat, n: nat, p: nat, w: nat, m: nat)
    requires p == Pow2(n) && m == Pow2(w)
    requires f < m && low < p
    requires v == p * (m * high + f) + low
    ensures And(Shr(v, n), Shl(1, w) - 1) == f
    ensures Shr(v, n) == m * high + f
  {
    var x := m * high + f;
    DivUnique(v, p, x, low);
    DivUnique(x, m, high, f);
    MaskField(x, w, m);
  }

  lemma HighFields(v: nat, ts: nat, randA: nat, low: nat)
    requires ts < 0x1_0000_0000_0000 && randA < 0x1000 && low < 0x1_0000_0000_0000_0000
    requires v == 0x1_0000_0000_0000_0000_0000 * ts + 0x7000_0000_0000_0000_0000
                  + 0x1_0000_0000_0000_0000 * randA + low
    ensures Timestamp(v) == ts && Version(v) == 7 && RandA(v) == randA
  {
    Powers();
    var mid := 0x1_0000_0000_0000_0000 * randA + low;
    FieldAt(v, 0, ts, 0x7000_0000_0000_0000_0000 + mid, 80, 0x1_0000_0000_0000_0000_0000, 48, 0x1_0000_0000_0000);
    FieldAt(v, ts, 7, mid, 76, 0x1000_0000_0000_0000_0000, 4, 0x10);
    FieldAt(v, 16 * ts + 7, randA, low, 64, 0x1_0000_0000_0000_0000, 12, 0x1000);
  }

  lemma LowFields(v: nat, high: nat, randB: nat)
    requires randB < 0x4000_0000_0000_0000
    requires v == 0x1_0000_0000_0000_0000 * high + 0x8000_0000_0000_0000 + randB
    ensures Variant(v) == 2 && RandB(v) == randB
  {
    Powers();
    FieldAt(v, high, 2, randB, 62, 0x4000_0000_0000_0000, 2, 4);
    AndMask(v, 62);
    assert Shl(1, 62) == Pow2(62);
    DivUnique(v, 0x4000_0000_0000_0000, 4 * high + 2, randB);
  }

  /** Every field can be read back, with version 7 and variant binary 10, from 128 bits. */
  lemma Layout(clockMs: nat, randA: nat, randB: nat)
    requires randA < RAND_A_RANGE && randB < RAND_B_RANGE
    ensures var v := NewUuid7(clockMs, randA, randB);
            && v < UUID_RANGE
            && Timestamp(v) == clockMs % CLOCK_RANGE
            && Version(v) == 7 && Variant(v) == 2
            && RandA(v) == randA && RandB(v) == randB
  {
    Powers();
    PackedSum(clockMs, randA, randB);
    var v := NewUuid7(clockMs, randA, randB);
    var ts := clockMs % CLOCK_RANGE;
    HighFields(v, ts, randA, 0x8000_0000_0000_0000 + randB);
    LowFields(v, 0x1_0000 * ts + 0x7000 + randA, randB);
  }

  /** Two identifiers are equal only if they were made from the same fields. */
  lemma PackingInjective(c: nat, a: nat, b: nat, c': nat, a': nat, b': nat)
    requires a < RAND_A_RANGE && a' < RAND_A_RANGE && b < RAND_B_RANGE && b' < RAND_B_RANGE
    ensures NewUuid7(c, a, b) == NewUuid7(c', a', b') <==>
            c % CLOCK_RANGE == c' % CLOCK_RANGE && a == a' && b == b'
  {
    if c % CLOCK_RANGE == c' % CLOCK_RANGE && a == a' && b == b' {
      PackedSum(c, a, b);
      PackedSum(c', a', b');
    } else {
      Layout(c, a, b);
      Layout(c', a', b');
    }
  }

  // ---- bytes and text -----------------------------------------------------------------------

  /** The `n` low bytes of a number, most significant first. */
  function Bytes(v: nat, n: nat): (s: seq<nat>)
    ensures |s| == n
  {
    if n == 0 then [] else Bytes(v / 256, n - 1) + [v % 256]
  }

  function FromBytes(s: seq<nat>): nat {
    if s == [] then 0 else FromBytes(s[..|s| - 1]) * 256 + s[|s| - 1]
  }

  function Pow256(n: nat): nat {
    if n == 0 then 1 else 256 * Pow256(n - 1)
  }

  lemma {:induction false} Pow256Is(n: nat)
    ensures Pow256(n) == Pow2(8 * n)
  {
    if n != 0 {
      Pow256Is(n - 1);
      Pow2Add(8, 8 * (n - 1));
      assert Pow2(8) == 256;
    }
  }

  /** Byte-wise lexicographic order: the first differing byte decides. */
  ghost predicate BytesLess(a: seq<nat>, b: seq<nat>)
    requires |a| == |b|
  {
    exists k :: 0 <= k < |a| && a[..k] == b[..k] && a[k] < b[k]
  }

  lemma {:induction false} FromBytesOf(v: nat, n: nat)
    requires v < Pow256(n)
    ensures FromBytes(Bytes(v, n)) == v
  {
    if n != 0 {
      FromBytesOf(v / 256, n - 1);
      assert Bytes(v, n)[..n - 1] == Bytes(v / 256, n - 1);
    }
  }

  lemma {:induction false} SmallerGivesLess(v: nat, w: nat, n: nat)
    requires v < w < Pow256(n)
    ensures BytesLess(Bytes(v, n), Bytes(w, n))
  {
    var a, b := Bytes(v, n), Bytes(w, n);
    var a', b' := Bytes(v / 256, n - 1), Bytes(w / 256, n - 1);
    if v / 256 < w / 256 {
      SmallerGivesLess(v / 256, w / 256, n - 1);
      var k :| 0 <= k < n - 1 && a'[..k] == b'[..k] && a'[k] < b'[k];
      assert a[..k] == a'[..k] && b[..k] == b'[..k];
      assert a[k] < b[k];
    } else {
      assert a[..n - 1] == a' == b' == b[..n - 1];
      assert a[n - 1] < b[n - 1];
    }
  }

  lemma LessAsymmetric(a: seq<nat>, b: seq<nat>)
    requires |a| == |b| && BytesLess(a, b)
    ensures !BytesLess(b, a)
  {
    var k :| 0 <= k < |a| && a[..k] == b[..k] && a[k] < b[k];
    forall j | 0 <= j < |a| ensures !(b[..j] == a[..j] && b[j] < a[j]) {
      if j < k {
        assert a[..k][j] == b[..k][j];
      } else if k < j {
        assert a[k] != b[k];
        assert a[..j][k] == a[k] && b[..j][k] == b[k];
      }
    }
  }

  /** The numeric order of equally long numbers is the byte order of their big-endian forms. */
  lemma BytesOrder(v: nat, w: nat, n: nat)
    requires v < Pow256(n) && w < Pow256(n)
    ensures v < w <==> BytesLess(Bytes(v, n), Bytes(w, n))
  {
    if v < w {
      SmallerGivesLess(v, w, n);
    } else if w < v {
      SmallerGivesLess(w, v, n);
      LessAsymmetric(Bytes(w, n), Bytes(v, n));
    }
  }

  lemma SixteenBytes()
    ensures Pow256(16) == UUID_RANGE
  {
    Pow256Is(16);
    Powers();
  }

  lemma SixteenBytesOrder(v: nat, w: nat)
    requires v < w < UUID_RANGE
    ensures BytesLess(Bytes(v, 16), Bytes(w, 16))
  {
    SixteenBytes();
    SmallerGivesLess(v, w, 16);
  }

  lemma EarlierIsSmaller(c: nat, a: nat, b: nat, c': nat, a': nat, b': nat)
    requires a < RAND_A_RANGE && a' < RAND_A_RANGE && b < RAND_B_RANGE && b' < RAND_B_RANGE
    requires c < c' < CLOCK_RANGE
    ensures NewUuid7(c, a, b) < NewUuid7(c', a', b') < UUID_RANGE
  {
    Powers();
    assert c % CLOCK_RANGE == c && c' % CLOCK_RANGE == c';
    PackedSum(c, a, b);
    PackedSum(c', a', b');
    FieldsOrder(c, a, b, c', a', b');
  }

  lemma FieldsOrder(c: nat, a: nat, b: nat, c': nat, a': nat, b': nat)
    requires a < 0x1000 && b < 0x4000_0000_0000_0000
    requires c < c' < 0x1_0000_0000_0000 && a' < 0x1000 && b' < 0x4000_0000_0000_0000
    ensures c * 0x1_0000_0000_0000_0000_0000 + 0x7000_0000_0000_0000_0000
            + a * 0x1_0000_0000_0000_0000 + 0x8000_0000_0000_0000 + b
          < c' * 0x1_0000_0000_0000_0000_0000 + 0x7000_0000_0000_0000_0000
            + a' * 0x1_0000_0000_0000_0000 + 0x8000_0000_0000_0000 + b'
          < 0x1_0000_0000_0000_0000_0000_0000_0000_0000
  {}

  /** An earlier millisecond gives a smaller number and a smaller 16-byte string, whatever the random fields. */
  lemma TimeOrdered(c: nat, a: nat, b: nat, c': nat, a': nat, b': nat)
    requires a < RAND_A_RANGE && a' < RAND_A_RANGE && b < RAND_B_RANGE && b' < RAND_B_RANGE
    requires c < c' < CLOCK_RANGE
    ensures NewUuid7(c, a, b) < NewUuid7(c', a', b')
    ensures BytesLess(Bytes(NewUuid7(c, a, b), 16), Bytes(NewUuid7(c', a', b'), 16))
  {
    EarlierIsSmaller(c, a, b, c', a', b');
    SixteenBytesOrder(NewUuid7(c, a, b), NewUuid7(c', a', b'));
  }

  /** The `n` low hexadecimal digits of a number. */
  function Hex(v: nat, n: nat): (s: string)
    ensures |s| == n
  {
    if n == 0 then "" else Hex(v / 16, n - 1) + [HexDigit(v % 16)]
  }

  function Pow16(n: nat): nat {
    if n == 0 then 1 else 16 * Pow16(n - 1)
  }

  lemma {:induction false} Pow16Is(n: nat)
    ensures Pow16(n) == Pow2(4 * n)
  {
    if n != 0 {
      Pow16Is(n - 1);
      Pow2Add(4, 4 * (n - 1));
      assert Pow2(4) == 16;
    }
  }

  lemma ThirtyTwoDigits()
    ensures Pow16(32) == UUID_RANGE
  {
    Pow16Is(32);
    Powers();
  }

  /** `str(UUID(int=v))`: groups of 8, 4, 4, 4 and 12 digits. */
  function UuidText(v: nat): string {
    var h := Hex(v, 32);
    h[..8] + "-" + h[8..12] + "-" + h[12..16] + "-" + h[16..20] + "-" + h[20..]
  }

  /** The number that hexadecimal digits denote, most significant first. */
  function ReadHex(s: string): Option<nat> {
    if s == "" then Some(0)
    else
      match (ReadHex(s[..|s| - 1]), HexValue(s[|s| - 1]))
      case (Some(high), Some(low)) => Some(high * 16 + low)
      case _ => None
  }

  /** A reader of identifiers (section 4 of RFC 9562): 32 digits in groups of 8, 4, 4, 4 and 12. */
  function ParseUuid(t: string): Option<nat> {
    if |t| == 36 && t[8] == '-' && t[13] == '-' && t[18] == '-' && t[23] == '-'
    then ReadHex(t[..8] + t[9..13] + t[14..18] + t[19..23] + t[24..])
    else None
  }

  lemma {:induction false} ReadHexOf(v: nat, n: nat)
    requires v < Pow16(n)
    ensures ReadHex(Hex(v, n)) == Some(v)
  {
    if n != 0 {
      ReadHexOf(v / 16, n - 1);
      assert Hex(v, n)[..n - 1] == Hex(v / 16, n - 1);
    }
  }

  lemma {:induction false} HexLower(v: nat, n: nat)
    ensures forall c | c in Hex(v, n) :: c in "0123456789abcdef"
  {
    if n != 0 {
      HexLower(v / 16, n - 1);
      HexDigits(v % 16);
    }
  }

  /** The text of an identifier is read back as the identifier, and is in lower case. */
  lemma UuidTextRead(v: nat)
    requires v < UUID_RANGE
    ensures ParseUuid(UuidText(v)) == Some(v)
    ensures forall c | c in UuidText(v) :: c in "0123456789abcdef-"
  {
    Ungrouped(v);
    ThirtyTwoDigits();
    ReadHexOf(v, 32);
    HexLower(v, 32);
  }

  /** The digits are the text without its hyphens. */
  lemma Ungrouped(v: nat)
    ensures var t := UuidText(v);
            && |t| == 36 && t[8] == '-' && t[13] == '-' && t[18] == '-' && t[23] == '-'
            && Hex(v, 32) == t[..8] + t[9..13] + t[14..18] + t[19..23] + t[24..]
  {
    var h := Hex(v, 32);
    assert h == h[..8] + h[8..12] + h[12..16] + h[16..20] + h[20..];
    var t := UuidText(v);
    assert t[..8] == h[..8] && t[9..13] == h[8..12] && t[14..18] == h[12..16];
    assert t[19..23] == h[16..20] && t[24..] == h[20..];
    assert t[8] == '-' && t[13] == '-' && t[18] == '-' && t[23] == '-';
  }

  /** Different identifiers have different texts. */
  lemma UuidTextInjective(v: nat, w: nat)
    requires v < UUID_RANGE && w < UUID_RANGE
    ensures UuidText(v) == UuidText(w) <==> v == w
  {
    if UuidText(v) == UuidText(w) {
      UuidTextRead(v);
      UuidTextRead(w);
    }
  }
}
