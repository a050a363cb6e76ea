/** Bytes, their bits (bit 0 is the most significant, as on the wire), and the
    lexicographic order that keys and addresses are compared in. */
module Bytes {

  datatype Option<+T> = None | Some(value: T)

  type Byte = bv8

  /** An ed25519 public key. */
  type Key = k: seq<Byte> | |k| == 32 witness seq(32, _ => 0)

  /** An IPv6 address. */
  type Address = a: seq<Byte> | |a| == 16 witness seq(16, _ => 0)

  /** The first half of an IPv6 address: a /64 network. */
  type Subnet = s: seq<Byte> | |s| == 8 witness seq(8, _ => 0)

  function Mask(i: nat): Byte
    requires i < 8
  {
    if i == 0 then 0x80 else if i == 1 then 0x40 else if i == 2 then 0x20 else if i == 3 then 0x10
    else if i == 4 then 0x08 else if i == 5 then 0x04 else if i == 6 then 0x02 else 0x01
  }

  predicate BitOf(b: Byte, i: nat)
    requires i < 8
  {
    b & Mask(i) != 0
  }

  /** Bit t of a byte string. */
  predicate BitAt(s: seq<Byte>, t: nat)
    requires t < 8 * |s|
  {
    BitOf(s[t / 8], t % 8)
  }

  /** The byte with the given bits. */
  function ByteOf(s: seq<bool>): (b: Byte)
    requires |s| == 8
    ensures forall i | 0 <= i < 8 :: BitOf(b, i) == s[i]
  {
    (if s[0] then 0x80 else 0) | (if s[1] then 0x40 else 0) | (if s[2] then 0x20 else 0) | (if s[3] then 0x10 else 0)
    | (if s[4] then 0x08 else 0) | (if s[5] then 0x04 else 0) | (if s[6] then 0x02 else 0) | (if s[7] then 0x01 else 0)
  }

  lemma SameBits(a: Byte, b: Byte)
    requires forall i | 0 <= i < 8 :: BitOf(a, i) == BitOf(b, i)
    ensures a == b
  {
    assert BitOf(a, 0) == BitOf(b, 0);
    assert BitOf(a, 1) == BitOf(b, 1);
    assert BitOf(a, 2) == BitOf(b, 2);
    assert BitOf(a, 3) == BitOf(b, 3);
    assert BitOf(a, 4) == BitOf(b, 4);
    assert BitOf(a, 5) == BitOf(b, 5);
    assert BitOf(a, 6) == BitOf(b, 6);
    assert BitOf(a, 7) == BitOf(b, 7);
  }

  lemma MaskIsShift(i: nat)
    requires i < 8
    ensures 0x80 as Byte >> i == Mask(i)
  {
    if i == 0 {} else if i == 1 {} else if i == 2 {} else if i == 3 {}
    else if i == 4 {} else if i == 5 {} else if i == 6 {} else { assert i == 7; }
  }

  /** Isolating one bit and shifting it down to the bottom. */
  lemma ExtractBit(b: Byte, i: nat)
    requires i < 8
    ensures (b & (0x80 as Byte >> i)) >> (7 - i) == if BitOf(b, i) then 1 else 0
  {
    if i == 0 {} else if i == 1 {} else if i == 2 {} else if i == 3 {}
    else if i == 4 {} else if i == 5 {} else if i == 6 {} else { assert i == 7; }
  }

  lemma TopBit(v: Byte, i: nat)
    requires i < 8
    ensures (v & Mask(i)) << i == if BitOf(v, i) then 0x80 else 0
  {
    if i == 0 {} else if i == 1 {} else if i == 2 {} else if i == 3 {}
    else if i == 4 {} else if i == 5 {} else if i == 6 {} else { assert i == 7; }
  }

  lemma ZeroShifted(j: nat)
    requires j < 8
    ensures 0 as Byte >> j == 0
  {
    if j == 0 {} else if j == 1 {} else if j == 2 {} else if j == 3 {}
    else if j == 4 {} else if j == 5 {} else if j == 6 {} else { assert j == 7; }
  }

  /** Isolating bit i and moving it to position j. */
  lemma MoveBit(v: Byte, i: nat, j: nat)
    requires i < 8 && j < 8
    ensures ((v & (0x80 as Byte >> i)) << i) >> j == if BitOf(v, i) then Mask(j) else 0
  {
    MaskIsShift(i);
    TopBit(v, i);
    MaskIsShift(j);
    ZeroShifted(j);
  }

  /** Shifting a bit into an accumulator moves the bits already there up by one. */
  lemma PushBit(acc: Byte, bit: bool)
    ensures var r := (acc << 1) | (if bit then 1 else 0);
            BitOf(r, 7) == bit && forall i | 0 <= i < 7 :: BitOf(r, i) == BitOf(acc, i + 1)
  {
  }

  lemma OrMask(v: Byte, i: nat, j: nat)
    requires i < 8 && j < 8
    ensures BitOf(v | Mask(i), j) == (BitOf(v, j) || i == j)
  {
  }

  lemma InvertBit(v: Byte, i: nat)
    requires i < 8
    ensures BitOf(!v, i) == !BitOf(v, i)
  {
  }

  /** The byte holding bit t, OR-ed with the mask of that bit or with nothing. */
  function WithBit(s: seq<Byte>, t: nat, on: bool): (r: seq<Byte>)
    requires t < 8 * |s|
    ensures |r| == |s|
  {
    s[t / 8 := s[t / 8] | (if on then Mask(t % 8) else 0)]
  }

  lemma OrBit(s: seq<Byte>, t: nat, on: bool)
    requires t < 8 * |s|
    ensures forall u | 0 <= u < 8 * |s| :: BitAt(WithBit(s, t, on), u) == (BitAt(s, u) || (on && u == t))
  {
    if on {
      forall u | 0 <= u < 8 * |s| ensures BitAt(WithBit(s, t, on), u) == (BitAt(s, u) || u == t) {
        OrMask(s[t / 8], t % 8, u % 8);
      }
    } else {
      assert s[t / 8] | 0 == s[t / 8];
      assert WithBit(s, t, on) == s;
    }
  }

  lemma SameBitsAt(s: seq<Byte>, r: seq<Byte>)
    requires |s| == |r|
    requires forall t | 0 <= t < 8 * |s| :: BitAt(s, t) == BitAt(r, t)
    ensures s == r
  {
    forall i | 0 <= i < |s| ensures s[i] == r[i] {
      forall j | 0 <= j < 8 ensures BitOf(s[i], j) == BitOf(r[i], j) {
        assert BitAt(s, 8 * i + j) == BitAt(r, 8 * i + j);
      }
      SameBits(s[i], r[i]);
    }
  }

  /** A byte incremented n times from 0: it wraps around at 256. */
  function Counter(n: nat): Byte {
    if n == 0 then 0 else Counter(n - 1) + 1
  }

  lemma Increment(b: Byte)
    requires b < 255
    ensures (b + 1) as int == b as int + 1
  {
  }

  lemma {:induction false} CounterValue(n: nat)
    requires n < 256
    ensures Counter(n) as int == n
  {
    if n > 0 {
      CounterValue(n - 1);
      Increment(Counter(n - 1));
    }
  }

  lemma CounterWraps()
    ensures Counter(256) == 0
  {
    CounterValue(255);
    SameNumber(Counter(255), 255);
  }

  lemma SameNumber(a: Byte, b: Byte)
    requires a as int == b as int
    ensures a == b
  {
  }

  lemma CounterInjective(m: nat, n: nat)
    requires m < 256 && n < 256 && Counter(m) == Counter(n)
    ensures m == n
  {
    CounterValue(m);
    CounterValue(n);
  }

  lemma CounterOf(b: Byte)
    ensures Counter(b as int) == b
  {
    CounterValue(b as int);
    SameNumber(Counter(b as int), b);
  }

  lemma CounterLess(m: nat, n: nat)
    requires m < n < 256
    ensures Counter(m) < Counter(n)
  {
    CounterValue(m);
    CounterValue(n);
  }

  lemma LargerByBit(a: Byte, b: Byte, i: nat)
    requires i < 8 && !BitOf(a, i) && BitOf(b, i)
    requires forall j | 0 <= j < i :: BitOf(a, j) == BitOf(b, j)
    ensures a < b
  {
    if i > 0 { assert BitOf(a, 0) == BitOf(b, 0); }
    if i > 1 { assert BitOf(a, 1) == BitOf(b, 1); }
    if i > 2 { assert BitOf(a, 2) == BitOf(b, 2); }
    if i > 3 { assert BitOf(a, 3) == BitOf(b, 3); }
    if i > 4 { assert BitOf(a, 4) == BitOf(b, 4); }
    if i > 5 { assert BitOf(a, 5) == BitOf(b, 5); }
    if i > 6 { assert BitOf(a, 6) == BitOf(b, 6); }
  }

  /** A smaller byte has a 0 where the bytes first differ. */
  lemma FirstDifferentBit(a: Byte, b: Byte) returns (i: nat)
    requires a < b
    ensures i < 8 && !BitOf(a, i) && BitOf(b, i)
    ensures forall j | 0 <= j < i :: BitOf(a, j) == BitOf(b, j)
  {
    i := 0;
    while i < 8 && BitOf(a, i) == BitOf(b, i)
      invariant 0 <= i <= 8
      invariant forall j | 0 <= j < i :: BitOf(a, j) == BitOf(b, j)
    {
      i := i + 1;
    }
    if i == 8 {
      SameBits(a, b);
    } else if BitOf(a, i) {
      LargerByBit(b, a, i);
    }
  }

  /** a comes strictly before b: the first difference decides. */
  ghost predicate LexLess(a: seq<Byte>, b: seq<Byte>) {
    exists i :: 0 <= i < |a| && i < |b| && LessAt(a, b, i)
  }

  ghost predicate LessAt(a: seq<Byte>, b: seq<Byte>, i: nat)
    requires i < |a| && i < |b|
  {
    a[..i] == b[..i] && a[i] < b[i]
  }

  ghost predicate LexLessEq(a: seq<Byte>, b: seq<Byte>) {
    a == b || LexLess(a, b)
  }

  lemma LexTransitive(a: seq<Byte>, b: seq<Byte>, c: seq<Byte>)
    requires |a| == |b| == |c|
    requires LexLess(a, b) && LexLess(b, c)
    ensures LexLess(a, c)
  {
    var i: nat :| i < |a| && LessAt(a, b, i);
    var j: nat :| j < |b| && LessAt(b, c, j);
    var m := if i < j then i else j;
    assert a[..m] == a[..i][..m] && b[..m] == b[..i][..m] && b[..m] == b[..j][..m] && c[..m] == c[..j][..m];
    if i < j { assert b[i] == b[..j][i] == c[..j][i] == c[i]; }
    if j < i { assert a[j] == a[..i][j] == b[..i][j] == b[j]; }
    assert LessAt(a, c, m);
  }

  lemma LexAsymmetric(a: seq<Byte>, b: seq<Byte>)
    requires |a| == |b|
    ensures !(LexLess(a, b) && LexLess(b, a))
  {
    if LexLess(a, b) && LexLess(b, a) {
      LexTransitive(a, b, a);
    }
  }

  /** The first different bit decides the order of two byte strings. */
  lemma FirstBitDecides(a: seq<Byte>, b: seq<Byte>, t: nat)
    requires |a| == |b| && t < 8 * |a|
    requires !BitAt(a, t) && BitAt(b, t)
    requires forall u | 0 <= u < t :: BitAt(a, u) == BitAt(b, u)
    ensures LexLess(a, b)
  {
    var i := t / 8;
    forall k | 0 <= k < i ensures a[k] == b[k] {
      forall j | 0 <= j < 8 ensures BitOf(a[k], j) == BitOf(b[k], j) {
        assert BitAt(a, 8 * k + j) == BitAt(b, 8 * k + j);
      }
      SameBits(a[k], b[k]);
    }
    forall j | 0 <= j < t % 8 ensures BitOf(a[i], j) == BitOf(b[i], j) {
      assert BitAt(a, 8 * i + j) == BitAt(b, 8 * i + j);
    }
    LargerByBit(a[i], b[i], t % 8);
    assert LessAt(a, b, i);
  }

  lemma FirstDifferenceAt(a: seq<Byte>, b: seq<Byte>) returns (t: nat)
    requires |a| == |b| && LexLess(a, b)
    ensures t < 8 * |a| && !BitAt(a, t) && BitAt(b, t)
    ensures forall u | 0 <= u < t :: BitAt(a, u) == BitAt(b, u)
  {
    var i: nat :| i < |a| && LessAt(a, b, i);
    var j := FirstDifferentBit(a[i], b[i]);
    t := 8 * i + j;
    assert t / 8 == i && t % 8 == j;
    forall u | 0 <= u < t ensures BitAt(a, u) == BitAt(b, u) {
      assert u / 8 < i || (u / 8 == i && u % 8 < j);
      if u / 8 < i {
        assert a[u / 8] == a[..i][u / 8] == b[..i][u / 8] == b[u / 8];
      }
    }
  }

  lemma LexTotal(a: seq<Byte>, b: seq<Byte>)
    requires |a| == |b|
    ensures a == b || LexLess(a, b) || LexLess(b, a)
  {
    var i := 0;
    while i < |a| && a[i] == b[i]
      invariant 0 <= i <= |a|
      invariant a[..i] == b[..i]
    {
      i := i + 1;
    }
    if i < |a| {
      assert LessAt(a, b, i) || LessAt(b, a, i);
    } else {
      assert a == a[..i] && b == b[..i];
    }
  }
}
