/** Addresses and subnets derived from keys, and the partial keys read back from them. */
module Codec {
  import opened Bytes

  // ---- what the derivation means -------------------------------------------------

  /** The bits of the bitwise inverse of the key. */
  function Inverse(key: Key): (bits: seq<bool>)
    ensures |bits| == 256
  {
    seq(256, t requires 0 <= t < 256 => !BitAt(key, t))
  }

  function LeadingOnes(bits: seq<bool>): (n: nat)
    ensures n <= |bits|
    ensures forall t | 0 <= t < n :: bits[t]
    ensures n < |bits| ==> !bits[n]
  {
    if bits == [] || !bits[0] then 0 else 1 + LeadingOnes(bits[1..])
  }

  ghost predicate IsLeading(bits: seq<bool>, n: nat) {
    n <= |bits| && (forall t | 0 <= t < n :: bits[t]) && (n < |bits| ==> !bits[n])
  }

  /** How many 1 bits the inverted key starts with: 256 for the all-zero key only. */
  function Ones(key: Key): nat {
    LeadingOnes(Inverse(key))
  }

  /** Byte j of the payload: the j-th whole byte of the inverted key after its leading ones
      and the 0 that ends them, or 0 when no whole byte is left. */
  function PayloadByte(bits: seq<bool>, from: nat, j: nat): Byte {
    if from + 8 * j + 8 <= |bits| then ByteOf(bits[from + 8 * j..from + 8 * j + 8]) else 0
  }

  /** The address of a key: prefix, number of leading ones in a byte, fourteen payload bytes. */
  function AddressOf(prefix: Byte, key: Key): (a: Address) {
    seq(16, i requires 0 <= i < 16 =>
      if i == 0 then prefix
      else if i == 1 then Counter(Ones(key))
      else PayloadByte(Inverse(key), Ones(key) + 1, i - 2))
  }

  function SubnetOf(prefix: Byte, key: Key): (s: Subnet) {
    [prefix | 1] + AddressOf(prefix, key)[1..8]
  }

  /** Bit u of the fourteen bytes after the prefix and the count. */
  predicate PayloadBit(a: Address, u: nat)
    requires u < 112
  {
    BitAt(a, 16 + u)
  }

  /** Bit t of the partial key: as many 0 bits as the address counts, a 1, the inverted
      payload, and 1 bits for everything the address does not say. */
  predicate PartialBit(a: Address, t: nat)
    requires t < 256
  {
    var o := a[1] as int;
    t >= o && (o < t <= o + 112 ==> !PayloadBit(a, t - o - 1))
  }

  function PartialKey(a: Address): (key: Key) {
    seq(32, i requires 0 <= i < 32 => ByteOf(seq(8, j requires 0 <= j < 8 => PartialBit(a, 8 * i + j))))
  }

  /** The address a subnet is looked up under: its eight bytes and eight zero bytes. */
  function SubnetAddress(s: Subnet): (a: Address) {
    s + seq(8, _ => 0)
  }

  predicate ValidAddress(prefix: Byte, a: Address) {
    a[0] == prefix
  }

  predicate ValidSubnet(prefix: Byte, s: Subnet) {
    s[0] == prefix | 1
  }

  // ---- the loops that compute it -------------------------------------------------

  /** One bit of a byte, at the bottom. */
  function Isolated(b: Byte, i: nat): (bit: Byte)
    requires i < 8
    ensures bit == if BitOf(b, i) then 1 else 0
  {
    ExtractBit(b, i);
    (b & (0x80 >> i)) >> (7 - i)
  }

  /** Bit i of a byte, at position j. */
  function Moved(b: Byte, i: nat, j: nat): (bits: Byte)
    requires i < 8 && j < 8
    ensures bits == if BitOf(b, i) then Mask(j) else 0
  {
    MoveBit(b, i, j);
    ((b & (0x80 >> i)) << i) >> j
  }

  /** Go's copy(dst[at:], src). */
  method CopyInto(dst: array<Byte>, at: nat, src: seq<Byte>) returns (n: nat)
    requires at <= dst.Length
    modifies dst
    ensures n == if |src| <= dst.Length - at then |src| else dst.Length - at
    ensures dst[..] == old(dst[..at]) + src[..n] + old(dst[at + n..])
  {
    n := 0;
    while n < |src| && at + n < dst.Length
      invariant n <= |src| && at + n <= dst.Length
      invariant dst[..] == old(dst[..at]) + src[..n] + old(dst[at + n..])
    {
      dst[at + n] := src[n];
      n := n + 1;
    }
  }

  /** The low nBits bits of the accumulator are the last nBits bits scanned. It is never
      cleared, so nothing is said of the bits above them. */
  ghost predicate Tail(inv: seq<bool>, idx: nat, bits: Byte, nBits: nat)
    requires nBits <= 8 && nBits <= idx <= |inv|
  {
    forall i | 8 - nBits <= i < 8 :: BitOf(bits, i) == inv[idx - 8 + i]
  }

  ghost predicate WholeBytes(inv: seq<bool>, from: nat, temp: seq<Byte>) {
    forall j | 0 <= j < |temp| :: temp[j] == PayloadByte(inv, from, j)
  }

  /** What the scan of the inverted key, with o leading ones, has gathered after idx bits. */
  ghost predicate Scanned(inv: seq<bool>, o: nat, idx: nat, done: bool, ones: Byte, bits: Byte, nBits: nat, temp: seq<Byte>)
    requires idx <= |inv|
  {
    if !done then
      idx <= o && ones == Counter(idx) && temp == [] && nBits == 0
    else
      && o < idx
      && ones == Counter(o)
      && nBits == (idx - o - 1) % 8
      && |temp| == (idx - o - 1) / 8
      && WholeBytes(inv, o + 1, temp)
      && Tail(inv, idx, bits, nBits)
  }

  lemma PushTail(inv: seq<bool>, idx: nat, bits: Byte, nBits: nat)
    requires nBits < 8 && nBits <= idx < |inv| && Tail(inv, idx, bits, nBits)
    ensures Tail(inv, idx + 1, (bits << 1) | (if inv[idx] then 1 else 0), nBits + 1)
  {
    var r := (bits << 1) | (if inv[idx] then 1 else 0);
    PushBit(bits, inv[idx]);
    forall i | 8 - (nBits + 1) <= i < 8 ensures BitOf(r, i) == inv[idx + 1 - 8 + i] {
      if i < 7 { assert BitOf(bits, i + 1) == inv[idx - 8 + (i + 1)]; }
    }
  }

  lemma FullTail(inv: seq<bool>, idx: nat, bits: Byte)
    requires 8 <= idx <= |inv| && Tail(inv, idx, bits, 8)
    ensures bits == ByteOf(inv[idx - 8..idx])
  {
    SameBits(bits, ByteOf(inv[idx - 8..idx]));
  }

  /** One more payload bit shifted in; the eighth completes a byte. */
  lemma ScanBit(inv: seq<bool>, o: nat, idx: nat, ones: Byte, bits: Byte, nBits: nat, temp: seq<Byte>, bit: Byte)
    requires idx < |inv| && Scanned(inv, o, idx, true, ones, bits, nBits, temp)
    requires bit == if inv[idx] then 1 else 0
    ensures var r := (bits << 1) | bit;
            if nBits + 1 == 8
            then Scanned(inv, o, idx + 1, true, ones, r, 0, temp + [r])
            else Scanned(inv, o, idx + 1, true, ones, r, nBits + 1, temp)
  {
    var r := (bits << 1) | (if inv[idx] then 1 else 0);
    PushTail(inv, idx, bits, nBits);
    if nBits + 1 == 8 {
      FullTail(inv, idx + 1, r);
      assert o + 1 + 8 * |temp| == idx - 7;
      assert r == PayloadByte(inv, o + 1, |temp|);
    }
  }

  /** Before the first 0 bit the scan only counts. */
  lemma ScanLeading(inv: seq<bool>, o: nat, idx: nat, ones: Byte, bits: Byte, nBits: nat, temp: seq<Byte>, bit: Byte)
    requires IsLeading(inv, o) && idx < |inv| && Scanned(inv, o, idx, false, ones, bits, nBits, temp)
    requires bit == if inv[idx] then 1 else 0
    ensures if bit != 0
            then Scanned(inv, o, idx + 1, false, ones + 1, bits, nBits, temp)
            else Scanned(inv, o, idx + 1, true, ones, bits, nBits, temp)
  {
    if inv[idx] {
      assert idx < o;
    } else {
      assert idx == o;
    }
  }

  method Invert(publicKey: Key) returns (buf: array<Byte>)
    ensures fresh(buf) && buf.Length == 32
    ensures forall t | 0 <= t < 256 :: BitAt(buf[..], t) == Inverse(publicKey)[t]
  {
    buf := new Byte[32](i requires 0 <= i < 32 => publicKey[i]);
    for i := 0 to 32
      invariant forall j | 0 <= j < 32 :: buf[j] == if j < i then !publicKey[j] else publicKey[j]
    {
      buf[i] := !buf[i];
    }
    forall t | 0 <= t < 256 ensures BitAt(buf[..], t) == Inverse(publicKey)[t] {
      InvertBit(publicKey[t / 8], t % 8);
    }
  }

  /** One turn of the loop over the bits of the inverted key. */
  method ScanOne(bit: Byte, done: bool, ones: Byte, bits: Byte, nBits: nat, temp: seq<Byte>,
                 ghost inv: seq<bool>, ghost o: nat, ghost idx: nat)
    returns (done': bool, ones': Byte, bits': Byte, nBits': nat, temp': seq<Byte>)
    requires IsLeading(inv, o) && idx < |inv| && bit == if inv[idx] then 1 else 0
    requires Scanned(inv, o, idx, done, ones, bits, nBits, temp)
    ensures Scanned(inv, o, idx + 1, done', ones', bits', nBits', temp')
  {
    done', ones', bits', nBits', temp' := done, ones, bits, nBits, temp;
    if !done && bit != 0 {
      ScanLeading(inv, o, idx, ones, bits, nBits, temp, bit);
      ones' := ones + 1;
      return;
    }
    if !done && bit == 0 {
      ScanLeading(inv, o, idx, ones, bits, nBits, temp, bit);
      done' := true;
      return;
    }
    ScanBit(inv, o, idx, ones, bits, nBits, temp, bit);
    bits' := (bits << 1) | bit;
    nBits' := nBits + 1;
    if nBits' == 8 {
      nBits' := 0;
      temp' := temp + [bits'];
    }
  }

  method ScanKey(buf: seq<Byte>, ghost inv: seq<bool>, ghost o: nat)
    returns (done: bool, ones: Byte, bits: Byte, nBits: nat, temp: seq<Byte>)
    requires |buf| == 32 && |inv| == 256
    requires forall t | 0 <= t < 256 :: BitAt(buf, t) == inv[t]
    requires IsLeading(inv, o)
    ensures Scanned(inv, o, 256, done, ones, bits, nBits, temp)
  {
    temp, done, ones, bits, nBits := [], false, 0, 0, 0;
    for idx := 0 to 256
      invariant Scanned(inv, o, idx, done, ones, bits, nBits, temp)
    {
      var bit := Isolated(buf[idx / 8], idx % 8);
      assert bit == if inv[idx] then 1 else 0 by { assert BitAt(buf, idx) == inv[idx]; }
      done, ones, bits, nBits, temp := ScanOne(bit, done, ones, bits, nBits, temp, inv, o, idx);
    }
  }

  method AddrForKey(prefix: Byte, publicKey: seq<Byte>) returns (r: Option<Address>)
    ensures |publicKey| != 32 ==> r == None
    ensures |publicKey| == 32 ==> r == Some(AddressOf(prefix, publicKey))
  {
    if |publicKey| != 32 {
      return None;
    }
    var buf := Invert(publicKey);
    var done, ones, bits, nBits, temp := ScanKey(buf[..], Inverse(publicKey), Ones(publicKey));
    var addr := Assemble(prefix, ones, temp);
    ScanToAddress(prefix, publicKey, done, ones, bits, nBits, temp, addr);
    return Some(addr);
  }

  method Assemble(prefix: Byte, ones: Byte, temp: seq<Byte>) returns (r: seq<Byte>)
    ensures |r| == 16 && r[0] == prefix && r[1] == ones
    ensures forall i | 2 <= i < 16 :: r[i] == if i - 2 < |temp| then temp[i - 2] else 0
  {
    var addr := new Byte[16](_ => 0);
    addr[0] := prefix;
    addr[1] := ones;
    var n := CopyInto(addr, 2, temp);
    r := addr[..];
  }

  lemma ScanToAddress(prefix: Byte, key: Key, done: bool, ones: Byte, bits: Byte, nBits: nat, temp: seq<Byte>, addr: seq<Byte>)
    requires Scanned(Inverse(key), Ones(key), 256, done, ones, bits, nBits, temp)
    requires |addr| == 16 && addr[0] == prefix && addr[1] == ones
    requires forall i | 2 <= i < 16 :: addr[i] == if i - 2 < |temp| then temp[i - 2] else 0
    ensures addr == AddressOf(prefix, key)
  {
    var inv, o := Inverse(key), Ones(key);
    forall i | 2 <= i < 16 ensures addr[i] == PayloadByte(inv, o + 1, i - 2) {
      PastTheEnd(inv, o + 1, i - 2);
      if done { assert i - 2 < |temp| <==> o + 1 + 8 * (i - 2) + 8 <= 256; }
    }
  }

  lemma PastTheEnd(bits: seq<bool>, from: nat, j: nat)
    ensures from + 8 * j + 8 > |bits| ==> PayloadByte(bits, from, j) == 0
  {
  }

  method SubnetForKey(prefix: Byte, publicKey: seq<Byte>) returns (r: Option<Subnet>)
    ensures |publicKey| != 32 ==> r == None
    ensures |publicKey| == 32 ==> r == Some(SubnetOf(prefix, publicKey))
    ensures |publicKey| == 32 ==> r.value[0] == prefix | 1 && r.value[1..] == AddressOf(prefix, publicKey)[1..8]
  {
    var addr := AddrForKey(prefix, publicKey);
    if addr == None {
      return None;
    }
    var snet := new Byte[8](i requires 0 <= i < 8 => addr.value[i]);
    snet[0] := snet[0] | 1;
    ghost var a := addr.value;
    assert a[0] == prefix;
    assert snet[..] == [prefix | 1] + a[1..8];
    return Some(snet[..]);
  }

  /** The bits GetAddressKey has set once it has copied n payload bits. */
  ghost predicate Filled(a: Address, key: seq<Byte>, n: nat)
    requires |key| == 32
  {
    var o := a[1] as int;
    forall t | 0 <= t < 256 :: BitAt(key, t) == (t < o + 1 + n && !PartialBit(a, t))
  }

  /** key[t / 8] |= bits, where bits is the mask of bit t or nothing. */
  method OrInto(key: array<Byte>, t: nat, bits: Byte, ghost on: bool)
    requires t < 8 * key.Length && bits == if on then Mask(t % 8) else 0
    modifies key
    ensures key[..] == WithBit(old(key[..]), t, on)
  {
    key[t / 8] := key[t / 8] | bits;
  }

  /** The first two loops of GetAddressKey. */
  method SetOnes(key: array<Byte>, ones: nat)
    requires key.Length == 32 && ones < 256
    requires forall j | 0 <= j < 32 :: key[j] == 0
    modifies key
    ensures forall t | 0 <= t < 256 :: BitAt(key[..], t) <==> t < ones
  {
    ghost var now := key[..];
    forall t | 0 <= t < 256 ensures !BitAt(now, t) { assert now[t / 8] == 0; }
    for idx := 0 to ones
      invariant key[..] == now && |now| == 32
      invariant forall t | 0 <= t < 256 :: BitAt(now, t) <==> t < idx
    {
      OrBit(now, idx, true);
      MaskIsShift(idx % 8);
      OrInto(key, idx, 0x80 >> (idx % 8), true);
      now := WithBit(now, idx, true);
    }
  }

  method SetPayload(key: array<Byte>, a: Address) returns (ghost n: nat)
    requires key.Length == 32 && Filled(a, key[..], 0)
    modifies key
    ensures Filled(a, key[..], n) && (n == 112 || a[1] as int + 1 + n >= 256)
  {
    var keyOffset := a[1] as int + 1;
    var addrOffset := 16;
    var idx := addrOffset;
    ghost var now := key[..];
    while idx < 128
      invariant 16 <= idx <= 128
      invariant key[..] == now && |now| == 32
      invariant Filled(a, now, idx - addrOffset)
    {
      var keyIdx := keyOffset + (idx - addrOffset);
      var bits := Moved(a[idx / 8], idx % 8, keyIdx % 8);
      if keyIdx / 8 >= 32 {
        break;
      }
      FillBit(a, now, idx - addrOffset);
      OrInto(key, keyIdx, bits, PayloadBit(a, idx - addrOffset));
      now := WithBit(now, keyIdx, PayloadBit(a, idx - addrOffset));
      idx := idx + 1;
    }
    n := idx - addrOffset;
  }

  method GetAddressKey(a: Address) returns (r: Key)
    ensures r == PartialKey(a)
  {
    var key := new Byte[32](_ => 0);
    SetOnes(key, a[1] as int);
    ghost var n := SetPayload(key, a);
    ghost var held := key[..];
    for idx := 0 to 32
      invariant forall j | 0 <= j < 32 :: key[j] == if j < idx then !held[j] else held[j]
    {
      key[idx] := !key[idx];
    }
    FilledInverse(a, held, key[..], n);
    return key[..];
  }

  lemma FillBit(a: Address, key: seq<Byte>, n: nat)
    requires |key| == 32 && n < 112 && a[1] as int + 1 + n < 256 && Filled(a, key, n)
    ensures Filled(a, WithBit(key, a[1] as int + 1 + n, PayloadBit(a, n)), n + 1)
  {
    var t := a[1] as int + 1 + n;
    assert PartialBit(a, t) == !PayloadBit(a, n);
    OrBit(key, t, PayloadBit(a, n));
  }

  lemma PartialKeyBit(a: Address, t: nat)
    requires t < 256
    ensures BitAt(PartialKey(a), t) == PartialBit(a, t)
  {
    var i, j := t / 8, t % 8;
    var bits := seq(8, j requires 0 <= j < 8 => PartialBit(a, 8 * i + j));
    assert PartialKey(a)[i] == ByteOf(bits);
    assert BitOf(ByteOf(bits), j) == bits[j];
  }

  lemma FilledInverse(a: Address, held: seq<Byte>, key: seq<Byte>, n: nat)
    requires |held| == |key| == 32 && Filled(a, held, n) && (n == 112 || a[1] as int + 1 + n >= 256)
    requires forall j | 0 <= j < 32 :: key[j] == !held[j]
    ensures key == PartialKey(a)
  {
    forall t | 0 <= t < 256 ensures BitAt(key, t) == BitAt(PartialKey(a), t) {
      PartialKeyBit(a, t);
      InvertBit(held[t / 8], t % 8);
      assert BitAt(held, t) == !PartialBit(a, t);
    }
    SameBitsAt(key, PartialKey(a));
  }

  method GetSubnetKey(s: Subnet) returns (r: Key)
    ensures r == PartialKey(SubnetAddress(s))
  {
    var addr := new Byte[16](_ => 0);
    var n := CopyInto(addr, 0, s);
    assert addr[..] == SubnetAddress(s);
    r := GetAddressKey(addr[..]);
  }

  method IsValidAddress(prefix: seq<Byte>, a: Address) returns (ok: bool)
    requires 1 <= |prefix| <= 16
    ensures ok == (prefix <= a)
  {
    for idx := 0 to |prefix|
      invariant a[..idx] == prefix[..idx]
    {
      if a[idx] != prefix[idx] {
        return false;
      }
    }
    return true;
  }

  method IsValidSubnet(prefix: seq<Byte>, s: Subnet) returns (ok: bool)
    requires 1 <= |prefix| <= 8
    ensures ok == (prefix[..|prefix| - 1] <= s && s[|prefix| - 1] == prefix[|prefix| - 1] | 1)
  {
    var l := |prefix|;
    for idx := 0 to l - 1
      invariant s[..idx] == prefix[..idx]
    {
      if s[idx] != prefix[idx] {
        assert s[..l - 1][idx] != prefix[idx];
        return false;
      }
    }
    return s[l - 1] == prefix[l - 1] | 0x01;
  }
}
