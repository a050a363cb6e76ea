/** What an address keeps of a key, and what a key read back from an address is good for. */
module CodecTheorems {
  import opened Bytes
  import opened Codec

  const ZERO_KEY: Key := seq(32, _ => 0)
  const NO_ADDRESS_BITS: Key := seq(32, _ => 0xff)

  function Min(a: int, b: int): int {
    if a < b then a else b
  }

  /** How many payload bits of a key with o leading zero bits its address holds. */
  function StoredBits(o: nat): nat {
    if o > 255 then 0 else Min(112, 8 * ((255 - o) / 8))
  }

  // ---- an address, bit by bit ----------------------------------------------------

  /** key starts with o 0 bits (all 256 of them, or up to a 1). */
  ghost predicate StartsWithZeros(key: Key, o: nat) {
    o <= 256 && (forall t | 0 <= t < o :: !BitAt(key, t)) && (o < 256 ==> BitAt(key, o))
  }

  /** What the address a of a key with o leading zeros says, bit by bit. */
  ghost predicate Describes(a: Address, prefix: Byte, key: Key, o: nat) {
    && a[0] == prefix
    && a[1] == Counter(o)
    && StartsWithZeros(key, o)
    && forall u | 0 <= u < 112 :: PayloadBit(a, u) == (u < StoredBits(o) && !BitAt(key, o + 1 + u))
  }

  lemma LeadingUnique(bits: seq<bool>, n: nat)
    requires IsLeading(bits, n)
    ensures LeadingOnes(bits) == n
  {
    assert IsLeading(bits, LeadingOnes(bits));
  }

  lemma OnesAreLeadingZeros(key: Key, o: nat)
    ensures Ones(key) == o <==> StartsWithZeros(key, o)
  {
    var inv := Inverse(key);
    if StartsWithZeros(key, o) {
      assert IsLeading(inv, o);
      LeadingUnique(inv, o);
    }
    if Ones(key) == o {
      assert IsLeading(inv, o);
      forall t | 0 <= t < o ensures !BitAt(key, t) {
        assert inv[t];
      }
      assert o < 256 ==> !inv[o];
    }
  }

  lemma ZeroBit(j: nat)
    requires j < 8
    ensures !BitOf(0, j) && BitOf(0xff, j)
  {
  }

  lemma ZeroKeyBits(t: nat)
    requires t < 256
    ensures !BitAt(ZERO_KEY, t) && BitAt(NO_ADDRESS_BITS, t)
  {
    ZeroBit(t % 8);
  }

  lemma ZerosOfZeroKey(key: Key)
    ensures StartsWithZeros(key, 256) <==> key == ZERO_KEY
    ensures Ones(key) == 256 <==> key == ZERO_KEY
  {
    OnesAreLeadingZeros(key, 256);
    forall t | 0 <= t < 256 ensures !BitAt(ZERO_KEY, t) {
      ZeroKeyBits(t);
    }
    if StartsWithZeros(key, 256) {
      SameBitsAt(key, ZERO_KEY);
    }
  }

  lemma PayloadByteBit(bits: seq<bool>, from: nat, j: nat, i: nat)
    requires i < 8
    ensures BitOf(PayloadByte(bits, from, j), i) ==
            (from + 8 * j + 8 <= |bits| && bits[from + 8 * j + i])
  {
    if from + 8 * j + 8 <= |bits| {
      var part := bits[from + 8 * j..from + 8 * j + 8];
      assert BitOf(ByteOf(part), i) == part[i];
    } else {
      ZeroBit(i);
    }
  }

  lemma AddressPayload(prefix: Byte, key: Key, u: nat)
    requires u < 112
    ensures PayloadBit(AddressOf(prefix, key), u) ==
            (Ones(key) + 8 * (u / 8) + 9 <= 256 && !BitAt(key, Ones(key) + 1 + u))
  {
    var j := u / 8;
    assert AddressOf(prefix, key)[(16 + u) / 8] == PayloadByte(Inverse(key), Ones(key) + 1, j);
    PayloadByteBit(Inverse(key), Ones(key) + 1, j, u % 8);
  }

  lemma WholeBytesFit(o: nat, u: nat)
    requires o <= 256 && u < 112
    ensures o + 8 * (u / 8) + 9 <= 256 <==> u < StoredBits(o)
  {
  }

  lemma AddressFacts(prefix: Byte, key: Key)
    ensures Describes(AddressOf(prefix, key), prefix, key, Ones(key))
  {
    var a, o := AddressOf(prefix, key), Ones(key);
    OnesAreLeadingZeros(key, o);
    forall u | 0 <= u < 112 ensures PayloadBit(a, u) == (u < StoredBits(o) && !BitAt(key, o + 1 + u)) {
      AddressPayload(prefix, key, u);
      WholeBytesFit(o, u);
    }
  }

  /** Addresses agree on their first 2 + n bytes when they agree on prefix, count and the
      payload bits of the other n. */
  lemma SameFirstBytes(a: Address, b: Address, n: nat)
    requires n <= 14
    ensures a[..2 + n] == b[..2 + n] <==>
            a[0] == b[0] && a[1] == b[1] && forall u | 0 <= u < 8 * n :: PayloadBit(a, u) == PayloadBit(b, u)
  {
    if a[0] == b[0] && a[1] == b[1] && forall u | 0 <= u < 8 * n :: PayloadBit(a, u) == PayloadBit(b, u) {
      forall i | 0 <= i < 2 + n ensures a[i] == b[i] {
        if i >= 2 {
          forall j | 0 <= j < 8 ensures BitOf(a[i], j) == BitOf(b[i], j) {
            assert PayloadBit(a, 8 * (i - 2) + j) == PayloadBit(b, 8 * (i - 2) + j);
          }
          SameBits(a[i], b[i]);
        }
      }
    }
    if a[..2 + n] == b[..2 + n] {
      forall i | 0 <= i < 2 + n ensures a[i] == b[i] {
        assert a[i] == a[..2 + n][i] && b[i] == b[..2 + n][i];
      }
      forall u | 0 <= u < 8 * n ensures PayloadBit(a, u) == PayloadBit(b, u) {
        assert a[(16 + u) / 8] == b[(16 + u) / 8];
      }
    }
  }

  lemma SameAddress(a: Address, b: Address)
    ensures a == b <==> a[0] == b[0] && a[1] == b[1] && forall u | 0 <= u < 112 :: PayloadBit(a, u) == PayloadBit(b, u)
  {
    SameFirstBytes(a, b, 14);
    assert a[..16] == a && b[..16] == b;
  }

  // ---- address to key to address -------------------------------------------------

  ghost predicate IsPartial(key: Key, a: Address) {
    forall t | 0 <= t < 256 :: BitAt(key, t) == PartialBit(a, t)
  }

  lemma PartialIsPartial(a: Address)
    ensures IsPartial(PartialKey(a), a)
  {
    forall t | 0 <= t < 256 ensures BitAt(PartialKey(a), t) == PartialBit(a, t) {
      PartialKeyBit(a, t);
    }
  }

  lemma PartialZeros(key: Key, a: Address)
    requires IsPartial(key, a)
    ensures StartsWithZeros(key, a[1] as int)
    ensures Ones(key) == a[1] as int
  {
    var o := a[1] as int;
    assert BitAt(key, o) == PartialBit(a, o);
    assert forall t | 0 <= t < o :: BitAt(key, t) == PartialBit(a, t);
    OnesAreLeadingZeros(key, o);
  }

  /** a with the given prefix, and without the payload bytes that no key has room for. */
  function Kept(prefix: Byte, a: Address): (k: Address) {
    seq(16, i requires 0 <= i < 16 =>
      if i == 0 then prefix
      else if i == 1 || 8 * (i - 2) < StoredBits(a[1] as int) then a[i]
      else 0)
  }

  lemma KeptBit(prefix: Byte, a: Address, u: nat)
    requires u < 112
    ensures PayloadBit(Kept(prefix, a), u) == (u < StoredBits(a[1] as int) && PayloadBit(a, u))
  {
    ZeroBit(u % 8);
    assert 8 * (u / 8) < StoredBits(a[1] as int) <==> u < StoredBits(a[1] as int);
    assert Kept(prefix, a)[(16 + u) / 8] == if u < StoredBits(a[1] as int) then a[(16 + u) / 8] else 0;
  }

  lemma PartialPayload(key: Key, a: Address, u: nat)
    requires IsPartial(key, a) && u < 112 && u < StoredBits(a[1] as int)
    ensures a[1] as int + 1 + u < 256
    ensures !BitAt(key, a[1] as int + 1 + u) == PayloadBit(a, u)
  {
    assert BitAt(key, a[1] as int + 1 + u) == PartialBit(a, a[1] as int + 1 + u);
  }

  lemma DerivedFromPartial(prefix: Byte, a: Address, key: Key, b: Address, k: Address)
    requires IsPartial(key, a) && Describes(b, prefix, key, a[1] as int)
    requires k[0] == prefix && k[1] == a[1]
    requires forall u | 0 <= u < 112 :: PayloadBit(k, u) == (u < StoredBits(a[1] as int) && PayloadBit(a, u))
    ensures b == k
  {
    var o := a[1] as int;
    CounterOf(a[1]);
    forall u | 0 <= u < 112 ensures PayloadBit(b, u) == PayloadBit(k, u) {
      if u < StoredBits(o) {
        PartialPayload(key, a, u);
      }
    }
    SameAddress(b, k);
  }

  /** Deriving the address of the key read from an address gives the address back, up to the
      payload bits past the end of a key. */
  lemma AddressToKeyToAddress(prefix: Byte, a: Address)
    ensures AddressOf(prefix, PartialKey(a)) == Kept(prefix, a)
    ensures a[1] <= 143 && a[0] == prefix ==> AddressOf(prefix, PartialKey(a)) == a
  {
    PartialIsPartial(a);
    PartialZeros(PartialKey(a), a);
    AddressFacts(prefix, PartialKey(a));
    KeptBits(prefix, a);
    DerivedFromPartial(prefix, a, PartialKey(a), AddressOf(prefix, PartialKey(a)), Kept(prefix, a));
    if a[1] <= 143 && a[0] == prefix {
      AllKept(prefix, a);
    }
  }

  lemma AllKept(prefix: Byte, a: Address)
    requires a[1] <= 143 && a[0] == prefix
    ensures Kept(prefix, a) == a
  {
    assert StoredBits(a[1] as int) == 112;
  }

  lemma KeptBits(prefix: Byte, a: Address)
    ensures forall u | 0 <= u < 112 ::
              PayloadBit(Kept(prefix, a), u) == (u < StoredBits(a[1] as int) && PayloadBit(a, u))
  {
    forall u | 0 <= u < 112
      ensures PayloadBit(Kept(prefix, a), u) == (u < StoredBits(a[1] as int) && PayloadBit(a, u))
    {
      KeptBit(prefix, a, u);
    }
  }

  lemma NothingToDrop(prefix: Byte, a: Address, k: Address, key: Key, o: nat)
    requires Describes(a, prefix, key, o) && k[0] == prefix && k[1] == a[1]
    requires forall u | 0 <= u < 112 :: PayloadBit(k, u) == (u < StoredBits(a[1] as int) && PayloadBit(a, u))
    ensures k == a
  {
    if o < 256 { CounterValue(o); }
    forall u | 0 <= u < 112 ensures PayloadBit(k, u) == PayloadBit(a, u) {
    }
    SameAddress(k, a);
  }

  /** On an address that some key has, the way to a key and back loses nothing. */
  lemma AddressSurvivesLookup(prefix: Byte, key: Key)
    ensures Kept(prefix, AddressOf(prefix, key)) == AddressOf(prefix, key)
    ensures AddressOf(prefix, PartialKey(AddressOf(prefix, key))) == AddressOf(prefix, key)
  {
    var a := AddressOf(prefix, key);
    AddressFacts(prefix, key);
    AddressToKeyToAddress(prefix, a);
    KeptBits(prefix, a);
    NothingToDrop(prefix, a, Kept(prefix, a), key, Ones(key));
  }

  // ---- key to address to key -----------------------------------------------------

  lemma PartialOfDerived(a: Address, prefix: Byte, key: Key, o: nat, partial: Key)
    requires o < 256 && Describes(a, prefix, key, o) && IsPartial(partial, a)
    ensures forall t | 0 <= t < 256 :: BitAt(partial, t) == (t >= o + 1 + StoredBits(o) || BitAt(key, t))
  {
    CounterValue(o);
    forall t | 0 <= t < 256
      ensures BitAt(partial, t) == (t >= o + 1 + StoredBits(o) || BitAt(key, t))
    {
      assert BitAt(partial, t) == PartialBit(a, t);
    }
  }

  /** The partial key of a key's own address agrees with the key on every bit the address
      holds, and continues with ones. */
  lemma KeyToAddressToKey(prefix: Byte, key: Key)
    requires key != ZERO_KEY
    ensures var known := Ones(key) + 1 + StoredBits(Ones(key));
            var partial := PartialKey(AddressOf(prefix, key));
            && known <= 256
            && (forall t | 0 <= t < known :: BitAt(partial, t) == BitAt(key, t))
            && (forall t | known <= t < 256 :: BitAt(partial, t))
  {
    var a := AddressOf(prefix, key);
    AddressFacts(prefix, key);
    PartialIsPartial(a);
    ZerosOfZeroKey(key);
    PartialOfDerived(a, prefix, key, Ones(key), PartialKey(a));
  }

  lemma NoPayload(a: Address, z: Address, prefix: Byte)
    requires Describes(a, prefix, ZERO_KEY, 256) && z == [prefix] + seq(15, _ => 0)
    ensures a == z
  {
    CounterWraps();
    forall u | 0 <= u < 112 ensures PayloadBit(a, u) == PayloadBit(z, u) {
      ZeroBit(u % 8);
    }
    SameAddress(a, z);
  }

  lemma PartialOfNothing(key: Key, z: Address)
    requires IsPartial(key, z) && forall i | 1 <= i < 16 :: z[i] == 0
    ensures key == NO_ADDRESS_BITS
  {
    forall t | 0 <= t < 256 ensures BitAt(key, t) == BitAt(NO_ADDRESS_BITS, t) {
      ZeroKeyBits(t);
      if 0 < t <= 112 { ZeroBit((16 + t - 1) % 8); }
      assert BitAt(key, t) == PartialBit(z, t);
    }
    SameBitsAt(key, NO_ADDRESS_BITS);
  }

  /** The all-zero key wraps its count around to 0, and is looked up as the all-ones key. */
  lemma ZeroKeyPartial(prefix: Byte)
    ensures AddressOf(prefix, ZERO_KEY) == [prefix] + seq(15, _ => 0)
    ensures PartialKey(AddressOf(prefix, ZERO_KEY)) == NO_ADDRESS_BITS
  {
    var z: Address := [prefix] + seq(15, _ => 0);
    ZerosOfZeroKey(ZERO_KEY);
    AddressFacts(prefix, ZERO_KEY);
    NoPayload(AddressOf(prefix, ZERO_KEY), z, prefix);
    PartialIsPartial(z);
    PartialOfNothing(PartialKey(z), z);
  }

  // ---- collisions ----------------------------------------------------------------

  ghost predicate AgreeOn(k1: Key, k2: Key, n: nat)
    requires n <= 256
  {
    forall t | 0 <= t < n :: BitAt(k1, t) == BitAt(k2, t)
  }

  lemma SharedKeyBits(a1: Address, a2: Address, prefix: Byte, k1: Key, k2: Key, o1: nat, o2: nat, n: nat)
    requires o1 < 256 && o2 < 256 && n <= 14
    requires Describes(a1, prefix, k1, o1) && Describes(a2, prefix, k2, o2)
    requires AgreeOn(k1, k2, o1 + 1 + Min(8 * n, StoredBits(o1)))
    ensures a1[..2 + n] == a2[..2 + n]
  {
    assert BitAt(k1, o1) == BitAt(k2, o1);
    assert StartsWithZeros(k2, o1);
    OnesAreLeadingZeros(k2, o1);
    OnesAreLeadingZeros(k2, o2);
    forall u | 0 <= u < 8 * n ensures PayloadBit(a1, u) == PayloadBit(a2, u) {
      if u < StoredBits(o1) { assert BitAt(k1, o1 + 1 + u) == BitAt(k2, o1 + 1 + u); }
    }
    SameFirstBytes(a1, a2, n);
  }

  lemma SharedAddressBits(a1: Address, a2: Address, prefix: Byte, k1: Key, k2: Key, o1: nat, o2: nat, n: nat)
    requires o1 < 256 && o2 < 256 && n <= 14
    requires Describes(a1, prefix, k1, o1) && Describes(a2, prefix, k2, o2)
    requires a1[..2 + n] == a2[..2 + n]
    ensures AgreeOn(k1, k2, o1 + 1 + Min(8 * n, StoredBits(o1)))
  {
    SameFirstBytes(a1, a2, n);
    CounterInjective(o1, o2);
    forall t | 0 <= t < o1 + 1 + Min(8 * n, StoredBits(o1)) ensures BitAt(k1, t) == BitAt(k2, t) {
      if t > o1 { assert PayloadBit(a1, t - o1 - 1) == PayloadBit(a2, t - o1 - 1); }
    }
  }

  /** The first 2 + n bytes of two addresses agree exactly when the keys agree on the bits
      those bytes are made from. */
  lemma SharedBytes(prefix: Byte, k1: Key, k2: Key, n: nat)
    requires k1 != ZERO_KEY && k2 != ZERO_KEY && n <= 14
    ensures Ones(k1) + 1 + StoredBits(Ones(k1)) <= 256
    ensures AddressOf(prefix, k1)[..2 + n] == AddressOf(prefix, k2)[..2 + n]
            <==> AgreeOn(k1, k2, Ones(k1) + 1 + Min(8 * n, StoredBits(Ones(k1))))
  {
    ZerosOfZeroKey(k1);
    ZerosOfZeroKey(k2);
    AddressFacts(prefix, k1);
    AddressFacts(prefix, k2);
    var a1, a2 := AddressOf(prefix, k1), AddressOf(prefix, k2);
    if a1[..2 + n] == a2[..2 + n] {
      SharedAddressBits(a1, a2, prefix, k1, k2, Ones(k1), Ones(k2), n);
    }
    if AgreeOn(k1, k2, Ones(k1) + 1 + Min(8 * n, StoredBits(Ones(k1)))) {
      SharedKeyBits(a1, a2, prefix, k1, k2, Ones(k1), Ones(k2), n);
    }
  }

  /** Two keys share an address exactly when they agree on their leading zeros, the 1 that
      ends them and every payload bit an address holds. */
  lemma AddressCollision(prefix: Byte, k1: Key, k2: Key)
    requires k1 != ZERO_KEY && k2 != ZERO_KEY
    ensures Ones(k1) + 1 + StoredBits(Ones(k1)) <= 256
    ensures AddressOf(prefix, k1) == AddressOf(prefix, k2)
            <==> AgreeOn(k1, k2, Ones(k1) + 1 + StoredBits(Ones(k1)))
  {
    SharedBytes(prefix, k1, k2, 14);
    assert AddressOf(prefix, k1)[..16] == AddressOf(prefix, k1);
    assert AddressOf(prefix, k2)[..16] == AddressOf(prefix, k2);
  }

  /** A subnet holds the first 48 payload bits only. */
  lemma SubnetCollision(prefix: Byte, k1: Key, k2: Key)
    requires k1 != ZERO_KEY && k2 != ZERO_KEY
    ensures Ones(k1) + 1 + StoredBits(Ones(k1)) <= 256
    ensures SubnetOf(prefix, k1) == SubnetOf(prefix, k2)
            <==> AgreeOn(k1, k2, Ones(k1) + 1 + Min(48, StoredBits(Ones(k1))))
  {
    SharedBytes(prefix, k1, k2, 6);
    SubnetIsFirstHalf(prefix, AddressOf(prefix, k1), AddressOf(prefix, k2));
  }

  lemma SubnetIsFirstHalf(prefix: Byte, a: Address, b: Address)
    requires a[0] == b[0]
    ensures [prefix | 1] + a[1..8] == [prefix | 1] + b[1..8] <==> a[..8] == b[..8]
  {
    assert a[..8] == [a[0]] + a[1..8] && b[..8] == [b[0]] + b[1..8];
    assert ([prefix | 1] + a[1..8])[1..] == a[1..8] == a[..8][1..];
    assert ([prefix | 1] + b[1..8])[1..] == b[1..8] == b[..8][1..];
  }

  /** The address of the all-zero key starts with 2 + n bytes that say: 0 leading zeros, and 8 * n
      payload bits that are 0. */
  lemma ZeroKeyShares(a: Address, z: Address, prefix: Byte, key: Key, o: nat, n: nat)
    requires o < 256 && n <= 14 && Describes(a, prefix, key, o) && Describes(z, prefix, ZERO_KEY, 256)
    ensures a[..2 + n] == z[..2 + n] <==> AgreeOn(key, NO_ADDRESS_BITS, 1 + 8 * n)
  {
    SameFirstBytes(a, z, n);
    CounterWraps();
    CounterValue(o);
    forall t | 0 <= t < 256 ensures BitAt(NO_ADDRESS_BITS, t) {
      ZeroKeyBits(t);
    }
    if a[..2 + n] == z[..2 + n] {
      forall t | 0 <= t < 1 + 8 * n ensures BitAt(key, t) {
        if t > 0 { assert PayloadBit(a, t - 1) == PayloadBit(z, t - 1); }
      }
    }
    if AgreeOn(key, NO_ADDRESS_BITS, 1 + 8 * n) {
      assert BitAt(key, 0) == BitAt(NO_ADDRESS_BITS, 0);
      forall u | 0 <= u < 8 * n ensures PayloadBit(a, u) == PayloadBit(z, u) {
        assert BitAt(key, u + 1) == BitAt(NO_ADDRESS_BITS, u + 1);
      }
    }
  }

  lemma ZeroKeySharesBytes(prefix: Byte, key: Key, n: nat)
    requires key != ZERO_KEY && n <= 14
    ensures AddressOf(prefix, key)[..2 + n] == AddressOf(prefix, ZERO_KEY)[..2 + n] <==> AgreeOn(key, NO_ADDRESS_BITS, 1 + 8 * n)
  {
    AddressFacts(prefix, key);
    AddressFacts(prefix, ZERO_KEY);
    ZerosOfZeroKey(key);
    ZerosOfZeroKey(ZERO_KEY);
    ZeroKeyShares(AddressOf(prefix, key), AddressOf(prefix, ZERO_KEY), prefix, key, Ones(key), n);
  }

  /** The all-zero key shares the address of the keys whose first 113 bits are all 1, and the
      subnet of those whose first 49 are. */
  lemma ZeroKeyCollision(prefix: Byte, key: Key)
    requires key != ZERO_KEY
    ensures AddressOf(prefix, key) == AddressOf(prefix, ZERO_KEY) <==> AgreeOn(key, NO_ADDRESS_BITS, 113)
    ensures SubnetOf(prefix, key) == SubnetOf(prefix, ZERO_KEY) <==> AgreeOn(key, NO_ADDRESS_BITS, 49)
  {
    ZeroKeySharesBytes(prefix, key, 14);
    assert AddressOf(prefix, key)[..16] == AddressOf(prefix, key);
    assert AddressOf(prefix, ZERO_KEY)[..16] == AddressOf(prefix, ZERO_KEY);
    ZeroKeySharesBytes(prefix, key, 6);
    SubnetIsFirstHalf(prefix, AddressOf(prefix, key), AddressOf(prefix, ZERO_KEY));
  }

  /** The subnet of a key is its address's first half with the last bit of the prefix set, and so
      inside the range of subnets; with an even prefix it is no node's first half. */
  lemma SubnetFacts(prefix: Byte, key: Key)
    ensures SubnetOf(prefix, key)[0] == prefix | 1
    ensures forall i | 1 <= i < 8 :: SubnetOf(prefix, key)[i] == AddressOf(prefix, key)[i]
    ensures ValidSubnet(prefix, SubnetOf(prefix, key))
    ensures prefix & 1 == 0 ==> SubnetOf(prefix, key)[0] != prefix
    ensures prefix & 1 == 0 ==> forall a: Address :: ValidAddress(prefix, a) ==> a[..8] != SubnetOf(prefix, key)
  {
    var s := SubnetOf(prefix, key);
    forall a: Address | prefix & 1 == 0 && ValidAddress(prefix, a) ensures a[..8] != s {
      assert a[..8][0] == prefix != s[0];
    }
  }

  /** Whatever the keys, one address means one subnet. */
  lemma SameAddressSameSubnet(prefix: Byte, k1: Key, k2: Key)
    requires AddressOf(prefix, k1) == AddressOf(prefix, k2)
    ensures SubnetOf(prefix, k1) == SubnetOf(prefix, k2)
  {
    assert SubnetOf(prefix, k1) == [prefix | 1] + AddressOf(prefix, k1)[1..8];
  }

  /** No destination is both a node's address and inside a node's subnet, provided the last
      bit of the prefix is 0; with a prefix that ends in 1 the two ranges are the same. */
  lemma AddressesAndSubnetsDisjoint(prefix: Byte)
    ensures prefix & 1 == 0 <==>
            forall dst: Address :: !(ValidAddress(prefix, dst) && ValidSubnet(prefix, dst[..8]))
  {
    if prefix & 1 != 0 {
      var dst: Address := seq(16, _ => prefix);
      assert ValidAddress(prefix, dst) && dst[..8][0] == prefix && prefix | 1 == prefix;
      assert ValidSubnet(prefix, dst[..8]);
    }
  }

  // ---- lookups -------------------------------------------------------------------

  /** The partial key sent to look up a key's address or subnet derives that key's subnet,
      which is what its owner checks. */
  lemma LookupReachesOwner(prefix: Byte, key: Key)
    ensures SubnetOf(prefix, PartialKey(AddressOf(prefix, key))) == SubnetOf(prefix, key)
    ensures SubnetOf(prefix, PartialKey(SubnetAddress(SubnetOf(prefix, key)))) == SubnetOf(prefix, key)
  {
    AddressSurvivesLookup(prefix, key);
    var a, s := AddressOf(prefix, key), SubnetAddress(SubnetOf(prefix, key));
    AddressToKeyToAddress(prefix, s);
    KeptFirstHalf(prefix, a, s);
  }

  lemma KeptFirstHalf(prefix: Byte, a: Address, s: Address)
    requires a[1..8] == s[1..8]
    ensures Kept(prefix, a)[1..8] == Kept(prefix, s)[1..8]
  {
    forall i | 1 <= i < 8 ensures a[i] == s[i] {
      assert a[i] == a[1..8][i - 1] && s[i] == s[1..8][i - 1];
    }
    assert forall i | 1 <= i < 8 :: Kept(prefix, a)[i] == Kept(prefix, s)[i];
  }
}
