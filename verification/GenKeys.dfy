/** The key generator: it keeps the smallest key seen and prints every improvement, because a
    smaller key has a higher address. */
module GenKeys {
  import opened Bytes
  import opened Codec
  import opened CodecTheorems

  method IsBetter(oldPub: seq<Byte>, newPub: seq<Byte>) returns (better: bool)
    requires |oldPub| <= |newPub|
    ensures better <==> LexLess(newPub, oldPub)
  {
    for idx := 0 to |oldPub|
      invariant newPub[..idx] == oldPub[..idx]
    {
      if newPub[idx] < oldPub[idx] {
        assert LessAt(newPub, oldPub, idx);
        return true;
      }
      if newPub[idx] > oldPub[idx] {
        NotLessAfter(newPub, oldPub, idx);
        return false;
      }
    }
    forall i | 0 <= i < |oldPub| ensures !LessAt(newPub, oldPub, i) {
      assert newPub[i] == newPub[..|oldPub|][i];
    }
    return false;
  }

  lemma NotLessAfter(a: seq<Byte>, b: seq<Byte>, i: nat)
    requires i < |a| && i < |b| && a[..i] == b[..i] && a[i] > b[i]
    ensures !LexLess(a, b)
  {
    forall j | 0 <= j < |a| && j < |b| ensures !LessAt(a, b, j) {
      if j < i {
        assert a[..i][j] == a[j] && b[..i][j] == b[j];
      } else if i < j {
        assert a[..j][i] == a[i] && b[..j][i] == b[i];
      }
    }
  }

  ghost predicate StrictlyDescending(keys: seq<Key>) {
    forall i | 0 < i < |keys| :: LexLess(keys[i], keys[i - 1])
  }

  /** best is one of the keys and no key is smaller. */
  ghost predicate SmallestOf(best: Key, keys: seq<Key>) {
    best in keys && forall k | k in keys :: LexLessEq(best, k)
  }

  /** The key at i is smaller than every key before it. */
  ghost predicate Improves(keys: seq<Key>, i: nat)
    requires i < |keys|
  {
    forall j | 0 <= j < i :: LexLess(keys[i], keys[j])
  }

  /** The keys in out are those that improve on all before them, every one of them, in order. */
  ghost predicate Improvements(out: seq<Key>, keys: seq<Key>) {
    && StrictlyDescending(out)
    && (forall i | 0 <= i < |keys| && Improves(keys, i) :: keys[i] in out)
    && (forall k | k in out :: exists i | 0 <= i < |keys| :: keys[i] == k && Improves(keys, i))
  }

  lemma SameImproves(keys: seq<Key>, k: Key, i: nat)
    requires i < |keys|
    ensures Improves(keys + [k], i) <==> Improves(keys, i)
  {
    assert forall j | 0 <= j <= i :: (keys + [k])[j] == keys[j];
  }

  lemma NewestImproves(keys: seq<Key>, best: Key, k: Key)
    requires SmallestOf(best, keys)
    ensures Improves(keys + [k], |keys|) <==> LexLess(k, best)
  {
    var more := keys + [k];
    var j :| 0 <= j < |keys| && keys[j] == best;
    assert more[j] == best;
    if LexLess(k, best) {
      forall i | 0 <= i < |keys| ensures LexLess(more[|keys|], more[i]) {
        assert keys[i] in keys;
        if keys[i] != best { LexTransitive(k, best, keys[i]); }
      }
    }
  }

  lemma OneMoreKey(out: seq<Key>, keys: seq<Key>, k: Key)
    requires out != [] && Improvements(out, keys) && SmallestOf(out[|out| - 1], keys)
    ensures Improvements(if LexLess(k, out[|out| - 1]) then out + [k] else out, keys + [k])
  {
    NewestImproves(keys, out[|out| - 1], k);
    StillFrom(out, keys, k);
    AllIn(out, keys, k);
    if LexLess(k, out[|out| - 1]) {
      assert StrictlyDescending(out + [k]);
      assert (keys + [k])[|keys|] == k;
    }
  }

  lemma AllIn(out: seq<Key>, keys: seq<Key>, k: Key)
    requires Improvements(out, keys)
    ensures forall i | 0 <= i < |keys + [k]| && Improves(keys + [k], i) :: (keys + [k])[i] in out + [k]
    ensures forall i | 0 <= i < |keys| && Improves(keys + [k], i) :: (keys + [k])[i] in out
  {
    forall i | 0 <= i < |keys| ensures Improves(keys + [k], i) ==> (keys + [k])[i] in out {
      SameImproves(keys, k, i);
    }
  }

  lemma StillFrom(out: seq<Key>, keys: seq<Key>, k: Key)
    requires Improvements(out, keys)
    ensures forall c | c in out :: exists i | 0 <= i < |keys + [k]| :: (keys + [k])[i] == c && Improves(keys + [k], i)
  {
    forall c | c in out ensures exists i | 0 <= i < |keys + [k]| :: (keys + [k])[i] == c && Improves(keys + [k], i) {
      var i :| 0 <= i < |keys| && keys[i] == c && Improves(keys, i);
      SameImproves(keys, k, i);
      assert (keys + [k])[i] == c;
    }
  }

  lemma SmallestNow(k: Key, best: Key, keys: seq<Key>)
    requires SmallestOf(best, keys)
    ensures SmallestOf(if LexLess(k, best) then k else best, keys + [k])
  {
    if !LexLess(k, best) { LexTotal(k, best); }
    forall c | c in keys && c != best && LexLess(k, best) ensures LexLess(k, c) {
      LexTransitive(k, best, c);
    }
  }

  /** What is kept of the keys: each that is smaller than the one kept last. */
  ghost function Kept(keys: seq<Key>): (out: seq<Key>)
    ensures keys == [] <==> out == []
  {
    if keys == [] then [] else
      var out, k := Kept(keys[..|keys| - 1]), keys[|keys| - 1];
      if out == [] || LexLess(k, out[|out| - 1]) then out + [k] else out
  }

  lemma KeptOneMore(keys: seq<Key>, k: Key)
    ensures Kept(keys + [k]) == if keys == [] || LexLess(k, Kept(keys)[|Kept(keys)| - 1]) then Kept(keys) + [k] else Kept(keys)
  {
    assert (keys + [k])[..|keys|] == keys;
  }

  /** What is kept goes from the first key to the smallest. */
  lemma {:induction false} SmallestIsKept(keys: seq<Key>)
    requires keys != []
    ensures Kept(keys)[0] == keys[0] && SmallestOf(Kept(keys)[|Kept(keys)| - 1], keys)
  {
    var n := |keys| - 1;
    if n > 0 {
      SmallestIsKept(keys[..n]);
      SmallestNow(keys[n], Kept(keys[..n])[|Kept(keys[..n])| - 1], keys[..n]);
      assert keys == keys[..n] + [keys[n]];
    }
  }

  /** It consists of exactly the keys that are smaller than all before them. */
  lemma {:induction false} KeptAreImprovements(keys: seq<Key>)
    ensures Improvements(Kept(keys), keys)
  {
    var n := |keys| - 1;
    if n == 0 {
      assert Improves(keys, 0) && Kept(keys) == [keys[0]];
    } else if n > 0 {
      KeptAreImprovements(keys[..n]);
      SmallestIsKept(keys[..n]);
      assert keys == keys[..n] + [keys[n]];
      OneMoreKey(Kept(keys[..n]), keys[..n], keys[n]);
    }
  }

  /** The loop that receives keys from the workers and prints each new best. */
  method PrintBest(newKeys: seq<Key>) returns (printed: seq<Key>)
    ensures printed == Kept(newKeys)
  {
    var currentBest: seq<Byte> := [];
    printed := [];
    for i := 0 to |newKeys|
      invariant printed == Kept(newKeys[..i])
      invariant currentBest == if i == 0 then [] else printed[|printed| - 1]
    {
      var newKey := newKeys[i];
      assert newKeys[..i + 1] == newKeys[..i] + [newKey];
      KeptOneMore(newKeys[..i], newKey);
      var better := IsBetter(currentBest, newKey);
      if better || |currentBest| == 0 {
        currentBest := newKey;
        printed := printed + [newKey];
      }
    }
    assert newKeys[..|newKeys|] == newKeys;
  }

  lemma OneMoreGenerated(out: seq<Key>, generated: seq<Key>, k: Key, best: Key)
    requires [NO_ADDRESS_BITS] + out == Kept([NO_ADDRESS_BITS] + generated)
    requires best == if out == [] then NO_ADDRESS_BITS else out[|out| - 1]
    ensures [NO_ADDRESS_BITS] + (if LexLess(k, best) then out + [k] else out) == Kept([NO_ADDRESS_BITS] + (generated + [k]))
  {
    KeptOneMore([NO_ADDRESS_BITS] + generated, k);
    assert [NO_ADDRESS_BITS] + (generated + [k]) == [NO_ADDRESS_BITS] + generated + [k];
    assert [NO_ADDRESS_BITS] + (out + [k]) == [NO_ADDRESS_BITS] + out + [k];
  }

  /** A worker forwards a generated key only when it beats all it forwarded before, and the key
      it starts from. */
  method DoKeys(generated: seq<Key>) returns (out: seq<Key>)
    ensures [NO_ADDRESS_BITS] + out == Kept([NO_ADDRESS_BITS] + generated)
  {
    var bestKey := NO_ADDRESS_BITS;
    out := [];
    KeptOneMore([], NO_ADDRESS_BITS);
    for i := 0 to |generated|
      invariant [NO_ADDRESS_BITS] + out == Kept([NO_ADDRESS_BITS] + generated[..i])
      invariant bestKey == if out == [] then NO_ADDRESS_BITS else out[|out| - 1]
    {
      var pub := generated[i];
      assert generated[..i + 1] == generated[..i] + [pub];
      OneMoreGenerated(out, generated[..i], pub, bestKey);
      var better := IsBetter(bestKey, pub);
      if !better {
        continue;
      }
      bestKey := pub;
      out := out + [pub];
    }
    assert generated[..|generated|] == generated;
  }

  // ---- smaller keys have higher addresses ----------------------------------------

  lemma MoreZerosHigher(a: Address, b: Address, o1: nat, o2: nat)
    requires a[0] == b[0] && a[1] == Counter(o1) && b[1] == Counter(o2) && o1 < o2 < 256
    ensures LexLess(a, b)
  {
    CounterLess(o1, o2);
    assert a[..1] == b[..1];
    assert LessAt(a, b, 1);
  }

  /** Keys that first differ at bit t, past their leading zeros: so do the addresses, the
      other way round, unless they do not reach that far. */
  lemma SamePrefixHigher(a: Address, b: Address, prefix: Byte, worse: Key, better: Key, o: nat, t: nat)
    requires o < t < 256 && Describes(a, prefix, worse, o) && Describes(b, prefix, better, o)
    requires AgreeOn(worse, better, t) && BitAt(worse, t) && !BitAt(better, t)
    ensures LexLessEq(a, b)
  {
    var u := t - o - 1;
    if u >= StoredBits(o) {
      forall v | 0 <= v < 112 ensures PayloadBit(a, v) == PayloadBit(b, v) {
        if v < StoredBits(o) { assert BitAt(worse, o + 1 + v) == BitAt(better, o + 1 + v); }
      }
      SameAddress(a, b);
    } else {
      assert !PayloadBit(a, u) && PayloadBit(b, u);
      forall v | 0 <= v < 16 + u ensures BitAt(a, v) == BitAt(b, v) {
        if v >= 16 {
          assert BitAt(worse, o + 1 + (v - 16)) == BitAt(better, o + 1 + (v - 16));
          assert PayloadBit(a, v - 16) == PayloadBit(b, v - 16);
        }
      }
      FirstBitDecides(a, b, 16 + u);
    }
  }

  lemma NonZeroBetterKey(prefix: Byte, worse: Key, better: Key)
    requires LexLess(better, worse) && better != ZERO_KEY
    ensures LexLessEq(AddressOf(prefix, worse), AddressOf(prefix, better))
  {
    var t := FirstDifferenceAt(better, worse);
    AddressFacts(prefix, worse);
    AddressFacts(prefix, better);
    ZerosOfZeroKey(better);
    var o1, o2 := Ones(worse), Ones(better);
    if o1 >= t {
      assert o1 == t < o2 by {
        assert !BitAt(better, t);
        assert forall v | 0 <= v < t :: !BitAt(better, v) by {
          assert forall v | 0 <= v < t :: BitAt(better, v) == BitAt(worse, v);
        }
      }
      MoreZerosHigher(AddressOf(prefix, worse), AddressOf(prefix, better), o1, o2);
    } else {
      assert StartsWithZeros(better, o1) by {
        assert BitAt(better, o1) == BitAt(worse, o1);
        assert forall v | 0 <= v < o1 :: BitAt(better, v) == BitAt(worse, v);
      }
      OnesAreLeadingZeros(better, o1);
      SamePrefixHigher(AddressOf(prefix, worse), AddressOf(prefix, better), prefix, worse, better, o1, t);
    }
  }

  lemma LowestAddress(z: Address, a: Address)
    requires a[0] == z[0] && forall i | 1 <= i < 16 :: z[i] == 0
    ensures LexLessEq(a, z) <==> a == z
  {
    forall i | 0 <= i < 16 ensures !LessAt(a, z, i) {
    }
  }

  /** A better key never has a lower address, with one exception: the all-zero key wraps its
      count to 0 and gets the lowest address there is, so only a key with that very address
      comes before it. */
  lemma BetterKeyHigherAddress(prefix: Byte, worse: Key, better: Key)
    requires LexLess(better, worse)
    ensures LexLessEq(AddressOf(prefix, worse), AddressOf(prefix, better))
            <==> better != ZERO_KEY || AgreeOn(worse, NO_ADDRESS_BITS, 113)
  {
    if better != ZERO_KEY {
      NonZeroBetterKey(prefix, worse, better);
    } else {
      if worse == ZERO_KEY { LexAsymmetric(worse, better); }
      ZeroKeyPartial(prefix);
      AddressFacts(prefix, worse);
      ZeroKeyCollision(prefix, worse);
      LowestAddress(AddressOf(prefix, ZERO_KEY), AddressOf(prefix, worse));
    }
  }

  /** The addresses printed never go down, the all-zero key aside. */
  lemma {:induction false} PrintedAddressesRise(prefix: Byte, printed: seq<Key>, i: nat, j: nat)
    requires StrictlyDescending(printed) && i < j < |printed| && ZERO_KEY !in printed
    ensures LexLess(printed[j], printed[i])
    ensures LexLessEq(AddressOf(prefix, printed[i]), AddressOf(prefix, printed[j]))
  {
    if j > i + 1 {
      PrintedAddressesRise(prefix, printed, i, j - 1);
      LexTransitive(printed[j], printed[j - 1], printed[i]);
    }
    BetterKeyHigherAddress(prefix, printed[i], printed[j]);
  }
}
