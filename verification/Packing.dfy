/** Lists of keys in one frame: packed up to the MTU, and split again at the other end. */
module Packing {
  import opened Bytes
  import Framing

  const DEBUG: Byte := 255
  const KEY_SIZE := 32

  function Concat(keys: seq<Key>): (bs: seq<Byte>)
    ensures |bs| == KEY_SIZE * |keys|
  {
    if keys == [] then [] else Concat(keys[..|keys| - 1]) + keys[|keys| - 1]
  }

  /** A debug message of a kind: three header bytes and the data. */
  function DebugFrame(kind: Byte, data: seq<Byte>): (frame: seq<Byte>)
    ensures |frame| == 3 + |data|
  {
    [Framing.PROTO, DEBUG, kind] + data
  }

  /** How many of n keys are packed when the connection's MTU is m. */
  function Fits(m: nat, n: nat): (k: nat)
    requires m < Framing.TWO_64
    ensures k <= n
  {
    var mtu := Framing.Mtu(m);
    if mtu < 2 then 0 else if n <= (mtu - 2) / KEY_SIZE then n else (mtu - 2) / KEY_SIZE
  }

  method PackKeys(keys: seq<Key>, m: nat) returns (bs: seq<Byte>)
    requires m < Framing.TWO_64
    ensures bs == Concat(keys[..Fits(m, |keys|)])
  {
    bs := [];
    var i := 0;
    while i < |keys|
      invariant i <= |keys| && bs == Concat(keys[..i]) && i <= Fits(m, |keys|)
    {
      assert keys[..i + 1][..i] == keys[..i];
      var tmp := bs + keys[i];
      if |tmp| + 2 > Framing.Mtu(m) {
        break;
      }
      bs := tmp;
      i := i + 1;
    }
    assert i == Fits(m, |keys|);
  }

  /** The frame with the packed keys never exceeds an MTU of at least three bytes, and does exceed
      a smaller one, even without keys. */
  lemma ResponseFits(kind: Byte, keys: seq<Key>, m: nat)
    requires m < Framing.TWO_64
    ensures |DebugFrame(kind, Concat(keys[..Fits(m, |keys|)]))| <= m <==> 3 <= m
  {
  }

  /** No longer prefix of the keys would fit. */
  lemma LongestPrefix(kind: Byte, keys: seq<Key>, m: nat, k: nat)
    requires 3 <= m < Framing.TWO_64 && k <= |keys|
    ensures Fits(m, |keys|) == if |keys| <= (m - 3) / 32 then |keys| else (m - 3) / 32
    ensures |DebugFrame(kind, Concat(keys[..k]))| <= m <==> k <= Fits(m, |keys|)
  {
  }

  // ---- splitting -----------------------------------------------------------------

  function Split(bs: seq<Byte>): (keys: seq<Key>)
    ensures |keys| == |bs| / KEY_SIZE
  {
    if |bs| >= KEY_SIZE then [bs[..KEY_SIZE]] + Split(bs[KEY_SIZE..]) else []
  }

  method SplitKeys(bs: seq<Byte>) returns (keys: seq<Key>)
    ensures keys == Split(bs)
  {
    keys := [];
    var rest := bs;
    while |rest| >= KEY_SIZE
      invariant keys + Split(rest) == Split(bs)
    {
      keys := keys + [rest[..KEY_SIZE]];
      rest := rest[KEY_SIZE..];
    }
  }

  lemma {:induction false} ConcatFirst(keys: seq<Key>)
    requires keys != []
    ensures Concat(keys) == keys[0] + Concat(keys[1..])
  {
    if |keys| > 1 {
      var n := |keys| - 1;
      ConcatFirst(keys[..n]);
      assert keys[..n][1..] == keys[1..][..n - 1];
    } else {
      assert keys[..0] == [] && keys[1..] == [];
    }
  }

  lemma FirstOf(key: Key, rest: seq<Byte>, remainder: seq<Byte>, bs: seq<Byte>)
    requires bs == key + rest + remainder
    ensures |bs| >= KEY_SIZE && bs[..KEY_SIZE] == key && bs[KEY_SIZE..] == rest + remainder
  {
  }

  /** Splitting undoes packing; a remainder shorter than a key is dropped. */
  lemma {:induction false} SplitConcat(keys: seq<Key>, remainder: seq<Byte>)
    requires |remainder| < KEY_SIZE
    ensures Split(Concat(keys) + remainder) == keys
    decreases |keys|
  {
    if keys == [] {
      assert Concat(keys) + remainder == remainder;
    } else {
      ConcatFirst(keys);
      FirstOf(keys[0], Concat(keys[1..]), remainder, Concat(keys) + remainder);
      SplitConcat(keys[1..], remainder);
      assert keys == [keys[0]] + keys[1..];
    }
  }

  /** What the receiver gets is the first min(n, (m - 3) / 32) keys, in order. */
  lemma PackedKeysArrive(keys: seq<Key>, m: nat)
    requires 3 <= m < Framing.TWO_64
    ensures Split(Concat(keys[..Fits(m, |keys|)])) == keys[..Fits(m, |keys|)]
    ensures Fits(m, |keys|) == if |keys| <= (m - 3) / 32 then |keys| else (m - 3) / 32
  {
    var bs := Concat(keys[..Fits(m, |keys|)]);
    SplitConcat(keys[..Fits(m, |keys|)], []);
    assert bs + [] == bs;
    LongestPrefix(0, keys, m, 0);
  }
}
