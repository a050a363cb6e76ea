/** Dialling a peer, and dialling it again after its link is disconnected. The outcome of a dial
    is reported over a channel that is always closed, whether or not an error is sent. */
module Redial {
  import opened Bytes

  /** A channel with room for one error. Sending when there is no room, or receiving when there is
      nothing to receive, would block; sending on or closing a closed channel would panic. */
  class ErrorChannel {
    var buffer: Option<nat>
    var closed: bool
    ghost var sends: nat
    ghost var closes: nat

    constructor ()
      ensures Unused()
    {
      buffer, closed, sends, closes := None, false, 0, 0;
    }

    ghost predicate Unused()
      reads this
    {
      buffer == None && !closed && sends == 0 && closes == 0
    }

    method Send(error: nat)
      requires !closed && buffer == None
      modifies this
      ensures buffer == Some(error) && !closed && sends == old(sends) + 1 && closes == old(closes)
    {
      buffer, sends := Some(error), sends + 1;
    }

    method Close()
      requires !closed
      modifies this
      ensures closed && buffer == old(buffer) && sends == old(sends) && closes == old(closes) + 1
    {
      closed, closes := true, closes + 1;
    }

    /** None is what a closed channel gives. */
    method Receive() returns (error: Option<nat>)
      requires closed || buffer.Some?
      modifies this`buffer
      ensures error == old(buffer) && buffer == None
    {
      error, buffer := buffer, None;
    }
  }

  datatype Priority = Default | Invalid | Given(value: nat)

  /** What a peer's URI says, once parsed. A pinned key is None if it is not hexadecimal. */
  datatype Peer = Peer(scheme: string, keys: seq<Option<seq<Byte>>>, priority: Priority)

  datatype Options = Options(pinned: set<Key>, priority: nat)

  const SCHEMES: set<string> := {"tcp", "socks", "tls", "unix", "sctp", "mpath"}

  /** The first 32 bytes, with zeros after them if there are fewer. */
  function Padded(bs: seq<Byte>): (key: Key)
    ensures forall i | 0 <= i < 32 :: key[i] == if i < |bs| then bs[i] else 0
  {
    if |bs| >= 32 then bs[..32] else bs + seq(32 - |bs|, _ => 0)
  }

  /** The key is what a URI's pinned key stands for: its first 32 bytes, or all with zeros after. */
  predicate IsKeyOf(uriKey: Option<seq<Byte>>, key: Key) {
    uriKey.Some? && forall i | 0 <= i < 32 :: key[i] == if i < |uriKey.value| then uriKey.value[i] else 0
  }

  predicate Callable(peer: Peer) {
    (forall k | k in peer.keys :: k.Some?) && !peer.priority.Invalid? && peer.scheme in SCHEMES
  }

  function Pinned(keys: seq<Option<seq<Byte>>>): set<Key> {
    set i | 0 <= i < |keys| && keys[i].Some? :: Padded(keys[i].value)
  }

  lemma PinnedMeans(keys: seq<Option<seq<Byte>>>, k: Key)
    ensures k in Pinned(keys) <==> exists i :: 0 <= i < |keys| && IsKeyOf(keys[i], k)
  {
    if i :| 0 <= i < |keys| && IsKeyOf(keys[i], k) {
      assert Padded(keys[i].value) == k;
    }
    if k in Pinned(keys) {
      var i :| 0 <= i < |keys| && keys[i].Some? && Padded(keys[i].value) == k;
      assert IsKeyOf(keys[i], k);
    }
  }

  method PinnedKeys(keys: seq<Option<seq<Byte>>>) returns (pinned: Option<set<Key>>)
    ensures pinned.Some? <==> forall k | k in keys :: k.Some?
    ensures pinned.Some? ==> pinned.value == Pinned(keys)
    ensures pinned.Some? ==> forall k :: k in pinned.value <==> exists i :: 0 <= i < |keys| && IsKeyOf(keys[i], k)
  {
    var soFar: set<Key> := {};
    for i := 0 to |keys|
      invariant forall j | 0 <= j < i :: keys[j].Some?
      invariant soFar == set j | 0 <= j < i && keys[j].Some? :: Padded(keys[j].value)
    {
      if keys[i] == None {
        return None;
      }
      soFar := soFar + {Padded(keys[i].value)};
    }
    pinned := Some(soFar);
    forall k ensures k in soFar <==> exists i :: 0 <= i < |keys| && IsKeyOf(keys[i], k) { PinnedMeans(keys, k); }
  }

  /** What is found out while calling: whether the link is up already, and how dialling ends. */
  datatype Conditions = Conditions(connected: bool, dial: Dialled)

  datatype Dialled = Connected | EndOfFile | Failed(error: nat)

  /** Either a dial is started, which will close the channel, or the channel is closed at once. */
  method Call(peer: Peer, connected: bool, errch: ErrorChannel?) returns (ok: bool, dialling: Option<Options>)
    requires errch != null ==> errch.Unused()
    modifies errch
    ensures ok <==> connected || Callable(peer)
    ensures dialling.Some? <==> !connected && Callable(peer)
    ensures dialling.Some? <==>
            && !connected && (forall k | k in peer.keys :: k.Some?) && !peer.priority.Invalid?
            && (peer.scheme == "tcp" || peer.scheme == "socks" || peer.scheme == "tls"
                || peer.scheme == "unix" || peer.scheme == "sctp" || peer.scheme == "mpath")
    ensures dialling.Some? ==> dialling.value == Options(Pinned(peer.keys), if peer.priority.Given? then peer.priority.value else 0)
    ensures errch != null && dialling.Some? ==> errch.Unused()
    ensures errch != null && dialling.None? ==> errch.closed && errch.closes == 1 && errch.sends == 0 && errch.buffer == None
  {
    dialling := None;
    if connected {
      if errch != null {
        errch.Close();
      }
      return true, None;
    }
    var pinned := PinnedKeys(peer.keys);
    if pinned == None {
      if errch != null {
        errch.Close();
      }
      return false, None;
    }
    var options := Options(pinned.value, 0);
    if !peer.priority.Default? {
      if peer.priority.Invalid? {
        if errch != null {
          errch.Close();
        }
        return false, None;
      }
      options := options.(priority := peer.priority.value);
    }
    if peer.scheme in SCHEMES {
      return true, Some(options);
    }
    if errch != null {
      errch.Close();
    }
    ok := false;
  }

  /** What a started dial does when it ends. */
  method DialEnded(dial: Dialled, errch: ErrorChannel?)
    requires errch != null ==> errch.Unused()
    modifies errch
    ensures errch != null ==> errch.closed && errch.closes == 1 && errch.sends == (if dial.Failed? then 1 else 0)
    ensures errch != null ==> errch.buffer == if dial.Failed? then Some(dial.error) else None
  {
    if dial.Failed? {
      if errch != null {
        errch.Send(dial.error);
      }
    }
    if errch != null {
      errch.Close();
    }
  }

  /** On every path the channel is closed exactly once, after at most one send; so what waits for
      it never waits for ever. */
  method Attempt(peer: Peer, c: Conditions) returns (ok: bool, error: Option<nat>, ghost errch: ErrorChannel)
    ensures ok <==> c.connected || Callable(peer)
    ensures ok ==> error == if Fails(peer, c) then Some(c.dial.error) else None
    ensures fresh(errch) && errch.closed && errch.closes == 1 && errch.sends == (if Fails(peer, c) then 1 else 0)
    ensures errch.sends == 1 <==> !c.connected && ok && c.dial.Failed?
    ensures ok ==> (error.Some? <==> errch.sends == 1)
  {
    var ch := new ErrorChannel();
    var dialling;
    errch, error := ch, None;
    ok, dialling := Call(peer, c.connected, ch);
    if dialling.Some? {
      DialEnded(c.dial, ch);
    }
    if ok {
      error := ch.Receive();
    }
  }

  /** The attempt ends with an error over the channel. */
  predicate Fails(peer: Peer, c: Conditions) {
    !c.connected && Callable(peer) && c.dial.Failed?
  }

  const MAX_ATTEMPTS := 3

  /** Attempts are made until one does not fail over the channel, but no more than three. */
  method Retry(peer: Peer, attempt: nat, world: nat -> Conditions) returns (calls: nat)
    requires 1 <= attempt <= MAX_ATTEMPTS
    ensures 1 <= calls <= MAX_ATTEMPTS + 1 - attempt
    ensures forall i | attempt <= i < attempt + calls - 1 :: Fails(peer, world(i))
    ensures calls == MAX_ATTEMPTS + 1 - attempt || !Fails(peer, world(attempt + calls - 1))
    decreases MAX_ATTEMPTS - attempt
  {
    var ok, error, errch := Attempt(peer, world(attempt));
    calls := 1;
    if !ok {
      return;
    }
    if error.Some? {
      if attempt < MAX_ATTEMPTS {
        var more := Retry(peer, attempt + 1, world);
        calls := 1 + more;
      }
    }
  }

  /** One disconnect of a link that was dialled makes at most three calls, exactly three when the
      first two fail, and a disconnect of any other link makes none. */
  method AfterDisconnect(incoming: bool, dial: Option<Peer>, world: nat -> Conditions) returns (calls: nat)
    ensures calls <= 3
    ensures calls == 0 <==> incoming || dial == None
    ensures !incoming && dial.Some? ==>
              && (calls >= 2 <==> Fails(dial.value, world(1)))
              && (calls == 3 <==> Fails(dial.value, world(1)) && Fails(dial.value, world(2)))
  {
    calls := 0;
    if !incoming && dial.Some? {
      calls := Retry(dial.value, 1, world);
      assert calls >= 2 ==> Fails(dial.value, world(1));
      assert calls >= 3 ==> Fails(dial.value, world(2));
    }
  }
}
