/** From one node's writer to another node's reader. */
module EndToEnd {
  import opened Bytes
  import opened Store
  import opened StoreTheorems
  import opened Icmp
  import opened KeyStore
  import Framing

  /** Whatever is accepted has passed the checks of the node that accepted it. */
  ghost predicate AllChecked(s: Store) {
    forall bs | bs in s.books.accepted :: |bs| > 0 && CheckWrite(s.id, bs) == None
  }

  lemma LearnChecked(s: Store, key: Key, info: KeyInfo, timer: Timer)
    requires AllChecked(s)
    ensures AllChecked(Learn(s, key, info, timer))
  {
    LearnKeeps(s, key, info, timer);
  }

  lemma WriteChecked(s: Store, bs: Packet, buf: Buffer, timer: Timer)
    requires AllChecked(s) && |bs| > 0
    ensures AllChecked(Write(s, bs, buf, timer))
  {
    if CheckWrite(s.id, bs) == None { WriteAccepts(s, bs, buf, timer); }
  }

  lemma StepChecked(s: Store, e: Event)
    requires AllChecked(s)
    ensures AllChecked(Step(s, e))
  {
    match e
    case DoWrite(bs, buf, timer) => if |bs| > 0 { WriteChecked(s, bs, buf, timer); }
    case DoLearn(key, info, timer) => LearnChecked(s, key, info, timer);
    case DoOob(fromKey, toKey, data, info, timer) => LearnChecked(s, fromKey, info, timer);
    case DoFire(timer) => assert Fire(s, timer).books.accepted == s.books.accepted && Fire(s, timer).id == s.id;
    case DoSetMtu(_, _) =>
  }

  lemma {:induction false} RunChecked(s: Store, es: seq<Event>)
    requires AllChecked(s)
    ensures AllChecked(Exec(s, es))
    decreases |es|
  {
    if es != [] {
      StepChecked(s, es[0]);
      RunChecked(Step(s, es[0]), es[1..]);
    }
  }

  /** Whatever a node's store hands to the network, at any point of any run, at once or out of a
      buffer, the node whose key it is sent to delivers to its reader, provided that it is no
      larger than that node's MTU. */
  lemma SentIsDelivered(s: Store, prefix: Byte, sender: Key, crypto: Crypto, es: seq<Event>, i: nat, receiver: Store, mtu: nat)
    requires Reachable(s, prefix, sender, crypto, es) && i < |s.books.sent|
    requires receiver.id == Init(prefix, s.books.sent[i].key, receiver.id.crypto).id
    ensures var bs := s.books.sent[i].packet;
            Deliverable(receiver.id, mtu, bs, sender) <==> |bs| <= mtu
  {
    var bs, key := s.books.sent[i].packet, s.books.sent[i].key;
    RoutingSafety(s, prefix, sender, crypto, es, i);
    RunChecked(Init(prefix, sender, crypto), es);
    IdentityStays(Init(prefix, sender, crypto), es);
    assert bs in s.books.accepted;
    assert ForUs(receiver.id, bs);
    assert IsFrom(prefix, bs, sender);
  }

  /** In between it is one traffic frame. The packet comes out of it as it went in. */
  lemma FramedPacketArrives(s: Store, prefix: Byte, sender: Key, crypto: Crypto, es: seq<Event>, i: nat, receiver: Store,
                            before: seq<Framing.Arrival>, after: seq<Framing.Arrival>, outcome: Framing.Outcome, consumed: nat)
    requires Reachable(s, prefix, sender, crypto, es) && i < |s.books.sent|
    requires receiver.id == Init(prefix, s.books.sent[i].key, receiver.id.crypto).id
    requires Framing.NoneEnds(before, |before|)
    requires var stream := before + [Framing.Arrived(Framing.TrafficFrame(s.books.sent[i].packet), sender)] + after;
             consumed <= |stream| && Framing.Ends(stream, outcome, consumed)
    ensures outcome == Framing.Traffic(s.books.sent[i].packet, sender)
    ensures Deliverable(receiver.id, receiver.mtu, outcome.payload, outcome.from) <==> |outcome.payload| <= receiver.mtu
  {
    Framing.WriteThenRead(before, s.books.sent[i].packet, sender, after, outcome, consumed);
    SentIsDelivered(s, prefix, sender, crypto, es, i, receiver, receiver.mtu);
  }

  // ---- read at the other end -----------------------------------------------------

  /** What a reader gets by reading from a connection again and again: its traffic, and its
      errors. */
  function Incomings(arrivals: seq<Framing.Arrival>): (incoming: seq<Incoming>) {
    if arrivals == [] then []
    else
      (if arrivals[0].Broken? then [Failure]
       else if Framing.IsTraffic(arrivals[0]) then [Frame(arrivals[0].bs[1..], arrivals[0].from)] else [])
      + Incomings(arrivals[1..])
  }

  function AsIncoming(outcome: Framing.Outcome): (incoming: seq<Incoming>) {
    match outcome
    case Traffic(payload, from) => [Frame(payload, from)]
    case Failed => [Failure]
    case Blocked => []
  }

  /** One read gives the first of them and leaves the rest. */
  lemma {:induction false} ReadFromTakesFirst(arrivals: seq<Framing.Arrival>, outcome: Framing.Outcome, consumed: nat)
    requires consumed <= |arrivals| && Framing.Ends(arrivals, outcome, consumed)
    ensures Incomings(arrivals) == AsIncoming(outcome) + Incomings(arrivals[consumed..])
    decreases |arrivals|
  {
    if arrivals != [] {
      if arrivals[0].Broken? || Framing.IsTraffic(arrivals[0]) {
        EndsAtFirst(arrivals, outcome, consumed);
      } else {
        EndsLater(arrivals, outcome, consumed);
        ReadFromTakesFirst(arrivals[1..], outcome, consumed - 1);
        assert arrivals[1..][consumed - 1..] == arrivals[consumed..];
      }
    }
  }

  lemma EndsAtFirst(arrivals: seq<Framing.Arrival>, outcome: Framing.Outcome, consumed: nat)
    requires arrivals != [] && (arrivals[0].Broken? || Framing.IsTraffic(arrivals[0]))
    requires consumed <= |arrivals| && Framing.Ends(arrivals, outcome, consumed)
    ensures consumed == 1
    ensures arrivals[0].Broken? ==> outcome == Framing.Failed
    ensures Framing.IsTraffic(arrivals[0]) ==> outcome == Framing.Traffic(arrivals[0].bs[1..], arrivals[0].from)
  {
    var first := if arrivals[0].Broken? then Framing.Failed else Framing.Traffic(arrivals[0].bs[1..], arrivals[0].from);
    if !arrivals[0].Broken? { assert arrivals[0].bs == Framing.TrafficFrame(arrivals[0].bs[1..]); }
    Framing.EndsOnce(arrivals, outcome, consumed, first, 1);
  }

  lemma EndsLater(arrivals: seq<Framing.Arrival>, outcome: Framing.Outcome, consumed: nat)
    requires arrivals != [] && !arrivals[0].Broken? && !Framing.IsTraffic(arrivals[0])
    requires consumed <= |arrivals| && Framing.Ends(arrivals, outcome, consumed)
    ensures 0 < consumed && Framing.Ends(arrivals[1..], outcome, consumed - 1)
  {
    if outcome.Traffic? { assert Framing.IsTraffic(arrivals[consumed - 1]); }
  }

  lemma {:induction false} IncomingsAppend(a: seq<Framing.Arrival>, b: seq<Framing.Arrival>)
    ensures Incomings(a + b) == Incomings(a) + Incomings(b)
    decreases |a|
  {
    if a == [] {
      assert a + b == b;
    } else {
      assert (a + b)[1..] == a[1..] + b;
      IncomingsAppend(a[1..], b);
    }
  }

  lemma {:induction false} MtuAtPrefix(mtu: nat, pre: seq<Incoming>, rest: seq<Incoming>, i: nat)
    requires i <= |pre|
    ensures MtuAt(mtu, pre + rest, i) == MtuAt(mtu, pre, i)
  {
    if i > 0 { MtuAtPrefix(mtu, pre, rest, i - 1); }
  }

  /** The reader passes over what is not for it. */
  lemma {:induction false} ReadPast(f: Filter, mtu: nat, incoming: seq<Incoming>, k: nat, m: nat, written: seq<Packet>) returns (w: seq<Packet>)
    requires k <= m <= |incoming| && forall i | k <= i < m :: Passes(f, mtu, incoming, i)
    ensures Read(f, MtuAt(mtu, incoming, k), incoming, k, written) == Read(f, MtuAt(mtu, incoming, m), incoming, m, w)
    decreases m - k
  {
    w := written;
    if k < m {
      assert Passes(f, mtu, incoming, k);
      w := ReadPast(f, mtu, incoming, k + 1, m, written + WrittenFor(f, MtuAt(mtu, incoming, k), incoming[k]));
    }
  }

  /** After anything that is not for it, the reader gets the next packet if and only if the filter
      shows it under the MTU that applies by then. */
  lemma ReaderGets(f: Filter, mtu: nat, pre: seq<Incoming>, packet: Packet, from: Key, post: seq<Incoming>)
    requires forall i | 0 <= i < |pre| :: Passes(f, mtu, pre, i)
    ensures var r := Read(f, mtu, pre + [Frame(packet, from)] + post, 0, []);
            r.end == Found(packet) && r.consumed == |pre| + 1 <==> f.shows(MtuAt(mtu, pre, |pre|), packet, from)
  {
    var rest := [Frame(packet, from)] + post;
    var all := pre + [Frame(packet, from)] + post;
    assert all == pre + rest;
    forall i | 0 <= i < |pre| ensures Passes(f, mtu, all, i) {
      MtuAtPrefix(mtu, pre, rest, i);
      assert Passes(f, mtu, pre, i) && all[i] == pre[i];
    }
    var w := ReadPast(f, mtu, all, 0, |pre|, []);
    MtuAtPrefix(mtu, pre, rest, |pre|);
    assert all[|pre|] == Frame(packet, from);
    ConsumesMore(f, MtuAt(mtu, pre, |pre|), all, |pre|, w);
  }

  lemma {:induction false} ConsumesMore(f: Filter, mtu: nat, incoming: seq<Incoming>, k: nat, written: seq<Packet>)
    requires k < |incoming| && incoming[k].Frame?
    ensures var r := Read(f, mtu, incoming, k, written);
            r.consumed >= k && (r.consumed == k + 1 && r.end.Found? ==> f.shows(mtu, incoming[k].bs, incoming[k].from))
  {
    if !f.shows(mtu, incoming[k].bs, incoming[k].from) {
      var more := written + WrittenFor(f, mtu, incoming[k]);
      assert Read(f, mtu, incoming, k, written) == Read(f, mtu, incoming, k + 1, more);
      if k + 1 < |incoming| { FoundConsumes(f, mtu, incoming, k + 1, more); }
    }
  }

  lemma {:induction false} FoundConsumes(f: Filter, mtu: nat, incoming: seq<Incoming>, k: nat, written: seq<Packet>)
    requires k <= |incoming|
    ensures var r := Read(f, mtu, incoming, k, written);
            r.consumed >= k && (r.end.Found? ==> r.consumed > k)
    decreases |incoming| - k
  {
    if k < |incoming| && incoming[k] != Failure && !Shown(f, mtu, incoming[k]) {
      FoundConsumes(f, NextMtu(mtu, incoming[k]), incoming, k + 1, written + WrittenFor(f, mtu, incoming[k]));
    }
  }

  /** The whole way. What one node's store sends, at any point of any run, the node with the key
      it is sent to reads, unchanged, after whatever else the connection brings that is not for
      its reader, if and only if it is no larger than that node's MTU. */
  lemma SentIsRead(s: Store, prefix: Byte, sender: Key, crypto: Crypto, es: seq<Event>, i: nat, receiver: Store, checksum: Checksum, f: Filter,
                   before: seq<Framing.Arrival>, after: seq<Framing.Arrival>)
    requires Reachable(s, prefix, sender, crypto, es) && i < |s.books.sent|
    requires receiver.id == Init(prefix, s.books.sent[i].key, receiver.id.crypto).id && IsFilter(f, checksum, receiver.id)
    requires forall k | 0 <= k < |Incomings(before)| :: Passes(f, receiver.mtu, Incomings(before), k)
    ensures var bs := s.books.sent[i].packet;
            var r := Read(f, receiver.mtu, Incomings(before + [Framing.Arrived(Framing.TrafficFrame(bs), sender)] + after), 0, []);
            r.end == Found(bs) && r.consumed == |Incomings(before)| + 1 <==> |bs| <= receiver.mtu
  {
    var bs, pre := s.books.sent[i].packet, Incomings(before);
    var a := Framing.Arrived(Framing.TrafficFrame(bs), sender);
    IncomingsAppend(before + [a], after);
    IncomingsAppend(before, [a]);
    OneFrame(bs, sender);
    SentIsDelivered(s, prefix, sender, crypto, es, i, receiver, receiver.mtu);
    ReaderGets(f, receiver.mtu, pre, bs, sender, Incomings(after));
    SameMtu(receiver.mtu, before, |pre|);
    assert Deliverable(receiver.id, receiver.mtu, bs, sender) <==> f.shows(receiver.mtu, bs, sender);
  }

  lemma OneFrame(bs: Packet, from: Key)
    ensures Incomings([Framing.Arrived(Framing.TrafficFrame(bs), from)]) == [Frame(bs, from)]
  {
    var a := Framing.Arrived(Framing.TrafficFrame(bs), from);
    assert [a][1..] == [] && a.bs[1..] == bs;
  }

  lemma {:induction false} SameMtu(mtu: nat, arrivals: seq<Framing.Arrival>, k: nat)
    requires k <= |Incomings(arrivals)|
    ensures MtuAt(mtu, Incomings(arrivals), k) == mtu
  {
    if k > 0 {
      SameMtu(mtu, arrivals, k - 1);
      NothingBetween(arrivals, k - 1);
    }
  }

  lemma {:induction false} NothingBetween(arrivals: seq<Framing.Arrival>, k: nat)
    requires k < |Incomings(arrivals)|
    ensures !Incomings(arrivals)[k].Between?
    decreases |arrivals|
  {
    var first := |Incomings(arrivals)| - |Incomings(arrivals[1..])|;
    if k >= first { NothingBetween(arrivals[1..], k - first); }
  }
}
