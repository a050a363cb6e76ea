/** The frames that carry traffic and protocol messages over one packet connection. */
module Framing {
  import opened Bytes
  import opened Codec

  const TRAFFIC: Byte := 1
  const PROTO: Byte := 2

  /** What the packet connection gives a reader. */
  datatype Arrival = Arrived(bs: seq<Byte>, from: Key) | Broken

  /** A protocol message on its way to its handler. */
  datatype Message = Message(from: Key, data: seq<Byte>)

  function TrafficFrame(p: seq<Byte>): (frame: seq<Byte>) {
    [TRAFFIC] + p
  }

  function ProtoFrame(data: seq<Byte>): (frame: seq<Byte>) {
    [PROTO] + data
  }

  predicate IsTraffic(a: Arrival) {
    a.Arrived? && |a.bs| > 0 && a.bs[0] == TRAFFIC
  }

  predicate IsProto(a: Arrival) {
    a.Arrived? && |a.bs| > 0 && a.bs[0] == PROTO
  }

  /** The protocol messages among some arrivals, in order. */
  function Messages(arrivals: seq<Arrival>): (ms: seq<Message>)
    ensures |ms| <= |arrivals|
  {
    if arrivals == [] then []
    else
      var last := arrivals[|arrivals| - 1];
      Messages(arrivals[..|arrivals| - 1]) + if IsProto(last) then [Message(last.from, last.bs[1..])] else []
  }

  lemma {:induction false} MessagesAppend(a: seq<Arrival>, b: seq<Arrival>)
    ensures Messages(a + b) == Messages(a) + Messages(b)
  {
    if b == [] {
      assert a + b == a;
    } else {
      var n := |b| - 1;
      assert (a + b)[..|a + b| - 1] == a + b[..n];
      MessagesAppend(a, b[..n]);
    }
  }

  // ---- reading -------------------------------------------------------------------

  datatype Outcome = Traffic(payload: seq<Byte>, from: Key) | Failed | Blocked

  /** How reading a stream ends, and how much of it is used up. */
  ghost predicate Ends(arrivals: seq<Arrival>, outcome: Outcome, consumed: nat)
    requires consumed <= |arrivals|
  {
    match outcome
    case Blocked => consumed == |arrivals| && NoneEnds(arrivals, consumed)
    case Failed => 0 < consumed && arrivals[consumed - 1].Broken? && NoneEnds(arrivals, consumed - 1)
    case Traffic(payload, from) =>
      0 < consumed && arrivals[consumed - 1] == Arrived(TrafficFrame(payload), from) && NoneEnds(arrivals, consumed - 1)
  }

  ghost predicate NoneEnds(arrivals: seq<Arrival>, n: nat)
    requires n <= |arrivals|
  {
    forall i | 0 <= i < n :: !IsTraffic(arrivals[i]) && !arrivals[i].Broken?
  }

  /** A stream can end in one way only. */
  lemma EndsOnce(arrivals: seq<Arrival>, o: Outcome, c: nat, o': Outcome, c': nat)
    requires c <= |arrivals| && c' <= |arrivals| && Ends(arrivals, o, c) && Ends(arrivals, o', c')
    ensures o == o' && c == c'
  {
    if o.Traffic? { assert IsTraffic(arrivals[c - 1]) && o.payload == arrivals[c - 1].bs[1..]; }
    if o'.Traffic? { assert IsTraffic(arrivals[c' - 1]) && o'.payload == arrivals[c' - 1].bs[1..]; }
  }

  /** How a stream ends, in terms of first bytes: at the first frame that starts with 1, with the
      rest of that frame, or at an error before it. */
  lemma EndsMean(arrivals: seq<Arrival>, outcome: Outcome, consumed: nat)
    requires consumed <= |arrivals| && Ends(arrivals, outcome, consumed)
    ensures forall i | 0 <= i < consumed ::
              arrivals[i].Arrived? && |arrivals[i].bs| > 0 && arrivals[i].bs[0] == 1 <==> outcome.Traffic? && i == consumed - 1
    ensures forall i | 0 <= i < consumed :: arrivals[i].Broken? <==> outcome.Failed? && i == consumed - 1
    ensures outcome.Traffic? ==> consumed > 0 && arrivals[consumed - 1] == Arrived([1] + outcome.payload, outcome.from)
    ensures outcome.Failed? ==> consumed > 0
    ensures outcome.Blocked? ==> consumed == |arrivals|
  {
    forall i | 0 <= i < consumed
      ensures arrivals[i].Arrived? && |arrivals[i].bs| > 0 && arrivals[i].bs[0] == 1 <==> outcome.Traffic? && i == consumed - 1
      ensures arrivals[i].Broken? <==> outcome.Failed? && i == consumed - 1
    {
      if i < consumed - 1 || outcome.Blocked? { assert !IsTraffic(arrivals[i]) && !arrivals[i].Broken?; }
    }
  }

  /** The messages handed on are the frames that start with 2, without that byte, and no others. */
  lemma MessagesMean(a: Arrival)
    ensures Messages([a]) == if a.Arrived? && |a.bs| > 0 && a.bs[0] == 2 then [Message(a.from, a.bs[1..])] else []
  {
    assert [a][..0] == [];
  }

  class Demultiplexer {
    var handled: seq<Message>

    method HandleProto(key: Key, data: seq<Byte>)
      modifies this
      ensures handled == old(handled) + [Message(key, data)]
    {
      handled := handled + [Message(key, data)];
    }

    /** Frames are read until one carries traffic, whose payload is copied to p as far as there
        is room, or until reading fails; protocol messages before it are handed on. */
    method ReadFrom(arrivals: seq<Arrival>, p: array<Byte>) returns (n: nat, outcome: Outcome, consumed: nat)
      modifies this, p
      ensures consumed <= |arrivals| && Ends(arrivals, outcome, consumed)
      ensures handled == old(handled) + Messages(arrivals[..consumed])
      ensures n == if !outcome.Traffic? then 0 else if |outcome.payload| < p.Length then |outcome.payload| else p.Length
      ensures p[..] == (if outcome.Traffic? then outcome.payload[..n] else []) + old(p[n..])
    {
      n, consumed := 0, 0;
      while consumed < |arrivals|
        invariant consumed <= |arrivals| && NoneEnds(arrivals, consumed)
        invariant handled == old(handled) + Messages(arrivals[..consumed])
        invariant n == 0 && p[..] == old(p[..])
      {
        var a := arrivals[consumed];
        assert arrivals[..consumed + 1][..consumed] == arrivals[..consumed];
        consumed := consumed + 1;
        if a.Broken? {
          return 0, Failed, consumed;
        }
        if |a.bs| == 0 {
          continue;
        }
        if a.bs[0] == PROTO {
          HandleProto(a.from, a.bs[1..]);
          continue;
        }
        if a.bs[0] == TRAFFIC {
          assert a.bs == TrafficFrame(a.bs[1..]);
          n := CopyInto(p, 0, a.bs[1..]);
          return n, Traffic(a.bs[1..], a.from), consumed;
        }
      }
      outcome := Blocked;
    }
  }

  // ---- writing -------------------------------------------------------------------

  class Connection {
    var written: seq<(seq<Byte>, Key)>

    method Send(frame: seq<Byte>, to: Key) returns (n: nat)
      modifies this
      ensures written == old(written) + [(frame, to)] && n == |frame|
    {
      written := written + [(frame, to)];
      n := |frame|;
    }

    method WriteTo(p: seq<Byte>, to: Key) returns (n: nat)
      modifies this
      ensures written == old(written) + [(TrafficFrame(p), to)] && n == |p|
      ensures written == old(written) + [([1] + p, to)]
    {
      n := Send([TRAFFIC] + p, to);
      if n > 0 {
        n := n - 1;
      }
    }
  }

  /** A written payload is read back as it was, after any frames that carry no traffic, all of
      whose protocol messages have been handed on by then. */
  lemma WriteThenRead(before: seq<Arrival>, p: seq<Byte>, from: Key, after: seq<Arrival>, outcome: Outcome, consumed: nat)
    requires NoneEnds(before, |before|)
    requires consumed <= |before + [Arrived(TrafficFrame(p), from)] + after|
    requires Ends(before + [Arrived(TrafficFrame(p), from)] + after, outcome, consumed)
    ensures outcome == Traffic(p, from)
    ensures Messages((before + [Arrived(TrafficFrame(p), from)] + after)[..consumed]) == Messages(before)
  {
    var a := Arrived(TrafficFrame(p), from);
    var all := before + [a] + after;
    assert all[|before|] == a;
    assert NoneEnds(all, |before|) by {
      forall i | 0 <= i < |before| ensures !IsTraffic(all[i]) && !all[i].Broken? { assert all[i] == before[i]; }
    }
    EndsOnce(all, outcome, consumed, Traffic(p, from), |before| + 1);
    assert all[..consumed] == before + [a];
    MessagesAppend(before, [a]);
    assert Messages([a]) == [] by { assert [a][..0] == []; }
  }

  /** A protocol frame is handed on without its first byte, and traffic never is. */
  lemma ProtoFrameRead(data: seq<Byte>, from: Key)
    ensures Messages([Arrived(ProtoFrame(data), from)]) == [Message(from, data)]
  {
    var a := Arrived(ProtoFrame(data), from);
    assert [a][..0] == [] && a.bs[1..] == data;
  }

  const TWO_64 := 0x1_0000_0000_0000_0000

  /** What is left of the connection's MTU for a payload, in 64 bits. */
  function Mtu(connection: nat): (m: nat)
    ensures 1 <= connection < TWO_64 ==> forall p: seq<Byte> :: |p| <= m <==> |TrafficFrame(p)| <= connection
  {
    (connection + TWO_64 - 1) % TWO_64
  }
}
