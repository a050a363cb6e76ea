/** Protocol messages and the actor that handles them. */
module Proto {
  import opened Bytes
  import opened Packing
  import opened Requests
  import Framing

  const NODE_INFO_REQUEST: Byte := 1
  const NODE_INFO_RESPONSE: Byte := 2

  const SELF_REQUEST: Byte := 1
  const SELF_RESPONSE: Byte := 2
  const PEERS_REQUEST: Byte := 3
  const PEERS_RESPONSE: Byte := 4
  const DHT_REQUEST: Byte := 5
  const DHT_RESPONSE: Byte := 6

  datatype Topic = Self | Peers | Dht

  /** What a protocol message asks for. */
  datatype Meaning =
    | Nothing
    | InfoRequest
    | InfoResponse(data: seq<Byte>)
    | Request(topic: Topic)
    | Response(topic: Topic, data: seq<Byte>)

  function RequestKind(topic: Topic): Byte {
    match topic case Self => SELF_REQUEST case Peers => PEERS_REQUEST case Dht => DHT_REQUEST
  }

  function ResponseKind(topic: Topic): Byte {
    match topic case Self => SELF_RESPONSE case Peers => PEERS_RESPONSE case Dht => DHT_RESPONSE
  }

  function DebugMeaning(bs: seq<Byte>): (m: Meaning) {
    if |bs| == 0 then Nothing
    else if bs[0] == SELF_REQUEST then Request(Self)
    else if bs[0] == SELF_RESPONSE then Response(Self, bs[1..])
    else if bs[0] == PEERS_REQUEST then Request(Peers)
    else if bs[0] == PEERS_RESPONSE then Response(Peers, bs[1..])
    else if bs[0] == DHT_REQUEST then Request(Dht)
    else if bs[0] == DHT_RESPONSE then Response(Dht, bs[1..])
    else Nothing
  }

  function MeaningOf(bs: seq<Byte>): (m: Meaning) {
    if |bs| == 0 then Nothing
    else if bs[0] == NODE_INFO_REQUEST then InfoRequest
    else if bs[0] == NODE_INFO_RESPONSE then InfoResponse(bs[1..])
    else if bs[0] == DEBUG then DebugMeaning(bs[1..])
    else Nothing
  }

  /** What one node sends is what the other takes it for. */
  lemma FramesMean(topic: Topic, data: seq<Byte>)
    ensures MeaningOf(DebugFrame(RequestKind(topic), data)[1..]) == Request(topic)
    ensures MeaningOf(DebugFrame(ResponseKind(topic), data)[1..]) == Response(topic, data)
  {
    assert DebugFrame(RequestKind(topic), data)[1..] == [DEBUG, RequestKind(topic)] + data;
    assert DebugFrame(ResponseKind(topic), data)[1..] == [DEBUG, ResponseKind(topic)] + data;
    assert ([DEBUG, ResponseKind(topic)] + data)[1..] == [ResponseKind(topic)] + data;
    assert ([ResponseKind(topic)] + data)[1..] == data;
  }

  function InfoRequestFrame(): seq<Byte> {
    [Framing.PROTO, NODE_INFO_REQUEST]
  }

  function InfoResponseFrame(info: seq<Byte>): seq<Byte> {
    [Framing.PROTO, NODE_INFO_RESPONSE] + info
  }

  lemma InfoFramesMean(info: seq<Byte>)
    ensures MeaningOf(InfoRequestFrame()[1..]) == InfoRequest
    ensures MeaningOf(InfoResponseFrame(info)[1..]) == InfoResponse(info)
  {
    assert InfoResponseFrame(info)[1..] == [NODE_INFO_RESPONSE] + info;
    assert ([NODE_INFO_RESPONSE] + info)[1..] == info;
  }

  /** The frames, byte by byte. */
  lemma FrameBytes(topic: Topic, data: seq<Byte>)
    ensures DebugFrame(RequestKind(topic), data) == [2, 255, match topic case Self => 1 case Peers => 3 case Dht => 5] + data
    ensures DebugFrame(ResponseKind(topic), data) == [2, 255, match topic case Self => 2 case Peers => 4 case Dht => 6] + data
    ensures InfoRequestFrame() == [2, 1] && InfoResponseFrame(data) == [2, 2] + data
  {
  }

  /** Nothing else is taken for a request or a response, of whatever kind. */
  lemma OnlyFramesMean(bs: seq<Byte>, topic: Topic)
    ensures MeaningOf(bs) == Request(topic) <==>
            |bs| >= 2 && bs[0] == 255 && bs[1] == match topic case Self => 1 case Peers => 3 case Dht => 5
    ensures MeaningOf(bs).Response? && MeaningOf(bs).topic == topic <==>
            |bs| >= 2 && bs[0] == 255 && bs[1] == match topic case Self => 2 case Peers => 4 case Dht => 6
    ensures MeaningOf(bs).Response? ==> MeaningOf(bs).data == bs[2..]
    ensures MeaningOf(bs) == InfoRequest <==> |bs| >= 1 && bs[0] == 1
    ensures MeaningOf(bs).InfoResponse? <==> |bs| >= 1 && bs[0] == 2
    ensures MeaningOf(bs).InfoResponse? ==> MeaningOf(bs).data == bs[1..]
  {
    if |bs| >= 2 { assert bs[1..][0] == bs[1] && bs[1..][1..] == bs[2..]; }
  }

  /** What this node tells about itself: its own description, if it can be encoded, and the keys
      of its peers and of its DHT. */
  datatype Facts = Facts(self: Option<seq<Byte>>, peers: seq<Key>, dht: seq<Key>, mtu: nat)

  function Reply(facts: Facts, topic: Topic): (frames: seq<seq<Byte>>)
    requires facts.mtu < Framing.TWO_64
  {
    match topic
    case Self => if facts.self.Some? then [DebugFrame(SELF_RESPONSE, facts.self.value)] else []
    case Peers => [DebugFrame(PEERS_RESPONSE, Concat(facts.peers[..Fits(facts.mtu, |facts.peers|)]))]
    case Dht => [DebugFrame(DHT_RESPONSE, Concat(facts.dht[..Fits(facts.mtu, |facts.dht|)]))]
  }

  function Addressed(key: Key, frames: seq<seq<Byte>>): (sent: seq<(Key, seq<Byte>)>) {
    if frames == [] then [] else [(key, frames[0])] + Addressed(key, frames[1..])
  }

  class ProtoHandler {
    const selfRequests: RequestTable
    const peersRequests: RequestTable
    const dhtRequests: RequestTable
    var sent: seq<(Key, seq<Byte>)>            // handed to the packet connection
    var forNodeInfo: seq<(Key, Meaning)>       // handed to the node-info actor

    ghost predicate Valid()
      reads this, selfRequests, peersRequests, dhtRequests
    {
      && selfRequests != peersRequests && selfRequests != dhtRequests && peersRequests != dhtRequests
      && selfRequests.Valid() && peersRequests.Valid() && dhtRequests.Valid()
    }

    ghost function View(topic: Topic): Table
      reads selfRequests, peersRequests, dhtRequests
    {
      match topic case Self => selfRequests.view case Peers => peersRequests.view case Dht => dhtRequests.view
    }

    constructor ()
      ensures Valid() && sent == [] && forNodeInfo == [] && forall topic :: View(topic) == EMPTY
      ensures fresh(selfRequests) && fresh(peersRequests) && fresh(dhtRequests)
    {
      var s := new RequestTable();
      var p := new RequestTable();
      var d := new RequestTable();
      selfRequests, peersRequests, dhtRequests := s, p, d;
      sent, forNodeInfo := [], [];
    }

    function TableOf(topic: Topic): RequestTable {
      match topic case Self => selfRequests case Peers => peersRequests case Dht => dhtRequests
    }

    method SendDebug(key: Key, kind: Byte, data: seq<Byte>)
      modifies `sent
      ensures sent == old(sent) + [(key, DebugFrame(kind, data))]
    {
      sent := sent + [(key, [Framing.PROTO, DEBUG, kind] + data)];
    }

    /** A request for a topic: it is entered in the topic's table and sent. */
    method SendRequest(topic: Topic, key: Key, callback: nat) returns (info: ReqInfo)
      requires Valid()
      modifies `sent, TableOf(topic)
      ensures Valid() && info.callback == callback && fresh(info)
      ensures View(topic) == Register(old(View(topic)), key, info) && Enabled(old(View(topic)), DoRegister(key, info))
      ensures TableOf(topic).requests == old(TableOf(topic).requests)[key := info]
      ensures sent == old(sent) + [(key, DebugFrame(RequestKind(topic), []))]
    {
      info := TableOf(topic).Send(key, callback);
      SendDebug(key, RequestKind(topic), []);
    }

    method HandleRequest(facts: Facts, topic: Topic, key: Key)
      requires facts.mtu < Framing.TWO_64
      modifies `sent
      ensures sent == old(sent) + Addressed(key, Reply(facts, topic))
    {
      match topic
      case Self =>
        if facts.self.Some? {
          SendDebug(key, SELF_RESPONSE, facts.self.value);
        }
      case Peers =>
        var bs := PackKeys(facts.peers, facts.mtu);
        SendDebug(key, PEERS_RESPONSE, bs);
      case Dht =>
        var bs := PackKeys(facts.dht, facts.mtu);
        SendDebug(key, DHT_RESPONSE, bs);
    }

    method HandleDebug(facts: Facts, key: Key, bs: seq<Byte>)
      requires Valid() && facts.mtu < Framing.TWO_64
      modifies `sent, selfRequests, peersRequests, dhtRequests
      ensures Valid()
      ensures sent == old(sent) + RepliesTo(facts, key, DebugMeaning(bs))
      ensures forall topic :: View(topic) == Heard(old(View(topic)), topic, key, DebugMeaning(bs))
    {
      if |bs| == 0 {
        return;
      }
      if bs[0] == SELF_REQUEST {
        HandleRequest(facts, Self, key);
      } else if bs[0] == SELF_RESPONSE {
        selfRequests.HandleResponse(key, bs[1..]);
      } else if bs[0] == PEERS_REQUEST {
        HandleRequest(facts, Peers, key);
      } else if bs[0] == PEERS_RESPONSE {
        peersRequests.HandleResponse(key, bs[1..]);
      } else if bs[0] == DHT_REQUEST {
        HandleRequest(facts, Dht, key);
      } else if bs[0] == DHT_RESPONSE {
        dhtRequests.HandleResponse(key, bs[1..]);
      }
    }

    /** A protocol message: a request is replied to, a response answers the request open for its
        topic and its key, and node-info messages are passed on; nothing else happens. */
    method HandleProto(facts: Facts, key: Key, bs: seq<Byte>)
      requires Valid() && facts.mtu < Framing.TWO_64
      modifies `sent, `forNodeInfo, selfRequests, peersRequests, dhtRequests
      ensures Valid()
      ensures sent == old(sent) + RepliesTo(facts, key, MeaningOf(bs))
      ensures forall topic :: View(topic) == Heard(old(View(topic)), topic, key, MeaningOf(bs))
      ensures forNodeInfo == old(forNodeInfo) + if MeaningOf(bs).InfoRequest? || MeaningOf(bs).InfoResponse? then [(key, MeaningOf(bs))] else []
    {
      if |bs| == 0 {
        return;
      }
      if bs[0] == NODE_INFO_REQUEST {
        forNodeInfo := forNodeInfo + [(key, InfoRequest)];
      } else if bs[0] == NODE_INFO_RESPONSE {
        forNodeInfo := forNodeInfo + [(key, InfoResponse(bs[1..]))];
      } else if bs[0] == DEBUG {
        HandleDebug(facts, key, bs[1..]);
      }
    }
  }

  /** What a message makes this node send. */
  function RepliesTo(facts: Facts, key: Key, m: Meaning): (sent: seq<(Key, seq<Byte>)>)
    requires facts.mtu < Framing.TWO_64
  {
    if m.Request? then Addressed(key, Reply(facts, m.topic)) else []
  }

  /** What a message does to the table of a topic. */
  function Heard(t: Table, topic: Topic, key: Key, m: Meaning): (r: Table) {
    if m.Response? && m.topic == topic then Answer(t, key, m.data) else t
  }

  /** A message other than a response for a topic leaves the topic's table alone; a message other
      than a request has nothing sent. */
  lemma OtherMessages(t: Table, facts: Facts, topic: Topic, key: Key, bs: seq<Byte>)
    requires facts.mtu < Framing.TWO_64
    ensures !(|bs| >= 2 && bs[0] == 255 && bs[1] == match topic case Self => 2 case Peers => 4 case Dht => 6) ==>
              Heard(t, topic, key, MeaningOf(bs)) == t
    ensures !(|bs| >= 2 && bs[0] == 255 && (bs[1] == 1 || bs[1] == 3 || bs[1] == 5)) ==> RepliesTo(facts, key, MeaningOf(bs)) == []
  {
    OnlyFramesMean(bs, topic);
    OnlyFramesMean(bs, Self);
    OnlyFramesMean(bs, Peers);
    OnlyFramesMean(bs, Dht);
  }

  /** A node that is asked for itself answers with its own description, if it can be encoded. */
  lemma SelfReply(facts: Facts, key: Key)
    requires facts.mtu < Framing.TWO_64
    ensures RepliesTo(facts, key, Request(Self)) ==
            if facts.self.Some? then [(key, [2, 255, 2] + facts.self.value)] else []
  {
    if facts.self.Some? {
      var frame := DebugFrame(SELF_RESPONSE, facts.self.value);
      assert Addressed(key, [frame]) == [(key, frame)] by { assert Addressed(key, []) == []; }
    }
  }

  // ---- one exchange --------------------------------------------------------------

  /** A asks B for its peers or its DHT. B replies to the frame it receives, within an MTU of
      three bytes or more; and when the reply is received, whatever has come in between, but for
      what ends the request, the callback of that request is invoked with bytes that split into
      the first of B's keys, as many as fit. */
  lemma KeysExchange(topic: Topic, a: Key, b: Key, facts: Facts, t: Table, info: ReqInfo, meanwhile: seq<Event>)
    requires topic != Self && 3 <= facts.mtu < Framing.TWO_64
    requires Inv(t) && info !in t.keyOf && LeftAlone(meanwhile, b, info)
    ensures var keys := if topic == Peers then facts.peers else facts.dht;
            var asked := Framing.Messages([Framing.Arrived(DebugFrame(RequestKind(topic), []), a)]);
            && |asked| == 1 && asked[0].from == a && |RepliesTo(facts, a, MeaningOf(asked[0].data))| == 1
            && var (to, frame) := RepliesTo(facts, a, MeaningOf(asked[0].data))[0];
            && to == a && |frame| <= facts.mtu
            && var heard := Framing.Messages([Framing.Arrived(frame, b)]);
            && |heard| == 1 && heard[0].from == b
            && var before := Exec(Register(t, b, info), meanwhile);
            && var r := Heard(before, topic, b, MeaningOf(heard[0].data));
            && |r.calls| == |before.calls| + 1 && r.calls[|before.calls|].info == info && r.calls[|before.calls|].key == b
            && Split(r.calls[|before.calls|].data) == keys[..if |keys| <= (facts.mtu - 3) / 32 then |keys| else (facts.mtu - 3) / 32]
  {
    var keys := if topic == Peers then facts.peers else facts.dht;
    var data := Concat(keys[..Fits(facts.mtu, |keys|)]);
    var request, response := DebugFrame(RequestKind(topic), []), DebugFrame(ResponseKind(topic), data);
    FramesMean(topic, []);
    FramesMean(topic, data);
    Framing.ProtoFrameRead(request[1..], a);
    Framing.ProtoFrameRead(response[1..], b);
    assert request == Framing.ProtoFrame(request[1..]) && response == Framing.ProtoFrame(response[1..]);
    assert Reply(facts, topic) == [response];
    assert Addressed(a, [response]) == [(a, response)] by { assert Addressed(a, []) == []; }
    ResponseFits(ResponseKind(topic), keys, facts.mtu);
    PackedKeysArrive(keys, facts.mtu);
    LastRequestIsAnswered(t, b, info, meanwhile, data);
  }
}
