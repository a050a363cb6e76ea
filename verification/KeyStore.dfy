/** The key store as it is written: five tables over shared objects, changed in place. Every
    method takes the store through one step of the state machine, or a sequence of them. */
module KeyStore {
  import opened Bytes
  import opened Codec
  import opened Store
  import opened StoreInvariants
  import opened Icmp
  import StoreTheorems

  /** Where packets and out-of-band messages leave the node. */
  class Network {
    var sent: seq<(Packet, Key)>
    var oob: seq<Oob>

    method WriteTo(bs: Packet, key: Key)
      modifies this
      ensures sent == old(sent) + [(bs, key)] && oob == old(oob)
    {
      sent := sent + [(bs, key)];
    }

    method SendOutOfBand(dest: Key, data: seq<Byte>)
      modifies this
      ensures oob == old(oob) + [Oob(dest, data)] && sent == old(sent)
    {
      oob := oob + [Oob(dest, data)];
    }
  }

  // ---- two tables read as one ----------------------------------------------------

  /** m holds under slots what the two tables hold under addresses and subnets. */
  ghost predicate SameTable<V>(nodes: map<Address, V>, nets: map<Subnet, V>, m: map<Slot, V>) {
    && (forall a :: a in nodes <==> ForNode(a) in m)
    && (forall n :: n in nets <==> ForNetwork(n) in m)
    && (forall a | a in nodes :: m[ForNode(a)] == nodes[a])
    && (forall n | n in nets :: m[ForNetwork(n)] == nets[n])
  }

  lemma SetNode<V>(nodes: map<Address, V>, nets: map<Subnet, V>, m: map<Slot, V>, a: Address, v: V)
    requires SameTable(nodes, nets, m)
    ensures SameTable(nodes[a := v], nets, m[ForNode(a) := v])
  {
  }

  lemma SetNetwork<V>(nodes: map<Address, V>, nets: map<Subnet, V>, m: map<Slot, V>, n: Subnet, v: V)
    requires SameTable(nodes, nets, m)
    ensures SameTable(nodes, nets[n := v], m[ForNetwork(n) := v])
  {
  }

  lemma DeleteNode<V>(nodes: map<Address, V>, nets: map<Subnet, V>, m: map<Slot, V>, a: Address)
    requires SameTable(nodes, nets, m)
    ensures SameTable(nodes - {a}, nets, m - {ForNode(a)})
  {
  }

  lemma DeleteNetwork<V>(nodes: map<Address, V>, nets: map<Subnet, V>, m: map<Slot, V>, n: Subnet)
    requires SameTable(nodes, nets, m)
    ensures SameTable(nodes, nets - {n}, m - {ForNetwork(n)})
  {
  }

  lemma DropFromBoth(nodes: map<Address, KeyInfo>, nets: map<Subnet, KeyInfo>, m: map<Slot, KeyInfo>, a: Address, n: Subnet, info: KeyInfo)
    requires SameTable(nodes, nets, m)
    ensures SameTable(Without(nodes, a, info), Without(nets, n, info), Without(Without(m, ForNode(a), info), ForNetwork(n), info))
  {
  }

  /** The messages handed to the network are the ones in the books. */
  ghost predicate SameTraffic(sent: seq<(Packet, Key)>, books: seq<Sent>) {
    |sent| == |books| && forall i | 0 <= i < |sent| :: sent[i] == (books[i].packet, books[i].key)
  }

  function Payloads(books: seq<Sent>): (r: seq<Packet>)
    ensures |r| == |books|
  {
    seq(|books|, i requires 0 <= i < |books| => books[i].packet)
  }

  /** The packets, each for the key. */
  function ToKey(packets: seq<Packet>, key: Key): (sent: seq<(Packet, Key)>)
    ensures |sent| == |packets| && forall i | 0 <= i < |packets| :: sent[i] == (packets[i], key)
  {
    seq(|packets|, i requires 0 <= i < |packets| => (packets[i], key))
  }

  lemma MoreTraffic(sent: seq<(Packet, Key)>, books: seq<Sent>, packets: seq<Packet>, more: seq<Sent>, key: Key)
    requires SameTraffic(sent, books) && packets == Payloads(more) && forall x | x in more :: x.key == key
    ensures SameTraffic(sent + ToKey(packets, key), books + more)
  {
  }

  // ---- what may be read ----------------------------------------------------------

  type NonEmpty = bs: Packet | |bs| > 0 witness [0]

  /** What other users of the store do while the reader waits. */
  datatype Other =
    | Writes(bs: NonEmpty)
    | Hears(fromKey: Key, toKey: Key, data: seq<Byte>)
    | SetsMtu(wanted: nat, max: nat)

  /** What core.ReadFrom returns, a packet and the key of the node that sent it, or an error; or
      what happens before it returns. */
  datatype Incoming = Frame(bs: Packet, from: Key) | Failure | Between(other: Other)

  /** How reading ends. */
  datatype End = Found(bs: Packet) | Failed | Blocked

  predicate ForUs(id: Identity, bs: Packet)
    requires |bs| >= 40
  {
    Dst(bs) == id.address || Dst(bs)[..8] == id.subnet
  }

  predicate IsFrom(prefix: Byte, bs: Packet, from: Key)
    requires |bs| >= 40
  {
    Src(bs) == AddressOf(prefix, from) || Src(bs)[..8] == SubnetOf(prefix, from)
  }

  /** The packets a reader gets to see. */
  predicate Deliverable(id: Identity, mtu: nat, bs: Packet, from: Key) {
    40 <= |bs| <= mtu && IsIPv6(bs) && ForUs(id, bs) && IsFrom(id.prefix, bs, from)
  }

  /** What a packet adds to the packets written: a reply, if it is oversize, was destined for us
      and came from an address in the network. */
  function RepliesTo(checksum: Checksum, id: Identity, mtu: nat, bs: Packet): (r: seq<Packet>) {
    if |bs| >= QUOTED && |bs| > mtu && IsIPv6(bs) && ForUs(id, bs) && SlotFor(id.prefix, Src(bs)).Some?
    then [TooBigReply(checksum, mtu, bs)] else []
  }

  /** Which packets a reader is shown, and what is written because of them, both under an MTU;
      and which packets of other writers are accepted. */
  datatype Filter = Filter(shows: (nat, Packet, Key) -> bool, replies: (nat, Packet) -> seq<Packet>, accepts: NonEmpty -> bool)

  ghost predicate IsFilter(f: Filter, checksum: Checksum, id: Identity) {
    && (forall mtu, bs, from {:trigger Deliverable(id, mtu, bs, from)} :: f.shows(mtu, bs, from) <==> Deliverable(id, mtu, bs, from))
    && (forall mtu, bs {:trigger RepliesTo(checksum, id, mtu, bs)} :: f.replies(mtu, bs) == RepliesTo(checksum, id, mtu, bs))
    && (forall bs: NonEmpty {:trigger CheckWrite(id, bs)} :: f.accepts(bs) <==> CheckWrite(id, bs) == None)
  }

  function FilterFor(checksum: Checksum, id: Identity): (f: Filter)
    ensures IsFilter(f, checksum, id)
  {
    Filter((mtu: nat, bs: Packet, from: Key) => Deliverable(id, mtu, bs, from), (mtu: nat, bs) => RepliesTo(checksum, id, mtu, bs),
           (bs: NonEmpty) => CheckWrite(id, bs) == None)
  }

  predicate Shown(f: Filter, mtu: nat, next: Incoming) {
    next.Frame? && f.shows(mtu, next.bs, next.from)
  }

  function WrittenBy(f: Filter, other: Other): seq<Packet> {
    if other.Writes? && f.accepts(other.bs) then [other.bs] else []
  }

  /** The packets accepted when next happens. */
  function WrittenFor(f: Filter, mtu: nat, next: Incoming): seq<Packet> {
    match next
    case Frame(bs, from) => f.replies(mtu, bs)
    case Failure => []
    case Between(other) => WrittenBy(f, other)
  }

  function MtuAfter(mtu: nat, other: Other): nat {
    if other.SetsMtu? then ClampMtu(other.wanted, other.max) else mtu
  }

  function NextMtu(mtu: nat, next: Incoming): nat {
    if next.Between? then MtuAfter(mtu, next.other) else mtu
  }

  /** The MTU that applies to element i of a stream. */
  function MtuAt(mtu: nat, incoming: seq<Incoming>, i: nat): nat
    requires i <= |incoming|
  {
    if i == 0 then mtu else NextMtu(MtuAt(mtu, incoming, i - 1), incoming[i - 1])
  }

  /** What reading from a stream comes to: how it ends, after how much, and what is accepted for
      writing meanwhile. */
  datatype Reading = Reading(end: End, consumed: nat, written: seq<Packet>)

  /** k elements have been dealt with, none of them for the reader, and the MTU is mtu. */
  function Read(f: Filter, mtu: nat, incoming: seq<Incoming>, k: nat, written: seq<Packet>): (r: Reading)
    requires k <= |incoming|
    decreases |incoming| - k
  {
    if k == |incoming| then Reading(Blocked, k, written)
    else
      var next := incoming[k];
      var more := written + WrittenFor(f, mtu, next);
      if next.Failure? then Reading(Failed, k + 1, more)
      else if Shown(f, mtu, next) then Reading(Found(next.bs), k + 1, more)
      else Read(f, NextMtu(mtu, next), incoming, k + 1, more)
  }

  /** A reply goes from the packet's destination to its source and is 560 bytes long, well
      within the 1280 that section 2.4 of RFC 4443 allows. */
  lemma ReplyFacts(checksum: Checksum, id: Identity, mtu: nat, bs: Packet)
    ensures var r := RepliesTo(checksum, id, mtu, bs);
            |r| <= 1 && forall p | p in r :: |p| == 560 && Src(p) == Dst(bs) && Dst(p) == Src(bs) && p[48..] == bs[..QUOTED]
  {
    if |bs| >= QUOTED { TooBigReplyFacts(checksum, mtu, bs); }
  }

  /** Element i is neither for the reader nor an error. */
  ghost predicate Passes(f: Filter, mtu: nat, incoming: seq<Incoming>, i: nat)
    requires i < |incoming|
  {
    !Shown(f, MtuAt(mtu, incoming, i), incoming[i]) && incoming[i] != Failure
  }

  ghost predicate WrittenAt(f: Filter, mtu: nat, incoming: seq<Incoming>, i: nat, p: Packet)
    requires i < |incoming|
  {
    p in WrittenFor(f, MtuAt(mtu, incoming, i), incoming[i])
  }

  ghost predicate WrittenBefore(f: Filter, mtu: nat, incoming: seq<Incoming>, k: nat, p: Packet)
    requires k <= |incoming|
  {
    exists i :: 0 <= i < k && WrittenAt(f, mtu, incoming, i, p)
  }

  /** The reader gets the first packet that the filter shows, unless reading fails before; and
      whatever is written is written for something that happened until then. */
  lemma {:induction false} ReadFirstShown(f: Filter, mtu: nat, incoming: seq<Incoming>, k: nat, written: seq<Packet>)
    requires k <= |incoming|
    requires forall i | 0 <= i < k :: Passes(f, mtu, incoming, i)
    requires forall p | p in written :: WrittenBefore(f, mtu, incoming, k, p)
    ensures var r := Read(f, MtuAt(mtu, incoming, k), incoming, k, written);
            && k <= r.consumed <= |incoming|
            && (forall i | 0 <= i < r.consumed - (if r.end == Blocked then 0 else 1) :: Passes(f, mtu, incoming, i))
            && (r.end.Found? ==> r.consumed > 0 && incoming[r.consumed - 1].Frame? && r.end.bs == incoming[r.consumed - 1].bs
                                 && Shown(f, MtuAt(mtu, incoming, r.consumed - 1), incoming[r.consumed - 1]))
            && (r.end.Failed? ==> r.consumed > 0 && incoming[r.consumed - 1] == Failure)
            && (r.end.Blocked? ==> r.consumed == |incoming|)
            && forall p | p in r.written :: WrittenBefore(f, mtu, incoming, r.consumed, p)
    decreases |incoming| - k
  {
    if k < |incoming| {
      var now, next := MtuAt(mtu, incoming, k), incoming[k];
      var more := written + WrittenFor(f, now, next);
      MoreWritten(f, mtu, incoming, k, written, more);
      if !Shown(f, now, next) && next != Failure {
        assert Passes(f, mtu, incoming, k);
        ReadFirstShown(f, mtu, incoming, k + 1, more);
      }
    }
  }

  lemma MoreWritten(f: Filter, mtu: nat, incoming: seq<Incoming>, k: nat, written: seq<Packet>, more: seq<Packet>)
    requires k < |incoming|
    requires forall p | p in written :: WrittenBefore(f, mtu, incoming, k, p)
    requires more == written + WrittenFor(f, MtuAt(mtu, incoming, k), incoming[k])
    ensures forall p | p in more :: WrittenBefore(f, mtu, incoming, k + 1, p)
  {
    forall p | p in more ensures WrittenBefore(f, mtu, incoming, k + 1, p) {
      if p in written {
        var i :| 0 <= i < k && WrittenAt(f, mtu, incoming, i, p);
        assert i < k + 1;
      } else {
        assert WrittenAt(f, mtu, incoming, k, p);
      }
    }
  }

  /** A reply to a packet that is oversize and for us, to its source. */
  ghost predicate IsReply(id: Identity, mtu: nat, next: Incoming, p: Packet) {
    && next.Frame? && |next.bs| > mtu && |next.bs| >= QUOTED && IsIPv6(next.bs) && ForUs(id, next.bs)
    && |p| == 560 && Src(p) == Dst(next.bs) && Dst(p) == Src(next.bs)
  }

  ghost predicate IsOthers(id: Identity, next: Incoming, p: Packet) {
    next.Between? && next.other.Writes? && next.other.bs == p && CheckWrite(id, next.other.bs) == None
  }

  /** What makes a packet one for the reader, byte by byte. */
  lemma DeliverableMeans(id: Identity, mtu: nat, bs: Packet, from: Key)
    ensures Deliverable(id, mtu, bs, from) <==>
            && 40 <= |bs| <= mtu && bs[0] >> 4 == 6
            && (bs[24..40] == id.address || bs[24..32] == id.subnet)
            && (bs[8..24] == AddressOf(id.prefix, from) || bs[8..16] == SubnetOf(id.prefix, from))
  {
    if |bs| >= 40 {
      StoreTheorems.FirstNibble(bs[0]);
      StoreTheorems.HalfOf(bs);
    }
  }

  /** Over any incoming stream, whatever others do meanwhile, the reader is given a packet if and
      only if it is the first that is IPv6, at least 40 bytes long and at most the MTU of the
      moment, destined for our address or subnet, and comes from the address or subnet of the key
      that sent it; every other frame is passed over. */
  lemma ReadFilter(checksum: Checksum, id: Identity, mtu: nat, f: Filter, incoming: seq<Incoming>)
    requires IsFilter(f, checksum, id)
    ensures var r := Read(f, mtu, incoming, 0, []);
            && r.consumed <= |incoming|
            && (r.end.Found? ==> r.consumed > 0 && incoming[r.consumed - 1].Frame?)
            && (r.end.Blocked? ==> r.consumed == |incoming|)
            && (forall i | 0 <= i < r.consumed && incoming[i].Frame? ::
                  var bs, from, m := incoming[i].bs, incoming[i].from, MtuAt(mtu, incoming, i);
                  (r.end == Found(bs) && i == r.consumed - 1) <==>
                    && 40 <= |bs| <= m && bs[0] >> 4 == 6
                    && (bs[24..40] == id.address || bs[24..32] == id.subnet)
                    && (bs[8..24] == AddressOf(id.prefix, from) || bs[8..16] == SubnetOf(id.prefix, from)))
    ensures var r := Read(f, mtu, incoming, 0, []);
            forall p | p in r.written :: exists i :: 0 <= i < r.consumed && Explained(id, mtu, incoming, i, p)
  {
    ReadFirstShown(f, mtu, incoming, 0, []);
    var r := Read(f, mtu, incoming, 0, []);
    forall i | 0 <= i < r.consumed && incoming[i].Frame?
      ensures (r.end == Found(incoming[i].bs) && i == r.consumed - 1) <==>
              Deliverable(id, MtuAt(mtu, incoming, i), incoming[i].bs, incoming[i].from)
    {
      assert f.shows(MtuAt(mtu, incoming, i), incoming[i].bs, incoming[i].from) <==>
             Deliverable(id, MtuAt(mtu, incoming, i), incoming[i].bs, incoming[i].from);
      assert i < r.consumed - 1 ==> Passes(f, mtu, incoming, i);
      assert r.end == Blocked ==> Passes(f, mtu, incoming, i);
    }
    forall i | 0 <= i < r.consumed && incoming[i].Frame?
      ensures var bs, from, m := incoming[i].bs, incoming[i].from, MtuAt(mtu, incoming, i);
              (r.end == Found(bs) && i == r.consumed - 1) <==>
                && 40 <= |bs| <= m && bs[0] >> 4 == 6
                && (bs[24..40] == id.address || bs[24..32] == id.subnet)
                && (bs[8..24] == AddressOf(id.prefix, from) || bs[8..16] == SubnetOf(id.prefix, from))
    {
      DeliverableMeans(id, MtuAt(mtu, incoming, i), incoming[i].bs, incoming[i].from);
    }
    forall p | p in r.written ensures exists i :: 0 <= i < r.consumed && Explained(id, mtu, incoming, i, p) {
      assert WrittenBefore(f, mtu, incoming, r.consumed, p);
      var i :| 0 <= i < r.consumed && WrittenAt(f, mtu, incoming, i, p);
      WrittenIsExplained(checksum, id, mtu, f, incoming, i, p);
    }
  }

  /** A frame is replied to if and only if it is oversize, IPv6, destined for us and from an
      address or a subnet of the network; and the reply, of which there is one, is a Packet Too
      Big message of 560 bytes to its source that quotes it. */
  lemma RepliesMean(checksum: Checksum, id: Identity, mtu: nat, bs: Packet)
    requires mtu >= 1280
    ensures var r := RepliesTo(checksum, id, mtu, bs);
            && (|r| == if |bs| > mtu && bs[0] >> 4 == 6 && (bs[24..40] == id.address || bs[24..32] == id.subnet)
                          && (bs[8] == id.prefix || bs[8] == id.prefix | 1) then 1 else 0)
            && forall p: Packet | p in r ::
                 |p| == 560 && p[8..24] == bs[24..40] && p[24..40] == bs[8..24] && (p[6] == 58) && (p[40] == 2) && p[48..] == bs[..512]
  {
    if |bs| > mtu {
      StoreTheorems.FirstNibble(bs[0]);
      StoreTheorems.HalfOf(bs);
      SourceHalf(bs);
      TooBigReplyFacts(checksum, mtu, bs);
      TooBigReplyFields(checksum, mtu, bs, TooBigReply(checksum, mtu, bs));
    }
  }

  lemma SourceHalf(bs: Packet)
    requires |bs| >= 40
    ensures Src(bs)[0] == bs[8] && Src(bs)[..8][0] == bs[8] && Dst(bs) == bs[24..40] && Src(bs) == bs[8..24]
  {
  }

  /** Whatever happens until reading ends, its packets are accepted, all of them and in order. */
  function AllWritten(f: Filter, mtu: nat, incoming: seq<Incoming>, k: nat): (written: seq<Packet>)
    requires k <= |incoming|
  {
    if k == 0 then [] else AllWritten(f, mtu, incoming, k - 1) + WrittenFor(f, MtuAt(mtu, incoming, k - 1), incoming[k - 1])
  }

  lemma {:induction false} ReadWrites(f: Filter, mtu: nat, incoming: seq<Incoming>, k: nat)
    requires k <= |incoming|
    ensures var r := Read(f, MtuAt(mtu, incoming, k), incoming, k, AllWritten(f, mtu, incoming, k));
            r.consumed <= |incoming| && r.written == AllWritten(f, mtu, incoming, r.consumed)
    decreases |incoming| - k
  {
    if k < |incoming| && incoming[k] != Failure && !Shown(f, MtuAt(mtu, incoming, k), incoming[k]) {
      ReadWrites(f, mtu, incoming, k + 1);
    }
  }

  ghost predicate Explained(id: Identity, mtu: nat, incoming: seq<Incoming>, i: nat, p: Packet)
    requires i < |incoming|
  {
    IsReply(id, MtuAt(mtu, incoming, i), incoming[i], p) || IsOthers(id, incoming[i], p)
  }

  lemma WrittenIsExplained(checksum: Checksum, id: Identity, mtu: nat, f: Filter, incoming: seq<Incoming>, i: nat, p: Packet)
    requires IsFilter(f, checksum, id) && i < |incoming| && WrittenAt(f, mtu, incoming, i, p)
    ensures Explained(id, mtu, incoming, i, p)
  {
    match incoming[i]
    case Frame(bs, from) =>
      assert p in RepliesTo(checksum, id, MtuAt(mtu, incoming, i), bs);
      ReplyFacts(checksum, id, MtuAt(mtu, incoming, i), bs);
    case Failure =>
    case Between(other) =>
      assert other.Writes? && CheckWrite(id, other.bs) == None;
  }

  lemma HeaderKept(bs: Packet)
    requires |bs| >= QUOTED
    ensures Src(bs[..QUOTED]) == Src(bs) && Dst(bs[..QUOTED]) == Dst(bs)
  {
  }

  lemma WriteAccepts(s: Store, bs: Packet, buf: Buffer, timer: Timer)
    requires |bs| > 0 && CheckWrite(s.id, bs) == None
    ensures var r := Write(s, bs, buf, timer); r.books.accepted == s.books.accepted + [bs] && r.mtu == s.mtu && r.id == s.id
  {
  }

  /** The step that an out-of-band message was. */
  lemma HeardRun(s: Store, fromKey: Key, toKey: Key, data: seq<Byte>, info: KeyInfo, timer: Timer, r: Store)
    returns (run: seq<Event>)
    requires match Classify(s.id, fromKey, toKey, data)
             case Ignored => r == s
             case ValidLookup => r == Answer(s, fromKey)
             case ValidResponse => r == Learn(s, fromKey, info, timer) && LearnObjects(s, fromKey, info, timer)
    ensures Possible(s, run) && r == Exec(s, run) && r.books.accepted == s.books.accepted && r.mtu == s.mtu
  {
    var e := DoOob(fromKey, toKey, data, info, timer);
    run := [e];
    RunOne(s, e);
    LearnKeeps(s, fromKey, info, timer);
  }

  lemma LearnKeeps(s: Store, key: Key, info: KeyInfo, timer: Timer)
    ensures var r := Learn(s, key, info, timer); r.books.accepted == s.books.accepted && r.mtu == s.mtu && r.id == s.id
  {
  }

  // ---- the class -----------------------------------------------------------------

  class KeyStore {
    const id: Identity
    const checksum: Checksum
    const core: Network
    var keyToInfo: map<Key, KeyInfo>
    var addrToInfo: map<Address, KeyInfo>
    var addrBuffer: map<Address, Buffer>
    var subnetToInfo: map<Subnet, KeyInfo>
    var subnetBuffer: map<Subnet, Buffer>
    var mtu: nat
    ghost var view: Store        // the state the store is in
    ghost var repr: set<object>  // the entries and buffers it owns

    /** The tables, the buffers and the network are in the state that view describes. */
    ghost predicate Valid()
      reads this, repr, core
    {
      ValidButTables() && KnownTables(view.tables) && WaitingTables(view.books.waiting)
    }

    /** All of that but the tables. */
    ghost predicate ValidButTables()
      reads this, repr, core
    {
      Objects(view, repr) && SameTraffic(core.sent, view.books.sent) && core.oob == view.oob
    }

    /** s talks of objects in own, and of the packets in its buffers as they are. */
    ghost predicate Objects(s: Store, own: set<object>)
      reads `mtu, own
    {
      && this !in own && core !in own
      && s.tables.made <= own
      && (forall k | k in s.tables.keyToInfo :: s.tables.keyToInfo[k] in own)
      && (forall slot | slot in s.tables.found :: s.tables.found[slot] in own)
      && (forall slot | slot in s.books.waiting :: s.books.waiting[slot] in s.books.held)
      && (forall b | b in s.books.held :: b in own && b.packet == s.books.held[b].packet)
      && s.id == id && s.mtu == mtu
    }

    ghost predicate KnownTables(t: Tables)
      reads this
    {
      keyToInfo == t.keyToInfo && SameTable(addrToInfo, subnetToInfo, t.found)
    }

    ghost predicate WaitingTables(waiting: map<Slot, Buffer>)
      reads this
    {
      SameTable(addrBuffer, subnetBuffer, waiting)
    }

    constructor (prefix: Byte, publicKey: Key, crypto: Crypto, checksum: Checksum)
      ensures Valid() && fresh(repr) && fresh(core) && view == Init(prefix, publicKey, crypto)
      ensures id.prefix == prefix && id.address == AddressOf(prefix, publicKey) && id.subnet == SubnetOf(prefix, publicKey) && mtu == 1280
      ensures keyToInfo == map[] && addrToInfo == map[] && subnetToInfo == map[] && addrBuffer == map[] && subnetBuffer == map[]
    {
      id := Identity(prefix, AddressOf(prefix, publicKey), SubnetOf(prefix, publicKey), crypto);
      this.checksum := checksum;
      var network := new Network;
      core := network;
      keyToInfo, addrToInfo, addrBuffer, subnetToInfo, subnetBuffer, mtu := map[], map[], map[], map[], map[], 1280;
      repr := {};
      view := Init(prefix, publicKey, crypto);
      new;
      network.sent, network.oob := [], [];
    }

    // ---- timers ------------------------------------------------------------------

    /** The timer the entry had is stopped, which may be too late: it stays pending. */
    method ResetTimeout(info: KeyInfo) returns (timer: Timer)
      modifies info`timeout
      ensures fresh(timer) && timer.callback == DropInfo(info) && info.timeout == timer
    {
      timer := new Timer(DropInfo(info));
      info.timeout := timer;
    }

    /** What the callback of an entry's timer removes. */
    method DropEntry(info: KeyInfo, ghost t: Tables)
      requires KnownTables(t)
      modifies `keyToInfo, `addrToInfo, `subnetToInfo
      ensures KnownTables(Remove(t, info))
      ensures keyToInfo == Without(old(keyToInfo), info.key, info)
      ensures addrToInfo == Without(old(addrToInfo), info.address, info) && subnetToInfo == Without(old(subnetToInfo), info.subnet, info)
    {
      DropFromBoth(addrToInfo, subnetToInfo, t.found, info.address, info.subnet, info);
      if info.key in keyToInfo && keyToInfo[info.key] == info {
        keyToInfo := keyToInfo - {info.key};
      }
      if info.address in addrToInfo && addrToInfo[info.address] == info {
        addrToInfo := addrToInfo - {info.address};
      }
      if info.subnet in subnetToInfo && subnetToInfo[info.subnet] == info {
        subnetToInfo := subnetToInfo - {info.subnet};
      }
    }

    /** The callback of an entry's timer. */
    method InfoTimeout(timer: Timer)
      requires Valid() && timer in view.pending && timer.callback.DropInfo?
      modifies this
      ensures Valid() && repr == old(repr) && view == Fire(old(view), timer)
    {
      DropEntry(timer.callback.info, view.tables);
      view := Fire(view, timer);
    }

    /** The callback of a waiting packet's timer, for a node's address. */
    method AddressTimeout(timer: Timer, addr: Address, buf: Buffer)
      requires Valid() && timer in view.pending && timer.callback == DropBuffer(ForNode(addr), buf)
      modifies this
      ensures Valid() && repr == old(repr) && view == Fire(old(view), timer) && addrBuffer == Without(old(addrBuffer), addr, buf)
    {
      if addr in addrBuffer && addrBuffer[addr] == buf {
        DeleteNode(addrBuffer, subnetBuffer, view.books.waiting, addr);
        addrBuffer := addrBuffer - {addr};
      }
      view := Fire(view, timer);
    }

    /** The callback of a waiting packet's timer, for a subnet. */
    method SubnetTimeout(timer: Timer, subnet: Subnet, buf: Buffer)
      requires Valid() && timer in view.pending && timer.callback == DropBuffer(ForNetwork(subnet), buf)
      modifies this
      ensures Valid() && repr == old(repr) && view == Fire(old(view), timer) && subnetBuffer == Without(old(subnetBuffer), subnet, buf)
    {
      if subnet in subnetBuffer && subnetBuffer[subnet] == buf {
        DeleteNetwork(addrBuffer, subnetBuffer, view.books.waiting, subnet);
        subnetBuffer := subnetBuffer - {subnet};
      }
      view := Fire(view, timer);
    }

    // ---- sending -----------------------------------------------------------------

    method SendKeyLookup(partial: Key)
      modifies core
      ensures core.oob == old(core.oob) + [Message(id.crypto, partial, TYPE_KEY_LOOKUP)] && core.sent == old(core.sent)
    {
      core.SendOutOfBand(partial, [TYPE_KEY_LOOKUP] + id.crypto.sign(partial));
    }

    method SendKeyResponse(dest: Key)
      modifies core
      ensures core.oob == old(core.oob) + [Message(id.crypto, dest, TYPE_KEY_RESPONSE)] && core.sent == old(core.sent)
    {
      core.SendOutOfBand(dest, [TYPE_KEY_RESPONSE] + id.crypto.sign(dest));
    }

    /** Nothing but sending one packet is left to do to be in state next. */
    method Forward(bs: Packet, key: Key, ghost next: Store, ghost ticket: nat)
      requires Objects(next, repr) && KnownTables(next.tables) && WaitingTables(next.books.waiting)
      requires SameTraffic(core.sent, view.books.sent) && next.oob == core.oob
      requires next.books.sent == view.books.sent + [Sent(ticket, bs, key)]
      modifies `view, core
      ensures Valid() && view == next
      ensures core.sent == old(core.sent) + [(bs, key)] && core.oob == old(core.oob)
    {
      core.WriteTo(bs, key);
      view := next;
    }

    /** A packet for a slot whose key is known. */
    method SendToKnown(info: KeyInfo, bs: Packet, ghost slot: Slot, ghost buf: Buffer) returns (timer: Timer)
      requires Valid() && slot in view.tables.found && view.tables.found[slot] == info
      modifies this`view, info`timeout, core
      ensures Valid() && view == SendTo(old(view), slot, bs, buf, timer)
      ensures timer.callback == DropInfo(info) && info.timeout == timer
      ensures core.sent == old(core.sent) + [(bs, info.key)] && core.oob == old(core.oob)
    {
      timer := ResetTimeout(info);
      Forward(bs, info.key, SendTo(view, slot, bs, buf, timer), |view.books.accepted|);
    }

    /** A packet for a slot whose key is not known, once it has a buffer. */
    method Fill(b: Buffer, bs: Packet, slot: Slot) returns (timer: Timer)
      modifies b
      ensures b.packet == bs && b.timeout == timer && fresh(timer) && timer.callback == DropBuffer(slot, b)
    {
      b.packet := bs;
      timer := new Timer(DropBuffer(slot, b));
      b.timeout := timer;
    }

    /** The buffer of an address, made if there is none. */
    method AddressBuffer(addr: Address) returns (b: Buffer)
      requires WaitingTables(view.books.waiting)
      modifies `addrBuffer
      ensures addr in old(addrBuffer) ==> b == old(addrBuffer)[addr]
      ensures addr !in old(addrBuffer) ==> fresh(b)
      ensures WaitingTables(view.books.waiting[ForNode(addr) := b]) && addrBuffer == old(addrBuffer)[addr := b]
    {
      if addr in addrBuffer {
        b := addrBuffer[addr];
      } else {
        b := new Buffer();
        SetNode(addrBuffer, subnetBuffer, view.books.waiting, addr, b);
        addrBuffer := addrBuffer[addr := b];
      }
    }

    method SubnetBuffer(subnet: Subnet) returns (b: Buffer)
      requires WaitingTables(view.books.waiting)
      modifies `subnetBuffer
      ensures subnet in old(subnetBuffer) ==> b == old(subnetBuffer)[subnet]
      ensures subnet !in old(subnetBuffer) ==> fresh(b)
      ensures WaitingTables(view.books.waiting[ForNetwork(subnet) := b]) && subnetBuffer == old(subnetBuffer)[subnet := b]
    {
      if subnet in subnetBuffer {
        b := subnetBuffer[subnet];
      } else {
        b := new Buffer();
        SetNetwork(addrBuffer, subnetBuffer, view.books.waiting, subnet, b);
        subnetBuffer := subnetBuffer[subnet := b];
      }
    }

    /** Nothing but the lookup is left to do to be in state next. */
    method Ask(partial: Key, ghost next: Store, ghost own: set<object>)
      requires Objects(next, own) && KnownTables(next.tables) && WaitingTables(next.books.waiting)
      requires SameTraffic(core.sent, next.books.sent) && next.oob == core.oob + [Message(id.crypto, partial, TYPE_KEY_LOOKUP)]
      modifies this`view, this`repr, core
      ensures Valid() && view == next && repr == own
      ensures core.sent == old(core.sent) && core.oob == old(core.oob) + [Oob(partial, [1] + id.crypto.sign(partial))]
    {
      SendKeyLookup(partial);
      view, repr := next, own;
    }

    /** The packet goes into the buffer its slot now has, and its key is asked for. */
    method Enqueue(b: Buffer, bs: Packet, slot: Slot, partial: Key) returns (timer: Timer)
      requires ValidButTables() && KnownTables(view.tables) && WaitingTables(view.books.waiting[slot := b])
      requires slot !in view.tables.found && partial == PartialFor(slot) && b == BufferFor(view.books, slot, b)
      modifies this`view, this`repr, b, core
      ensures Valid() && repr == old(repr) + {b}
      ensures view == SendTo(old(view), slot, bs, b, timer)
      ensures timer.callback == DropBuffer(slot, b) && b.timeout == timer && b.packet == bs
      ensures core.sent == old(core.sent) && core.oob == old(core.oob) + [Oob(partial, [1] + id.crypto.sign(partial))]
    {
      timer := Fill(b, bs, slot);
      Ask(partial, SendTo(view, slot, bs, b, timer), repr + {b});
    }

    method QueueForAddress(addr: Address, bs: Packet) returns (b: Buffer, timer: Timer)
      requires Valid() && ForNode(addr) !in view.tables.found
      modifies this, repr, core
      ensures Valid() && repr == old(repr) + {b} && (b in old(repr) || fresh(b))
      ensures view == SendTo(old(view), ForNode(addr), bs, b, timer)
      ensures addr in old(addrBuffer) || b !in old(view).books.held
      ensures b == BufferFor(old(view).books, ForNode(addr), b)
      ensures timer.callback == DropBuffer(ForNode(addr), b) && b.timeout == timer && b.packet == bs
      ensures addrBuffer == old(addrBuffer)[addr := b] && core.sent == old(core.sent)
      ensures core.oob == old(core.oob) + [Oob(PartialKey(addr), [1] + id.crypto.sign(PartialKey(addr)))]
    {
      b := AddressBuffer(addr);
      var partial := GetAddressKey(addr);
      timer := Enqueue(b, bs, ForNode(addr), partial);
    }

    method QueueForSubnet(subnet: Subnet, bs: Packet) returns (b: Buffer, timer: Timer)
      requires Valid() && ForNetwork(subnet) !in view.tables.found
      modifies this, repr, core
      ensures Valid() && repr == old(repr) + {b} && (b in old(repr) || fresh(b))
      ensures view == SendTo(old(view), ForNetwork(subnet), bs, b, timer)
      ensures subnet in old(subnetBuffer) || b !in old(view).books.held
      ensures b == BufferFor(old(view).books, ForNetwork(subnet), b)
      ensures timer.callback == DropBuffer(ForNetwork(subnet), b) && b.timeout == timer && b.packet == bs
      ensures subnetBuffer == old(subnetBuffer)[subnet := b] && core.sent == old(core.sent)
      ensures var partial := PartialKey(SubnetAddress(subnet)); core.oob == old(core.oob) + [Oob(partial, [1] + id.crypto.sign(partial))]
    {
      b := SubnetBuffer(subnet);
      var partial := GetSubnetKey(subnet);
      timer := Enqueue(b, bs, ForNetwork(subnet), partial);
    }

    /** A packet for an address that is known is sent to the key known for it; any other waits in
        the address's buffer, and its key is looked up. */
    method SendToAddress(addr: Address, bs: Packet) returns (ghost buf: Buffer, timer: Timer)
      requires Valid()
      modifies this, repr, core
      ensures Valid() && fresh(repr - old(repr))
      ensures view == SendTo(old(view), ForNode(addr), bs, buf, timer)
      ensures SendObjects(old(view), ForNode(addr), buf, timer)
      ensures HandedToNode(addr, bs)
    {
      if addr in addrToInfo {
        buf := new Buffer.Unused();
        timer := SendToKnown(addrToInfo[addr], bs, ForNode(addr), buf);
      } else {
        buf, timer := QueueForAddress(addr, bs);
      }
    }

    /** The same for a subnet. */
    method SendToSubnet(subnet: Subnet, bs: Packet) returns (ghost buf: Buffer, timer: Timer)
      requires Valid()
      modifies this, repr, core
      ensures Valid() && fresh(repr - old(repr))
      ensures view == SendTo(old(view), ForNetwork(subnet), bs, buf, timer)
      ensures SendObjects(old(view), ForNetwork(subnet), buf, timer)
      ensures HandedToNetwork(subnet, bs)
    {
      if subnet in subnetToInfo {
        buf := new Buffer.Unused();
        timer := SendToKnown(subnetToInfo[subnet], bs, ForNetwork(subnet), buf);
      } else {
        buf, timer := QueueForSubnet(subnet, bs);
      }
    }

    method CheckDestination(dst: Address) returns (isAddress: bool, ok: bool)
      ensures isAddress == ValidAddress(id.prefix, dst)
      ensures ok <==> SlotFor(id.prefix, dst).Some?
    {
      isAddress := IsValidAddress([id.prefix], dst);
      var isSubnet := IsValidSubnet([id.prefix], dst[..8]);
      ok := isAddress || isSubnet;
    }

    /** The checks on a packet to be sent. */
    method CheckPacket(bs: Packet) returns (err: Option<WriteError>, isAddress: bool)
      requires |bs| > 0
      ensures err == CheckWrite(id, bs)
      ensures err == None ==> isAddress == ValidAddress(id.prefix, Dst(bs))
    {
      if !IsIPv6(bs) {
        return Some(NotIPv6), false;
      }
      if |bs| < 40 {
        return Some(Undersized), false;
      }
      var srcAddr, dstAddr := Src(bs), Dst(bs);
      if srcAddr != id.address && srcAddr[..8] != id.subnet {
        return Some(BadSource), false;
      }
      var ok;
      isAddress, ok := CheckDestination(dstAddr);
      err := if ok then None else Some(BadDestination);
    }

    /** The packet goes to its destination's address if that starts with the prefix, and to its
        destination's subnet otherwise. */
    method SendToDestination(bs: Packet, isAddress: bool) returns (ghost buf: Buffer, timer: Timer)
      requires Valid() && |bs| > 0 && CheckWrite(id, bs) == None && isAddress == ValidAddress(id.prefix, Dst(bs))
      modifies this, repr, core
      ensures Valid() && fresh(repr - old(repr))
      ensures view == Write(old(view), bs, buf, timer) && WriteObjects(old(view), bs, buf, timer)
      ensures Handed(bs)
    {
      StoreTheorems.HalfOf(bs);
      if isAddress {
        buf, timer := SendToAddress(bs[24..40], bs);
      } else {
        buf, timer := SendToSubnet(bs[24..32], bs);
      }
    }

    /** The network has been handed the packet, for the key known for its destination; or the
        packet is what waits for its destination, and the key has been asked for. */
    twostate predicate Handed(bs: Packet)
      requires |bs| >= 40
      reads this, addrBuffer.Values, subnetBuffer.Values, core
    {
      if bs[24] == id.prefix then HandedToNode(bs[24..40], bs) else HandedToNetwork(bs[24..32], bs)
    }

    twostate predicate HandedToNode(addr: Address, bs: Packet)
      reads this, addrBuffer.Values, core
    {
      if addr in old(addrToInfo) then
        core.sent == old(core.sent) + [(bs, old(addrToInfo)[addr].key)] && core.oob == old(core.oob)
      else
        && addr in addrBuffer && addrBuffer[addr].packet == bs && core.sent == old(core.sent)
        && core.oob == old(core.oob) + [Oob(PartialKey(addr), [1] + id.crypto.sign(PartialKey(addr)))]
    }

    twostate predicate HandedToNetwork(subnet: Subnet, bs: Packet)
      reads this, subnetBuffer.Values, core
    {
      if subnet in old(subnetToInfo) then
        core.sent == old(core.sent) + [(bs, old(subnetToInfo)[subnet].key)] && core.oob == old(core.oob)
      else
        && subnet in subnetBuffer && subnetBuffer[subnet].packet == bs && core.sent == old(core.sent)
        && var partial := PartialKey(SubnetAddress(subnet)); core.oob == old(core.oob) + [Oob(partial, [1] + id.crypto.sign(partial))]
    }

    /** A packet that is refused changes nothing; any other is sent or waits. */
    method WritePC(bs: Packet) returns (n: nat, err: Option<WriteError>, ghost buf: Buffer?, ghost timer: Timer?)
      requires Valid() && |bs| > 0
      modifies this, repr, core
      ensures Valid() && fresh(repr - old(repr))
      ensures err == CheckWrite(id, bs) && n == if err == None then |bs| else 0
      ensures err != None ==> view == old(view) && core.sent == old(core.sent) && core.oob == old(core.oob)
      ensures err == None ==> buf != null && timer != null
                              && view == Write(old(view), bs, buf, timer) && WriteObjects(old(view), bs, buf, timer)
      ensures err == None ==> |bs| >= 40 && Handed(bs)
    {
      var isAddress;
      n, buf, timer := 0, null, null;
      err, isAddress := CheckPacket(bs);
      if err != None {
        return;
      }
      buf, timer := SendToDestination(bs, isAddress);
      n := |bs|;
    }

    // ---- learning ----------------------------------------------------------------

    method AddEntry(info: KeyInfo, ghost t: Tables)
      requires KnownTables(t)
      modifies `keyToInfo, `addrToInfo, `subnetToInfo
      ensures KnownTables(Register(t, info))
      ensures keyToInfo == old(keyToInfo)[info.key := info]
      ensures addrToInfo == old(addrToInfo)[info.address := info] && subnetToInfo == old(subnetToInfo)[info.subnet := info]
    {
      keyToInfo := keyToInfo[info.key := info];
      addrToInfo := addrToInfo[info.address := info];
      subnetToInfo := subnetToInfo[info.subnet := info];
    }

    /** The packets waiting for an address or a subnet are taken out of their buffers. */
    method TakeWaiting(info: KeyInfo, ghost b: Books) returns (packets: seq<Packet>)
      requires WaitingTables(b.waiting)
      requires forall slot | slot in b.waiting :: b.waiting[slot] in b.held
      requires forall buf | buf in b.held :: buf.packet == b.held[buf].packet
      modifies `addrBuffer, `subnetBuffer
      ensures WaitingTables(b.waiting - {ForNode(info.address)} - {ForNetwork(info.subnet)})
      ensures addrBuffer == old(addrBuffer) - {info.address} && subnetBuffer == old(subnetBuffer) - {info.subnet}
      ensures packets == Payloads(Unblocked(b, info))
      ensures packets == (if info.address in old(addrBuffer) then [old(addrBuffer)[info.address].packet] else []) +
                         (if info.subnet in old(subnetBuffer) then [old(subnetBuffer)[info.subnet].packet] else [])
    {
      packets := [];
      if info.address in addrBuffer {
        packets := packets + [addrBuffer[info.address].packet];
        addrBuffer := addrBuffer - {info.address};
      }
      if info.subnet in subnetBuffer {
        packets := packets + [subnetBuffer[info.subnet].packet];
        subnetBuffer := subnetBuffer - {info.subnet};
      }
    }

    method SendAll(packets: seq<Packet>, key: Key)
      modifies core
      ensures core.sent == old(core.sent) + ToKey(packets, key)
      ensures core.oob == old(core.oob)
    {
      for i := 0 to |packets|
        invariant core.sent == old(core.sent) + ToKey(packets[..i], key)
        invariant core.oob == old(core.oob)
      {
        core.WriteTo(packets[i], key);
      }
    }

    method UpdateKnown(key: Key, info: KeyInfo) returns (timer: Timer)
      requires Valid() && key in keyToInfo && keyToInfo[key] == info
      modifies `view, info`timeout
      ensures Valid() && view == Learn(old(view), key, info, timer)
      ensures timer.callback == DropInfo(info) && info.timeout == timer
    {
      timer := ResetTimeout(info);
      view := Learn(view, key, info, timer);
    }

    /** A key that is known keeps its entry, and nothing is sent. For a new key an entry is made
        with its address and subnet, and what was waiting for either is sent to it. */
    method Update(key: Key) returns (info: KeyInfo, timer: Timer, ghost packets: seq<Packet>)
      requires Valid()
      modifies this, repr, core
      ensures Valid() && fresh(repr - old(repr))
      ensures view == Learn(old(view), key, info, timer)
      ensures old(Indexed(id.prefix, view.tables)) ==> LearnObjects(old(view), key, info, timer)
      ensures key in keyToInfo && keyToInfo[key] == info && info.timeout == timer
      ensures key in view.tables.keyToInfo && view.tables.keyToInfo[key] == info
      ensures key in old(keyToInfo) ==> info == old(keyToInfo)[key] && packets == [] && SameTables()
      ensures key !in old(keyToInfo) ==>
                && fresh(info) && info.key == key && info.address == AddressOf(id.prefix, key) && info.subnet == SubnetOf(id.prefix, key)
                && Entered(info, packets)
      ensures core.sent == old(core.sent) + ToKey(packets, key) && core.oob == old(core.oob)
    {
      if key in keyToInfo {
        info, packets := keyToInfo[key], [];
        assert old(Indexed(id.prefix, view.tables)) ==> Entry(id.prefix, view.tables, key);
        timer := UpdateKnown(key, info);
      } else {
        info, timer, packets := UpdateUnknown(key);
      }
    }

    method UpdateUnknown(key: Key) returns (info: KeyInfo, timer: Timer, ghost packets: seq<Packet>)
      requires Valid() && key !in keyToInfo
      modifies this, core
      ensures Valid() && fresh(info) && repr == old(repr) + {info}
      ensures view == Learn(old(view), key, info, timer)
      ensures timer.callback == DropInfo(info) && info.timeout == timer
      ensures info.key == key && info.address == AddressOf(id.prefix, key) && info.subnet == SubnetOf(id.prefix, key)
      ensures Entered(info, packets) && core.sent == old(core.sent) + ToKey(packets, key) && core.oob == old(core.oob)
    {
      var address := AddrForKey(id.prefix, key);
      var subnet := SubnetForKey(id.prefix, key);
      info := new KeyInfo(key, address.value, subnet.value);
      timer, packets := UpdateNew(key, info);
    }

    twostate predicate SameTables()
      reads this
    {
      && keyToInfo == old(keyToInfo) && addrToInfo == old(addrToInfo) && subnetToInfo == old(subnetToInfo)
      && addrBuffer == old(addrBuffer) && subnetBuffer == old(subnetBuffer)
    }

    /** The packets taken out of their buffers are sent, outside the locked section; nothing else
        is left to do to be in state next. */
    method Deliver(key: Key, packets: seq<Packet>, ghost more: seq<Sent>, ghost next: Store, ghost own: set<object>)
      requires Objects(next, own) && KnownTables(next.tables) && WaitingTables(next.books.waiting)
      requires SameTraffic(core.sent, view.books.sent) && next.oob == core.oob
      requires next.books.sent == view.books.sent + more
      requires packets == Payloads(more) && forall x | x in more :: x.key == key
      modifies this`view, this`repr, core
      ensures Valid() && view == next && repr == own
      ensures core.sent == old(core.sent) + ToKey(packets, key) && core.oob == old(core.oob)
    {
      SendAll(packets, key);
      MoreTraffic(old(core.sent), view.books.sent, packets, more, key);
      view, repr := next, own;
    }

    lemma LearnOwns(s: Store, info: KeyInfo, timer: Timer, own: set<object>)
      requires Objects(s, own) && info.key !in s.tables.keyToInfo
      ensures Objects(Learn(s, info.key, info, timer), own + {info})
    {
      FlushBoth(s.books, ForNode(info.address), ForNetwork(info.subnet), info.key);
    }

    /** The entry has been put under its key, address and subnet, and packets is what was waiting
        for its address and its subnet, in this order. */
    twostate predicate Entered(new info: KeyInfo, packets: seq<Packet>)
      reads this
    {
      var addr, subnet := info.address, info.subnet;
      && keyToInfo == old(keyToInfo)[info.key := info]
      && addrToInfo == old(addrToInfo)[addr := info] && subnetToInfo == old(subnetToInfo)[subnet := info]
      && addrBuffer == old(addrBuffer) - {addr} && subnetBuffer == old(subnetBuffer) - {subnet}
      && packets == (if addr in old(addrBuffer) then [old(addrBuffer[addr].packet)] else []) +
                    (if subnet in old(subnetBuffer) then [old(subnetBuffer[subnet].packet)] else [])
    }

    /** What a new entry releases, seen from the state before it. */
    method Release(info: KeyInfo) returns (packets: seq<Packet>)
      requires Valid()
      modifies `keyToInfo, `addrToInfo, `subnetToInfo, `addrBuffer, `subnetBuffer
      ensures KnownTables(Register(view.tables, info))
      ensures WaitingTables(view.books.waiting - {ForNode(info.address)} - {ForNetwork(info.subnet)})
      ensures packets == Payloads(Unblocked(view.books, info)) && Entered(info, packets)
    {
      AddEntry(info, view.tables);
      packets := TakeWaiting(info, view.books);
    }

    method Announce(info: KeyInfo, packets: seq<Packet>) returns (timer: Timer)
      requires ValidButTables() && info.key !in view.tables.keyToInfo && info !in repr
      requires KnownTables(Register(view.tables, info))
      requires WaitingTables(view.books.waiting - {ForNode(info.address)} - {ForNetwork(info.subnet)})
      requires packets == Payloads(Unblocked(view.books, info))
      modifies this`view, this`repr, core, info`timeout
      ensures Valid() && repr == old(repr) + {info}
      ensures view == Learn(old(view), info.key, info, timer)
      ensures timer.callback == DropInfo(info) && info.timeout == timer
      ensures core.sent == old(core.sent) + ToKey(packets, info.key) && core.oob == old(core.oob)
    {
      timer := ResetTimeout(info);
      LearnOwns(view, info, timer, repr);
      LearnFields(view, info, timer);
      Deliver(info.key, packets, Unblocked(view.books, info), Learn(view, info.key, info, timer), repr + {info});
    }

    method UpdateNew(key: Key, info: KeyInfo) returns (timer: Timer, ghost packets: seq<Packet>)
      requires Valid() && key !in keyToInfo && info.key == key && info !in repr
      modifies this, core, info`timeout
      ensures Valid() && repr == old(repr) + {info}
      ensures view == Learn(old(view), key, info, timer)
      ensures timer.callback == DropInfo(info) && info.timeout == timer
      ensures Entered(info, packets) && core.sent == old(core.sent) + ToKey(packets, key) && core.oob == old(core.oob)
    {
      var released := Release(info);
      packets := released;
      timer := Announce(info, released);
    }

    // ---- out-of-band messages ----------------------------------------------------

    /** A signed lookup for our subnet is answered, a signed response is learned from, and any
        other message changes nothing. */
    method OobHandler(fromKey: Key, toKey: Key, data: seq<Byte>) returns (ghost info: KeyInfo?, ghost timer: Timer?)
      requires Valid()
      modifies this, repr, core
      ensures Valid() && fresh(repr - old(repr))
      ensures match Classify(id, fromKey, toKey, data)
              case Ignored => view == old(view)
              case ValidLookup => view == Answer(old(view), fromKey)
              case ValidResponse =>
                && info != null && timer != null && view == Learn(old(view), fromKey, info, timer)
                && (old(Indexed(id.prefix, view.tables)) ==> LearnObjects(old(view), fromKey, info, timer))
      ensures core.oob == old(core.oob) +
                if |data| == 65 && data[0] == 1 && SubnetOf(id.prefix, toKey) == id.subnet && id.crypto.verify(fromKey, toKey, data[1..])
                then [Oob(fromKey, [2] + id.crypto.sign(fromKey))] else []
      ensures if |data| == 65 && data[0] == 2 && id.crypto.verify(fromKey, toKey, data[1..])
              then fromKey in keyToInfo else SameTables() && core.sent == old(core.sent)
    {
      info, timer := null, null;
      if |data| != 65 {
        return;
      }
      var signature := data[1..];
      if data[0] == TYPE_KEY_LOOKUP {
        var subnet := SubnetForKey(id.prefix, toKey);
        if subnet.value == id.subnet && id.crypto.verify(fromKey, toKey, signature) {
          SendKeyResponse(fromKey);
          view := Answer(view, fromKey);
        }
      } else if data[0] == TYPE_KEY_RESPONSE {
        if id.crypto.verify(fromKey, toKey, signature) {
          ghost var packets;
          info, timer, packets := Update(fromKey);
        }
      }
    }

    method SetMTU(wanted: nat, max: nat)
      requires Valid()
      modifies `mtu, `view
      ensures Valid() && view == Step(old(view), DoSetMtu(wanted, max))
      ensures mtu >= 1280 && (max >= 1280 ==> mtu <= max) && (1280 <= wanted <= max ==> mtu == wanted)
      ensures (wanted > max >= 1280 ==> mtu == max) && (wanted < 1280 || max < 1280 ==> mtu == 1280)
    {
      var m := wanted;
      if m > max {
        m := max;
      }
      if m < 1280 {
        m := 1280;
      }
      mtu := m;
      view := Step(view, DoSetMtu(wanted, max));
    }

    // ---- reading -----------------------------------------------------------------

    /** The reply to an oversize packet is written like any other packet, so it may be refused. */
    method ReplyTooBig(bs: Packet) returns (ghost run: seq<Event>)
      requires Valid() && Inv(view) && |bs| > mtu && IsIPv6(bs)
      modifies this, repr, core
      ensures Valid() && fresh(repr - old(repr)) && mtu == old(mtu)
      ensures Possible(old(view), run) && view == Exec(old(view), run)
      ensures view.books.accepted == old(view).books.accepted + RepliesTo(checksum, id, mtu, bs)
    {
      var data := bs[..QUOTED];
      HeaderKept(bs);
      TooBigReplyAccepted(checksum, id, mtu, bs);
      var message := PacketTooBig(checksum, Dst(data), Src(data), mtu, data);
      var packet := CreateICMPv6(Src(data), Dst(data), message);
      var n, err, buf, timer := WritePC(packet);
      run := [];
      if err == None {
        run := [DoWrite(packet, buf, timer)];
        RunOne(old(view), DoWrite(packet, buf, timer));
        WriteAccepts(old(view), packet, buf, timer);
      }
    }

    /** A packet of at most the MTU is looked at twice: is it for us, and is it from its sender? */
    method Admit(bs: Packet, from: Key) returns (ok: bool, ghost run: seq<Event>)
      requires Valid() && Indexed(id.prefix, view.tables) && |bs| >= 40
      modifies this, repr, core
      ensures Valid() && fresh(repr - old(repr)) && mtu == old(mtu)
      ensures Possible(old(view), run) && view == Exec(old(view), run)
      ensures view.books.accepted == old(view).books.accepted
      ensures ok <==> ForUs(id, bs) && IsFrom(id.prefix, bs, from)
      ensures ok <==> (bs[24..40] == id.address || bs[24..32] == id.subnet)
                      && (bs[8..24] == AddressOf(id.prefix, from) || bs[8..16] == SubnetOf(id.prefix, from))
      ensures if bs[24..40] == id.address || bs[24..32] == id.subnet then from in keyToInfo else view == old(view)
    {
      StoreTheorems.HalfOf(bs);
      var srcAddr, dstAddr := Src(bs), Dst(bs);
      ok, run := false, [];
      if dstAddr != id.address && dstAddr[..8] != id.subnet {
        return;
      }
      var info, timer, packets := Update(from);
      run := [DoLearn(from, info, timer)];
      RunOne(old(view), DoLearn(from, info, timer));
      LearnKeeps(old(view), from, info, timer);
      ok := srcAddr == info.address || srcAddr[..8] == info.subnet;
    }

    /** One frame from the network. */
    method Sift(bs: Packet, from: Key) returns (ok: bool, ghost run: seq<Event>)
      requires Valid() && Inv(view)
      modifies this, repr, core
      ensures Valid() && fresh(repr - old(repr)) && mtu == old(mtu)
      ensures Possible(old(view), run) && view == Exec(old(view), run)
      ensures view.books.accepted == old(view).books.accepted + RepliesTo(checksum, id, mtu, bs)
      ensures ok <==> Deliverable(id, mtu, bs, from)
      ensures ok <==> 40 <= |bs| <= mtu && bs[0] >> 4 == 6 && (bs[24..40] == id.address || bs[24..32] == id.subnet)
                      && (bs[8..24] == AddressOf(id.prefix, from) || bs[8..16] == SubnetOf(id.prefix, from))
      ensures 40 <= |bs| <= mtu && bs[0] >> 4 == 6 && (bs[24..40] == id.address || bs[24..32] == id.subnet) ==> from in keyToInfo
    {
      DeliverableMeans(id, mtu, bs, from);
      ok, run := false, [];
      if |bs| == 0 || !IsIPv6(bs) || |bs| < 40 {
        return;
      }
      if |bs| > mtu {
        run := ReplyTooBig(bs);
      } else {
        ok, run := Admit(bs, from);
      }
    }

    /** What another user of the store does. */
    method Interrupt(other: Other) returns (ghost run: seq<Event>)
      requires Valid() && Inv(view)
      modifies this, repr, core
      ensures Valid() && fresh(repr - old(repr)) && mtu == MtuAfter(old(mtu), other)
      ensures Possible(old(view), run) && view == Exec(old(view), run)
      ensures view.books.accepted ==
              old(view).books.accepted + if other.Writes? && CheckWrite(id, other.bs) == None then [other.bs] else []
    {
      run := [];
      match other
      case Writes(bs) => run := InterruptToWrite(bs);
      case Hears(fromKey, toKey, data) => run := InterruptToHear(fromKey, toKey, data);
      case SetsMtu(wanted, max) =>
        SetMTU(wanted, max);
        run := [DoSetMtu(wanted, max)];
        RunOne(old(view), DoSetMtu(wanted, max));
    }

    method InterruptToWrite(bs: NonEmpty) returns (ghost run: seq<Event>)
      requires Valid()
      modifies this, repr, core
      ensures Valid() && fresh(repr - old(repr)) && mtu == old(mtu)
      ensures Possible(old(view), run) && view == Exec(old(view), run)
      ensures view.books.accepted == old(view).books.accepted + if CheckWrite(id, bs) == None then [bs] else []
    {
      var n, err, buf, timer := WritePC(bs);
      run := [];
      if err == None {
        run := [DoWrite(bs, buf, timer)];
        RunOne(old(view), DoWrite(bs, buf, timer));
        WriteAccepts(old(view), bs, buf, timer);
      }
    }

    method InterruptToHear(fromKey: Key, toKey: Key, data: seq<Byte>) returns (ghost run: seq<Event>)
      requires Valid() && Indexed(id.prefix, view.tables)
      modifies this, repr, core
      ensures Valid() && fresh(repr - old(repr)) && mtu == old(mtu)
      ensures Possible(old(view), run) && view == Exec(old(view), run)
      ensures view.books.accepted == old(view).books.accepted
    {
      var info, timer := OobHandler(fromKey, toKey, data);
      if info == null {
        info := new KeyInfo.Unused();
      }
      if timer == null {
        timer := new Timer.Unused(DropInfo(info));
      }
      run := HeardRun(old(view), fromKey, toKey, data, info, timer, view);
    }

    /** One frame more, in a run from start. */
    method SiftNext(bs: Packet, from: Key, ghost f: Filter, ghost start: Store, ghost before: seq<Event>, ghost written: seq<Packet>)
      returns (ok: bool, ghost run: seq<Event>)
      requires Valid() && Inv(start) && IsFilter(f, checksum, id)
      requires Possible(start, before) && view == Exec(start, before) && view.books.accepted == start.books.accepted + written
      modifies this, repr, core
      ensures Valid() && fresh(repr - old(repr)) && mtu == old(mtu)
      ensures Possible(start, run) && view == Exec(start, run)
      ensures view.books.accepted == start.books.accepted + (written + f.replies(mtu, bs))
      ensures ok <==> f.shows(mtu, bs, from)
    {
      RunInv(start, before);
      ok, run := Sift(bs, from);
      ExecAppend(start, before, run);
      run := before + run;
    }

    method InterruptNext(other: Other, ghost f: Filter, ghost start: Store, ghost before: seq<Event>, ghost written: seq<Packet>)
      returns (ghost run: seq<Event>)
      requires Valid() && Inv(start) && IsFilter(f, checksum, id)
      requires Possible(start, before) && view == Exec(start, before) && view.books.accepted == start.books.accepted + written
      modifies this, repr, core
      ensures Valid() && fresh(repr - old(repr)) && mtu == MtuAfter(old(mtu), other)
      ensures Possible(start, run) && view == Exec(start, run)
      ensures view.books.accepted == start.books.accepted + (written + WrittenBy(f, other))
    {
      RunInv(start, before);
      run := Interrupt(other);
      ExecAppend(start, before, run);
      run := before + run;
    }

    /** Whatever comes next, but for an error: another user's doings, or a frame. */
    method TakeNext(next: Incoming, ghost f: Filter, ghost start: Store, ghost before: seq<Event>, ghost written: seq<Packet>)
      returns (ok: bool, ghost run: seq<Event>)
      requires Valid() && Inv(start) && IsFilter(f, checksum, id) && next != Failure
      requires Possible(start, before) && view == Exec(start, before) && view.books.accepted == start.books.accepted + written
      modifies this, repr, core
      ensures Valid() && fresh(repr - old(repr)) && mtu == NextMtu(old(mtu), next)
      ensures Possible(start, run) && view == Exec(start, run)
      ensures view.books.accepted == start.books.accepted + (written + WrittenFor(f, old(mtu), next))
      ensures ok <==> Shown(f, old(mtu), next)
    {
      ok := false;
      if next.Between? {
        run := InterruptNext(next.other, f, start, before, written);
      } else {
        ok, run := SiftNext(next.bs, next.from, f, start, before, written);
      }
    }

    /** Packets are read until one can be delivered or reading fails. */
    method NextPacket(incoming: seq<Incoming>, ghost f: Filter) returns (end: End, consumed: nat, ghost run: seq<Event>)
      requires Valid() && Inv(view) && IsFilter(f, checksum, id)
      modifies this, repr, core
      ensures Valid() && fresh(repr - old(repr))
      ensures Possible(old(view), run) && view == Exec(old(view), run)
      ensures var r := Read(f, old(mtu), incoming, 0, []);
              end == r.end && consumed == r.consumed && view.books.accepted == old(view).books.accepted + r.written
    {
      consumed, run := 0, [];
      ghost var written := [];
      while consumed < |incoming|
        invariant consumed <= |incoming|
        invariant Valid() && fresh(repr - old(repr))
        invariant Possible(old(view), run) && view == Exec(old(view), run)
        invariant view.books.accepted == old(view).books.accepted + written
        invariant Read(f, mtu, incoming, consumed, written) == Read(f, old(mtu), incoming, 0, [])
      {
        var next := incoming[consumed];
        consumed := consumed + 1;
        if next.Failure? {
          return Failed, consumed, run;
        }
        var ok;
        ghost var more := written + WrittenFor(f, mtu, next);
        ok, run := TakeNext(next, f, old(view), run, written);
        written := more;
        if ok {
          return Found(next.bs), consumed, run;
        }
      }
      end := Blocked;
    }

    /** The packet that can be delivered is copied to p, as far as there is room. */
    method ReadPC(incoming: seq<Incoming>, p: array<Byte>) returns (n: nat, end: End, consumed: nat, ghost run: seq<Event>)
      requires Valid() && Inv(view) && p !in repr
      modifies this, repr, core, p
      ensures Valid() && fresh(repr - old(repr))
      ensures Possible(old(view), run) && view == Exec(old(view), run)
      ensures var r := Read(FilterFor(checksum, id), old(mtu), incoming, 0, []);
              end == r.end && consumed == r.consumed && view.books.accepted == old(view).books.accepted + r.written
      ensures n == if !end.Found? then 0 else if |end.bs| < p.Length then |end.bs| else p.Length
      ensures p[..] == (if end.Found? then end.bs[..n] else []) + old(p[n..])
    {
      end, consumed, run := NextPacket(incoming, FilterFor(checksum, id));
      n := 0;
      if end.Found? {
        n := CopyInto(p, 0, end.bs);
      }
    }
  }
}
