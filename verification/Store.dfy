/** The key store as a state machine: the tables that map keys, addresses and subnets to shared
    entries, the packets that wait for a key lookup, and the timers that clean both up. One step
    is one mutex-protected section; the WriteTo that may follow the unlock only uses values fixed
    inside the section, so it is logged in the same step. */
module Store {
  import opened Bytes
  import opened Codec

  type Packet = seq<Byte>
  type Signature = s: seq<Byte> | |s| == 64 witness seq(64, _ => 0)

  /** What is known about a key. The timer field is replaced whenever the entry is used. */
  class KeyInfo {
    const key: Key
    const address: Address
    const subnet: Subnet
    var timeout: Timer?

    constructor (key: Key, address: Address, subnet: Subnet)
      ensures this.key == key && this.address == address && this.subnet == subnet && timeout == null
    {
      this.key, this.address, this.subnet, this.timeout := key, address, subnet, null;
    }

    /** The entry of a message that does not need one. */
    ghost constructor Unused()
    {
    }
  }

  /** A packet waiting for the key of its destination. */
  class Buffer {
    var packet: Packet
    var timeout: Timer?

    constructor ()
      ensures packet == [] && timeout == null
    {
      packet, timeout := [], null;
    }

    /** The buffer of a packet that does not need one. */
    ghost constructor Unused()
    {
    }
  }

  /** Where a packet is bound: for a node, or for the network behind one. */
  datatype Slot = ForNode(addr: Address) | ForNetwork(subnet: Subnet)

  /** What a timer's callback captured when the timer was created. */
  datatype Callback = DropInfo(info: KeyInfo) | DropBuffer(slot: Slot, buf: Buffer)

  /** Stopping a timer whose callback has already been started does not keep the callback from
      running, so a timer is never taken to be out of the way before its callback has run. */
  class Timer {
    const callback: Callback

    constructor (callback: Callback)
      ensures this.callback == callback
    {
      this.callback := callback;
    }

    /** The timer of a message that does not need one. */
    ghost constructor Unused(callback: Callback)
    {
      this.callback := callback;
    }
  }

  ghost predicate Derived(prefix: Byte, info: KeyInfo) {
    info.address == AddressOf(prefix, info.key) && info.subnet == SubnetOf(prefix, info.key)
  }

  // ---- state ---------------------------------------------------------------------

  /** What has become of a packet that writePC accepted. */
  datatype Fate = SentAs(index: nat) | Waiting(slot: Slot) | ReplacedBy(ticket: nat) | Expired

  /** A packet handed to core.WriteTo. */
  datatype Sent = Sent(ticket: nat, packet: Packet, key: Key)

  datatype Held = Held(packet: Packet, ticket: nat)

  /** The packets: those that wait, by slot; the contents of every buffer ever made; and a
      ledger of every packet accepted, numbered in order, its fate, and every packet sent. */
  datatype Books = Books(
    waiting: map<Slot, Buffer>, held: map<Buffer, Held>, accepted: seq<Packet>, fate: seq<Fate>, sent: seq<Sent>)

  /** The entries, by key and by slot, and a ledger of every entry ever made. */
  datatype Tables = Tables(keyToInfo: map<Key, KeyInfo>, found: map<Slot, KeyInfo>, made: set<KeyInfo>)

  datatype Oob = Oob(dest: Key, data: seq<Byte>)

  datatype Crypto = Crypto(sign: Key -> Signature, verify: (Key, Key, Signature) -> bool)

  /** What does not change: the prefix of the network, our address and subnet, and our keys. */
  datatype Identity = Identity(prefix: Byte, address: Address, subnet: Subnet, crypto: Crypto)

  /** What is said of addresses and of subnets is the same, so the two tables of entries are
      read as one table over slots, and so are the two tables of buffers. pending holds the
      timers whose callback may still run; learned and oob only record what has happened. */
  datatype Store = Store(
    id: Identity, tables: Tables, books: Books, pending: set<Timer>, learned: set<Key>, oob: seq<Oob>, mtu: nat)

  const TYPE_KEY_LOOKUP: Byte := 1
  const TYPE_KEY_RESPONSE: Byte := 2

  function Init(prefix: Byte, publicKey: Key, crypto: Crypto): (s: Store) {
    Store(Identity(prefix, AddressOf(prefix, publicKey), SubnetOf(prefix, publicKey), crypto),
          Tables(map[], map[], {}), Books(map[], map[], [], [], []), {}, {}, [], 1280)
  }

  // ---- packets -------------------------------------------------------------------

  function Src(bs: Packet): Address
    requires |bs| >= 40
  {
    bs[8..24]
  }

  function Dst(bs: Packet): Address
    requires |bs| >= 40
  {
    bs[24..40]
  }

  predicate IsIPv6(bs: Packet) {
    |bs| > 0 && bs[0] & 0xf0 == 0x60
  }

  /** A node's address is tried first, then a network's subnet. */
  function SlotFor(prefix: Byte, dst: Address): (slot: Option<Slot>) {
    if ValidAddress(prefix, dst) then Some(ForNode(dst))
    else if ValidSubnet(prefix, dst[..8]) then Some(ForNetwork(dst[..8]))
    else None
  }

  datatype WriteError = NotIPv6 | Undersized | BadSource | BadDestination

  function CheckWrite(id: Identity, bs: Packet): (e: Option<WriteError>)
    requires |bs| > 0
    ensures e == None ==> |bs| >= 40 && SlotFor(id.prefix, Dst(bs)).Some?
  {
    if !IsIPv6(bs) then Some(NotIPv6)
    else if |bs| < 40 then Some(Undersized)
    else if Src(bs) != id.address && Src(bs)[..8] != id.subnet then Some(BadSource)
    else if SlotFor(id.prefix, Dst(bs)) == None then Some(BadDestination)
    else None
  }

  /** The key is one a packet for the slot may be sent to. */
  predicate Belongs(prefix: Byte, slot: Slot, key: Key) {
    match slot
    case ForNode(addr) => AddressOf(prefix, key) == addr
    case ForNetwork(subnet) => SubnetOf(prefix, key) == subnet
  }

  /** The key that is asked for when a packet has to wait. */
  function PartialFor(slot: Slot): Key {
    match slot
    case ForNode(addr) => PartialKey(addr)
    case ForNetwork(subnet) => PartialKey(SubnetAddress(subnet))
  }

  // ---- the packets ---------------------------------------------------------------

  function Contents(b: Books, buf: Buffer): Held {
    if buf in b.held then b.held[buf] else Held([], 0)
  }

  function Settle(fate: seq<Fate>, ticket: nat, f: Fate): (r: seq<Fate>) {
    if ticket < |fate| then fate[ticket := f] else fate
  }

  /** bs is accepted and goes straight to the key already known for its slot. */
  function SendNow(b: Books, bs: Packet, key: Key): (r: Books) {
    b.(accepted := b.accepted + [bs], fate := b.fate + [SentAs(|b.sent|)], sent := b.sent + [Sent(|b.accepted|, bs, key)])
  }

  /** The buffer a packet goes into: the one already in its slot, or a new one. */
  function BufferFor(b: Books, slot: Slot, buf: Buffer): Buffer {
    if slot in b.waiting then b.waiting[slot] else buf
  }

  /** bs is accepted and takes the place of whatever waited in the same slot. */
  function Hold(b: Books, slot: Slot, bs: Packet, buf: Buffer): (r: Books) {
    var t, into := |b.accepted|, BufferFor(b, slot, buf);
    var fate := if slot in b.waiting then Settle(b.fate, Contents(b, into).ticket, ReplacedBy(t)) else b.fate;
    b.(waiting := b.waiting[slot := into], held := b.held[into := Held(bs, t)],
       accepted := b.accepted + [bs], fate := fate + [Waiting(slot)])
  }

  /** The packet waiting in a slot, if any, is sent to the key just learned. */
  function Flush(b: Books, slot: Slot, key: Key): (r: Books) {
    if slot in b.waiting then
      var h := Contents(b, b.waiting[slot]);
      b.(waiting := b.waiting - {slot}, fate := Settle(b.fate, h.ticket, SentAs(|b.sent|)),
         sent := b.sent + [Sent(h.ticket, h.packet, key)])
    else b
  }

  /** The packet in a slot is given up, if its buffer is the one the timer was set for. */
  function Expire(b: Books, slot: Slot, buf: Buffer): (r: Books) {
    if slot in b.waiting && b.waiting[slot] == buf
    then b.(waiting := b.waiting - {slot}, fate := Settle(b.fate, Contents(b, buf).ticket, Expired))
    else b
  }

  // ---- the entries ---------------------------------------------------------------

  function Register(t: Tables, info: KeyInfo): (r: Tables) {
    Tables(t.keyToInfo[info.key := info], t.found[ForNode(info.address) := info][ForNetwork(info.subnet) := info], t.made + {info})
  }

  function Without<K, V(==)>(m: map<K, V>, k: K, v: V): (r: map<K, V>) {
    if k in m && m[k] == v then m - {k} else m
  }

  function Remove(t: Tables, info: KeyInfo): (r: Tables) {
    Tables(Without(t.keyToInfo, info.key, info),
           Without(Without(t.found, ForNode(info.address), info), ForNetwork(info.subnet), info), t.made)
  }

  // ---- steps ---------------------------------------------------------------------

  function Message(crypto: Crypto, dest: Key, kind: Byte): Oob {
    Oob(dest, [kind] + crypto.sign(dest))
  }

  function SendTo(s: Store, slot: Slot, bs: Packet, buf: Buffer, timer: Timer): (r: Store) {
    if slot in s.tables.found then
      s.(books := SendNow(s.books, bs, s.tables.found[slot].key), pending := s.pending + {timer})
    else
      s.(books := Hold(s.books, slot, bs, buf), pending := s.pending + {timer},
         oob := s.oob + [Message(s.id.crypto, PartialFor(slot), TYPE_KEY_LOOKUP)])
  }

  function Write(s: Store, bs: Packet, buf: Buffer, timer: Timer): (r: Store)
    requires |bs| > 0
  {
    if CheckWrite(s.id, bs) != None then s
    else SendTo(s, SlotFor(s.id.prefix, Dst(bs)).value, bs, buf, timer)
  }

  /** A key whose owner has been heard from. info is the entry made if the key is new; then the
      packets that were waiting for its address and its subnet are sent. */
  function Learn(s: Store, key: Key, info: KeyInfo, timer: Timer): (r: Store) {
    if key in s.tables.keyToInfo then
      s.(pending := s.pending + {timer}, learned := s.learned + {key})
    else
      s.(tables := Register(s.tables, info),
         books := Flush(Flush(s.books, ForNode(info.address), key), ForNetwork(info.subnet), key),
         pending := s.pending + {timer}, learned := s.learned + {key})
  }

  /** A timer's callback: it removes what it captured, wherever that is still in place. */
  function Fire(s: Store, timer: Timer): (r: Store) {
    match timer.callback
    case DropInfo(info) => s.(tables := Remove(s.tables, info), pending := s.pending - {timer})
    case DropBuffer(slot, buf) => s.(books := Expire(s.books, slot, buf), pending := s.pending - {timer})
  }

  /** A signed lookup for our subnet is answered. */
  function Answer(s: Store, dest: Key): (r: Store) {
    s.(oob := s.oob + [Message(s.id.crypto, dest, TYPE_KEY_RESPONSE)])
  }

  /** What an out-of-band message is taken for. */
  datatype OobKind = Ignored | ValidLookup | ValidResponse

  function Classify(id: Identity, fromKey: Key, toKey: Key, data: seq<Byte>): (kind: OobKind) {
    if |data| != 65 then Ignored
    else if data[0] == TYPE_KEY_LOOKUP then
      if SubnetOf(id.prefix, toKey) == id.subnet && id.crypto.verify(fromKey, toKey, data[1..]) then ValidLookup else Ignored
    else if data[0] == TYPE_KEY_RESPONSE && id.crypto.verify(fromKey, toKey, data[1..]) then ValidResponse
    else Ignored
  }

  function HandleOob(s: Store, fromKey: Key, toKey: Key, data: seq<Byte>, info: KeyInfo, timer: Timer): (r: Store) {
    match Classify(s.id, fromKey, toKey, data)
    case Ignored => s
    case ValidLookup => Answer(s, fromKey)
    case ValidResponse => Learn(s, fromKey, info, timer)
  }

  function ClampMtu(mtu: nat, max: nat): (r: nat) {
    var m := if mtu > max then max else mtu;
    if m < 1280 then 1280 else m
  }

  // ---- runs ----------------------------------------------------------------------

  datatype Event =
    | DoWrite(bs: Packet, buf: Buffer, timer: Timer)
    | DoLearn(key: Key, info: KeyInfo, timer: Timer)
    | DoOob(fromKey: Key, toKey: Key, data: seq<Byte>, info: KeyInfo, timer: Timer)
    | DoFire(timer: Timer)
    | DoSetMtu(wanted: nat, max: nat)

  function Step(s: Store, e: Event): (r: Store) {
    match e
    case DoWrite(bs, buf, timer) => if |bs| > 0 then Write(s, bs, buf, timer) else s
    case DoLearn(key, info, timer) => Learn(s, key, info, timer)
    case DoOob(fromKey, toKey, data, info, timer) => HandleOob(s, fromKey, toKey, data, info, timer)
    case DoFire(timer) => Fire(s, timer)
    case DoSetMtu(wanted, max) => s.(mtu := ClampMtu(wanted, max))
  }

  /** The buffer a write brings along is new if it is needed, and the timer captures the entry or
      buffer used. */
  ghost predicate SendObjects(s: Store, slot: Slot, buf: Buffer, timer: Timer) {
    && (slot in s.tables.found || slot in s.books.waiting || buf !in s.books.held)
    && timer.callback ==
       if slot in s.tables.found then DropInfo(s.tables.found[slot]) else DropBuffer(slot, BufferFor(s.books, slot, buf))
  }

  ghost predicate WriteObjects(s: Store, bs: Packet, buf: Buffer, timer: Timer) {
    |bs| > 0 && CheckWrite(s.id, bs) == None ==> SendObjects(s, SlotFor(s.id.prefix, Dst(bs)).value, buf, timer)
  }

  /** The entry made for a new key is a new one, and the timer captures the entry used. */
  ghost predicate LearnObjects(s: Store, key: Key, info: KeyInfo, timer: Timer) {
    && info.key == key && Derived(s.id.prefix, info)
    && (key in s.tables.keyToInfo || info !in s.tables.made)
    && timer.callback == DropInfo(if key in s.tables.keyToInfo then s.tables.keyToInfo[key] else info)
  }

  ghost predicate Enabled(s: Store, e: Event) {
    match e
    case DoWrite(bs, buf, timer) => WriteObjects(s, bs, buf, timer)
    case DoLearn(key, info, timer) => LearnObjects(s, key, info, timer)
    case DoOob(fromKey, toKey, data, info, timer) =>
      Classify(s.id, fromKey, toKey, data) == ValidResponse ==> LearnObjects(s, fromKey, info, timer)
    case DoFire(timer) => timer in s.pending
    case DoSetMtu(_, _) => true
  }

  function Exec(s: Store, es: seq<Event>): (r: Store)
    decreases |es|
  {
    if es == [] then s else Exec(Step(s, es[0]), es[1..])
  }

  ghost predicate Possible(s: Store, es: seq<Event>)
    decreases |es|
  {
    es != [] ==> Enabled(s, es[0]) && Possible(Step(s, es[0]), es[1..])
  }
}
