/** What the invariants of the key store mean for every run of it. */
module StoreTheorems {
  import opened Bytes
  import opened Codec
  import opened CodecTheorems
  import opened Store
  import opened StoreInvariants

  /** The state after a run from a fresh start. */
  function After(prefix: Byte, publicKey: Key, crypto: Crypto, es: seq<Event>): (s: Store) {
    Exec(Init(prefix, publicKey, crypto), es)
  }

  ghost predicate Reachable(s: Store, prefix: Byte, publicKey: Key, crypto: Crypto, es: seq<Event>) {
    Possible(Init(prefix, publicKey, crypto), es) && s == After(prefix, publicKey, crypto, es)
  }

  lemma ReachableInv(s: Store, prefix: Byte, publicKey: Key, crypto: Crypto, es: seq<Event>)
    requires Reachable(s, prefix, publicKey, crypto, es)
    ensures Inv(s)
  {
    InitInv(prefix, publicKey, crypto);
    RunInv(Init(prefix, publicKey, crypto), es);
  }

  lemma {:induction false} IdentityStays(s: Store, es: seq<Event>)
    ensures Exec(s, es).id == s.id
    decreases |es|
  {
    if es != [] { IdentityStays(Step(s, es[0]), es[1..]); }
  }

  // ---- what a write does ---------------------------------------------------------

  lemma FirstNibble(b: Byte)
    ensures b & 0xf0 == 0x60 <==> b >> 4 == 6
  {
  }

  /** Which packets are refused, and why: the first that applies of not being IPv6, being shorter
      than a header, coming from neither our address nor our subnet, and going to neither an
      address nor a subnet of the network. */
  lemma WriteChecks(id: Identity, bs: Packet)
    requires |bs| > 0
    ensures var ours := |bs| >= 40 && (bs[8..24] == id.address || bs[8..16] == id.subnet);
            var known := |bs| >= 40 && (bs[24] == id.prefix || bs[24] == id.prefix | 1);
            && (CheckWrite(id, bs) == Some(NotIPv6) <==> bs[0] >> 4 != 6)
            && (CheckWrite(id, bs) == Some(Undersized) <==> bs[0] >> 4 == 6 && |bs| < 40)
            && (CheckWrite(id, bs) == Some(BadSource) <==> bs[0] >> 4 == 6 && |bs| >= 40 && !ours)
            && (CheckWrite(id, bs) == Some(BadDestination) <==> bs[0] >> 4 == 6 && |bs| >= 40 && ours && !known)
            && (CheckWrite(id, bs) == None <==> bs[0] >> 4 == 6 && |bs| >= 40 && ours && known)
  {
    FirstNibble(bs[0]);
    if |bs| >= 40 { HalfOf(bs); }
  }

  lemma HalfOf(bs: Packet)
    requires |bs| >= 40
    ensures Src(bs) == bs[8..24] && Src(bs)[..8] == bs[8..16] && Dst(bs) == bs[24..40] && Dst(bs)[..8] == bs[24..32]
    ensures Dst(bs)[0] == bs[24] == bs[24..32][0]
  {
  }

  /** What a packet is bound for: the node of its destination if that starts with the prefix,
      and otherwise the network of its destination's first half. */
  lemma SlotOfPacket(id: Identity, bs: Packet)
    requires |bs| > 0 && CheckWrite(id, bs) == None
    ensures SlotFor(id.prefix, Dst(bs)) ==
            Some(if bs[24] == id.prefix then ForNode(bs[24..40]) else ForNetwork(bs[24..32]))
  {
    HalfOf(bs);
  }

  /** A packet whose destination is known is sent: it alone, unchanged, to the known key; and
      nothing else happens to tables, buffers or other packets. */
  lemma WriteToKnown(s: Store, bs: Packet, buf: Buffer, timer: Timer)
    requires |bs| > 0 && CheckWrite(s.id, bs) == None && SlotFor(s.id.prefix, Dst(bs)).value in s.tables.found
    ensures var r := Step(s, DoWrite(bs, buf, timer));
            var t := |s.books.accepted|;
            && r.books.sent == s.books.sent + [Sent(t, bs, s.tables.found[SlotFor(s.id.prefix, Dst(bs)).value].key)]
            && r.books.accepted == s.books.accepted + [bs]
            && r.books.fate == s.books.fate + [SentAs(|s.books.sent|)]
            && r.books.waiting == s.books.waiting && r.books.held == s.books.held
            && r.tables == s.tables && r.oob == s.oob && r.pending == s.pending + {timer} && r.learned == s.learned
  {
  }

  /** Every other slot has the same buffer, with the same packet in it. */
  ghost predicate OthersWait(b: Books, r: Books, slot: Slot) {
    forall other | other != slot ::
      && (other in r.waiting <==> other in b.waiting)
      && (other in b.waiting ==> r.waiting[other] == b.waiting[other] && Contents(r, r.waiting[other]) == Contents(b, b.waiting[other]))
  }

  lemma HoldIsWhatWaits(prefix: Byte, b: Books, slot: Slot, bs: Packet, buf: Buffer)
    requires Accounted(prefix, b) && (slot in b.waiting || buf !in b.held)
    ensures var r, t := Hold(b, slot, bs, buf), |b.accepted|;
            && slot in r.waiting && r.waiting[slot] in r.held && r.held[r.waiting[slot]] == Held(bs, t)
            && r.waiting[slot] == (if slot in b.waiting then b.waiting[slot] else buf)
            && r.accepted == b.accepted + [bs] && t < |r.fate| && r.fate[t] == Waiting(slot) && r.sent == b.sent
            && OthersWait(b, r, slot)
  {
    BufferUnshared(prefix, b, slot, buf);
  }

  /** Any other packet waits: it alone, unchanged, is what its slot now holds; nothing is sent, no
      other slot changes, and the key of its destination is looked up. */
  lemma WriteToUnknown(s: Store, bs: Packet, buf: Buffer, timer: Timer)
    requires Inv(s) && |bs| > 0 && CheckWrite(s.id, bs) == None && WriteObjects(s, bs, buf, timer)
    requires SlotFor(s.id.prefix, Dst(bs)).value !in s.tables.found
    ensures var r, slot, t := Step(s, DoWrite(bs, buf, timer)), SlotFor(s.id.prefix, Dst(bs)).value, |s.books.accepted|;
            && slot in r.books.waiting && r.books.waiting[slot] in r.books.held
            && r.books.held[r.books.waiting[slot]] == Held(bs, t)
            && r.books.waiting[slot] == (if slot in s.books.waiting then s.books.waiting[slot] else buf)
            && r.books.accepted == s.books.accepted + [bs] && t < |r.books.fate| && r.books.fate[t] == Waiting(slot)
            && r.books.sent == s.books.sent && OthersWait(s.books, r.books, slot)
    ensures var r, slot := Step(s, DoWrite(bs, buf, timer)), SlotFor(s.id.prefix, Dst(bs)).value;
            && r.oob == s.oob + [Oob(PartialFor(slot), [1] + s.id.crypto.sign(PartialFor(slot)))]
            && r.tables == s.tables && r.pending == s.pending + {timer} && r.learned == s.learned
  {
    var slot := SlotFor(s.id.prefix, Dst(bs)).value;
    HoldIsWhatWaits(s.id.prefix, s.books, slot, bs, buf);
    HoldStep(s, bs, buf, timer, slot);
  }

  lemma HoldStep(s: Store, bs: Packet, buf: Buffer, timer: Timer, slot: Slot)
    requires |bs| > 0 && CheckWrite(s.id, bs) == None && slot == SlotFor(s.id.prefix, Dst(bs)).value && slot !in s.tables.found
    ensures var r := Step(s, DoWrite(bs, buf, timer));
            && r.books == Hold(s.books, slot, bs, buf) && r.tables == s.tables && r.pending == s.pending + {timer} && r.learned == s.learned
            && r.oob == s.oob + [Oob(PartialFor(slot), [1] + s.id.crypto.sign(PartialFor(slot)))]
  {
  }

  /** A packet that is refused changes nothing. */
  lemma RefusedWrite(s: Store, bs: Packet, buf: Buffer, timer: Timer)
    requires |bs| == 0 || CheckWrite(s.id, bs) != None
    ensures Step(s, DoWrite(bs, buf, timer)) == s
  {
  }

  // ---- what learning and forgetting do -------------------------------------------

  /** A new key is known from then on, under itself, its address and its subnet, whatever was
      known there before; and nothing else is known or forgotten. */
  lemma LearnKnows(s: Store, key: Key, info: KeyInfo, timer: Timer)
    requires LearnObjects(s, key, info, timer) && key !in s.tables.keyToInfo
    ensures var r := Step(s, DoLearn(key, info, timer));
            var node, net := ForNode(AddressOf(s.id.prefix, key)), ForNetwork(SubnetOf(s.id.prefix, key));
            && r.tables.keyToInfo == s.tables.keyToInfo[key := info]
            && node in r.tables.found && net in r.tables.found && r.tables.found[node] == r.tables.found[net] == info
            && (forall slot | slot != node && slot != net ::
                  (slot in r.tables.found <==> slot in s.tables.found) && (slot in s.tables.found ==> r.tables.found[slot] == s.tables.found[slot]))
            && r.oob == s.oob && r.books.accepted == s.books.accepted && r.pending == s.pending + {timer}
  {
  }

  /** A key that is known already keeps its entry; only a timer is added. */
  lemma LearnAgain(s: Store, key: Key, info: KeyInfo, timer: Timer)
    requires key in s.tables.keyToInfo
    ensures var r := Step(s, DoLearn(key, info, timer));
            r.tables == s.tables && r.books == s.books && r.oob == s.oob && r.pending == s.pending + {timer}
  {
  }

  // ---- what an out-of-band message does ------------------------------------------

  predicate Signed(crypto: Crypto, fromKey: Key, toKey: Key, data: seq<Byte>) {
    |data| == 65 && crypto.verify(fromKey, toKey, data[1..])
  }

  /** The node whose key is me answers a message, to its sender, if and only if it is a signed
      lookup of 65 bytes, the first of which is 1, for a key with the same subnet as its own; it
      learns a key, the sender's, if and only if it is a signed response of 65 bytes, the first of
      which is 2; and otherwise nothing changes. */
  lemma WhatMessagesDo(s: Store, prefix: Byte, me: Key, crypto: Crypto, fromKey: Key, toKey: Key, data: seq<Byte>, info: KeyInfo, timer: Timer)
    requires s.id == Init(prefix, me, crypto).id
    ensures var r := Step(s, DoOob(fromKey, toKey, data, info, timer));
            var lookup := Signed(crypto, fromKey, toKey, data) && data[0] == 1 && SubnetOf(prefix, toKey) == SubnetOf(prefix, me);
            var response := Signed(crypto, fromKey, toKey, data) && data[0] == 2;
            && r.oob == s.oob + (if lookup then [Oob(fromKey, [2] + crypto.sign(fromKey))] else [])
            && (response ==> r == Step(s, DoLearn(fromKey, info, timer)) && fromKey in r.learned)
            && (!response ==> r.(oob := s.oob) == s)
  {
  }

  // ---- routing safety ------------------------------------------------------------

  /** Whenever a packet is handed to the network, at once or out of a buffer, it is a packet that
      was accepted, unchanged, and its key is the destination's: the key's address for a node,
      the key's subnet otherwise. */
  lemma RoutingSafety(s: Store, prefix: Byte, publicKey: Key, crypto: Crypto, es: seq<Event>, i: nat)
    requires Reachable(s, prefix, publicKey, crypto, es) && i < |s.books.sent|
    ensures var sent := s.books.sent[i];
            && sent.ticket < |s.books.accepted|
            && sent.packet == s.books.accepted[sent.ticket]
            && |sent.packet| >= 40
            && if ValidAddress(prefix, Dst(sent.packet))
               then AddressOf(prefix, sent.key) == Dst(sent.packet)
               else ValidSubnet(prefix, Dst(sent.packet)[..8]) && SubnetOf(prefix, sent.key) == Dst(sent.packet)[..8]
  {
    ReachableInv(s, prefix, publicKey, crypto, es);
    IdentityStays(Init(prefix, publicKey, crypto), es);
    assert SentRight(prefix, s.books, i);
  }

  // ---- conservation --------------------------------------------------------------

  ghost predicate IsSent(b: Books, t: nat) {
    exists i :: 0 <= i < |b.sent| && b.sent[i].ticket == t
  }

  ghost predicate IsWaiting(b: Books, t: nat) {
    exists slot :: slot in b.waiting && Contents(b, b.waiting[slot]).ticket == t
  }

  /** Every packet accepted is exactly one of: sent, once; waiting, in one buffer; replaced by a
      later packet for the same destination; expired. */
  lemma Conservation(s: Store, prefix: Byte, publicKey: Key, crypto: Crypto, es: seq<Event>, t: nat)
    requires Reachable(s, prefix, publicKey, crypto, es) && t < |s.books.accepted|
    ensures |s.books.fate| == |s.books.accepted|
    ensures IsSent(s.books, t) <==> s.books.fate[t].SentAs?
    ensures IsWaiting(s.books, t) <==> s.books.fate[t].Waiting?
    ensures s.books.fate[t].ReplacedBy? ==>
              var u := s.books.fate[t].ticket;
              t < u < |s.books.accepted| && SameDestination(prefix, s.books.accepted[t], s.books.accepted[u])
    ensures forall i, j | 0 <= i < |s.books.sent| && 0 <= j < |s.books.sent| && s.books.sent[i].ticket == t == s.books.sent[j].ticket :: i == j
    ensures forall p, q | p in s.books.waiting && q in s.books.waiting
              && Contents(s.books, s.books.waiting[p]).ticket == t == Contents(s.books, s.books.waiting[q]).ticket :: p == q
  {
    ReachableInv(s, prefix, publicKey, crypto, es);
    IdentityStays(Init(prefix, publicKey, crypto), es);
    assert FateHolds(prefix, s.books, t);
    forall i | 0 <= i < |s.books.sent| && s.books.sent[i].ticket == t ensures s.books.fate[t] == SentAs(i) {
      assert SentRight(prefix, s.books, i);
    }
    forall p | p in s.books.waiting && Contents(s.books, s.books.waiting[p]).ticket == t ensures s.books.fate[t] == Waiting(p) {
      assert WaitsIn(prefix, s.books, p);
    }
  }

  /** The key an event teaches, if any. */
  function LearnedBy(s: Store, e: Event): Option<Key> {
    match e
    case DoLearn(key, _, _) => Some(key)
    case DoOob(fromKey, toKey, data, _, _) => if Classify(s.id, fromKey, toKey, data) == ValidResponse then Some(fromKey) else None
    case _ => None
  }

  /** How one step may change the fate of packet t: not at all, unless the packet waits. Then it
      is sent because a key for its slot was learned, replaced by a newer packet for its slot,
      or dropped by a timer set for the very buffer it is in. */
  ghost predicate FateChange(prefix: Byte, e: Event, taught: Option<Key>, b: Books, r: Books, t: nat)
    requires t < |b.fate| && t < |r.fate|
  {
    r.fate[t] == b.fate[t] ||
    (b.fate[t].Waiting? && b.fate[t].slot in b.waiting &&
     match r.fate[t]
     case SentAs(i) => taught.Some? && Belongs(prefix, b.fate[t].slot, taught.value) && i < |r.sent| && r.sent[i].key == taught.value
     case ReplacedBy(u) => e.DoWrite? && BoundFor(prefix, e.bs, b.fate[t].slot) && u == |b.accepted|
     case Expired => e.DoFire? && e.timer.callback == DropBuffer(b.fate[t].slot, b.waiting[b.fate[t].slot])
     case Waiting(_) => false)
  }

  lemma FlushFates(prefix: Byte, b: Books, slot: Slot, key: Key, t: nat)
    requires Accounted(prefix, b) && Belongs(prefix, slot, key) && t < |b.fate|
    ensures var r := Flush(b, slot, key);
            && |r.fate| == |b.fate|
            && b.sent <= r.sent
            && (r.fate[t] == b.fate[t] || (b.fate[t] == Waiting(slot) && slot in b.waiting && r.fate[t] == SentAs(|b.sent|) && r.sent[|b.sent|].key == key))
  {
    if slot in b.waiting { assert WaitsIn(prefix, b, slot); }
  }

  lemma LearnFates(s: Store, key: Key, info: KeyInfo, timer: Timer, t: nat)
    requires Inv(s) && LearnObjects(s, key, info, timer) && t < |s.books.fate|
    ensures var r := Learn(s, key, info, timer).books;
            t < |r.fate| && (r.fate[t] == s.books.fate[t] ||
              (s.books.fate[t].Waiting? && s.books.fate[t].slot in s.books.waiting && Belongs(s.id.prefix, s.books.fate[t].slot, key)
               && r.fate[t].SentAs? && r.fate[t].index < |r.sent| && r.sent[r.fate[t].index].key == key))
  {
    if key !in s.tables.keyToInfo {
      var half := Flush(s.books, ForNode(info.address), key);
      FlushFates(s.id.prefix, s.books, ForNode(info.address), key, t);
      FlushAccounted(s.id.prefix, s.books, ForNode(info.address), key);
      FlushFates(s.id.prefix, half, ForNetwork(info.subnet), key, t);
    }
  }

  lemma HoldFates(prefix: Byte, b: Books, slot: Slot, bs: Packet, buf: Buffer, t: nat)
    requires Accounted(prefix, b) && t < |b.fate|
    ensures var r := Hold(b, slot, bs, buf);
            t < |r.fate| && (r.fate[t] == b.fate[t] || (b.fate[t] == Waiting(slot) && slot in b.waiting && r.fate[t] == ReplacedBy(|b.accepted|)))
  {
    if slot in b.waiting { assert WaitsIn(prefix, b, slot); }
  }

  lemma ExpireFates(prefix: Byte, b: Books, slot: Slot, buf: Buffer, t: nat)
    requires Accounted(prefix, b) && t < |b.fate|
    ensures var r := Expire(b, slot, buf);
            t < |r.fate| && (r.fate[t] == b.fate[t] ||
              (b.fate[t] == Waiting(slot) && slot in b.waiting && b.waiting[slot] == buf && r.fate[t] == Expired))
  {
    if slot in b.waiting { assert WaitsIn(prefix, b, slot); }
  }

  lemma WriteFates(s: Store, e: Event, t: nat)
    requires Inv(s) && e.DoWrite? && |e.bs| > 0 && t < |s.books.fate|
    ensures t < |Write(s, e.bs, e.buf, e.timer).books.fate|
    ensures FateChange(s.id.prefix, e, None, s.books, Write(s, e.bs, e.buf, e.timer).books, t)
  {
    if CheckWrite(s.id, e.bs) == None {
      HoldFates(s.id.prefix, s.books, SlotFor(s.id.prefix, Dst(e.bs)).value, e.bs, e.buf, t);
    }
  }

  lemma FireFates(s: Store, e: Event, t: nat)
    requires Inv(s) && e.DoFire? && t < |s.books.fate|
    ensures t < |Fire(s, e.timer).books.fate|
    ensures FateChange(s.id.prefix, e, None, s.books, Fire(s, e.timer).books, t)
  {
    if e.timer.callback.DropBuffer? {
      ExpireFates(s.id.prefix, s.books, e.timer.callback.slot, e.timer.callback.buf, t);
    }
  }

  /** A step accepts at most one packet, the one it writes, which is then sent or waits. */
  ghost predicate NewFate(e: Event, b: Books, r: Books) {
    && |b.fate| <= |r.fate| <= |b.fate| + 1
    && (|r.fate| > |b.fate| ==> e.DoWrite? && |r.accepted| == |r.fate| && r.accepted[|b.fate|] == e.bs
                                && (r.fate[|b.fate|].SentAs? || r.fate[|b.fate|].Waiting?))
  }

  lemma StepNewFate(s: Store, e: Event)
    requires Inv(s)
    ensures NewFate(e, s.books, Step(s, e).books)
  {
    match e
    case DoWrite(bs, buf, timer) => if |bs| > 0 { WriteNewFate(s, e); }
    case DoLearn(key, info, timer) => LearnKeepsFates(s, key, info, timer);
    case DoOob(fromKey, toKey, data, info, timer) => LearnKeepsFates(s, fromKey, info, timer);
    case DoFire(timer) =>
    case DoSetMtu(_, _) =>
  }

  lemma WriteNewFate(s: Store, e: Event)
    requires e.DoWrite? && |e.bs| > 0 && |s.books.accepted| == |s.books.fate|
    ensures NewFate(e, s.books, Write(s, e.bs, e.buf, e.timer).books)
  {
  }

  lemma LearnKeepsFates(s: Store, key: Key, info: KeyInfo, timer: Timer)
    ensures |Learn(s, key, info, timer).books.fate| == |s.books.fate|
  {
  }

  /** In any step, and so in any run, no packet changes fate but for these reasons; and a packet
      accepted in the step is sent or waits at once. */
  lemma FateOnlyChangesSo(s: Store, e: Event, t: nat)
    requires Inv(s) && Enabled(s, e) && t < |Step(s, e).books.fate|
    ensures NewFate(e, s.books, Step(s, e).books)
    ensures if t < |s.books.fate| then FateChange(s.id.prefix, e, LearnedBy(s, e), s.books, Step(s, e).books, t)
            else Step(s, e).books.fate[t].SentAs? || Step(s, e).books.fate[t].Waiting?
  {
    StepNewFate(s, e);
    if t < |s.books.fate| { OldFates(s, e, t); } else { NewestFate(e, s.books, Step(s, e).books, t); }
  }

  lemma NewestFate(e: Event, b: Books, r: Books, t: nat)
    requires NewFate(e, b, r) && |b.fate| <= t < |r.fate|
    ensures r.fate[t].SentAs? || r.fate[t].Waiting?
  {
  }

  lemma OldFates(s: Store, e: Event, t: nat)
    requires Inv(s) && Enabled(s, e) && t < |s.books.fate|
    ensures t < |Step(s, e).books.fate|
    ensures FateChange(s.id.prefix, e, LearnedBy(s, e), s.books, Step(s, e).books, t)
  {
    match e
    case DoWrite(bs, buf, timer) => if |bs| > 0 { WriteFates(s, e, t); }
    case DoLearn(key, info, timer) => LearnFates(s, key, info, timer, t);
    case DoOob(fromKey, toKey, data, info, timer) =>
      if Classify(s.id, fromKey, toKey, data) == ValidResponse { LearnFates(s, fromKey, info, timer, t); }
    case DoFire(timer) => FireFates(s, e, t);
    case DoSetMtu(_, _) =>
  }

  /** Sent, replaced and expired are final, in every run. */
  lemma {:induction false} FateIsFinal(s: Store, es: seq<Event>, t: nat)
    requires Inv(s) && Possible(s, es) && t < |s.books.fate| && !s.books.fate[t].Waiting?
    ensures t < |Exec(s, es).books.fate| && Exec(s, es).books.fate[t] == s.books.fate[t]
    decreases |es|
  {
    if es != [] {
      StepNewFate(s, es[0]);
      FateOnlyChangesSo(s, es[0], t);
      StepInv(s, es[0]);
      FateIsFinal(Step(s, es[0]), es[1..], t);
    }
  }

  // ---- timers --------------------------------------------------------------------

  /** What a callback was set for is where it was put. */
  ghost predicate InPlace(s: Store, c: Callback) {
    match c
    case DropInfo(info) => info.key in s.tables.keyToInfo && s.tables.keyToInfo[info.key] == info
    case DropBuffer(slot, buf) => slot in s.books.waiting && s.books.waiting[slot] == buf
  }

  /** The entry is known no more. */
  ghost predicate Removed(t: Tables, info: KeyInfo) {
    info in t.made && !(info.key in t.keyToInfo && t.keyToInfo[info.key] == info)
  }

  /** The buffer has been flushed, or given up. */
  ghost predicate Spent(b: Books, buf: Buffer) {
    buf in b.held && forall slot | slot in b.waiting :: b.waiting[slot] != buf
  }

  ghost predicate Stale(s: Store, c: Callback) {
    match c
    case DropInfo(info) => Removed(s.tables, info)
    case DropBuffer(_, buf) => Spent(s.books, buf)
  }

  /** A callback changes the tables and the packets if and only if what it was set for is in place. */
  lemma TimerActsOnlyInPlace(s: Store, timer: Timer)
    requires Inv(s)
    ensures Fire(s, timer) == s.(pending := s.pending - {timer}) <==> !InPlace(s, timer.callback)
  {
    match timer.callback
    case DropInfo(info) =>
      var r := Remove(s.tables, info);
      if InPlace(s, timer.callback) {
        assert info.key !in r.keyToInfo;
      } else {
        forall slot | slot in s.tables.found ensures s.tables.found[slot] != info { assert FoundEntry(s.tables, slot); }
        assert r == s.tables;
      }
    case DropBuffer(slot, buf) =>
      if InPlace(s, timer.callback) { assert slot !in Expire(s.books, slot, buf).waiting; }
  }

  /** Whatever a callback does change, it touches nothing but what it was set for. */
  lemma TimerTouchesOnlyItsOwn(s: Store, timer: Timer)
    requires Inv(s)
    ensures timer.callback.DropBuffer? ==>
              Fire(s, timer).tables == s.tables &&
              (Fire(s, timer).books == s.books <==>
               !(timer.callback.slot in s.books.waiting && s.books.waiting[timer.callback.slot] == timer.callback.buf))
    ensures timer.callback.DropInfo? ==>
              && Fire(s, timer).books == s.books
              && (forall k | k in s.tables.keyToInfo && s.tables.keyToInfo[k] != timer.callback.info ::
                    k in Fire(s, timer).tables.keyToInfo && Fire(s, timer).tables.keyToInfo[k] == s.tables.keyToInfo[k])
              && (forall slot | slot in s.tables.found && s.tables.found[slot] != timer.callback.info ::
                    slot in Fire(s, timer).tables.found && Fire(s, timer).tables.found[slot] == s.tables.found[slot])
  {
    match timer.callback
    case DropInfo(info) => RemoveKeeps(s.id.prefix, s.tables, info);
    case DropBuffer(slot, buf) =>
      if slot in s.books.waiting { assert slot !in Expire(s.books, slot, s.books.waiting[slot]).waiting; }
  }

  lemma HoldSpent(b: Books, slot: Slot, bs: Packet, into: Buffer, buf: Buffer)
    requires Spent(b, buf) && (slot in b.waiting || into !in b.held)
    ensures Spent(Hold(b, slot, bs, into), buf)
  {
  }

  lemma FlushSpent(b: Books, slot: Slot, key: Key, buf: Buffer)
    requires Spent(b, buf)
    ensures Spent(Flush(b, slot, key), buf)
  {
  }

  lemma WriteStale(s: Store, bs: Packet, buf: Buffer, timer: Timer, c: Callback)
    requires Stale(s, c) && |bs| > 0 && WriteObjects(s, bs, buf, timer)
    ensures Stale(Write(s, bs, buf, timer), c)
  {
    if CheckWrite(s.id, bs) == None {
      var slot := SlotFor(s.id.prefix, Dst(bs)).value;
      if slot !in s.tables.found && c.DropBuffer? { HoldSpent(s.books, slot, bs, buf, c.buf); }
    }
  }

  lemma LearnStale(s: Store, key: Key, info: KeyInfo, timer: Timer, c: Callback)
    requires Stale(s, c) && LearnObjects(s, key, info, timer)
    ensures Stale(Learn(s, key, info, timer), c)
  {
    if key !in s.tables.keyToInfo && c.DropBuffer? {
      FlushSpent(s.books, ForNode(info.address), key, c.buf);
      FlushSpent(Flush(s.books, ForNode(info.address), key), ForNetwork(info.subnet), key, c.buf);
    }
  }

  lemma StaleStep(s: Store, e: Event, c: Callback)
    requires Stale(s, c) && Enabled(s, e)
    ensures Stale(Step(s, e), c)
  {
    match e
    case DoWrite(bs, buf, timer) => if |bs| > 0 { WriteStale(s, bs, buf, timer, c); }
    case DoLearn(key, info, timer) => LearnStale(s, key, info, timer, c);
    case DoOob(fromKey, toKey, data, info, timer) =>
      if Classify(s.id, fromKey, toKey, data) == ValidResponse { LearnStale(s, fromKey, info, timer, c); }
    case DoFire(timer) =>
    case DoSetMtu(_, _) =>
  }

  lemma {:induction false} StaleRun(s: Store, es: seq<Event>, c: Callback)
    requires Stale(s, c) && Possible(s, es)
    ensures Stale(Exec(s, es), c)
    decreases |es|
  {
    if es != [] {
      StaleStep(s, es[0], c);
      StaleRun(Step(s, es[0]), es[1..], c);
    }
  }

  /** Once a buffer has been flushed or an entry removed, no timer left over from it ever changes
      anything, whatever has been written, learned, looked up or dropped in between. */
  lemma StaleTimerHarmless(s: Store, es: seq<Event>, timer: Timer)
    requires Inv(s) && Possible(s, es) && Stale(s, timer.callback)
    ensures Stale(Exec(s, es), timer.callback)
    ensures Fire(Exec(s, es), timer) == Exec(s, es).(pending := Exec(s, es).pending - {timer})
  {
    RunInv(s, es);
    StaleRun(s, es, timer.callback);
    TimerActsOnlyInPlace(Exec(s, es), timer);
  }

  /** What leaves its place is stale from then on: a buffer serves no second slot, and no second
      packet once it has been flushed, and no entry comes back. */
  lemma LeavingMakesStale(s: Store, e: Event, c: Callback)
    requires Inv(s) && Enabled(s, e) && InPlace(s, c) && !InPlace(Step(s, e), c)
    ensures Stale(Step(s, e), c)
  {
    match c
    case DropInfo(info) =>
      assert Entry(s.id.prefix, s.tables, info.key);
    case DropBuffer(slot, buf) =>
      assert WaitsIn(s.id.prefix, s.books, slot);
      OnlyItsSlot(s.id.prefix, s.books, slot);
      LeftSlot(s, e, slot, buf);
  }

  /** So what has once left its place is out of it for good, and its timers do nothing. */
  lemma LeavesForGood(s: Store, e: Event, es: seq<Event>, timer: Timer)
    requires Inv(s) && Enabled(s, e) && Possible(Step(s, e), es)
    requires InPlace(s, timer.callback) && !InPlace(Step(s, e), timer.callback)
    ensures var r := Exec(Step(s, e), es);
            !InPlace(r, timer.callback) && Fire(r, timer) == r.(pending := r.pending - {timer})
  {
    StepInv(s, e);
    RunInv(Step(s, e), es);
    LeavingMakesStale(s, e, timer.callback);
    StaleTimerHarmless(Step(s, e), es, timer);
    TimerActsOnlyInPlace(Exec(Step(s, e), es), timer);
  }

  lemma OnlyItsSlot(prefix: Byte, b: Books, slot: Slot)
    requires Accounted(prefix, b) && slot in b.waiting
    ensures forall other | other in b.waiting && other != slot :: b.waiting[other] != b.waiting[slot]
  {
    assert WaitsIn(prefix, b, slot);
    forall other | other in b.waiting && other != slot ensures b.waiting[other] != b.waiting[slot] {
      assert WaitsIn(prefix, b, other);
    }
  }

  lemma LeftSlot(s: Store, e: Event, slot: Slot, buf: Buffer)
    requires Enabled(s, e) && buf in s.books.held && slot in s.books.waiting && s.books.waiting[slot] == buf
    requires forall other | other in s.books.waiting && other != slot :: s.books.waiting[other] != buf
    requires !(slot in Step(s, e).books.waiting && Step(s, e).books.waiting[slot] == buf)
    ensures Spent(Step(s, e).books, buf)
  {
    match e
    case DoWrite(bs, into, timer) =>
    case DoLearn(key, info, timer) => WaitingAfterLearn(s, key, info, timer);
    case DoOob(fromKey, toKey, data, info, timer) => WaitingAfterLearn(s, fromKey, info, timer);
    case DoFire(timer) =>
    case DoSetMtu(_, _) =>
  }

  lemma WaitingAfterLearn(s: Store, key: Key, info: KeyInfo, timer: Timer)
    ensures var r := Learn(s, key, info, timer).books;
            r.held == s.books.held && forall slot | slot in r.waiting :: slot in s.books.waiting && r.waiting[slot] == s.books.waiting[slot]
  {
  }

  /** Identity is that of the buffer, not of the packet in it: a second packet goes into the first
      one's buffer, and the first one's timer, if it is late, takes the second packet with it. */
  lemma LateTimerDropsNewerPacket(s: Store, first: Packet, second: Packet, buf: Buffer, buf': Buffer, late: Timer, timer: Timer)
    requires Inv(s) && buf !in s.books.held
    requires |first| > 0 && |second| > 0 && CheckWrite(s.id, first) == None && CheckWrite(s.id, second) == None
    requires SameDestination(s.id.prefix, first, second)
    requires var slot := SlotFor(s.id.prefix, Dst(first)).value;
             slot !in s.tables.found && slot !in s.books.waiting
             && late.callback == timer.callback == DropBuffer(slot, buf) && late != timer
    ensures var run := [DoWrite(first, buf, late), DoWrite(second, buf', timer), DoFire(late)];
            && Possible(s, run)
            && Exec(s, run).books.fate == s.books.fate + [ReplacedBy(|s.books.accepted| + 1), Expired]
            && timer in Exec(s, run).pending
  {
    TwoHeldOneExpired(s.books, late.callback.slot, first, second, buf, buf');
    RunThree(s, DoWrite(first, buf, late), DoWrite(second, buf', timer), DoFire(late));
  }

  lemma TwoHeldOneExpired(b: Books, slot: Slot, first: Packet, second: Packet, buf: Buffer, buf': Buffer)
    requires slot !in b.waiting && |b.fate| == |b.accepted|
    ensures var b1 := Hold(b, slot, first, buf); var b2 := Hold(b1, slot, second, buf');
            && slot in b1.waiting && b1.waiting[slot] == buf
            && slot in b2.waiting && b2.waiting[slot] == buf
            && Expire(b2, slot, buf).fate == b.fate + [ReplacedBy(|b.accepted| + 1), Expired]
  {
    var t := |b.accepted|;
    var b1 := Hold(b, slot, first, buf);
    var b2 := Hold(b1, slot, second, buf');
    assert b1.fate == b.fate + [Waiting(slot)];
    assert b2.fate == b.fate + [ReplacedBy(t + 1), Waiting(slot)];
  }

  lemma RunThree(s: Store, e1: Event, e2: Event, e3: Event)
    ensures var run := [e1, e2, e3];
            var s1 := Step(s, e1); var s2 := Step(s1, e2);
            && Exec(s, run) == Step(s2, e3)
            && (Possible(s, run) <==> Enabled(s, e1) && Enabled(s1, e2) && Enabled(s2, e3))
  {
    var s1 := Step(s, e1);
    var s2 := Step(s1, e2);
    var s3 := Step(s2, e3);
    assert [e1, e2, e3][1..] == [e2, e3] && [e2, e3][1..] == [e3] && [e3][1..] == [];
    assert Exec(s3, []) == s3 && Possible(s3, []);
    assert Exec(s2, [e3]) == s3 && Possible(s2, [e3]) == Enabled(s2, e3);
    assert Exec(s1, [e2, e3]) == s3 && Possible(s1, [e2, e3]) == (Enabled(s1, e2) && Possible(s2, [e3]));
  }

  // ---- the tables agree ----------------------------------------------------------

  /** In every reachable state an entry sits under the key, address and subnet it was made for,
      the address and subnet tables know nothing the key table does not, nothing waits for what
      is known, what is there has a timer still to run, and whatever is waited for has been
      looked up. */
  lemma IndexAgreement(s: Store, prefix: Byte, publicKey: Key, crypto: Crypto, es: seq<Event>)
    requires Reachable(s, prefix, publicKey, crypto, es)
    ensures forall k | k in s.tables.keyToInfo :: s.tables.keyToInfo[k].key == k && Armed(s.pending, DropInfo(s.tables.keyToInfo[k]))
    ensures forall slot | slot in s.tables.found ::
              var info := s.tables.found[slot];
              && (slot == ForNode(AddressOf(prefix, info.key)) || slot == ForNetwork(SubnetOf(prefix, info.key)))
              && info.key in s.tables.keyToInfo && s.tables.keyToInfo[info.key] == info
              && slot !in s.books.waiting
    ensures forall slot | slot in s.books.waiting ::
              && Armed(s.pending, DropBuffer(slot, s.books.waiting[slot]))
              && Message(crypto, PartialFor(slot), TYPE_KEY_LOOKUP) in s.oob
  {
    ReachableInv(s, prefix, publicKey, crypto, es);
    IdentityStays(Init(prefix, publicKey, crypto), es);
    forall slot | slot in s.tables.found
      ensures slot == ForNode(AddressOf(prefix, s.tables.found[slot].key)) || slot == ForNetwork(SubnetOf(prefix, s.tables.found[slot].key))
    {
      assert FoundEntry(s.tables, slot) && Entry(prefix, s.tables, s.tables.found[slot].key);
    }
    forall k | k in s.tables.keyToInfo ensures s.tables.keyToInfo[k].key == k { assert Entry(prefix, s.tables, k); }
    forall slot | slot in s.tables.found
      ensures s.tables.found[slot].key in s.tables.keyToInfo && s.tables.keyToInfo[s.tables.found[slot].key] == s.tables.found[slot]
    {
      assert FoundEntry(s.tables, slot);
    }
  }

  /** No two keys ever learned have the same subnet. (Keys with the same address have.) */
  ghost predicate NoCollision(prefix: Byte, learned: set<Key>) {
    forall k, k' | k in learned && k' in learned && SubnetOf(prefix, k) == SubnetOf(prefix, k') :: k == k'
  }

  lemma NoCollisionUnique(prefix: Byte, learned: set<Key>, k: Key)
    requires NoCollision(prefix, learned) && k in learned
    ensures Unique(prefix, learned, ForNode(AddressOf(prefix, k)), k)
    ensures Unique(prefix, learned, ForNetwork(SubnetOf(prefix, k)), k)
  {
    forall k' | k' in learned && Belongs(prefix, ForNode(AddressOf(prefix, k)), k') ensures k' == k {
      SameAddressSameSubnet(prefix, k', k);
    }
  }

  /** As long as no learned keys collide the three tables say the same: a key is known exactly
      when its address is, and exactly when its subnet is. */
  lemma TablesBijective(s: Store, prefix: Byte, publicKey: Key, crypto: Crypto, es: seq<Event>, k: Key)
    requires Reachable(s, prefix, publicKey, crypto, es) && NoCollision(prefix, s.learned) && k in s.learned
    ensures var node, net := ForNode(AddressOf(prefix, k)), ForNetwork(SubnetOf(prefix, k));
            && (k in s.tables.keyToInfo <==> node in s.tables.found)
            && (k in s.tables.keyToInfo <==> net in s.tables.found)
            && (k in s.tables.keyToInfo ==> s.tables.keyToInfo[k] == s.tables.found[node] == s.tables.found[net])
  {
    ReachableInv(s, prefix, publicKey, crypto, es);
    IdentityStays(Init(prefix, publicKey, crypto), es);
    NoCollisionUnique(prefix, s.learned, k);
    if k in s.tables.keyToInfo { assert Entry(prefix, s.tables, k); }
    OnlyOwner(s, ForNode(AddressOf(prefix, k)), k);
    OnlyOwner(s, ForNetwork(SubnetOf(prefix, k)), k);
  }

  lemma OnlyOwner(s: Store, slot: Slot, k: Key)
    requires Inv(s) && Unique(s.id.prefix, s.learned, slot, k)
    ensures slot in s.tables.found ==> s.tables.found[slot].key == k && k in s.tables.keyToInfo
  {
    if slot in s.tables.found {
      var info := s.tables.found[slot];
      assert FoundEntry(s.tables, slot) && Entry(s.id.prefix, s.tables, info.key);
      OwnSlotsBelong(s.id.prefix, info, slot);
    }
  }

  // ---- what learning a key delivers ----------------------------------------------

  /** Hearing from a key leaves a packet waiting for it in one case only: the key was already
      known, and yet a packet waits in its slot. */
  lemma LearnLeavesWaiting(s: Store, key: Key, info: KeyInfo, timer: Timer, slot: Slot)
    requires Inv(s) && LearnObjects(s, key, info, timer) && Belongs(s.id.prefix, slot, key)
    ensures slot in Learn(s, key, info, timer).books.waiting <==> key in s.tables.keyToInfo && slot in s.books.waiting
  {
    assert slot == ForNode(info.address) || slot == ForNetwork(info.subnet);
  }

  /** Without collisions that case does not arise. */
  lemma LearnDeliversAll(s: Store, key: Key, info: KeyInfo, timer: Timer, slot: Slot)
    requires Inv(s) && LearnObjects(s, key, info, timer) && Belongs(s.id.prefix, slot, key)
    requires Unique(s.id.prefix, s.learned, slot, key)
    ensures slot !in Learn(s, key, info, timer).books.waiting
  {
    LearnLeavesWaiting(s, key, info, timer, slot);
    if key in s.tables.keyToInfo {
      assert Entry(s.id.prefix, s.tables, key);
      assert OwnSlot(s.tables.keyToInfo[key], slot);
    }
  }

  const COLLIDES_WITH_ALL_ONES: Key := NO_ADDRESS_BITS[31 := 0xfe]

  /** Two keys that differ in their last bit only. */
  lemma CollidingKeys(prefix: Byte)
    ensures COLLIDES_WITH_ALL_ONES != NO_ADDRESS_BITS
    ensures AddressOf(prefix, COLLIDES_WITH_ALL_ONES) == AddressOf(prefix, NO_ADDRESS_BITS)
  {
    var k := COLLIDES_WITH_ALL_ONES;
    assert k[31] == 0xfe && NO_ADDRESS_BITS[31] == 0xff;
    forall t | 0 <= t < 248 ensures BitAt(k, t) == BitAt(NO_ADDRESS_BITS, t) {
      assert k[t / 8] == NO_ADDRESS_BITS[t / 8];
    }
    ZeroKeyBits(0);
    assert BitAt(NO_ADDRESS_BITS, 0) && BitAt(k, 0);
    assert k != ZERO_KEY by { assert ZERO_KEY[0] == 0 && k[0] == 0xff; }
    assert NO_ADDRESS_BITS != ZERO_KEY by { assert ZERO_KEY[0] == 0; }
    OnesAreLeadingZeros(NO_ADDRESS_BITS, 0);
    AddressCollision(prefix, NO_ADDRESS_BITS, k);
  }

  /** The second of two colliding keys takes the first one's address with it when it expires. */
  lemma SecondTakesAddress(s0: Store, i1: KeyInfo, i2: KeyInfo, t1: Timer, t2: Timer)
    requires s0.tables == Tables(map[], map[], {}) && s0.books.waiting == map[]
    requires i1.key != i2.key && i1.address == i2.address && Derived(s0.id.prefix, i1) && Derived(s0.id.prefix, i2)
    requires t1.callback == DropInfo(i1) && t2.callback == DropInfo(i2)
    ensures var s1 := Step(s0, DoLearn(i1.key, i1, t1));
            var s2 := Step(s1, DoLearn(i2.key, i2, t2));
            var s3 := Step(s2, DoFire(t2));
            && Enabled(s0, DoLearn(i1.key, i1, t1)) && Enabled(s1, DoLearn(i2.key, i2, t2)) && Enabled(s2, DoFire(t2))
            && s3.id == s0.id && i1.key in s3.tables.keyToInfo && s3.tables.keyToInfo[i1.key] == i1
            && ForNode(i1.address) !in s3.tables.found && s3.books == s0.books
  {
    var s1 := Step(s0, DoLearn(i1.key, i1, t1));
    var s2 := Step(s1, DoLearn(i2.key, i2, t2));
    assert s1.tables.keyToInfo == map[i1.key := i1] && s1.tables.made == {i1};
    assert s2.tables.keyToInfo == map[i1.key := i1, i2.key := i2] && s2.tables.found[ForNode(i1.address)] == i2;
  }

  /** With a collision it does. The second of two keys with one address takes over the address,
      expires, and leaves the first known but not found: a packet then waits for an owner that
      has been heard from, before and after. */
  lemma CollisionStrandsPacket(prefix: Byte, me: Key, crypto: Crypto, bs: Packet,
                               i1: KeyInfo, i2: KeyInfo, t1: Timer, t2: Timer, buf: Buffer, t3: Timer, t4: Timer)
    requires var k1, k2 := NO_ADDRESS_BITS, COLLIDES_WITH_ALL_ONES;
             var node := ForNode(AddressOf(prefix, k1));
             && i1.key == k1 && i2.key == k2 && Derived(prefix, i1) && Derived(prefix, i2)
             && t1.callback == t4.callback == DropInfo(i1) && t2.callback == DropInfo(i2)
             && t3.callback == DropBuffer(node, buf)
             && |bs| > 0 && CheckWrite(Init(prefix, me, crypto).id, bs) == None && BoundFor(prefix, bs, node)
    ensures var run := [DoLearn(i1.key, i1, t1), DoLearn(i2.key, i2, t2), DoFire(t2), DoWrite(bs, buf, t3), DoLearn(i1.key, i1, t4)];
            && Possible(Init(prefix, me, crypto), run)
            && i1.key in After(prefix, me, crypto, run).tables.keyToInfo
            && ForNode(AddressOf(prefix, i1.key)) in After(prefix, me, crypto, run).books.waiting
  {
    CollidingKeys(prefix);
    var e1, e2, e3, e4, e5 := DoLearn(i1.key, i1, t1), DoLearn(i2.key, i2, t2), DoFire(t2), DoWrite(bs, buf, t3), DoLearn(i1.key, i1, t4);
    var s0 := Init(prefix, me, crypto);
    var s1 := Step(s0, e1);
    var s2 := Step(s1, e2);
    var s3 := Step(s2, e3);
    var s4 := Step(s3, e4);
    var s5 := Step(s4, e5);
    var node := ForNode(AddressOf(prefix, i1.key));
    SecondTakesAddress(s0, i1, i2, t1, t2);
    assert node in s4.books.waiting;
    RunFive(s0, e1, e2, e3, e4, e5);
  }

  lemma RunFive(s: Store, e1: Event, e2: Event, e3: Event, e4: Event, e5: Event)
    ensures var run := [e1, e2, e3, e4, e5];
            var s1 := Step(s, e1); var s2 := Step(s1, e2); var s3 := Step(s2, e3); var s4 := Step(s3, e4);
            && Exec(s, run) == Step(s4, e5)
            && (Possible(s, run) <==> Enabled(s, e1) && Enabled(s1, e2) && Enabled(s2, e3) && Enabled(s3, e4) && Enabled(s4, e5))
  {
    var s1 := Step(s, e1);
    var s2 := Step(s1, e2);
    var s3 := Step(s2, e3);
    var s4 := Step(s3, e4);
    var s5 := Step(s4, e5);
    assert [e1, e2, e3, e4, e5][1..] == [e2, e3, e4, e5];
    assert [e2, e3, e4, e5][1..] == [e3, e4, e5];
    assert [e3, e4, e5][1..] == [e4, e5];
    assert [e4, e5][1..] == [e5];
    assert [e5][1..] == [];
    assert Exec(s5, []) == s5 && Possible(s5, []);
    assert Exec(s4, [e5]) == s5 && Possible(s4, [e5]) == Enabled(s4, e5);
    assert Exec(s3, [e4, e5]) == s5 && Possible(s3, [e4, e5]) == (Enabled(s3, e4) && Possible(s4, [e5]));
    assert Exec(s2, [e3, e4, e5]) == s5 && Possible(s2, [e3, e4, e5]) == (Enabled(s2, e3) && Possible(s3, [e4, e5]));
  }
}
