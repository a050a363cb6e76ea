/** What every step of the key store keeps. */
module StoreInvariants {
  import opened Bytes
  import opened Store

  // ---- the entries ---------------------------------------------------------------

  ghost predicate OwnSlot(info: KeyInfo, slot: Slot) {
    slot == ForNode(info.address) || slot == ForNetwork(info.subnet)
  }

  ghost predicate Entry(prefix: Byte, t: Tables, k: Key)
    requires k in t.keyToInfo
  {
    t.keyToInfo[k].key == k && Derived(prefix, t.keyToInfo[k]) && t.keyToInfo[k] in t.made
  }

  ghost predicate FoundEntry(t: Tables, slot: Slot)
    requires slot in t.found
  {
    var info := t.found[slot];
    OwnSlot(info, slot) && info.key in t.keyToInfo && t.keyToInfo[info.key] == info
  }

  /** Every entry sits under its own key, address and subnet, and whatever the address and
      subnet tables know, the key table knows too. */
  ghost predicate Indexed(prefix: Byte, t: Tables) {
    && (forall k | k in t.keyToInfo :: Entry(prefix, t, k))
    && (forall slot | slot in t.found :: FoundEntry(t, slot))
  }

  ghost predicate Unique(prefix: Byte, learned: set<Key>, slot: Slot, k: Key) {
    forall k' | k' in learned :: Belongs(prefix, slot, k') ==> k' == k
  }

  /** A known key is found under its address and its subnet, unless another learned key has the same. */
  ghost predicate Complete(prefix: Byte, t: Tables, learned: set<Key>) {
    && (forall k | k in t.keyToInfo :: k in learned)
    && (forall k, slot | k in t.keyToInfo && OwnSlot(t.keyToInfo[k], slot) && Unique(prefix, learned, slot, k) ::
          slot in t.found && t.found[slot] == t.keyToInfo[k])
  }

  // ---- the packets ---------------------------------------------------------------

  ghost predicate BoundFor(prefix: Byte, bs: Packet, slot: Slot) {
    |bs| >= 40 && SlotFor(prefix, Dst(bs)) == Some(slot)
  }

  ghost predicate WaitsIn(prefix: Byte, b: Books, slot: Slot)
    requires slot in b.waiting
  {
    var buf := b.waiting[slot];
    && buf in b.held
    && b.held[buf].ticket < |b.fate| == |b.accepted|
    && b.fate[b.held[buf].ticket] == Waiting(slot)
    && b.accepted[b.held[buf].ticket] == b.held[buf].packet
    && BoundFor(prefix, b.held[buf].packet, slot)
  }

  /** key is one that the destination of bs belongs to. */
  ghost predicate Routed(prefix: Byte, bs: Packet, key: Key) {
    && |bs| >= 40
    && SlotFor(prefix, Dst(bs)).Some?
    && Belongs(prefix, SlotFor(prefix, Dst(bs)).value, key)
  }

  /** The packet was sent unchanged to a key its destination belongs to. */
  ghost predicate SentRight(prefix: Byte, b: Books, i: nat)
    requires i < |b.sent|
  {
    && b.sent[i].ticket < |b.fate| == |b.accepted|
    && b.fate[b.sent[i].ticket] == SentAs(i)
    && b.accepted[b.sent[i].ticket] == b.sent[i].packet
    && Routed(prefix, b.sent[i].packet, b.sent[i].key)
  }

  ghost predicate SameDestination(prefix: Byte, bs: Packet, later: Packet) {
    && |bs| >= 40 && |later| >= 40
    && SlotFor(prefix, Dst(bs)).Some? && SlotFor(prefix, Dst(bs)) == SlotFor(prefix, Dst(later))
  }

  /** A packet is where its fate says it is. */
  ghost predicate FateHolds(prefix: Byte, b: Books, t: nat)
    requires t < |b.fate| == |b.accepted|
  {
    match b.fate[t]
    case SentAs(i) => i < |b.sent| && b.sent[i].ticket == t
    case Waiting(slot) => slot in b.waiting && Contents(b, b.waiting[slot]).ticket == t
    case ReplacedBy(u) => t < u < |b.accepted| && SameDestination(prefix, b.accepted[t], b.accepted[u])
    case Expired => true
  }

  ghost predicate Accounted(prefix: Byte, b: Books) {
    && |b.fate| == |b.accepted|
    && (forall slot | slot in b.waiting :: WaitsIn(prefix, b, slot))
    && (forall i | 0 <= i < |b.sent| :: SentRight(prefix, b, i))
    && (forall t | 0 <= t < |b.fate| :: FateHolds(prefix, b, t))
  }

  // ---- the two together ----------------------------------------------------------

  /** Nothing waits for a key that is known. */
  ghost predicate Apart(t: Tables, b: Books) {
    forall slot | slot in t.found :: slot !in b.waiting
  }

  ghost predicate Armed(pending: set<Timer>, c: Callback) {
    exists t :: t in pending && t.callback == c
  }

  /** Nothing stays for ever: everything in the tables has a timer still to run. */
  ghost predicate Timed(pending: set<Timer>, t: Tables, b: Books) {
    && (forall k | k in t.keyToInfo :: Armed(pending, DropInfo(t.keyToInfo[k])))
    && (forall slot | slot in b.waiting :: Armed(pending, DropBuffer(slot, b.waiting[slot])))
  }

  /** A key has been asked for on behalf of every packet that waits. */
  ghost predicate LookedUp(crypto: Crypto, b: Books, oob: seq<Oob>) {
    forall slot | slot in b.waiting :: Message(crypto, PartialFor(slot), TYPE_KEY_LOOKUP) in oob
  }

  ghost predicate Inv(s: Store) {
    && Indexed(s.id.prefix, s.tables)
    && Complete(s.id.prefix, s.tables, s.learned)
    && Accounted(s.id.prefix, s.books)
    && Apart(s.tables, s.books)
    && Timed(s.pending, s.tables, s.books)
    && LookedUp(s.id.crypto, s.books, s.oob)
    && s.mtu >= 1280
  }

  lemma InitInv(prefix: Byte, publicKey: Key, crypto: Crypto)
    ensures Inv(Init(prefix, publicKey, crypto))
  {
  }

  // ---- packet accounting, step by step -------------------------------------------

  lemma SendNowAccounted(prefix: Byte, b: Books, bs: Packet, key: Key)
    requires Accounted(prefix, b) && Routed(prefix, bs, key)
    ensures Accounted(prefix, SendNow(b, bs, key))
  {
    var r := SendNow(b, bs, key);
    forall slot | slot in r.waiting ensures WaitsIn(prefix, r, slot) { assert WaitsIn(prefix, b, slot); }
    forall i | 0 <= i < |r.sent| ensures SentRight(prefix, r, i) { assert i < |b.sent| ==> SentRight(prefix, b, i); }
    forall t | 0 <= t < |r.fate| ensures FateHolds(prefix, r, t) { assert t < |b.fate| ==> FateHolds(prefix, b, t); }
  }

  /** No buffer serves two slots, and a new buffer serves none. */
  lemma BufferUnshared(prefix: Byte, b: Books, slot: Slot, buf: Buffer)
    requires Accounted(prefix, b) && (slot in b.waiting || buf !in b.held)
    ensures forall other | other in b.waiting && other != slot :: b.waiting[other] != BufferFor(b, slot, buf)
  {
    forall other | other in b.waiting && other != slot ensures b.waiting[other] != BufferFor(b, slot, buf) {
      assert WaitsIn(prefix, b, other);
      assert slot in b.waiting ==> WaitsIn(prefix, b, slot);
    }
  }

  lemma HoldFate(prefix: Byte, b: Books, slot: Slot, bs: Packet, buf: Buffer, t: nat)
    requires Accounted(prefix, b) && BoundFor(prefix, bs, slot) && t < |b.fate|
    requires forall other | other in b.waiting && other != slot :: b.waiting[other] != BufferFor(b, slot, buf)
    ensures FateHolds(prefix, Hold(b, slot, bs, buf), t)
  {
    assert FateHolds(prefix, b, t);
    if slot in b.waiting {
      assert WaitsIn(prefix, b, slot);
    }
  }

  /** A packet that has to wait settles the one it replaces and leaves every other alone. */
  lemma HoldAccounted(prefix: Byte, b: Books, slot: Slot, bs: Packet, buf: Buffer)
    requires Accounted(prefix, b) && BoundFor(prefix, bs, slot) && (slot in b.waiting || buf !in b.held)
    ensures Accounted(prefix, Hold(b, slot, bs, buf))
  {
    var r := Hold(b, slot, bs, buf);
    BufferUnshared(prefix, b, slot, buf);
    if slot in b.waiting { assert WaitsIn(prefix, b, slot); }
    forall other | other in r.waiting ensures WaitsIn(prefix, r, other) { assert other != slot ==> WaitsIn(prefix, b, other); }
    forall i | 0 <= i < |r.sent| ensures SentRight(prefix, r, i) { assert SentRight(prefix, b, i); }
    forall t | 0 <= t < |r.fate| ensures FateHolds(prefix, r, t) {
      if t < |b.fate| { HoldFate(prefix, b, slot, bs, buf, t); }
    }
  }

  lemma FlushAccounted(prefix: Byte, b: Books, slot: Slot, key: Key)
    requires Accounted(prefix, b) && Belongs(prefix, slot, key)
    ensures Accounted(prefix, Flush(b, slot, key))
  {
    var r := Flush(b, slot, key);
    if slot in b.waiting {
      assert WaitsIn(prefix, b, slot);
      forall other | other in r.waiting ensures WaitsIn(prefix, r, other) { assert WaitsIn(prefix, b, other); }
      forall i | 0 <= i < |r.sent| ensures SentRight(prefix, r, i) { assert i < |b.sent| ==> SentRight(prefix, b, i); }
      forall t | 0 <= t < |r.fate| ensures FateHolds(prefix, r, t) { assert FateHolds(prefix, b, t); }
    }
  }

  lemma ExpireAccounted(prefix: Byte, b: Books, slot: Slot, buf: Buffer)
    requires Accounted(prefix, b)
    ensures Accounted(prefix, Expire(b, slot, buf))
  {
    var r := Expire(b, slot, buf);
    if slot in b.waiting && b.waiting[slot] == buf {
      assert WaitsIn(prefix, b, slot);
      forall other | other in r.waiting ensures WaitsIn(prefix, r, other) { assert WaitsIn(prefix, b, other); }
      forall i | 0 <= i < |r.sent| ensures SentRight(prefix, r, i) { assert SentRight(prefix, b, i); }
      forall t | 0 <= t < |r.fate| ensures FateHolds(prefix, r, t) { assert FateHolds(prefix, b, t); }
    }
  }

  /** What flushing a slot sends. */
  function Released(b: Books, slot: Slot, key: Key): seq<Sent> {
    if slot in b.waiting then [Sent(Contents(b, b.waiting[slot]).ticket, Contents(b, b.waiting[slot]).packet, key)] else []
  }

  lemma FlushBoth(b: Books, p: Slot, q: Slot, key: Key)
    requires p != q
    ensures var r := Flush(Flush(b, p, key), q, key);
            r.sent == b.sent + (Released(b, p, key) + Released(b, q, key)) && r.waiting == b.waiting - {p} - {q} && r.held == b.held
  {
    assert Flush(b, p, key).sent == b.sent + Released(b, p, key);
    assert Released(Flush(b, p, key), q, key) == Released(b, q, key);
  }

  /** What learning a key sends. */
  function Unblocked(b: Books, info: KeyInfo): seq<Sent> {
    Released(b, ForNode(info.address), info.key) + Released(b, ForNetwork(info.subnet), info.key)
  }

  lemma LearnFields(s: Store, info: KeyInfo, timer: Timer)
    requires info.key !in s.tables.keyToInfo
    ensures var node, net, r := ForNode(info.address), ForNetwork(info.subnet), Learn(s, info.key, info, timer);
            && r.id == s.id && r.tables == Register(s.tables, info) && r.oob == s.oob && r.mtu == s.mtu
            && r.books.waiting == s.books.waiting - {node} - {net}
            && r.books.sent == s.books.sent + Unblocked(s.books, info)
  {
    FlushBoth(s.books, ForNode(info.address), ForNetwork(info.subnet), info.key);
  }

  // ---- the tables, step by step --------------------------------------------------

  lemma RegisterIndexed(prefix: Byte, t: Tables, info: KeyInfo)
    requires Indexed(prefix, t) && info.key !in t.keyToInfo && Derived(prefix, info)
    ensures Indexed(prefix, Register(t, info))
  {
    var r := Register(t, info);
    forall k | k in r.keyToInfo ensures Entry(prefix, r, k) { assert k != info.key ==> Entry(prefix, t, k); }
    forall slot | slot in r.found ensures FoundEntry(r, slot) {
      if slot != ForNode(info.address) && slot != ForNetwork(info.subnet) { assert FoundEntry(t, slot); }
    }
  }

  lemma RemoveIndexed(prefix: Byte, t: Tables, info: KeyInfo)
    requires Indexed(prefix, t)
    ensures Indexed(prefix, Remove(t, info))
  {
    var r := Remove(t, info);
    forall k | k in r.keyToInfo ensures Entry(prefix, r, k) { assert Entry(prefix, t, k); }
    forall slot | slot in r.found ensures FoundEntry(r, slot) { assert FoundEntry(t, slot); }
  }

  /** Learning one more key can only make fewer slots unique. */
  lemma CompleteStays(prefix: Byte, t: Tables, learned: set<Key>, learned': set<Key>)
    requires Complete(prefix, t, learned) && learned <= learned'
    ensures Complete(prefix, t, learned')
  {
    forall k, slot | k in t.keyToInfo && OwnSlot(t.keyToInfo[k], slot) && Unique(prefix, learned', slot, k)
      ensures slot in t.found && t.found[slot] == t.keyToInfo[k]
    {
      assert Unique(prefix, learned, slot, k);
    }
  }

  lemma OwnSlotsBelong(prefix: Byte, info: KeyInfo, slot: Slot)
    requires Derived(prefix, info) && OwnSlot(info, slot)
    ensures Belongs(prefix, slot, info.key)
  {
  }

  lemma RegisterComplete(prefix: Byte, t: Tables, learned: set<Key>, info: KeyInfo)
    requires Complete(prefix, t, learned) && info.key !in t.keyToInfo && Derived(prefix, info)
    ensures Complete(prefix, Register(t, info), learned + {info.key})
  {
    var r, learned' := Register(t, info), learned + {info.key};
    forall k, slot | k in r.keyToInfo && OwnSlot(r.keyToInfo[k], slot) && Unique(prefix, learned', slot, k)
      ensures slot in r.found && r.found[slot] == r.keyToInfo[k]
    {
      if k != info.key {
        assert Unique(prefix, learned, slot, k);
        if OwnSlot(info, slot) { OwnSlotsBelong(prefix, info, slot); }
        assert !OwnSlot(info, slot);
      }
    }
  }

  /** Removing one entry keeps what leads to the others. */
  lemma RemoveKeeps(prefix: Byte, t: Tables, info: KeyInfo)
    requires Indexed(prefix, t)
    ensures forall k | k in Remove(t, info).keyToInfo :: k in t.keyToInfo && Remove(t, info).keyToInfo[k] == t.keyToInfo[k] != info
    ensures forall slot | slot in t.found && t.found[slot] != info :: slot in Remove(t, info).found && Remove(t, info).found[slot] == t.found[slot]
  {
    forall k | k in Remove(t, info).keyToInfo ensures t.keyToInfo[k] != info { assert Entry(prefix, t, k); }
  }

  lemma RemoveComplete(prefix: Byte, t: Tables, learned: set<Key>, info: KeyInfo)
    requires Indexed(prefix, t) && Complete(prefix, t, learned)
    ensures Complete(prefix, Remove(t, info), learned)
  {
    RemoveKeeps(prefix, t, info);
    KeptComplete(prefix, t, learned, info, Remove(t, info));
  }

  lemma KeptComplete(prefix: Byte, t: Tables, learned: set<Key>, info: KeyInfo, r: Tables)
    requires Complete(prefix, t, learned)
    requires forall k | k in r.keyToInfo :: k in t.keyToInfo && r.keyToInfo[k] == t.keyToInfo[k] != info
    requires forall slot | slot in t.found && t.found[slot] != info :: slot in r.found && r.found[slot] == t.found[slot]
    ensures Complete(prefix, r, learned)
  {
  }

  // ---- timers and lookups, step by step ------------------------------------------

  lemma ArmedStays(pending: set<Timer>, pending': set<Timer>, c: Callback)
    requires Armed(pending, c) && pending <= pending'
    ensures Armed(pending', c)
  {
    var t :| t in pending && t.callback == c;
    assert t in pending';
  }

  /** New entries and new packets waiting need a timer of their own; the others keep theirs. */
  lemma TimedStays(pending: set<Timer>, t: Tables, b: Books, timer: Timer, t': Tables, b': Books)
    requires Timed(pending, t, b)
    requires forall k | k in t'.keyToInfo ::
               (k in t.keyToInfo && t'.keyToInfo[k] == t.keyToInfo[k]) || timer.callback == DropInfo(t'.keyToInfo[k])
    requires forall slot | slot in b'.waiting ::
               (slot in b.waiting && b'.waiting[slot] == b.waiting[slot]) || timer.callback == DropBuffer(slot, b'.waiting[slot])
    ensures Timed(pending + {timer}, t', b')
  {
    var pending' := pending + {timer};
    assert timer in pending';
    forall k | k in t'.keyToInfo ensures Armed(pending', DropInfo(t'.keyToInfo[k])) {
      if timer.callback != DropInfo(t'.keyToInfo[k]) { ArmedStays(pending, pending', DropInfo(t.keyToInfo[k])); }
    }
    forall slot | slot in b'.waiting ensures Armed(pending', DropBuffer(slot, b'.waiting[slot])) {
      if timer.callback != DropBuffer(slot, b'.waiting[slot]) { ArmedStays(pending, pending', DropBuffer(slot, b.waiting[slot])); }
    }
  }

  /** Whatever is still in the tables after a callback has another timer. */
  lemma TimedAfter(pending: set<Timer>, t: Tables, b: Books, timer: Timer, t': Tables, b': Books)
    requires Timed(pending, t, b)
    requires forall k | k in t'.keyToInfo :: k in t.keyToInfo && t'.keyToInfo[k] == t.keyToInfo[k] && timer.callback != DropInfo(t'.keyToInfo[k])
    requires forall slot | slot in b'.waiting ::
               slot in b.waiting && b'.waiting[slot] == b.waiting[slot] && timer.callback != DropBuffer(slot, b'.waiting[slot])
    ensures Timed(pending - {timer}, t', b')
  {
    forall k | k in t'.keyToInfo ensures Armed(pending - {timer}, DropInfo(t'.keyToInfo[k])) {
      var other :| other in pending && other.callback == DropInfo(t.keyToInfo[k]);
      assert other in pending - {timer};
    }
    forall slot | slot in b'.waiting ensures Armed(pending - {timer}, DropBuffer(slot, b'.waiting[slot])) {
      var other :| other in pending && other.callback == DropBuffer(slot, b.waiting[slot]);
      assert other in pending - {timer};
    }
  }

  lemma LookedUpStays(crypto: Crypto, b: Books, oob: seq<Oob>, b': Books, oob': seq<Oob>)
    requires LookedUp(crypto, b, oob) && oob <= oob'
    requires forall slot | slot in b'.waiting :: slot in b.waiting || Message(crypto, PartialFor(slot), TYPE_KEY_LOOKUP) in oob'
    ensures LookedUp(crypto, b', oob')
  {
    forall slot | slot in b'.waiting ensures Message(crypto, PartialFor(slot), TYPE_KEY_LOOKUP) in oob' {
      if slot in b.waiting { assert Message(crypto, PartialFor(slot), TYPE_KEY_LOOKUP) in oob; }
    }
  }

  // ---- every step, every run -----------------------------------------------------

  lemma SendToInv(s: Store, slot: Slot, bs: Packet, buf: Buffer, timer: Timer)
    requires Inv(s) && BoundFor(s.id.prefix, bs, slot)
    requires SendObjects(s, slot, buf, timer)
    ensures Inv(SendTo(s, slot, bs, buf, timer))
  {
    if slot in s.tables.found {
      var key := s.tables.found[slot].key;
      assert FoundEntry(s.tables, slot) && Entry(s.id.prefix, s.tables, key);
      OwnSlotsBelong(s.id.prefix, s.tables.found[slot], slot);
      SendNowAccounted(s.id.prefix, s.books, bs, key);
      TimedStays(s.pending, s.tables, s.books, timer, s.tables, SendNow(s.books, bs, key));
    } else {
      var b, m := Hold(s.books, slot, bs, buf), Message(s.id.crypto, PartialFor(slot), TYPE_KEY_LOOKUP);
      HoldAccounted(s.id.prefix, s.books, slot, bs, buf);
      TimedStays(s.pending, s.tables, s.books, timer, s.tables, b);
      assert (s.oob + [m])[|s.oob|] == m;
      LookedUpStays(s.id.crypto, s.books, s.oob, b, s.oob + [m]);
    }
  }

  lemma LearnKnownInv(s: Store, key: Key, info: KeyInfo, timer: Timer)
    requires Inv(s) && LearnObjects(s, key, info, timer) && key in s.tables.keyToInfo
    ensures Inv(Learn(s, key, info, timer))
  {
    CompleteStays(s.id.prefix, s.tables, s.learned, s.learned + {key});
    TimedStays(s.pending, s.tables, s.books, timer, s.tables, s.books);
  }

  lemma FlushedAccounted(prefix: Byte, b: Books, info: KeyInfo)
    requires Accounted(prefix, b) && Derived(prefix, info)
    ensures Accounted(prefix, Flush(Flush(b, ForNode(info.address), info.key), ForNetwork(info.subnet), info.key))
  {
    FlushAccounted(prefix, b, ForNode(info.address), info.key);
    FlushAccounted(prefix, Flush(b, ForNode(info.address), info.key), ForNetwork(info.subnet), info.key);
  }

  lemma LearnNewInv(s: Store, key: Key, info: KeyInfo, timer: Timer)
    requires Inv(s) && LearnObjects(s, key, info, timer) && key !in s.tables.keyToInfo
    ensures Inv(Learn(s, key, info, timer))
  {
    var b := Flush(Flush(s.books, ForNode(info.address), key), ForNetwork(info.subnet), key);
    FlushedAccounted(s.id.prefix, s.books, info);
    FlushBoth(s.books, ForNode(info.address), ForNetwork(info.subnet), key);
    RegisterIndexed(s.id.prefix, s.tables, info);
    RegisterComplete(s.id.prefix, s.tables, s.learned, info);
    TimedStays(s.pending, s.tables, s.books, timer, Register(s.tables, info), b);
    LookedUpStays(s.id.crypto, s.books, s.oob, b, s.oob);
  }

  lemma LearnInv(s: Store, key: Key, info: KeyInfo, timer: Timer)
    requires Inv(s) && LearnObjects(s, key, info, timer)
    ensures Inv(Learn(s, key, info, timer))
  {
    if key in s.tables.keyToInfo {
      LearnKnownInv(s, key, info, timer);
    } else {
      LearnNewInv(s, key, info, timer);
    }
  }

  lemma FireInv(s: Store, timer: Timer)
    requires Inv(s)
    ensures Inv(Fire(s, timer))
  {
    var r := Fire(s, timer);
    match timer.callback
    case DropInfo(info) =>
      RemoveIndexed(s.id.prefix, s.tables, info);
      RemoveComplete(s.id.prefix, s.tables, s.learned, info);
      RemoveKeeps(s.id.prefix, s.tables, info);
      TimedAfter(s.pending, s.tables, s.books, timer, r.tables, r.books);
    case DropBuffer(slot, buf) =>
      ExpireAccounted(s.id.prefix, s.books, slot, buf);
      TimedAfter(s.pending, s.tables, s.books, timer, r.tables, r.books);
      LookedUpStays(s.id.crypto, s.books, s.oob, r.books, s.oob);
  }

  lemma AnswerInv(s: Store, dest: Key)
    requires Inv(s)
    ensures Inv(Answer(s, dest))
  {
    LookedUpStays(s.id.crypto, s.books, s.oob, s.books, Answer(s, dest).oob);
  }

  lemma StepInv(s: Store, e: Event)
    requires Inv(s) && Enabled(s, e)
    ensures Inv(Step(s, e))
  {
    match e
    case DoWrite(bs, buf, timer) =>
      if |bs| > 0 && CheckWrite(s.id, bs) == None {
        SendToInv(s, SlotFor(s.id.prefix, Dst(bs)).value, bs, buf, timer);
      }
    case DoLearn(key, info, timer) =>
      LearnInv(s, key, info, timer);
    case DoOob(fromKey, toKey, data, info, timer) =>
      if Classify(s.id, fromKey, toKey, data) == ValidResponse { LearnInv(s, fromKey, info, timer); }
      AnswerInv(s, fromKey);
    case DoFire(timer) =>
      FireInv(s, timer);
    case DoSetMtu(wanted, max) =>
  }

  /** In every run, whatever the order of writes, reads, responses and timers. */
  lemma {:induction false} RunInv(s: Store, es: seq<Event>)
    requires Inv(s) && Possible(s, es)
    ensures Inv(Exec(s, es))
    decreases |es|
  {
    if es != [] {
      StepInv(s, es[0]);
      RunInv(Step(s, es[0]), es[1..]);
    }
  }

  /** Runs can be put together. */
  lemma {:induction false} ExecAppend(s: Store, es: seq<Event>, more: seq<Event>)
    ensures Exec(s, es + more) == Exec(Exec(s, es), more)
    ensures Possible(s, es + more) <==> Possible(s, es) && Possible(Exec(s, es), more)
    decreases |es|
  {
    if es == [] {
      assert es + more == more;
    } else {
      assert (es + more)[1..] == es[1..] + more;
      ExecAppend(Step(s, es[0]), es[1..], more);
    }
  }

  lemma RunOne(s: Store, e: Event)
    ensures Exec(s, [e]) == Step(s, e) && (Possible(s, [e]) <==> Enabled(s, e))
  {
    assert [e][1..] == [];
    assert Exec(Step(s, e), []) == Step(s, e) && Possible(Step(s, e), []);
  }
}
