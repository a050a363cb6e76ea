/** Two key stores: one looks a key up, the other owns it. */
module Lookup {
  import opened Bytes
  import opened Codec
  import opened CodecTheorems
  import opened Store
  import opened StoreInvariants
  import opened StoreTheorems

  /** o is the store of the node whose key is owner. */
  ghost predicate Owns(o: Store, owner: Key) {
    o.id.address == AddressOf(o.id.prefix, owner) && o.id.subnet == SubnetOf(o.id.prefix, owner)
  }

  /** What the holder of a key signs, others verify. */
  ghost predicate Trusts(verifier: Crypto, signerKey: Key, signer: Crypto) {
    forall msg :: verifier.verify(signerKey, msg, signer.sign(msg))
  }

  lemma PartialReachesOwner(prefix: Byte, slot: Slot, owner: Key)
    requires Belongs(prefix, slot, owner)
    ensures SubnetOf(prefix, PartialFor(slot)) == SubnetOf(prefix, owner)
  {
    LookupReachesOwner(prefix, owner);
  }

  /** The owner of a key recognises a lookup of its address or subnet, although it is addressed to
      a partial key only, and answers it. */
  lemma LookupIsAnswered(asking: Crypto, asker: Key, o: Store, owner: Key, slot: Slot, info: KeyInfo, timer: Timer)
    requires Owns(o, owner) && Belongs(o.id.prefix, slot, owner) && Trusts(o.id.crypto, asker, asking)
    ensures var lookup := Message(asking, PartialFor(slot), TYPE_KEY_LOOKUP);
            HandleOob(o, asker, lookup.dest, lookup.data, info, timer) == Answer(o, asker)
  {
    PartialReachesOwner(o.id.prefix, slot, owner);
    var lookup := Message(asking, PartialFor(slot), TYPE_KEY_LOOKUP);
    assert lookup.data[1..] == asking.sign(PartialFor(slot));
    assert Classify(o.id, asker, lookup.dest, lookup.data) == ValidLookup;
  }

  /** The answer teaches the asker the owner's whole key. */
  lemma AnswerTeaches(answering: Crypto, owner: Key, a: Store, asker: Key, info: KeyInfo, timer: Timer)
    requires Trusts(a.id.crypto, owner, answering)
    ensures var answer := Message(answering, asker, TYPE_KEY_RESPONSE);
            HandleOob(a, owner, answer.dest, answer.data, info, timer) == Learn(a, owner, info, timer)
  {
    var answer := Message(answering, asker, TYPE_KEY_RESPONSE);
    assert answer.data[1..] == answering.sign(asker);
    assert Classify(a.id, owner, answer.dest, answer.data) == ValidResponse;
  }

  /** Learning a new key sends what waits in its slots to that very key, and nothing else. */
  lemma LearnSendsWaiting(s: Store, key: Key, info: KeyInfo, timer: Timer)
    requires LearnObjects(s, key, info, timer) && key !in s.tables.keyToInfo
    ensures var r, node, net := Learn(s, key, info, timer).books, ForNode(AddressOf(s.id.prefix, key)), ForNetwork(SubnetOf(s.id.prefix, key));
            r.sent == s.books.sent + (Released(s.books, node, key) + Released(s.books, net, key))
            && node !in r.waiting && net !in r.waiting
  {
    FlushBoth(s.books, ForNode(info.address), ForNetwork(info.subnet), key);
  }

  /** A packet for a slot that is not known has its key looked up. */
  lemma Asked(a: Store, bs: Packet, buf: Buffer, timer: Timer)
    requires Inv(a) && |bs| > 0 && CheckWrite(a.id, bs) == None && WriteObjects(a, bs, buf, timer)
    requires SlotFor(a.id.prefix, Dst(bs)).value !in a.tables.found
    ensures var slot, t, a1 := SlotFor(a.id.prefix, Dst(bs)).value, |a.books.accepted|, Write(a, bs, buf, timer);
            && Inv(a1) && a1.id == a.id
            && a1.oob == a.oob + [Message(a.id.crypto, PartialFor(slot), TYPE_KEY_LOOKUP)]
            && |a1.books.accepted| == t + 1 && a1.books.accepted[t] == bs
  {
    StepInv(a, DoWrite(bs, buf, timer));
  }

  /** Whatever objects the owner brings along, it answers. */
  lemma AnsweredAnyhow(asking: Crypto, asker: Key, o: Store, owner: Key, slot: Slot)
    requires Owns(o, owner) && Belongs(o.id.prefix, slot, owner) && Trusts(o.id.crypto, asker, asking)
    ensures var lookup := Message(asking, PartialFor(slot), TYPE_KEY_LOOKUP);
            forall i, tm :: HandleOob(o, asker, lookup.dest, lookup.data, i, tm).oob == o.oob + [Message(o.id.crypto, asker, TYPE_KEY_RESPONSE)]
  {
    var lookup := Message(asking, PartialFor(slot), TYPE_KEY_LOOKUP);
    forall i, tm
      ensures HandleOob(o, asker, lookup.dest, lookup.data, i, tm).oob == o.oob + [Message(o.id.crypto, asker, TYPE_KEY_RESPONSE)]
    {
      LookupIsAnswered(asking, asker, o, owner, slot, i, tm);
    }
  }

  /** The answer sends a packet that waits for its sender. */
  lemma Delivered(a: Store, answering: Crypto, asker: Key, owner: Key, slot: Slot, t: nat, bs: Packet, info: KeyInfo, timer: Timer)
    requires Trusts(a.id.crypto, owner, answering) && Belongs(a.id.prefix, slot, owner)
    requires LearnObjects(a, owner, info, timer) && owner !in a.tables.keyToInfo
    requires slot in a.books.waiting && Contents(a.books, a.books.waiting[slot]) == Held(bs, t)
    ensures var answer := Message(answering, asker, TYPE_KEY_RESPONSE);
            var r := HandleOob(a, owner, answer.dest, answer.data, info, timer);
            Sent(t, bs, owner) in r.books.sent && slot !in r.books.waiting
  {
    AnswerTeaches(answering, owner, a, asker, info, timer);
    LearnSendsWaiting(a, owner, info, timer);
    assert Sent(t, bs, owner) in Released(a.books, slot, owner);
  }

  /** A packet for the address or the subnet of a key that is not known yet makes the store ask
      for that key; the owner answers; and if by then, whatever has happened meanwhile, the packet
      still waits and the key is still unknown, the answer sends it to the owner, unchanged. */
  lemma LookupCompleteness(a: Store, asker: Key, bs: Packet, buf: Buffer, timer: Timer, meanwhile: seq<Event>,
                           o: Store, owner: Key, info: KeyInfo, timer': Timer)
    requires Inv(a) && a.id.prefix == o.id.prefix && Owns(o, owner)
    requires Trusts(o.id.crypto, asker, a.id.crypto) && Trusts(a.id.crypto, owner, o.id.crypto)
    requires |bs| > 0 && CheckWrite(a.id, bs) == None && WriteObjects(a, bs, buf, timer)
    requires var slot := SlotFor(a.id.prefix, Dst(bs)).value; Belongs(a.id.prefix, slot, owner) && slot !in a.tables.found
    requires var a1 := Write(a, bs, buf, timer);
             && Possible(a1, meanwhile)
             && |a.books.accepted| < |Exec(a1, meanwhile).books.fate|
             && Exec(a1, meanwhile).books.fate[|a.books.accepted|].Waiting?
             && LearnObjects(Exec(a1, meanwhile), owner, info, timer')
             && owner !in Exec(a1, meanwhile).tables.keyToInfo
    ensures var slot, t := SlotFor(a.id.prefix, Dst(bs)).value, |a.books.accepted|;
            var a1 := Write(a, bs, buf, timer);
            var lookup := Message(a.id.crypto, PartialFor(slot), TYPE_KEY_LOOKUP);
            var answer := Message(o.id.crypto, asker, TYPE_KEY_RESPONSE);
            var a3 := HandleOob(Exec(a1, meanwhile), owner, answer.dest, answer.data, info, timer');
            && a1.oob == a.oob + [lookup]
            && (forall i, tm :: HandleOob(o, asker, lookup.dest, lookup.data, i, tm).oob == o.oob + [answer])
            && Sent(t, bs, owner) in a3.books.sent
            && slot !in a3.books.waiting
  {
    var slot, t := SlotFor(a.id.prefix, Dst(bs)).value, |a.books.accepted|;
    var a1 := Write(a, bs, buf, timer);
    Asked(a, bs, buf, timer);
    AnsweredAnyhow(a.id.crypto, asker, o, owner, slot);
    IdentityStays(a1, meanwhile);
    StillInItsSlot(a1, meanwhile, t, bs, slot);
    Delivered(Exec(a1, meanwhile), o.id.crypto, asker, owner, slot, t, bs, info, timer');
  }

  lemma {:induction false} AcceptedStays(s: Store, es: seq<Event>, t: nat)
    requires t < |s.books.accepted|
    ensures t < |Exec(s, es).books.accepted| && Exec(s, es).books.accepted[t] == s.books.accepted[t]
    decreases |es|
  {
    if es != [] { AcceptedStays(Step(s, es[0]), es[1..], t); }
  }

  /** A packet that still waits waits where its destination says. */
  lemma StillInItsSlot(s: Store, es: seq<Event>, t: nat, bs: Packet, slot: Slot)
    requires Inv(s) && Possible(s, es) && t < |s.books.accepted| && s.books.accepted[t] == bs
    requires BoundFor(s.id.prefix, bs, slot)
    requires t < |Exec(s, es).books.fate| && Exec(s, es).books.fate[t].Waiting?
    ensures var b := Exec(s, es).books;
            slot in b.waiting && Contents(b, b.waiting[slot]) == Held(bs, t)
  {
    var r := Exec(s, es);
    RunInv(s, es);
    AcceptedStays(s, es, t);
    IdentityStays(s, es);
    assert FateHolds(s.id.prefix, r.books, t);
    assert WaitsIn(s.id.prefix, r.books, r.books.fate[t].slot);
  }
}
