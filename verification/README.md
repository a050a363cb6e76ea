# Mesh node verification

A Dafny 4.11 model of the parts of the v6Space mesh node that decide where packets go and who is
connected to whom, with proofs of what they promise. `dafny verify dfyconfig.toml` checks it.

- **Addresses** (`Bytes`, `Codec`, `CodecTheorems`, `GenKeys`). An address holds the number of
  leading ones of the inverted key, and the whole bytes that follow the zero which ends them. The
  bit loops that compute it, and those that read a partial key back out of it, are kept as loops
  over byte arrays and shown to compute bit-by-bit definitions. From these follow what the two
  directions keep, exactly when two keys collide, and that better keys have higher addresses.
- **The key store** (`Store`, `StoreInvariants`, `StoreTheorems`, `Lookup`, `Icmp`, `KeyStore`,
  `EndToEnd`). `Store` is the key store as a state machine: one step is one section under the
  mutex, and the callback of a timer is a step that may run at any time after the timer was made,
  even after it was stopped. A ledger records what becomes of every accepted packet. The
  theorems hold in every interleaving of writes, reads, lookups, responses and timers.
  `KeyStore` is the store as written, five tables over shared objects changed in place; every
  method is proved to take exactly such steps. `Lookup` and `EndToEnd` put two nodes together.
- **Framing and protocol** (`Framing`, `Requests`, `NodeInfo`, `Packing`, `Proto`). Traffic and
  protocol frames over one connection, the tables of outstanding requests and their timers, lists
  of keys packed under an MTU and split again, and the dispatch of messages.
- **Links** (`Handshake`, `Links`, `Redial`). The metadata exchange and its checks; the link
  table under interleaved handlers, whose check and mark are separate steps; and redialling.
- **Multicast** (`Multicast`). The listeners kept for a changing set of interfaces, and beacons.

## Results that differ from what one might expect

- The all-zero key has 256 leading ones, which wrap to 0 in the one byte that counts them, so
  its address is the lowest of all and is looked up as the all-ones key
  (`CodecTheorems.ZeroKeyPartial`). It is the only key whose address can be lower than that of a
  worse key (`GenKeys.BetterKeyHigherAddress`); the keys that share its address are those whose
  first 113 bits are all 1, and those that share its subnet the ones whose first 49 are
  (`CodecTheorems.ZeroKeyCollision`).
- `update(K)` leaves a packet waiting for K in exactly one case: K was known before, and still a
  packet waits in its slot (`StoreTheorems.LearnLeavesWaiting`). Without colliding keys this
  does not arise; with them it does (`StoreTheorems.CollisionStrandsPacket`).
- A timer compares the buffer, not the packet in it. A second packet to the same destination
  goes into the first one's buffer, so a callback of the first one's timer that runs late drops
  the second packet (`StoreTheorems.LateTimerDropsNewerPacket`). But once a buffer has been
  flushed, or an entry removed, it is out of its place for good, and no timer left over from it
  ever changes anything (`StoreTheorems.StaleTimerHarmless`, `StoreTheorems.LeavesForGood`).
- writePC reads the first byte of a packet before it looks at its length, and so panics on an
  empty one (src/ipv6rwc/ipv6rwc.go:270); `KeyStore.KeyStore.WritePC` requires at least one byte.
- Two handlers for one link can both pass the check; when the first then leaves, it removes the
  entry of the second, which goes on without one (`Links.RaceLosesLink`). There is at most one
  handler per link exactly when no handler passes its check while another one is between its
  check and its mark (`Links.OneHandlerPerLink`). A registered link is in the table exactly when
  no other handler for it has marked, registered or removed an entry since it was registered
  (`Links.RegisteredIsListed`).
- The entry of a link stays in the table after it has been disconnected, until its handler gets
  to removing it (`Links.LinkTableSafety`).
- A response frame without any keys is longer than an MTU of less than three bytes
  (`Packing.ResponseFits`).
- Where comments and code disagree the code is followed: an address starts with the prefix
  unchanged, its last bit is not cleared (src/core/address.go:55, 97); the count of ones takes
  eight bits, not seven (src/core/address.go:62, 98); and a peer is dialled again at most three
  times, not five (src/core/link.go:223, 229).

## Model

| member | source | states |
|---|---|---|
| Codec.AddrForKey | src/core/address.go:58-101 | For every key: prefix, number of leading ones of the inverted key modulo 256, then the whole bytes after the zero that ends them; nil for any other length. All array accesses are in bounds. |
| Codec.ScanOne | src/core/address.go:79-95 | One turn of the bit loop keeps: the count so far, the whole bytes gathered so far, and the low bits of an accumulator that is never cleared. |
| Codec.SubnetForKey | src/core/address.go:108-121 | Eight bytes: the prefix with its last bit set, and then bytes 1 to 7 of the address; always a valid subnet. |
| Codec.GetAddressKey | src/core/address.go:125-149 | For every address, whatever its count of ones: that many 0 bits, a 1, the inverted payload as far as the key has room, and 1 bits after it. |
| Codec.SetPayload | src/core/address.go:134-144 | The copying loop with its early break sets exactly the payload bits that fit into the key. |
| Codec.GetSubnetKey | src/core/address.go:153-157 | The partial key of the subnet's first address. |
| Codec.IsValidAddress | src/core/address.go:31-39 | Exactly the addresses that start with the prefix. |
| Codec.IsValidSubnet | src/core/address.go:42-51 | Exactly the subnets that start with the prefix whose last bit is set. |
| CodecTheorems.AddressFacts | src/core/address.go:58-101 | Which bit of the key each payload bit of its address is, and which are 0 because no whole byte is left. |
| CodecTheorems.AddressToKeyToAddress | src/core/address.go:58-101 | AddrForKey of GetAddressKey of any address with count o is the address itself if o <= 143, and otherwise the address with the payload bits past the first 8 * floor((255 - o) / 8) cleared. |
| CodecTheorems.AddressSurvivesLookup | src/core/address.go:123-149 | AddrForKey after GetAddressKey after AddrForKey is AddrForKey, on every key. |
| CodecTheorems.KeyToAddressToKey | src/core/address.go:125-149 | The partial key of a non-zero key's address agrees with the key on its first o + 1 + min(112, 8 * floor((255 - o) / 8)) bits and is all ones after. |
| CodecTheorems.ZeroKeyPartial | src/core/address.go:76-83 | The count of the all-zero key wraps to 0, and its partial key is all ones. |
| CodecTheorems.AddressCollision | src/core/address.go:58-101 | Two non-zero keys share an address if and only if they agree on leading zeros, the 1 after them and the stored payload bits. |
| CodecTheorems.SubnetCollision | src/core/address.go:108-121 | The same for subnets and the first 48 payload bits, so sharing an address implies sharing a subnet. |
| CodecTheorems.ZeroKeyCollision | src/core/address.go:76-121 | Which keys share the address of the all-zero key: exactly those whose first 113 bits are 1; and its subnet: exactly those whose first 49 are. |
| CodecTheorems.SameAddressSameSubnet | src/core/address.go:108-121 | For all keys, the all-zero key included, one address means one subnet. |
| CodecTheorems.SubnetFacts | src/core/address.go:108-121 | The subnet of every key starts with the prefix with its last bit set and has its address's bytes 1 to 7, so it is valid; with an even prefix it is no valid address's first half. |
| CodecTheorems.AddressesAndSubnetsDisjoint | src/core/address.go:31-51 | No destination is both a valid address and in a valid subnet, if and only if the prefix is even. |
| CodecTheorems.LookupReachesOwner | src/core/address.go:108-157 | The partial key sent for the address or the subnet of any key derives that key's subnet, so its owner recognises the lookup. |
| GenKeys.IsBetter | cmd/genkeys/main.go:53-63 | The loop decides strict lexicographic order. |
| GenKeys.PrintBest | cmd/genkeys/main.go:38-50 | The keys printed are `Kept` of those received: exactly the ones smaller than every key before them, from the first to the smallest (`KeptAreImprovements`, `SmallestIsKept`). |
| GenKeys.DoKeys | cmd/genkeys/main.go:65-81 | With the all-ones key put before both, the keys a worker forwards are `Kept` of those it generates: exactly the ones smaller than all it generated before and the all-ones key. |
| GenKeys.KeptAreImprovements | cmd/genkeys/main.go:38-53 | Of any keys exactly those are kept that are smaller than every key before them, and in strictly descending order. |
| GenKeys.SmallestIsKept | cmd/genkeys/main.go:38-53 | What is kept starts with the first key and ends with the smallest of all. |
| GenKeys.BetterKeyHigherAddress | cmd/genkeys/main.go:40-47 | A better key has an address at least as high if and only if it is not all-zero, or the worse key's first 113 bits are all 1. |
| GenKeys.PrintedAddressesRise | cmd/genkeys/main.go:38-50 | Of any two keys printed the later one is smaller and its address at least as high, the all-zero key aside. |
| StoreInvariants.StepInv | src/ipv6rwc/ipv6rwc.go:72-200 | Every step keeps the invariant that ties tables, buffers, ledger, timers and lookups together. |
| StoreInvariants.RunInv | src/ipv6rwc/ipv6rwc.go:72-299 | So does every run, in any order of its steps. |
| StoreTheorems.RoutingSafety | src/ipv6rwc/ipv6rwc.go:72-159 | In every run, whatever reaches core.WriteTo, at once or out of a buffer, is an accepted packet, unchanged, sent to a key whose address is its destination, or whose subnet is its destination's first eight bytes. |
| StoreTheorems.Conservation | src/ipv6rwc/ipv6rwc.go:72-178 | At any time every accepted packet is exactly one of: sent, once; waiting, in one buffer; replaced by a later packet to the same destination; expired. |
| StoreTheorems.FateOnlyChangesSo | src/ipv6rwc/ipv6rwc.go:72-178 | A step changes what has become of an earlier packet only if that waits: sent, because a key of its destination was learned; replaced, by a write to its destination; expired, by the timer of the buffer it is in. The one packet a step may accept is the packet written, and is sent or waits at once. |
| StoreTheorems.FateIsFinal | src/ipv6rwc/ipv6rwc.go:72-178 | Sent, replaced and expired are final in every run. |
| StoreTheorems.WriteChecks | src/ipv6rwc/ipv6rwc.go:269-297 | For any packet, which of the four errors is given or that none is, in terms of its bytes alone: the version nibble, the length, source bytes 8 to 24 or 8 to 16, and destination byte 24. |
| StoreTheorems.SlotOfPacket | src/ipv6rwc/ipv6rwc.go:281-297 | An accepted packet is bound for the node of its destination if that starts with the prefix, and otherwise for the network of its first half. |
| StoreTheorems.WriteToKnown | src/ipv6rwc/ipv6rwc.go:72-77 | A packet for a known destination adds exactly one element to what is sent, itself, unchanged, to the key known there; what waits, and everything known, is left alone. |
| StoreTheorems.WriteToUnknown | src/ipv6rwc/ipv6rwc.go:78-99 | A packet for an unknown destination is what waits in its slot afterwards, in the buffer already there or a new one; nothing is sent, no other slot changes, and one signed lookup goes to the partial key. |
| StoreTheorems.LearnKnows | src/ipv6rwc/ipv6rwc.go:130-157 | A new key is known from then on under itself, its address and its subnet, whatever was there before, and under nothing else; nothing else is forgotten. |
| StoreTheorems.WhatMessagesDo | src/ipv6rwc/ipv6rwc.go:180-200 | A message is answered, to its sender, if and only if it has 65 bytes, the first is 1, the signature verifies and its key derives our own key's subnet; it teaches its sender's key if and only if it has 65 bytes, the first is 2 and the signature verifies; every other message changes nothing. |
| StoreTheorems.StaleTimerHarmless | src/ipv6rwc/ipv6rwc.go:84-177 | Through every run, a buffer that has been flushed or given up, and an entry that has been removed, stays so, and a timer left over from it changes nothing but the set of timers. |
| StoreTheorems.LeavesForGood | src/ipv6rwc/ipv6rwc.go:84-177 | Once a step has taken a buffer out of its slot, or an entry out of the tables, it never comes back, and its timers change nothing. |
| StoreTheorems.TimerActsOnlyInPlace | src/ipv6rwc/ipv6rwc.go:89-95 | A callback changes tables or packets if and only if what it was set for is still in its place. |
| StoreTheorems.TimerTouchesOnlyItsOwn | src/ipv6rwc/ipv6rwc.go:165-177 | An entry's callback touches no packet and no other entry, a buffer's no entry. |
| StoreTheorems.LateTimerDropsNewerPacket | src/ipv6rwc/ipv6rwc.go:84-95 | A run in which a stopped timer's callback drops the second of two packets to one destination. |
| StoreTheorems.IndexAgreement | src/ipv6rwc/ipv6rwc.go:130-178 | In every reachable state each entry is under the key, address or subnet made from its own key, whatever is in the address and subnet tables is in the key table, nothing waits for what is known, everything has a timer still to run, and whatever is waited for has been looked up. |
| StoreTheorems.TablesBijective | src/ipv6rwc/ipv6rwc.go:130-178 | If no learned keys collide, a key is known exactly when its address is and exactly when its subnet is, all with the same entry. |
| StoreTheorems.LearnLeavesWaiting | src/ipv6rwc/ipv6rwc.go:130-159 | Hearing from a key leaves a packet for it waiting if and only if the key was known already and a packet waits. |
| StoreTheorems.LearnDeliversAll | src/ipv6rwc/ipv6rwc.go:130-159 | Without a collision nothing is left waiting for the key. |
| StoreTheorems.CollisionStrandsPacket | src/ipv6rwc/ipv6rwc.go:135-153 | A run in which colliding keys leave a packet waiting for an owner that has been heard from. |
| Lookup.LookupIsAnswered | src/ipv6rwc/ipv6rwc.go:180-192 | The owner of a key answers a signed lookup of its address or subnet, although it is sent to a partial key. |
| Lookup.AnswerTeaches | src/ipv6rwc/ipv6rwc.go:193-198 | The owner's signed answer teaches the asker the whole key. |
| Lookup.LearnSendsWaiting | src/ipv6rwc/ipv6rwc.go:135-157 | Learning a new key sends what waits under its address and its subnet to exactly that key. |
| Lookup.LookupCompleteness | src/ipv6rwc/ipv6rwc.go:72-206 | From the write of a packet for an unknown key, through its lookup, the owner's answer and whatever else happens, to the packet being sent to the owner, if it still waits and the key is still unknown when the answer comes. |
| KeyStore.KeyStore.WritePC | src/ipv6rwc/ipv6rwc.go:269-297 | The errors in the order of the checks. A refused packet changes nothing. An accepted one whose destination is known is handed to the network at once, alone, unchanged, to the key known for it; any other is then in its destination's buffer, nothing is handed to the network, and one signed lookup goes out. Either way it is one write step of the store. |
| KeyStore.KeyStore.SendToAddress | src/ipv6rwc/ipv6rwc.go:72-99 | If the address is known, exactly this packet is handed to the network for the key known for it, and no lookup goes out; otherwise nothing is handed over, the packet is in the address's buffer, and one signed lookup for the address's partial key goes out. |
| KeyStore.KeyStore.SendToSubnet | src/ipv6rwc/ipv6rwc.go:101-128 | The same for subnets, with the partial key of the subnet. |
| KeyStore.KeyStore.SendToDestination | src/ipv6rwc/ipv6rwc.go:281-297 | The address of the destination is tried if it starts with the prefix, and its subnet otherwise. |
| KeyStore.KeyStore.Update | src/ipv6rwc/ipv6rwc.go:130-159 | A known key keeps its entry and nothing is handed to the network. For a new one, an entry with its address and subnet is put into the three tables, the two buffers are removed, and exactly their packets, the address's first, are handed to the network for that key. Either way it is one learning step of the store. |
| KeyStore.KeyStore.ResetTimeout | src/ipv6rwc/ipv6rwc.go:161-165 | A new timer for the entry, which captures it. |
| KeyStore.KeyStore.TakeWaiting | src/ipv6rwc/ipv6rwc.go:143-150 | The packets waiting for the entry's address and subnet, in this order, are taken out of their buffers, and no others. |
| KeyStore.KeyStore.InfoTimeout | src/ipv6rwc/ipv6rwc.go:165-177 | An entry's callback is one timer step of the store. |
| KeyStore.KeyStore.DropEntry | src/ipv6rwc/ipv6rwc.go:165-177 | The callback removes its entry from each of three tables if that still holds this very entry, and nothing else. |
| KeyStore.KeyStore.AddressTimeout | src/ipv6rwc/ipv6rwc.go:89-95 | The callback removes its buffer from the address buffers if it is still the one there, and nothing else; it is one timer step of the store. |
| KeyStore.KeyStore.SubnetTimeout | src/ipv6rwc/ipv6rwc.go:118-124 | The same for subnets. |
| KeyStore.KeyStore.OobHandler | src/ipv6rwc/ipv6rwc.go:180-200 | An answer goes out, to the sender, if and only if the message has 65 bytes, the first is 1, its key derives our subnet and the signature verifies; tables change or packets are sent only if it has 65 bytes, the first is 2 and the signature verifies; and then the sender's key is known. |
| KeyStore.KeyStore.SendKeyLookup | src/ipv6rwc/ipv6rwc.go:202-206 | One lookup for the partial key, signed. |
| KeyStore.KeyStore.SendKeyResponse | src/ipv6rwc/ipv6rwc.go:208-212 | One response to the key that asked, signed. |
| KeyStore.KeyStore.SetMTU | src/ipv6rwc/ipv6rwc.go:305-315 | What is wanted if that is between 1280 and the maximum; the maximum if more is wanted and that is at least 1280; and 1280 otherwise. |
| KeyStore.KeyStore.Sift | src/ipv6rwc/ipv6rwc.go:223-264 | One frame is delivered if and only if it is IPv6, from 40 bytes to the MTU of the moment, destined for our address or subnet, and comes from the address or subnet of the key that sent it, byte by byte; what is replied; and the steps the store takes, by which the sender of a packet for us becomes known. |
| KeyStore.KeyStore.ReadPC | src/ipv6rwc/ipv6rwc.go:214-267 | Over any stream of frames, between which others write, hear messages and set the MTU: how reading ends, after how much, what is copied to the caller, what is accepted for writing meanwhile; and the store goes through a run of its state machine. |
| KeyStore.ReadFirstShown | src/ipv6rwc/ipv6rwc.go:216-267 | The reader gets the first packet that is shown under the MTU that applies to it, unless reading fails before; and whatever is written is written for something that has happened by then. |
| KeyStore.ReadFilter | src/ipv6rwc/ipv6rwc.go:228-263 | A packet ends the reading of a stream if and only if, byte by byte, its first nibble is 6, it has from 40 bytes to the MTU of the moment, bytes 24 to 40 or 24 to 32 are our address or subnet, and bytes 8 to 24 or 8 to 16 are the address or subnet of the key that sent it; a frame that fails any of these is passed over. Whatever is written meanwhile is another writer's, or answers an oversize packet for us, to its source, in 560 bytes. |
| KeyStore.DeliverableMeans | src/ipv6rwc/ipv6rwc.go:228-263 | The conditions of the filter on one packet, in terms of its bytes, in both directions. |
| KeyStore.RepliesMean | src/ipv6rwc/ipv6rwc.go:233-257 | A frame is replied to if and only if it is larger than the MTU, IPv6, for our address or subnet, and from an address or subnet of the network; and then with one ICMPv6 message of type 2 that goes to its source and quotes its first 512 bytes. |
| KeyStore.ReadWrites | src/ipv6rwc/ipv6rwc.go:216-267 | While a stream is read exactly what each frame passed over is answered with, and what others write in between, is written, in order. |
| Icmp.HeaderMarshal | src/ipv6rwc/icmpv6.go:23-37 | The bytes of a header. |
| Icmp.NumbersReadBack | src/ipv6rwc/icmpv6.go:31-35 | Payload length modulo 65536, next header, hop limit and both addresses can be read back. |
| Icmp.BitFieldsReadBack | src/ipv6rwc/icmpv6.go:25-30 | So can version, traffic class and flow label. |
| Icmp.CreateICMPv6 | src/ipv6rwc/icmpv6.go:43-80 | The packet is IPv6, from and to the given addresses: 40 bytes with the message's length modulo 65536, next header 58 and hop limit 255, followed by the message. |
| Icmp.TooBigReplyFacts | src/ipv6rwc/ipv6rwc.go:237-249 | The reply is 560 bytes long, goes from the packet's destination to its source and ends with the packet's first 512 bytes. |
| Icmp.TooBigReplyFields | src/ipv6rwc/ipv6rwc.go:237-249 | Its payload length is 520, next header 58, hop limit 255; its message has type 2, code 0, the checksum over the whole message with that field zero, and the MTU in four bytes. |
| Icmp.TooBigReplyAccepted | src/ipv6rwc/ipv6rwc.go:247-249 | writePC accepts the reply if and only if the packet was for us and its source is in the network. |
| EndToEnd.SentIsDelivered | src/ipv6rwc/ipv6rwc.go:214-297 | Whatever a store sends at any point of any run, the node with the key it is sent to delivers if and only if it is no larger than that node's MTU. |
| EndToEnd.FramedPacketArrives | src/core/core.go:172-215 | And it arrives there unchanged, in a traffic frame anywhere in the stream. |
| EndToEnd.ReadFromTakesFirst | src/core/core.go:172-204 | Each read takes the first payload or error off what the connection has to give a reader, and leaves the rest. |
| EndToEnd.ReaderGets | src/ipv6rwc/ipv6rwc.go:214-267 | After anything that is not for it the reader gets the next packet if and only if the filter shows it under the MTU that applies by then. |
| EndToEnd.SentIsRead | src/ipv6rwc/ipv6rwc.go:214-297 | From one store to the other's reader: whatever is sent is what the receiver's read ends with, after any frames that are not for its reader, if and only if it is no larger than the receiver's MTU. |
| Framing.Demultiplexer.ReadFrom | src/core/core.go:172-204 | Returns the payload of the first traffic frame, as far as there is room, or fails with the connection, having handed on all protocol messages before, in order and unchanged. |
| Framing.EndsOnce | src/core/core.go:172-204 | For a given stream that outcome is unique. |
| Framing.EndsMean | src/core/core.go:172-204 | Reading ends at the first frame that starts with 1, with the rest of it, or at an error before that, and passes over everything else. |
| Framing.MessagesMean | src/core/core.go:186-201 | What is handed on are exactly the frames that start with 2, without that byte. |
| Framing.Connection.WriteTo | src/core/core.go:206-215 | One frame, the byte 1 and the payload; the count returned is the payload's. |
| Framing.WriteThenRead | src/core/core.go:172-215 | A written payload is read back as it was. |
| Framing.Mtu | src/core/core.go:167-170 | A payload is within the MTU exactly when its frame is within the connection's. |
| Requests.RequestTable.Send | src/core/proto.go:104-121 | The new request is the one its key has from then on, and no other key's changes; no callback is invoked. |
| Requests.RequestTable.HandleResponse | src/core/proto.go:137-143 | The callback of the key's request, if any, is invoked with the data, and that request alone removed. |
| Requests.RequestTable.TimerFired | src/core/proto.go:112-118 | A request's timer removes it if it is still the one in the table, and no other; no callback is invoked. |
| Requests.RunInv | src/core/proto.go:104-231 | What is recorded of every request is so, in every run. |
| Requests.NewRequestIsOpen | src/core/proto.go:104-121 | After a send a new request is the one for its key, and open; the one open before, if any, is superseded; nothing else changes. |
| Requests.LastRequestIsAnswered | src/core/proto.go:104-143 | In any run a response invokes the callback of the last send for its key, unless that request was answered or timed out in between, or another followed. |
| Requests.CalledAtMostOnce | src/core/proto.go:104-143 | In every run a callback is invoked at most once, for the key it was registered for. |
| Requests.CalledOnlyByResponse | src/core/proto.go:137-143 | Over any run, every callback invoked is invoked by a response of that run, from the key its request was open for at the time, with that response's data. |
| Requests.EveryResponseCalls | src/core/proto.go:137-143 | And every response from a key with a request open at the time invokes that request's callback. |
| Requests.FateIsFinal | src/core/proto.go:104-143 | Once answered, superseded or timed out, a request stays so, and its callback is not invoked again. |
| Requests.HowFatesChange | src/core/proto.go:104-143 | Only open requests change, each in one of three ways, and only by a message for their key. |
| Requests.TimerRemovesOnlyItsOwn | src/core/proto.go:112-118 | A timer never removes a replacement, and changes the table exactly if its request is open. |
| Requests.OpenRequestsTimeOut | src/core/proto.go:112-118 | An open request still has its timer, which will remove it. |
| Packing.PackKeys | src/core/proto.go:167-179 | The loop packs the first Fits keys. |
| Packing.ResponseFits | src/core/proto.go:97-100 | The response frame is within the connection's MTU if and only if that is at least 3. |
| Packing.LongestPrefix | src/core/proto.go:211-223 | A prefix of the keys fits if and only if it is no longer than the one packed, which has min(n, floor((M - 3) / 32)) keys. |
| Packing.SplitKeys | src/core/proto.go:303-308 | The splitting loop. |
| Packing.SplitConcat | src/core/proto.go:352-357 | Splitting undoes packing, and drops a shorter remainder. |
| Packing.PackedKeysArrive | src/core/proto.go:303-308 | The receiver recovers exactly the packed prefix, in order. |
| Proto.FramesMean | src/core/proto.go:76-100 | Each debug frame is taken for what it was sent as. |
| Proto.InfoFramesMean | src/core/nodeinfo.go:111-133 | So is each node-info frame. |
| Proto.FrameBytes | src/core/proto.go:55-100 | The frames byte by byte. |
| Proto.OnlyFramesMean | src/core/proto.go:55-95 | Only messages with those first bytes are taken for anything. |
| Proto.OtherMessages | src/core/proto.go:55-95 | A message other than a topic's response leaves its table alone, and one other than a request has nothing sent. |
| Proto.SelfReply | src/core/proto.go:124-135 | A node asked for itself answers with its own description, if it can be encoded. |
| Proto.ProtoHandler.SendRequest | src/core/proto.go:147-164 | The request is its key's in its topic's table from then on, and the topic's request frame is sent to the key. |
| Proto.ProtoHandler.HandleRequest | src/core/proto.go:124-135 | What is sent in reply to each kind of request. |
| Proto.ProtoHandler.HandleDebug | src/core/proto.go:76-95 | Which table, and which reply, each kind of message concerns; no other table changes. |
| Proto.ProtoHandler.HandleProto | src/core/proto.go:55-68 | The same one level up, with node-info messages passed on. |
| Proto.KeysExchange | src/core/proto.go:147-187 | A request for peers or DHT that is registered and sent, replied to within the MTU, and received back after anything that does not end it, invokes its callback once, with bytes that split into the first of the other node's keys, min(n, floor((M - 3) / 32)) of them. |
| NodeInfo.AgeBound | src/core/nodeinfo.go:44-53 | No callback is older than a minute and the longest time between cleanups; 90 seconds if they run every 30. |
| NodeInfo.AgeBoundReached | src/core/nodeinfo.go:44-53 | A run in which a callback is invoked at an age of exactly 90 seconds. |
| NodeInfo.CalledAtMostOnce | src/core/nodeinfo.go:55-68 | In every run a callback is invoked at most once, by the key it was registered for. |
| NodeInfo.NewCallbackIsKept | src/core/nodeinfo.go:55-60 | A new callback is the one its key has from then on, whatever it had; no other key's changes. |
| NodeInfo.LastCallbackIsCalled | src/core/nodeinfo.go:55-68 | In any run an answer invokes the callback added last for its key, unless that has been invoked, replaced or cleaned up in between; and removes it. |
| NodeInfo.CleanupMeans | src/core/nodeinfo.go:44-49 | A cleanup keeps exactly the callbacks that are at most 60 seconds old. |
| NodeInfo.NodeInfoHandler.Cleanup | src/core/nodeinfo.go:44-49 | Removes exactly the callbacks older than a minute. |
| NodeInfo.NodeInfoHandler.AddCallback | src/core/nodeinfo.go:55-60 | The new callback is the sender's, whatever was there; no other changes. |
| NodeInfo.NodeInfoHandler.RunCallback | src/core/nodeinfo.go:63-68 | The sender's callback, if any, is invoked with what was sent, and it alone removed. |
| NodeInfo.NodeInfoHandler.SetNodeInfo | src/core/nodeinfo.go:82-103 | What is stored never exceeds 16384 bytes and is kept when new information is refused. |
| Handshake.Encode | src/core/version.go:39-49 | What is encoded decodes to the same metadata. |
| Handshake.Decode | src/core/version.go:52-62 | Any 38 bytes decode to their parts, nothing else does. |
| Handshake.IsAllowed | src/core/link.go:176-182 | The loop decides whether the list of allowed keys is empty or has the key. |
| Handshake.CheckPeer | src/core/link.go:148-187 | A peer is accepted if and only if it sent 38 bytes that start with "meta", 0 and 4, and the key after them is pinned, if any is, and allowed, if it must be; otherwise it is refused for the first check that fails. |
| Handshake.AcceptsMeans | src/core/link.go:148-187 | The same of the state machine's condition. |
| Handshake.SameVersionAccepted | src/core/link.go:148-187 | A peer of this version is accepted if and only if its key is pinned, if any is, and allowed, if it must be. |
| Links.StepInv | src/core/link.go:108-190 | Every step of every handler keeps the invariant of the link table. |
| Links.LinkTableSafety | src/core/link.go:108-213 | In every interleaving each entry belongs to a handler for that link past its mark and not finished. A non-nil entry has that info, its peer passed all checks, and its handler has not closed the connection; it is registered, or, from when it has been disconnected, on its way to removing the entry. |
| Links.OwnSteps | src/core/link.go:108-213 | In every interleaving a handler's own steps are those of a handler by itself, in that order, as far as it has got; all of them once it has finished. |
| Links.FinishedIsClosed | src/core/link.go:107-187 | In every interleaving a finished handler has closed its connection, and until it is on its way out none has. |
| Links.ShakeMeans | src/core/link.go:134-187 | After the handshake a handler goes on if and only if version, pinned keys and allow-list permit; and closes the connection at once if and only if it is the allow-list that does not. |
| Links.EmptyAtTheEnd | src/core/link.go:121-124 | Once all handlers have finished the table is empty. |
| Links.DuplicateDisturbsNothing | src/core/link.go:111-114 | A run in which a handler does no more than start and check is still possible without it, and ends with the same table and everything about all other handlers the same. |
| Links.ReturnsEarly | src/core/link.go:111-114 | A handler returns early exactly when there is an entry at its check, and then closes its own connection only. |
| Links.OneHandlerPerLink | src/core/link.go:111-119 | There is never more than one handler at work for a link if and only if none passes its check while another is between check and mark. |
| Links.StaysListed | src/core/link.go:116-190 | Through any run that leaves a handler registered, its link is in the table at the end if and only if it was at the start and no other handler for the link marked, registered or removed. |
| Links.RegisteredIsListed | src/core/link.go:116-190 | In every run a registered link is in the table if and only if no other handler for it has marked, registered or removed an entry since it was registered. |
| Links.RaceLosesLink | src/core/link.go:111-124 | A run in which two handlers pass, and the second ends up registered but not in the table. |
| Links.LinkTable.IsConnectedTo | src/core/link.go:79-85 | Whether there is an entry, nil or not; asked by handlers and by callers. |
| Links.LinkTable.CheckFirst | src/core/link.go:111-114 | A handler's check is one step, which ends it if there is an entry. |
| Links.LinkTable.SetUp | src/core/link.go:116-213 | From the mark on: the steps on every path, the last of which removes the entry. |
| Links.LinkTable.Handler | src/core/link.go:108-213 | The steps of one handler in their order, on every path; with no other at work it leaves the table as it was. |
| Redial.Call | src/core/link_linux.go:54-187 | A dial is started if and only if the link is not up, all pinned keys are hexadecimal, the priority is valid and the scheme is one of six; then with the pinned keys and the priority of the URI. Otherwise the channel is closed without an error. |
| Redial.PinnedKeys | src/core/link_linux.go:65-75 | All keys of the URI, each its first 32 bytes or padded with zeros to them, and no others; or none if one is not hexadecimal. |
| Redial.PinnedMeans | src/core/link_linux.go:65-75 | A key is pinned if and only if one of the URI's keys, cut or padded with zeros to 32 bytes, is that key. |
| Redial.DialEnded | src/core/link_linux.go:88-99 | An error is sent if there is one, other than the end of the stream, and then the channel closed. |
| Redial.Attempt | src/core/link_linux.go:54-187 | On every path the channel is closed exactly once, after at most one send, which is made exactly if a dial was started and failed; it never blocks. |
| Redial.Retry | src/core/link.go:219-233 | Calls are made until one does not fail over the channel, at most three. |
| Redial.AfterDisconnect | src/core/link.go:216-237 | How many calls one disconnect makes, exactly: none unless the link was dialled, and never more than three. |
| Multicast.Multicast.Prune | src/multicast/multicast.go:239-282 | Closes exactly the listeners whose interface or address is gone. |
| Multicast.Multicast.ListenerFor | src/multicast/multicast.go:306-322 | The listener there is, or a new one on the given address if one can be opened. |
| Multicast.Multicast.TryAddress | src/multicast/multicast.go:304-343 | A beacon goes out exactly if there is a listener, new or due, and its address can be resolved, and it is that listener's; then its interval gets longer, and no other. |
| Multicast.Multicast.Search | src/multicast/multicast.go:287-344 | The addresses of an interface are gone through, and which of them have been is exactly what listener, beacon and intervals show. |
| Multicast.Multicast.Announced | src/multicast/multicast.go:328-342 | The beacon names the listener's address and port; the interval gets longer by a second up to 15. |
| Multicast.Multicast.AnnounceOn | src/multicast/multicast.go:285-344 | One interface gets a listener if it has none and one can be opened; the beacon of its listener goes out exactly if it is due and resolves; its interval gets longer exactly if it is due; nothing else changes. |
| Multicast.Multicast.Announce | src/multicast/multicast.go:224-348 | After it the open listeners are those in the table, each for a listed interface on one of its link-local IPv6 addresses and at most one each; which are kept, closed and opened; the log of beacons is the old one followed by one beacon for each interface, in some order, whose listener is due and resolves; and exactly the intervals of listeners that are due get longer, up to 15 seconds. A closed node announces nothing. |
| Multicast.ReconciledMeans | src/multicast/multicast.go:239-322 | An interface has a listener afterwards if and only if its old one's address still resolves to one of the interface's, which is then kept, or it sends beacons and one can be opened on a link-local IPv6 address of it. |
| Multicast.BeaconsMean | src/multicast/multicast.go:287-343 | The beacon on an interface goes out if and only if it sends beacons, has a link-local IPv6 address and a listener whose address resolves, and that is new or its interval has passed; byte by byte it is the key, the listener's address and its port. |
| Multicast.AdvancedMeans | src/multicast/multicast.go:341-343 | A listener's interval gets longer by one second if and only if its beacon is due on its interface and it is less than 15. |
| Multicast.AdvancedIsLater | src/multicast/multicast.go:341-343 | So no interval gets shorter, and none longer by more than a second. |
| Multicast.WriteBeacon | src/multicast/multicast.go:328-335 | The beacon that is written is heard as it was meant. |
| Multicast.BeaconHeard | src/multicast/multicast.go:377-389 | Any beacon with an address is heard as it was sent. |
| Multicast.OnlyBeaconsHeard | src/multicast/multicast.go:377-389 | A datagram is heard if and only if it has at least 35 bytes, as its first 32 bytes, the number in its last two, and the address between; nothing but the beacon of what is heard is. |

## Left out

- Sockets, TLS, SCTP, SOCKS and multipath transports, the routing library, actor scheduling and ed25519: packets and messages handed to the network are logged, signing and verification are functions of the store's identity.
- The ICMPv6 checksum is a parameter; only its place and its length are modelled.
- The prefix is one byte, as GetPrefix returns it. Except where stated it may have any value.
- A minimum time that buffered packets or entries are kept: a stopped timer's callback may still run.
- KeyStore.KeyStore.ReadPC: what others do between two frames are writes, out-of-band messages and changes of the MTU; timers that fire in between, and what happens between the steps for one frame, are left to the state machine.
- KeyStore.KeyStore.Update: the packets it sends after the unlock are logged in the same step; they and their key are fixed inside the section.
- Requests.RequestTable.Send: the three request tables of the source, which repeat the same code, are three objects of this class, and the sends for the three topics one method.
- Self-descriptions are opaque bytes, and whether they can be encoded is a parameter; so is whether node information can be.
- NodeInfo.AgeBound: that cleanups run on time is a hypothesis on the run.
- Links.LinkTable.Handler: nobody else is at work during the method; `Links.OwnSteps` says that in every interleaving a handler takes the same steps. The redial that may follow (src/core/link.go:216-237) is `Redial.AfterDisconnect`.
- Redial.Retry: the delays between attempts, and the SNI that is chosen for TLS.
- Redial.Call: the six schemes differ in the transport that is dialled, which is not modelled.
- Multicast.Multicast.Announce: which interfaces are allowed is a parameter, as are the system's answers about addresses; a listener whose socket is nil does not occur.
- Peering with the senders of beacons, the HTTP and admin interfaces, configuration, the tunnel device and start-up.
