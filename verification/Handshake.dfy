/** The metadata that both ends of a new link send first, and what is checked of it. */
module Handshake {
  import opened Bytes

  const META: seq<Byte> := [0x6d, 0x65, 0x74, 0x61]
  const VERSION: Byte := 0
  const MINOR_VERSION: Byte := 4
  const META_LENGTH := 38

  datatype Metadata = Metadata(meta: seq<Byte>, ver: Byte, minorVer: Byte, key: seq<Byte>)

  predicate WellFormed(m: Metadata) {
    |m.meta| == 4 && |m.key| == 32
  }

  function Base(key: Key): (m: Metadata) {
    Metadata(META, VERSION, MINOR_VERSION, key)
  }

  method Encode(m: Metadata) returns (bs: seq<Byte>)
    requires WellFormed(m)
    ensures |bs| == META_LENGTH && Decoded(bs) == Some(m)
    ensures bs == m.meta + [m.ver, m.minorVer] + m.key
  {
    bs := [];
    bs := bs + m.meta;
    bs := bs + [m.ver];
    bs := bs + [m.minorVer];
    bs := bs + m.key;
    assert bs[..4] == m.meta && bs[6..] == m.key && bs[4] == m.ver && bs[5] == m.minorVer;
  }

  function Decoded(bs: seq<Byte>): (m: Option<Metadata>)
    ensures m.Some? <==> |bs| == META_LENGTH
    ensures m.Some? ==> WellFormed(m.value) && bs == m.value.meta + [m.value.ver, m.value.minorVer] + m.value.key
  {
    if |bs| != META_LENGTH then None else Some(Metadata(bs[..4], bs[4], bs[5], bs[6..]))
  }

  method Decode(bs: seq<Byte>) returns (ok: bool, m: Metadata)
    ensures ok <==> Decoded(bs).Some?
    ensures ok ==> Some(m) == Decoded(bs)
  {
    m := Metadata([0, 0, 0, 0], 0, 0, []);
    if |bs| != META_LENGTH {
      return false, m;
    }
    var offset := 0;
    m := m.(meta := bs[offset..offset + 4]);
    offset := offset + 4;
    m, offset := m.(ver := bs[offset]), offset + 1;
    m, offset := m.(minorVer := bs[offset]), offset + 1;
    m := m.(key := bs[offset..]);
    ok := true;
  }

  predicate Check(m: Metadata) {
    m.meta == META && m.ver == VERSION && m.minorVer == MINOR_VERSION
  }

  /** What a handler is told about a link before it is opened. */
  datatype Terms = Terms(pinned: set<Key>, allowed: set<Key>, incoming: bool, force: bool)

  datatype Refusal = BadMetadata | BadVersion | NotPinned | NotAllowed

  /** A link is opened to the owner of a key exactly when the other end sends our version with it,
      the key is pinned if any keys are, and it is allowed if any list of allowed keys applies:
      none does to links that are dialled, forced, or when the list is empty. */
  predicate Accepts(terms: Terms, bs: seq<Byte>) {
    && |bs| == META_LENGTH
    && bs[..6] == META + [VERSION, MINOR_VERSION]
    && (terms.pinned != {} ==> bs[6..] in terms.pinned)
    && (terms.incoming && !terms.force && terms.allowed != {} ==> bs[6..] in terms.allowed)
  }

  /** The first check that fails. */
  function Verdict(terms: Terms, bs: seq<Byte>): (why: Option<Refusal>)
    ensures why == None <==> Accepts(terms, bs)
  {
    if |bs| != META_LENGTH then Some(BadMetadata)
    else if bs[..6] != META + [VERSION, MINOR_VERSION] then Some(BadVersion)
    else if terms.pinned != {} && bs[6..] !in terms.pinned then Some(NotPinned)
    else if terms.incoming && !terms.force && terms.allowed != {} && bs[6..] !in terms.allowed then Some(NotAllowed)
    else None
  }

  /** What is accepted, byte by byte: "meta", version 0, minor version 4, and the key. */
  lemma AcceptsMeans(terms: Terms, bs: seq<Byte>)
    ensures Accepts(terms, bs) <==>
            && |bs| == 38 && bs[0] == 0x6d && bs[1] == 0x65 && bs[2] == 0x74 && bs[3] == 0x61 && bs[4] == 0 && bs[5] == 4
            && (terms.pinned != {} ==> bs[6..38] in terms.pinned)
            && (terms.incoming && !terms.force && terms.allowed != {} ==> bs[6..38] in terms.allowed)
  {
    if |bs| == 38 {
      assert bs[6..38] == bs[6..];
      assert bs[..6] == [bs[0], bs[1], bs[2], bs[3], bs[4], bs[5]];
    }
  }

  method IsAllowed(allowed: set<Key>, key: Key) returns (ok: bool)
    ensures ok <==> allowed == {} || key in allowed
  {
    ok := |allowed| == 0;
    var rest := allowed;
    while rest != {}
      invariant rest <= allowed && key !in allowed - rest && ok == (allowed == {})
      decreases |rest|
    {
      var k :| k in rest;
      rest := rest - {k};
      if k == key {
        ok := true;
        break;
      }
    }
  }

  /** The checks of a handler on what the other end sent. */
  method CheckPeer(terms: Terms, bs: seq<Byte>) returns (key: Option<Key>, why: Option<Refusal>)
    ensures key.Some? <==> Accepts(terms, bs)
    ensures key.Some? <==>
            && |bs| == 38 && bs[0] == 0x6d && bs[1] == 0x65 && bs[2] == 0x74 && bs[3] == 0x61 && bs[4] == 0 && bs[5] == 4
            && (terms.pinned != {} ==> bs[6..38] in terms.pinned)
            && (terms.incoming && !terms.force && terms.allowed != {} ==> bs[6..38] in terms.allowed)
    ensures key.Some? ==> key.value == bs[6..]
    ensures why == Verdict(terms, bs)
  {
    AcceptsMeans(terms, bs);
    var ok, meta := Decode(bs);
    if !ok {
      return None, Some(BadMetadata);
    }
    assert bs[..6] == meta.meta + [meta.ver, meta.minorVer];
    if !Check(meta) {
      return None, Some(BadVersion);
    }
    if |terms.pinned| > 0 {
      if meta.key !in terms.pinned {
        return None, Some(NotPinned);
      }
    }
    var isAllowed := IsAllowed(terms.allowed, meta.key);
    if terms.incoming && !terms.force && !isAllowed {
      return None, Some(NotAllowed);
    }
    return Some(meta.key), None;
  }

  /** Two nodes of this version that do not restrict each other accept each other; and an owner of
      a pinned or allowed key is always accepted. */
  lemma SameVersionAccepted(terms: Terms, key: Key, bs: seq<Byte>)
    requires |bs| == META_LENGTH && Decoded(bs) == Some(Base(key))
    ensures Accepts(terms, bs) <==>
            (terms.pinned == {} || key in terms.pinned) && (!terms.incoming || terms.force || terms.allowed == {} || key in terms.allowed)
  {
    assert bs[6..] == key;
    assert bs[..6] == META + [VERSION, MINOR_VERSION];
  }
}
