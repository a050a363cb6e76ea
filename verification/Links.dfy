/** The table of links under interleaved handlers. A handler checks the table and marks its entry
    in two separate actor messages, shakes hands, registers, runs until it is disconnected, and
    removes its entry; between any two of these steps every other handler may take any of its own. */
module Links {
  import opened Bytes
  import opened Handshake

  datatype LinkInfo = LinkInfo(linkType: string, local: string, remote: string)

  /** A handler and the connection it was started with. */
  class Link {
    const info: LinkInfo
    const terms: Terms

    constructor (info: LinkInfo, terms: Terms)
      ensures this.info == info && this.terms == terms
    {
      this.info, this.terms := info, terms;
    }
  }

  /** How far a handler is: about to check, past the check, past the mark, past the peer's checks,
      registered, on its way out with its entry still to remove, finished. */
  datatype Phase = Starting | Checked | Marked | Accepted | Registered | Leaving | Finished

  /** An entry is None while its link is being set up. heard is what the peers of the handlers
      sent, closed whose connections the handlers have closed, and writer who wrote an entry
      last; they only record what has happened. */
  datatype State = State(links: map<LinkInfo, Option<Link>>, phase: map<Link, Phase>,
                         heard: map<Link, seq<Byte>>, closed: set<Link>, writer: map<LinkInfo, Link>)

  const EMPTY := State(map[], map[], map[], {}, map[])

  datatype Event =
    | Start(h: Link)
    | Check(h: Link)
    | Mark(h: Link)
    | Shake(h: Link, metadata: Option<seq<Byte>>) // what the peer sent, None if the exchange failed
    | Register(h: Link)
    | Disconnect(h: Link)
    | Remove(h: Link)

  function Move(s: State, h: Link, p: Phase): State {
    s.(phase := s.phase[h := p])
  }

  /** What a handler makes of the peer's metadata. Only for a key that is not allowed does it
      close the connection before it leaves. */
  function Shaken(s: State, h: Link, metadata: Option<seq<Byte>>): (r: State) {
    if metadata == None then Move(s, h, Leaving)
    else
      match Verdict(h.terms, metadata.value)
      case None => Move(s, h, Accepted).(heard := s.heard[h := metadata.value])
      case Some(NotAllowed) => Move(s, h, Leaving).(closed := s.closed + {h})
      case Some(_) => Move(s, h, Leaving)
  }

  function Step(s: State, e: Event): (r: State) {
    match e
    case Start(h) => Move(s, h, Starting)
    case Check(h) => if h.info in s.links then Finish(s, h) else Move(s, h, Checked)
    case Mark(h) => Write(Move(s, h, Marked), h, None)
    case Shake(h, metadata) => Shaken(s, h, metadata)
    case Register(h) => Write(Move(s, h, Registered), h, Some(h))
    case Disconnect(h) => Move(s, h, Leaving)
    case Remove(h) => Erase(Finish(s, h), h)
  }

  /** A handler that returns closes its own connection. */
  function Finish(s: State, h: Link): State {
    Move(s, h, Finished).(closed := s.closed + {h})
  }

  function Write(s: State, h: Link, entry: Option<Link>): State {
    s.(links := s.links[h.info := entry], writer := s.writer[h.info := h])
  }

  /** Whatever entry there is under the handler's info goes, whoever wrote it. */
  function Erase(s: State, h: Link): State {
    s.(links := s.links - {h.info}, writer := s.writer - {h.info})
  }

  function PhaseOf(s: State, h: Link): Phase {
    if h in s.phase then s.phase[h] else Finished
  }

  ghost predicate Enabled(s: State, e: Event) {
    match e
    case Start(h) => h !in s.phase
    case Check(h) => PhaseOf(s, h) == Starting
    case Mark(h) => PhaseOf(s, h) == Checked
    case Shake(h, _) => PhaseOf(s, h) == Marked
    case Register(h) => PhaseOf(s, h) == Accepted
    case Disconnect(h) => PhaseOf(s, h) == Registered
    case Remove(h) => PhaseOf(s, h) == Leaving
  }

  function Exec(s: State, es: seq<Event>): (r: State)
    decreases |es|
  {
    if es == [] then s else Exec(Step(s, es[0]), es[1..])
  }

  ghost predicate Possible(s: State, es: seq<Event>)
    decreases |es|
  {
    es != [] ==> Enabled(s, es[0]) && Possible(Step(s, es[0]), es[1..])
  }

  // ---- one handler's own steps ---------------------------------------------------

  /** What a handler does by itself, from its start to its end. */
  function HandlerRun(h: Link, connected: bool, metadata: Option<seq<Byte>>): (es: seq<Event>) {
    [Start(h), Check(h)] + if connected then [] else SetUpRun(h, metadata)
  }

  function SetUpRun(h: Link, metadata: Option<seq<Byte>>): (es: seq<Event>) {
    [Mark(h), Shake(h, metadata)]
    + (if metadata.Some? && Accepts(h.terms, metadata.value) then [Register(h), Disconnect(h)] else [])
    + [Remove(h)]
  }

  predicate Welcome(h: Link, metadata: Option<seq<Byte>>) {
    metadata.Some? && Accepts(h.terms, metadata.value)
  }

  /** How far a handler in phase p is along its own steps. */
  ghost predicate Along(h: Link, p: Phase, mine: seq<Event>, connected: bool, metadata: Option<seq<Byte>>) {
    var run := HandlerRun(h, connected, metadata);
    && mine <= run
    && match p
       case Starting => |mine| == 1
       case Checked => |mine| == 2 && !connected
       case Marked => |mine| == 3 && !connected
       case Accepted => |mine| == 4 && !connected && Welcome(h, metadata)
       case Registered => |mine| == 5 && !connected && Welcome(h, metadata)
       case Leaving => |mine| == |run| - 1 && !connected
       case Finished => mine == run
  }

  /** The steps of a run that are h's. */
  function Mine(es: seq<Event>, h: Link): (mine: seq<Event>) {
    if es == [] then []
    else
      var n := |es| - 1;
      Mine(es[..n], h) + if es[n].h == h then [es[n]] else []
  }

  lemma {:induction false} Snoc(s: State, es: seq<Event>, e: Event)
    ensures Exec(s, es + [e]) == Step(Exec(s, es), e)
    ensures Possible(s, es + [e]) <==> Possible(s, es) && Enabled(Exec(s, es), e)
    decreases |es|
  {
    if es == [] {
      assert [e][1..] == [];
      assert Exec(Step(s, e), []) == Step(s, e) && Possible(Step(s, e), []);
    } else {
      assert (es + [e])[1..] == es[1..] + [e];
      Snoc(Step(s, es[0]), es[1..], e);
    }
  }

  lemma HandlerRuns(h: Link, metadata: Option<seq<Byte>>)
    ensures HandlerRun(h, true, metadata) == [Start(h), Check(h)]
    ensures HandlerRun(h, false, metadata) ==
            if Welcome(h, metadata) then [Start(h), Check(h), Mark(h), Shake(h, metadata), Register(h), Disconnect(h), Remove(h)]
            else [Start(h), Check(h), Mark(h), Shake(h, metadata), Remove(h)]
  {
  }

  /** One more step of the handler's own is the next one along. */
  lemma NextStep(s: State, e: Event, mine: seq<Event>, connected: bool, metadata: Option<seq<Byte>>)
    returns (connected': bool, metadata': Option<seq<Byte>>)
    requires Enabled(s, e)
    requires e.h in s.phase ==> Along(e.h, s.phase[e.h], mine, connected, metadata)
    requires e.h !in s.phase ==> mine == []
    ensures Along(e.h, Step(s, e).phase[e.h], mine + [e], connected', metadata')
  {
    var h := e.h;
    connected', metadata' := connected, metadata;
    match e
    case Start(_) => HandlerRuns(h, metadata');
    case Check(_) =>
      connected' := h.info in s.links;
      HandlerRuns(h, metadata);
    case Mark(_) => HandlerRuns(h, metadata);
    case Shake(_, md) =>
      metadata' := md;
      HandlerRuns(h, metadata);
      HandlerRuns(h, md);
    case Register(_) => HandlerRuns(h, metadata);
    case Disconnect(_) => HandlerRuns(h, metadata);
    case Remove(_) => HandlerRuns(h, metadata);
  }

  /** A handler's phase, and what its peer sent, are changed by its own steps only. */
  lemma OthersKeepPhase(s: State, e: Event, h: Link)
    requires e.h != h
    ensures var r := Step(s, e);
            && (h in r.phase <==> h in s.phase) && (h in s.phase ==> r.phase[h] == s.phase[h])
            && (h in r.heard <==> h in s.heard) && (h in s.heard ==> r.heard[h] == s.heard[h])
  {
    if e.Shake? { ShakenFacts(s, e.h, e.metadata); }
  }

  lemma OneMoreStep(s: State, e: Event, h: Link, before: seq<Event>, c: bool, m: Option<seq<Byte>>)
    returns (connected: bool, metadata: Option<seq<Byte>>)
    requires Enabled(s, e)
    requires h in s.phase ==> Along(h, s.phase[h], before, c, m)
    requires h !in s.phase ==> before == []
    ensures var after, r := before + (if e.h == h then [e] else []), Step(s, e);
            && (h in r.phase ==> Along(h, r.phase[h], after, connected, metadata))
            && (h !in r.phase ==> after == [])
  {
    connected, metadata := c, m;
    if e.h == h {
      connected, metadata := NextStep(s, e, before, c, m);
    } else {
      OthersKeepPhase(s, e, h);
      assert before + [] == before;
    }
  }

  /** In every interleaving, a handler's own steps are those of HandlerRun as far as it has got,
      and all of them once it has finished. */
  lemma {:induction false} OwnSteps(es: seq<Event>, h: Link) returns (connected: bool, metadata: Option<seq<Byte>>)
    requires Possible(EMPTY, es)
    ensures h !in Exec(EMPTY, es).phase ==> Mine(es, h) == []
    ensures h in Exec(EMPTY, es).phase ==> Along(h, Exec(EMPTY, es).phase[h], Mine(es, h), connected, metadata)
    decreases |es|
  {
    if es == [] {
      connected, metadata := false, None;
    } else {
      var n := |es| - 1;
      assert es == es[..n] + [es[n]];
      Snoc(EMPTY, es[..n], es[n]);
      connected, metadata := OwnSteps(es[..n], h);
      connected, metadata := OneMoreStep(Exec(EMPTY, es[..n]), es[n], h, Mine(es[..n], h), connected, metadata);
    }
  }

  // ---- safety --------------------------------------------------------------------

  /** Past the mark and not yet finished. */
  predicate Active(p: Phase) {
    p.Marked? || p.Accepted? || p.Registered? || p.Leaving?
  }

  ghost predicate Passed(s: State, h: Link) {
    h in s.heard && Accepts(h.terms, s.heard[h])
  }

  /** The last to write an entry is still active; and an entry that is not None is its writer's,
      which has passed the checks and is registered, or on its way out with its connection open. */
  ghost predicate EntryOk(s: State, info: LinkInfo)
    requires info in s.links
  {
    && info in s.writer
    && var h := s.writer[info];
    && h.info == info && Active(PhaseOf(s, h))
    && (s.links[info].Some? ==> s.links[info] == Some(h) && h !in s.closed && Passed(s, h)
                                && (PhaseOf(s, h) == Registered || PhaseOf(s, h) == Leaving))
  }

  ghost predicate HandlerOk(s: State, h: Link) {
    && (PhaseOf(s, h) == Accepted || PhaseOf(s, h) == Registered ==> Passed(s, h) && h !in s.closed)
    && (h in s.closed ==> h in s.phase && (s.phase[h] == Leaving || s.phase[h] == Finished))
  }

  ghost predicate Inv(s: State) {
    && s.writer.Keys == s.links.Keys
    && (forall info | info in s.links :: EntryOk(s, info))
    && (forall h | h in s.phase.Keys + s.closed :: HandlerOk(s, h))
  }

  /** An entry that stays as it is only depends on its writer. */
  lemma EntryKept(s: State, r: State, info: LinkInfo)
    requires info in s.links && info in r.links && EntryOk(s, info) && s.links[info] == r.links[info]
    requires info in r.writer && r.writer[info] == s.writer[info]
    requires var h := s.writer[info];
             && Active(PhaseOf(r, h))
             && (s.links[info].Some? ==> (PhaseOf(r, h) == Registered || PhaseOf(r, h) == Leaving) && h !in r.closed && (Passed(s, h) ==> Passed(r, h)))
    ensures EntryOk(r, info)
  {
  }

  lemma ShakeInv(s: State, h: Link, metadata: Option<seq<Byte>>)
    requires Inv(s) && PhaseOf(s, h) == Marked
    ensures Inv(Shaken(s, h, metadata))
  {
    var r := Shaken(s, h, metadata);
    ShakenFacts(s, h, metadata);
    forall info | info in r.links ensures EntryOk(r, info) {
      assert EntryOk(s, info);
      EntryKept(s, r, info);
    }
    forall x | x in r.phase.Keys + r.closed ensures HandlerOk(r, x) { assert HandlerOk(s, x); }
  }

  lemma ShakenFacts(s: State, h: Link, metadata: Option<seq<Byte>>)
    ensures var r := Shaken(s, h, metadata);
            && r.links == s.links && r.writer == s.writer
            && h in r.phase && r.phase == s.phase[h := r.phase[h]] && (r.phase[h] == Accepted || r.phase[h] == Leaving)
            && (r.phase[h] == Accepted ==> r.closed == s.closed && Passed(r, h))
            && (forall x | x != h :: (x in r.heard <==> x in s.heard) && (x in s.heard ==> r.heard[x] == s.heard[x]))
            && (r.phase[h] == Leaving ==> r.heard == s.heard)
            && s.closed <= r.closed <= s.closed + {h}
  {
  }

  lemma RegisterInv(s: State, h: Link)
    requires Inv(s) && PhaseOf(s, h) == Accepted
    ensures Inv(Step(s, Register(h)))
  {
    var r := Step(s, Register(h));
    assert HandlerOk(s, h);
    forall info | info in r.links ensures EntryOk(r, info) {
      if info != h.info { assert EntryOk(s, info); }
    }
    forall x | x in r.phase.Keys + r.closed ensures HandlerOk(r, x) { assert HandlerOk(s, x); }
  }

  lemma RemoveInv(s: State, h: Link)
    requires Inv(s) && PhaseOf(s, h) == Leaving
    ensures Inv(Step(s, Remove(h)))
  {
    var r := Step(s, Remove(h));
    forall info | info in r.links ensures EntryOk(r, info) { assert EntryOk(s, info); }
    forall x | x in r.phase.Keys + r.closed ensures HandlerOk(r, x) { assert HandlerOk(s, x); }
  }

  lemma MarkInv(s: State, h: Link)
    requires Inv(s) && PhaseOf(s, h) == Checked
    ensures Inv(Step(s, Mark(h)))
  {
    var r := Step(s, Mark(h));
    forall info | info in r.links ensures EntryOk(r, info) {
      if info != h.info { assert EntryOk(s, info); }
    }
    forall x | x in r.phase.Keys + r.closed ensures HandlerOk(r, x) { assert HandlerOk(s, x); }
  }

  /** The steps that only move a handler on, and may close its connection. */
  lemma MoveInv(s: State, r: State, h: Link, p: Phase)
    requires Inv(s) && r == Move(s, h, p).(closed := r.closed)
    requires r.closed == s.closed || (p == Finished && r.closed == s.closed + {h})
    requires Active(PhaseOf(s, h)) ==> PhaseOf(s, h) == Registered && p == Leaving
    requires p != Accepted && p != Registered && (h in s.closed ==> p == Finished)
    ensures Inv(r)
  {
    forall info | info in r.links ensures EntryOk(r, info) {
      assert EntryOk(s, info);
      EntryKept(s, r, info);
    }
    forall x | x in r.phase.Keys + r.closed ensures HandlerOk(r, x) {
      assert x in s.phase.Keys + s.closed ==> HandlerOk(s, x);
    }
  }

  lemma StepInv(s: State, e: Event)
    requires Inv(s) && Enabled(s, e)
    ensures Inv(Step(s, e))
  {
    match e
    case Mark(h) => MarkInv(s, h);
    case Shake(h, metadata) => ShakeInv(s, h, metadata);
    case Register(h) => RegisterInv(s, h);
    case Remove(h) => RemoveInv(s, h);
    case Start(h) => assert h in s.closed ==> HandlerOk(s, h); MoveInv(s, Step(s, e), h, Starting);
    case Check(h) => assert HandlerOk(s, h); MoveInv(s, Step(s, e), h, if h.info in s.links then Finished else Checked);
    case Disconnect(h) => assert HandlerOk(s, h); MoveInv(s, Step(s, e), h, Leaving);
  }

  lemma {:induction false} RunInv(s: State, es: seq<Event>)
    requires Inv(s) && Possible(s, es)
    ensures Inv(Exec(s, es))
    decreases |es|
  {
    if es != [] {
      StepInv(s, es[0]);
      RunInv(Step(s, es[0]), es[1..]);
    }
  }

  /** A handler whose peer has passed is on its way out once it has been disconnected, and not
      before. */
  ghost predicate Noted(s: State, h: Link, disconnected: bool) {
    && (h in s.heard ==> h in s.phase && !(s.phase[h].Starting? || s.phase[h].Checked? || s.phase[h].Marked?))
    && (disconnected ==> h in s.phase && (s.phase[h] == Leaving || s.phase[h] == Finished))
    && (h in s.heard && (s.phase[h] == Leaving || s.phase[h] == Finished) ==> disconnected)
  }

  lemma NotedStep(s: State, e: Event, h: Link, disconnected: bool)
    requires Noted(s, h, disconnected) && Enabled(s, e)
    ensures Noted(Step(s, e), h, disconnected || e == Disconnect(h))
  {
    if e.h != h {
      OthersKeepPhase(s, e, h);
    } else if e.Shake? {
      ShakenFacts(s, h, e.metadata);
    }
  }

  lemma {:induction false} DisconnectNoted(es: seq<Event>, h: Link)
    requires Possible(EMPTY, es)
    ensures Noted(Exec(EMPTY, es), h, Disconnect(h) in es)
    decreases |es|
  {
    if es != [] {
      var n := |es| - 1;
      assert es == es[..n] + [es[n]];
      Snoc(EMPTY, es[..n], es[n]);
      DisconnectNoted(es[..n], h);
      NotedStep(Exec(EMPTY, es[..n]), es[n], h, Disconnect(h) in es[..n]);
    }
  }

  /** In every interleaving each entry belongs to a handler of that very info that is past its
      mark and has not finished; and an entry that is not None is a link with that info whose
      peer has passed the version, pinned-key and allow-list checks. Either it is registered, and
      its connection has neither been closed nor come to an end; or it has been disconnected and
      is on its way to removing the entry. */
  lemma LinkTableSafety(s: State, es: seq<Event>, info: LinkInfo)
    requires Possible(EMPTY, es) && s == Exec(EMPTY, es) && info in s.links
    ensures exists h :: h in s.phase && h.info == info && Active(s.phase[h])
    ensures s.links[info].Some? ==>
              var h := s.links[info].value;
              && h.info == info && h in s.phase && h in s.heard && Accepts(h.terms, s.heard[h])
              && var bs := s.heard[h];
              && |bs| == 38 && bs[0] == 0x6d && bs[1] == 0x65 && bs[2] == 0x74 && bs[3] == 0x61 && bs[4] == 0 && bs[5] == 4
              && (h.terms.pinned != {} ==> bs[6..38] in h.terms.pinned)
              && (h.terms.incoming && !h.terms.force && h.terms.allowed != {} ==> bs[6..38] in h.terms.allowed)
              && (s.phase[h] == Registered || s.phase[h] == Leaving) && h !in s.closed
    ensures s.links[info].Some? ==>
              (s.phase[s.links[info].value] == Leaving <==> Disconnect(s.links[info].value) in es)
  {
    RunInv(EMPTY, es);
    assert EntryOk(s, info);
    assert s.writer[info] in s.phase;
    if s.links[info].Some? {
      var h := s.links[info].value;
      DisconnectNoted(es, h);
      AcceptsMeans(h.terms, s.heard[h]);
    }
  }

  /** Every handler that has finished has closed its connection. Until it is on its way out none
      has; and of those on their way out, only ones that were refused for their peer's key. */
  lemma {:induction false} FinishedIsClosed(es: seq<Event>, h: Link)
    requires Possible(EMPTY, es)
    ensures var s := Exec(EMPTY, es);
            && (h in s.phase && s.phase[h] == Finished ==> h in s.closed)
            && (h in s.closed ==> h in s.phase && (s.phase[h] == Finished || s.phase[h] == Leaving))
    decreases |es|
  {
    if es != [] {
      var n := |es| - 1;
      assert es == es[..n] + [es[n]];
      Snoc(EMPTY, es[..n], es[n]);
      FinishedIsClosed(es[..n], h);
      ClosedStep(Exec(EMPTY, es[..n]), es[n], h);
    }
  }

  lemma ClosedStep(s: State, e: Event, h: Link)
    requires Enabled(s, e)
    requires h in s.phase && s.phase[h] == Finished ==> h in s.closed
    requires h in s.closed ==> h in s.phase && (s.phase[h] == Finished || s.phase[h] == Leaving)
    ensures var r := Step(s, e);
            && (h in r.phase && r.phase[h] == Finished ==> h in r.closed)
            && (h in r.closed ==> h in r.phase && (r.phase[h] == Finished || r.phase[h] == Leaving))
  {
    if e.Shake? { ShakenFacts(s, e.h, e.metadata); }
    if e.h != h { OthersKeepPhase(s, e, h); }
  }

  /** A handshake ends in one of two ways: the peer is accepted, or the handler is on its way out,
      having closed the connection if and only if it is the list of allowed keys that the peer's
      key is not on. */
  lemma ShakeMeans(s: State, h: Link, metadata: Option<seq<Byte>>)
    requires PhaseOf(s, h) == Marked
    ensures var r := Step(s, Shake(h, metadata));
            var bs := if metadata.Some? then metadata.value else [];
            var known := |bs| == 38 && bs[..6] == [0x6d, 0x65, 0x74, 0x61, 0, 4] && (h.terms.pinned != {} ==> bs[6..] in h.terms.pinned);
            var allowed := |bs| == 38 && (h.terms.incoming && !h.terms.force && h.terms.allowed != {} ==> bs[6..] in h.terms.allowed);
            && r.phase == s.phase[h := if known && allowed then Accepted else Leaving]
            && r.closed == (if known && !allowed then s.closed + {h} else s.closed)
            && r.links == s.links && r.writer == s.writer
  {
  }

  /** Once every handler has finished, the table is empty. */
  lemma EmptyAtTheEnd(s: State, es: seq<Event>)
    requires Possible(EMPTY, es) && s == Exec(EMPTY, es) && forall h | h in s.phase :: s.phase[h] == Finished
    ensures s.links == map[]
  {
    forall info | info in s.links ensures false {
      LinkTableSafety(s, es, info);
    }
  }

  /** A run without the steps of one handler. */
  function WithoutSteps(es: seq<Event>, h: Link): (others: seq<Event>)
    decreases |es|
  {
    if es == [] then [] else (if es[0].h == h then [] else [es[0]]) + WithoutSteps(es[1..], h)
  }

  ghost predicate OnlyChecks(es: seq<Event>, h: Link) {
    forall e | e in es :: e.h == h ==> e.Start? || e.Check?
  }

  /** The table is the same, and so is all that concerns other handlers. */
  ghost predicate SameButFor(s: State, r: State, h: Link) {
    && s.links == r.links && s.writer == r.writer
    && s.phase - {h} == r.phase - {h} && s.heard - {h} == r.heard - {h} && s.closed - {h} == r.closed - {h}
  }

  lemma SamePhase(s: State, r: State, h: Link, x: Link)
    requires SameButFor(s, r, h) && x != h
    ensures (x in s.phase <==> x in r.phase) && PhaseOf(s, x) == PhaseOf(r, x)
  {
    assert x in s.phase <==> x in s.phase - {h};
    assert x in r.phase <==> x in r.phase - {h};
    assert x in s.phase ==> s.phase[x] == (s.phase - {h})[x] == (r.phase - {h})[x] == r.phase[x];
  }

  lemma OwnStepSame(s: State, r: State, h: Link, e: Event)
    requires SameButFor(s, r, h) && e.h == h && (e.Start? || e.Check?)
    ensures SameButFor(Step(s, e), r, h)
  {
    var t := Step(s, e);
    assert t.phase - {h} == s.phase - {h};
    assert t.closed - {h} == s.closed - {h};
  }

  lemma Commutes(m: map<Link, Phase>, h: Link, x: Link, p: Phase)
    requires x != h
    ensures m[x := p] - {h} == (m - {h})[x := p]
  {
  }

  lemma MoveSame(s: State, r: State, h: Link, x: Link, p: Phase)
    requires SameButFor(s, r, h) && x != h
    ensures SameButFor(Move(s, x, p), Move(r, x, p), h) && SameButFor(Finish(s, x), Finish(r, x), h)
  {
    Commutes(s.phase, h, x, p);
    Commutes(r.phase, h, x, p);
    Commutes(s.phase, h, x, Finished);
    Commutes(r.phase, h, x, Finished);
    assert (s.closed + {x}) - {h} == (s.closed - {h}) + {x};
    assert (r.closed + {x}) - {h} == (r.closed - {h}) + {x};
  }

  lemma ShakenSame(s: State, r: State, h: Link, x: Link, metadata: Option<seq<Byte>>)
    requires SameButFor(s, r, h) && x != h
    ensures SameButFor(Shaken(s, x, metadata), Shaken(r, x, metadata), h)
  {
    MoveSame(s, r, h, x, Accepted);
    MoveSame(s, r, h, x, Leaving);
    assert (s.closed + {x}) - {h} == (s.closed - {h}) + {x};
    assert (r.closed + {x}) - {h} == (r.closed - {h}) + {x};
    if metadata.Some? {
      assert s.heard[x := metadata.value] - {h} == (s.heard - {h})[x := metadata.value];
      assert r.heard[x := metadata.value] - {h} == (r.heard - {h})[x := metadata.value];
    }
  }

  lemma OthersStepSame(s: State, r: State, h: Link, e: Event)
    requires SameButFor(s, r, h) && e.h != h && Enabled(s, e)
    ensures Enabled(r, e) && SameButFor(Step(s, e), Step(r, e), h)
  {
    SamePhase(s, r, h, e.h);
    match e
    case Start(x) => MoveSame(s, r, h, x, Starting);
    case Check(x) => MoveSame(s, r, h, x, Checked);
    case Mark(x) => MoveSame(s, r, h, x, Marked);
    case Shake(x, metadata) => ShakenSame(s, r, h, x, metadata);
    case Register(x) => MoveSame(s, r, h, x, Registered);
    case Disconnect(x) => MoveSame(s, r, h, x, Leaving);
    case Remove(x) => MoveSame(s, r, h, x, Leaving);
  }

  lemma {:induction false} RunsSame(s: State, r: State, es: seq<Event>, h: Link)
    requires SameButFor(s, r, h) && Possible(s, es) && OnlyChecks(es, h)
    ensures Possible(r, WithoutSteps(es, h)) && SameButFor(Exec(s, es), Exec(r, WithoutSteps(es, h)), h)
    decreases |es|
  {
    if es != [] {
      var e, others := es[0], WithoutSteps(es[1..], h);
      if e.h == h {
        OwnStepSame(s, r, h, e);
        RunsSame(Step(s, e), r, es[1..], h);
        assert WithoutSteps(es, h) == others;
      } else {
        OthersStepSame(s, r, h, e);
        RunsSame(Step(s, e), Step(r, e), es[1..], h);
        assert WithoutSteps(es, h)[1..] == others;
      }
    }
  }

  /** A duplicate that returns early disturbs nothing: a run in which a handler does no more than
      start and check could as well have been without it, and would have ended with the same
      table and every other handler in the same phase, having heard and closed the same. */
  lemma DuplicateDisturbsNothing(s: State, es: seq<Event>, h: Link)
    requires Possible(s, es) && OnlyChecks(es, h)
    ensures Possible(s, WithoutSteps(es, h)) && SameButFor(Exec(s, es), Exec(s, WithoutSteps(es, h)), h)
  {
    RunsSame(s, s, es, h);
  }

  /** A handler returns early exactly when there is an entry, at its check; and it then closes its
      own connection only. */
  lemma ReturnsEarly(s: State, h: Link)
    requires Enabled(s, Check(h))
    ensures var r := Step(s, Check(h));
            && r.links == s.links && r.writer == s.writer && r.heard == s.heard
            && (forall other | other != h :: (other in r.phase <==> other in s.phase) && PhaseOf(r, other) == PhaseOf(s, other))
            && (r.phase[h] == Finished <==> h.info in s.links)
            && r.closed == if h.info in s.links then s.closed + {h} else s.closed
  {
  }

  // ---- how many handlers for one link --------------------------------------------

  /** Past the check and not yet finished. */
  predicate Busy(p: Phase) {
    p == Checked || Active(p)
  }

  ghost predicate AtMostOne(s: State) {
    forall h, h' | h in s.phase && h' in s.phase && Busy(s.phase[h]) && Busy(s.phase[h']) && h.info == h'.info :: h == h'
  }

  ghost predicate AlwaysAtMostOne(s: State, es: seq<Event>)
    decreases |es|
  {
    AtMostOne(s) && (es != [] ==> AlwaysAtMostOne(Step(s, es[0]), es[1..]))
  }

  /** Another handler for the same link is between its check and its mark. */
  ghost predicate InGap(s: State, info: LinkInfo) {
    exists h :: h in s.phase && s.phase[h] == Checked && h.info == info
  }

  /** No handler passes the check while another for the same link is between check and mark. */
  ghost predicate NoRace(s: State, es: seq<Event>)
    decreases |es|
  {
    es != [] ==>
      && (es[0].Check? && es[0].h.info !in s.links ==> !InGap(s, es[0].h.info))
      && NoRace(Step(s, es[0]), es[1..])
  }

  /** As long as there has been no race, a busy handler past its mark has its entry. */
  ghost predicate Owned(s: State) {
    forall h | h in s.phase && Active(s.phase[h]) ::
      h.info in s.links && (s.phase[h] == Registered ==> s.links[h.info] == Some(h))
  }

  lemma NoRaceMove(s: State, r: State, h: Link, p: Phase)
    requires AtMostOne(s) && Owned(s) && r.phase == s.phase[h := p] && r.links == s.links
    requires (!Busy(PhaseOf(s, h)) && Busy(p)) ==> p == Checked && h.info !in s.links && !InGap(s, h.info)
    requires (Active(p) ==> Active(PhaseOf(s, h))) && (p == Registered ==> PhaseOf(s, h) == Registered)
    ensures AtMostOne(r) && Owned(r)
  {
  }

  lemma NoRaceWrite(s: State, e: Event)
    requires AtMostOne(s) && Owned(s) && Enabled(s, e) && (e.Mark? || e.Register?)
    ensures AtMostOne(Step(s, e)) && Owned(Step(s, e))
  {
  }

  lemma NoRaceRemove(s: State, h: Link)
    requires AtMostOne(s) && Owned(s) && Enabled(s, Remove(h))
    ensures AtMostOne(Step(s, Remove(h))) && Owned(Step(s, Remove(h)))
  {
  }

  lemma NoRaceStep(s: State, e: Event)
    requires AtMostOne(s) && Owned(s) && Enabled(s, e)
    requires e.Check? && e.h.info !in s.links ==> !InGap(s, e.h.info)
    ensures AtMostOne(Step(s, e)) && Owned(Step(s, e))
  {
    if e.Mark? || e.Register? {
      NoRaceWrite(s, e);
    } else if e.Remove? {
      NoRaceRemove(s, e.h);
    } else {
      if e.Shake? { ShakenFacts(s, e.h, e.metadata); }
      NoRaceMove(s, Step(s, e), e.h, Step(s, e).phase[e.h]);
    }
  }

  lemma {:induction false} NoRaceRun(s: State, es: seq<Event>)
    requires AtMostOne(s) && Owned(s) && Possible(s, es)
    ensures NoRace(s, es) <==> AlwaysAtMostOne(s, es)
    ensures NoRace(s, es) ==> Owned(Exec(s, es))
    decreases |es|
  {
    if es != [] {
      var e := es[0];
      var next := Step(s, e);
      if e.Check? && e.h.info !in s.links && InGap(s, e.h.info) {
        var h :| h in s.phase && s.phase[h] == Checked && h.info == e.h.info;
        assert next.phase[h] == Checked == next.phase[e.h] && h != e.h;
        assert !AtMostOne(next);
      } else {
        NoRaceStep(s, e);
        NoRaceRun(next, es[1..]);
      }
    }
  }

  /** There is never more than one handler at work for a link exactly when no handler passes its
      check while another is between check and mark; and then every registered link is in the
      table. */
  lemma OneHandlerPerLink(es: seq<Event>)
    requires Possible(EMPTY, es)
    ensures NoRace(EMPTY, es) <==> AlwaysAtMostOne(EMPTY, es)
    ensures NoRace(EMPTY, es) ==>
              forall h | h in Exec(EMPTY, es).phase && Exec(EMPTY, es).phase[h] == Registered ::
                h.info in Exec(EMPTY, es).links && Exec(EMPTY, es).links[h.info] == Some(h)
  {
    NoRaceRun(EMPTY, es);
  }

  // ---- when a registered link is in the table ------------------------------------

  ghost predicate Listed(s: State, h: Link) {
    h.info in s.links && s.links[h.info] == Some(h)
  }

  /** The step writes or removes the entry of h, and is another handler's. */
  predicate Touches(e: Event, h: Link) {
    e.h != h && e.h.info == h.info && (e.Mark? || e.Register? || e.Remove?)
  }

  ghost predicate Untouched(es: seq<Event>, h: Link) {
    forall e | e in es :: !Touches(e, h)
  }

  lemma ListedStep(s: State, e: Event, h: Link)
    requires e.h != h
    ensures Listed(Step(s, e), h) <==> Listed(s, h) && !Touches(e, h)
  {
    if e.Shake? { ShakenFacts(s, e.h, e.metadata); }
  }

  lemma {:induction false} NeverRegisteredAgain(s: State, es: seq<Event>, h: Link)
    requires Possible(s, es) && h in s.phase && (s.phase[h] == Leaving || s.phase[h] == Finished)
    ensures PhaseOf(Exec(s, es), h) != Registered
    decreases |es|
  {
    if es != [] {
      if es[0].h != h { OthersKeepPhase(s, es[0], h); }
      NeverRegisteredAgain(Step(s, es[0]), es[1..], h);
    }
  }

  /** Through any run that leaves a handler registered, its link is in the table at the end if and
      only if it was at the start and no other handler for the link has marked, registered or
      removed an entry. */
  lemma {:induction false} StaysListed(s: State, es: seq<Event>, h: Link)
    requires Possible(s, es) && PhaseOf(s, h) == Registered && PhaseOf(Exec(s, es), h) == Registered
    ensures Listed(Exec(s, es), h) <==> Listed(s, h) && Untouched(es, h)
    decreases |es|
  {
    if es != [] {
      var next := Step(s, es[0]);
      if es[0].h == h {
        NeverRegisteredAgain(next, es[1..], h);
      } else {
        OthersKeepPhase(s, es[0], h);
        ListedStep(s, es[0], h);
        StaysListed(next, es[1..], h);
        UntouchedFirst(es, h);
      }
    }
  }

  lemma UntouchedFirst(es: seq<Event>, h: Link)
    requires es != []
    ensures Untouched(es, h) <==> !Touches(es[0], h) && Untouched(es[1..], h)
  {
    assert forall e | e in es :: e == es[0] || e in es[1..];
  }

  lemma {:induction false} ExecAppend(s: State, es: seq<Event>, more: seq<Event>)
    ensures Exec(s, es + more) == Exec(Exec(s, es), more)
    ensures Possible(s, es + more) <==> Possible(s, es) && Possible(Exec(s, es), more)
    decreases |es|
  {
    if es == [] {
      assert es + more == more;
    } else {
      assert (es + more)[1..] == es[1..] + more;
      ExecAppend(Step(s, es[0]), es[1..], more);
    }
  }

  lemma {:induction false} HasRegistered(es: seq<Event>, h: Link)
    requires Possible(EMPTY, es) && PhaseOf(Exec(EMPTY, es), h) == Registered
    ensures Register(h) in es
    decreases |es|
  {
    if es != [] {
      var n := |es| - 1;
      assert es == es[..n] + [es[n]];
      Snoc(EMPTY, es[..n], es[n]);
      if es[n].h != h {
        OthersKeepPhase(Exec(EMPTY, es[..n]), es[n], h);
        HasRegistered(es[..n], h);
      } else if es[n].Shake? {
        ShakenFacts(Exec(EMPTY, es[..n]), h, es[n].metadata);
      }
    }
  }

  /** In every run, a link that is registered has been registered in step j, and is in the table
      if and only if no other handler for it has marked, registered or removed an entry since. */
  lemma RegisteredIsListed(es: seq<Event>, h: Link) returns (j: nat)
    requires Possible(EMPTY, es) && PhaseOf(Exec(EMPTY, es), h) == Registered
    ensures j < |es| && es[j] == Register(h)
    ensures Listed(Exec(EMPTY, es), h) <==> Untouched(es[j + 1..], h)
  {
    HasRegistered(es, h);
    j :| 0 <= j < |es| && es[j] == Register(h);
    assert es == es[..j] + [Register(h)] + es[j + 1..];
    ExecAppend(EMPTY, es[..j] + [Register(h)], es[j + 1..]);
    Snoc(EMPTY, es[..j], Register(h));
    StaysListed(Exec(EMPTY, es[..j] + [Register(h)]), es[j + 1..], h);
  }

  /** Both of two handlers for one link pass the check. */
  lemma BothPass(a: Link, b: Link) returns (es: seq<Event>, s: State)
    requires a != b && a.info == b.info
    ensures Possible(EMPTY, es) && Exec(EMPTY, es) == s && !AtMostOne(s)
    ensures s == State(map[], map[a := Checked, b := Checked], map[], {}, map[])
  {
    es, s := [], EMPTY;
    assert Possible(s, es) && Exec(s, es) == s;
    es, s := Extend(es, s, Start(a));
    es, s := Extend(es, s, Start(b));
    es, s := Extend(es, s, Check(a));
    es, s := Extend(es, s, Check(b));
    assert s.phase == map[a := Checked, b := Checked];
  }

  lemma BothMark(a: Link, b: Link, before: seq<Event>, start: State) returns (es: seq<Event>, s: State)
    requires a != b && a.info == b.info && Possible(EMPTY, before) && Exec(EMPTY, before) == start
    requires start == State(map[], map[a := Checked, b := Checked], map[], {}, map[])
    ensures Possible(EMPTY, es) && Exec(EMPTY, es) == s && before <= es
    ensures s.phase == map[a := Marked, b := Marked] && s.links.Keys == s.writer.Keys == {a.info}
  {
    es, s := Extend(before, start, Mark(a));
    es, s := Extend(es, s, Mark(b));
  }

  lemma BothAccepted(a: Link, b: Link, metadata: seq<Byte>, before: seq<Event>, start: State) returns (es: seq<Event>, s: State)
    requires a != b && a.info == b.info && Verdict(a.terms, metadata) == Verdict(b.terms, metadata) == None
    requires Possible(EMPTY, before) && Exec(EMPTY, before) == start
    requires start.phase == map[a := Marked, b := Marked] && start.links.Keys == start.writer.Keys == {a.info}
    ensures Possible(EMPTY, es) && Exec(EMPTY, es) == s && before <= es
    ensures s.phase == map[a := Accepted, b := Accepted] && s.links.Keys == s.writer.Keys == {a.info}
  {
    es, s := Extend(before, start, Shake(a, Some(metadata)));
    es, s := Extend(es, s, Shake(b, Some(metadata)));
  }

  lemma BothRegister(a: Link, b: Link, before: seq<Event>, start: State) returns (es: seq<Event>, s: State)
    requires a != b && a.info == b.info && Possible(EMPTY, before) && Exec(EMPTY, before) == start
    requires start.phase == map[a := Accepted, b := Accepted] && start.links.Keys == start.writer.Keys == {a.info}
    ensures Possible(EMPTY, es) && Exec(EMPTY, es) == s && before <= es
    ensures s.phase == map[a := Registered, b := Registered] && s.links.Keys == s.writer.Keys == {a.info}
  {
    es, s := Extend(before, start, Register(a));
    es, s := Extend(es, s, Register(b));
  }

  lemma FirstLeaves(a: Link, b: Link, before: seq<Event>, start: State) returns (es: seq<Event>, s: State)
    requires a != b && a.info == b.info && Possible(EMPTY, before) && Exec(EMPTY, before) == start
    requires start.phase == map[a := Registered, b := Registered] && start.links.Keys == start.writer.Keys == {a.info}
    ensures Possible(EMPTY, es) && Exec(EMPTY, es) == s && before <= es
    ensures s.phase == map[a := Finished, b := Registered] && s.links == map[]
  {
    es, s := Extend(before, start, Disconnect(a));
    es, s := Extend(es, s, Remove(a));
  }

  /** The race is possible, and it outlives the first handler: that one's removal takes the entry
      of the second, which stays registered without one. */
  lemma RaceLosesLink(a: Link, b: Link, metadata: seq<Byte>) returns (es: seq<Event>)
    requires a != b && a.info == b.info && Accepts(a.terms, metadata) && Accepts(b.terms, metadata)
    ensures Possible(EMPTY, es) && !NoRace(EMPTY, es)
    ensures var s := Exec(EMPTY, es); s.phase == map[a := Finished, b := Registered] && s.links == map[]
  {
    var s, race;
    race, s := BothPass(a, b);
    es, s := BothMark(a, b, race, s);
    es, s := BothAccepted(a, b, metadata, es, s);
    es, s := BothRegister(a, b, es, s);
    es, s := FirstLeaves(a, b, es, s);
    assert es == race + es[|race|..];
    EveryStateAtMostOne(EMPTY, race, es[|race|..]);
    NoRaceRun(EMPTY, es);
  }

  lemma {:induction false} EveryStateAtMostOne(s: State, es: seq<Event>, more: seq<Event>)
    ensures AlwaysAtMostOne(s, es + more) ==> AtMostOne(Exec(s, es))
    decreases |es|
  {
    if es == [] {
      assert es + more == more;
    } else {
      assert (es + more)[1..] == es[1..] + more;
      EveryStateAtMostOne(Step(s, es[0]), es[1..], more);
    }
  }

  lemma Extend(es: seq<Event>, s: State, e: Event) returns (es': seq<Event>, s': State)
    requires Possible(EMPTY, es) && Exec(EMPTY, es) == s && Enabled(s, e)
    ensures es' == es + [e] && Possible(EMPTY, es') && Exec(EMPTY, es') == s' == Step(s, e)
  {
    Snoc(EMPTY, es, e);
    es', s' := es + [e], Step(s, e);
  }

  // ---- the table as it is kept ---------------------------------------------------

  lemma Joined<T>(t: seq<T>, x: seq<T>, y: seq<T>, z: seq<T>)
    ensures t + x + y + z == t + (x + y + z)
  {
  }

  class LinkTable {
    var links: map<LinkInfo, Link?>
    ghost var trace: seq<Event>     // everything that has happened

    /** The table is what the steps so far, each of them possible, have made of it. */
    ghost predicate Valid()
      reads this
    {
      Possible(EMPTY, trace) && Shows(links, Exec(EMPTY, trace).links)
    }

    ghost function Phase(h: Link): Phase
      reads this
    {
      PhaseOf(Exec(EMPTY, trace), h)
    }

    constructor ()
      ensures Valid() && trace == []
    {
      links, trace := map[], [];
    }

    method IsConnectedTo(info: LinkInfo) returns (connected: bool)
      requires Valid()
      ensures connected <==> info in Exec(EMPTY, trace).links
    {
      connected := info in links;
    }

    method CheckFirst(h: Link) returns (connected: bool)
      requires Valid() && Phase(h) == Starting
      modifies `trace
      ensures Valid() && trace == old(trace) + [Check(h)] && connected == (h.info in links)
      ensures Phase(h) == if connected then Finished else Checked
    {
      connected := IsConnectedTo(h.info);
      Snoc(EMPTY, trace, Check(h));
      trace := trace + [Check(h)];
    }

    method MarkInProgress(h: Link)
      requires Valid() && Phase(h) == Checked
      modifies this
      ensures Valid() && trace == old(trace) + [Mark(h)] && links == old(links)[h.info := null] && Phase(h) == Marked
    {
      links := links[h.info := null];
      Snoc(EMPTY, trace, Mark(h));
      trace := trace + [Mark(h)];
    }

    method AddLink(h: Link)
      requires Valid() && Phase(h) == Accepted
      modifies this
      ensures Valid() && trace == old(trace) + [Register(h)] && links == old(links)[h.info := h] && Phase(h) == Registered
    {
      links := links[h.info := h];
      Snoc(EMPTY, trace, Register(h));
      trace := trace + [Register(h)];
    }

    method DeleteEntry(h: Link)
      requires Valid() && Phase(h) == Leaving
      modifies this
      ensures Valid() && trace == old(trace) + [Remove(h)] && links == old(links) - {h.info} && Phase(h) == Finished
    {
      links := links - {h.info};
      Snoc(EMPTY, trace, Remove(h));
      trace := trace + [Remove(h)];
    }

    /** The handshake leaves the table alone. */
    method ShakeHands(h: Link, metadata: Option<seq<Byte>>) returns (key: Option<Key>)
      requires Valid() && Phase(h) == Marked
      modifies `trace
      ensures Valid() && trace == old(trace) + [Shake(h, metadata)]
      ensures key.Some? <==> metadata.Some? && Accepts(h.terms, metadata.value)
      ensures Phase(h) == if key.Some? then Accepted else Leaving
    {
      key := None;
      if metadata.Some? {
        var why;
        key, why := CheckPeer(h.terms, metadata.value);
      }
      Snoc(EMPTY, trace, Shake(h, metadata));
      ShakenFacts(Exec(EMPTY, trace), h, metadata);
      trace := trace + [Shake(h, metadata)];
    }

    ghost method Note(e: Event)
      requires Valid() && Enabled(Exec(EMPTY, trace), e) && (e.Start? || e.Disconnect?)
      modifies `trace
      ensures Valid() && trace == old(trace) + [e] && Phase(e.h) == if e.Start? then Starting else Leaving
    {
      Snoc(EMPTY, trace, e);
      trace := trace + [e];
    }

    method Negotiate(h: Link, metadata: Option<seq<Byte>>) returns (ok: bool)
      requires Valid() && Phase(h) == Checked
      modifies this
      ensures Valid() && trace == old(trace) + [Mark(h), Shake(h, metadata)] && links == old(links)[h.info := null]
      ensures ok <==> metadata.Some? && Accepts(h.terms, metadata.value)
      ensures Phase(h) == if ok then Accepted else Leaving
    {
      MarkInProgress(h);
      var key := ShakeHands(h, metadata);
      ok := key.Some?;
    }

    /** The link is registered until it is disconnected. */
    method RunLink(h: Link)
      requires Valid() && Phase(h) == Accepted
      modifies this
      ensures Valid() && trace == old(trace) + [Register(h), Disconnect(h)]
      ensures links == old(links)[h.info := h] && Phase(h) == Leaving
    {
      AddLink(h);
      Note(Disconnect(h));
    }

    method MayRun(h: Link, ok: bool)
      requires Valid() && Phase(h) == (if ok then Accepted else Leaving) && h.info in links
      modifies this
      ensures Valid() && trace == old(trace) + if ok then [Register(h), Disconnect(h)] else []
      ensures links - {h.info} == old(links) - {h.info} && Phase(h) == Leaving
    {
      if ok {
        RunLink(h);
      } else {
        assert trace + [] == trace;
      }
    }

    /** From the mark on. Whatever happens, the entry is removed. */
    method SetUp(h: Link, metadata: Option<seq<Byte>>)
      requires Valid() && Phase(h) == Checked
      modifies this
      ensures Valid() && links == old(links) - {h.info} && Phase(h) == Finished
      ensures trace == old(trace) + SetUpRun(h, metadata)
    {
      var ok := Negotiate(h, metadata);
      MayRun(h, ok);
      DeleteEntry(h);
      Joined(old(trace), [Mark(h), Shake(h, metadata)], if ok then [Register(h), Disconnect(h)] else [], [Remove(h)]);
    }

    /** A handler from start to end. Its steps are as listed whatever others do in between; if
        nobody does anything, it leaves the table as it found it. */
    method Handler(h: Link, metadata: Option<seq<Byte>>)
      requires Valid() && h !in Exec(EMPTY, trace).phase
      modifies this
      ensures Valid() && links == old(links) && Phase(h) == Finished
      ensures trace == old(trace) + HandlerRun(h, h.info in old(links), metadata)
    {
      Note(Start(h));
      var connected := CheckFirst(h);
      if connected {
        return;
      }
      SetUp(h, metadata);
    }
  }

  /** The table as it is kept, with null for a link in progress, is the table of a state. */
  ghost predicate Shows(links: map<LinkInfo, Link?>, entries: map<LinkInfo, Option<Link>>) {
    && links.Keys == entries.Keys
    && forall info | info in links :: entries[info] == if links[info] == null then None else Some(links[info])
  }
}
