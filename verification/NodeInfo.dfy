/** Requests for other nodes' information: a callback per key, dropped by a periodic cleanup, and
    this node's own information. Times are in nanoseconds. */
module NodeInfo {
  import opened Bytes

  const SECOND := 1_000_000_000
  const MAX_AGE := 60 * SECOND
  const PERIOD := 30 * SECOND
  const MAX_LENGTH := 16384

  /** ticket numbers the callbacks in the order in which they were registered. */
  datatype Callback = Callback(ticket: nat, created: nat)

  datatype Call = Call(ticket: nat, key: Key, info: seq<Byte>)

  /** issued is a ledger of whom each callback was registered for; cleaned is when the last
      cleanup ran. */
  datatype Table = Table(callbacks: map<Key, Callback>, issued: seq<Key>, calls: seq<Call>, cleaned: nat, now: nat)

  function Init(at: nat): Table {
    Table(map[], [], [], at, at)
  }

  function Add(t: Table, key: Key, at: nat): (r: Table) {
    t.(callbacks := t.callbacks[key := Callback(|t.issued|, at)], issued := t.issued + [key], now := at)
  }

  function Respond(t: Table, key: Key, info: seq<Byte>, at: nat): (r: Table) {
    if key in t.callbacks then
      t.(callbacks := t.callbacks - {key}, calls := t.calls + [Call(t.callbacks[key].ticket, key, info)], now := at)
    else t.(now := at)
  }

  predicate Stale(c: Callback, at: nat) {
    at - c.created > MAX_AGE
  }

  function Clean(t: Table, at: nat): (r: Table) {
    t.(callbacks := map key | key in t.callbacks && !Stale(t.callbacks[key], at) :: t.callbacks[key], cleaned := at, now := at)
  }

  datatype Event = DoAdd(key: Key, at: nat) | DoRespond(key: Key, info: seq<Byte>, at: nat) | DoClean(at: nat)

  function Step(t: Table, e: Event): (r: Table) {
    match e
    case DoAdd(key, at) => Add(t, key, at)
    case DoRespond(key, info, at) => Respond(t, key, info, at)
    case DoClean(at) => Clean(t, at)
  }

  function Exec(t: Table, es: seq<Event>): (r: Table)
    decreases |es|
  {
    if es == [] then t else Exec(Step(t, es[0]), es[1..])
  }

  /** Time does not go back, and no more than gap passes without a cleanup. */
  ghost predicate Timely(t: Table, es: seq<Event>, gap: nat)
    decreases |es|
  {
    es != [] ==> t.now <= es[0].at <= t.cleaned + gap && Timely(Step(t, es[0]), es[1..], gap)
  }

  // ---- invariant -----------------------------------------------------------------

  ghost predicate Fresh(t: Table, key: Key)
    requires key in t.callbacks
  {
    var c := t.callbacks[key];
    c.ticket < |t.issued| && t.issued[c.ticket] == key && c.created <= t.now && t.cleaned <= c.created + MAX_AGE
  }

  ghost predicate Inv(t: Table) {
    && (forall key | key in t.callbacks :: Fresh(t, key))
    && (forall i | 0 <= i < |t.calls| :: t.calls[i].ticket < |t.issued| && t.issued[t.calls[i].ticket] == t.calls[i].key)
    && (forall i, key | 0 <= i < |t.calls| && key in t.callbacks :: t.calls[i].ticket != t.callbacks[key].ticket)
    && (forall i, j | 0 <= i < j < |t.calls| :: t.calls[i].ticket != t.calls[j].ticket)
    && t.cleaned <= t.now
  }

  lemma StepInv(t: Table, e: Event)
    requires Inv(t) && t.now <= e.at
    ensures Inv(Step(t, e))
  {
    var r := Step(t, e);
    forall key | key in r.callbacks ensures Fresh(r, key) {
      assert key in t.callbacks ==> Fresh(t, key);
    }
    forall i, key | 0 <= i < |r.calls| && key in r.callbacks ensures r.calls[i].ticket != r.callbacks[key].ticket {
      if e.DoRespond? && key in t.callbacks && e.key in t.callbacks { assert Fresh(t, key) && Fresh(t, e.key); }
    }
  }

  lemma {:induction false} RunInv(t: Table, es: seq<Event>, gap: nat)
    requires Inv(t) && Timely(t, es, gap)
    ensures Inv(Exec(t, es))
    ensures Exec(t, es).now <= Exec(t, es).cleaned + gap || es == []
    decreases |es|
  {
    if es != [] {
      var next := Step(t, es[0]);
      StepInv(t, es[0]);
      RunInv(next, es[1..], gap);
    }
  }

  // ---- theorems ------------------------------------------------------------------

  /** However late cleanups run, no callback is older than a minute and the time since the last
      one; so with one every 30 seconds, none is older than 90 seconds. */
  lemma AgeBound(start: nat, es: seq<Event>, gap: nat, t: Table, key: Key)
    requires Timely(Init(start), es, gap) && t == Exec(Init(start), es) && key in t.callbacks
    ensures t.now - t.callbacks[key].created <= MAX_AGE + gap
    ensures gap == PERIOD ==> t.now - t.callbacks[key].created <= 90 * SECOND
  {
    RunInv(Init(start), es, gap);
    assert Fresh(t, key);
  }

  /** Ninety seconds are possible. */
  lemma AgeBoundReached(key: Key, info: seq<Byte>)
    ensures var es := [DoClean(30 * SECOND), DoAdd(key, 30 * SECOND), DoClean(60 * SECOND), DoClean(90 * SECOND), DoRespond(key, info, 120 * SECOND)];
            Timely(Init(0), es, PERIOD) && Exec(Init(0), es).calls == [Call(0, key, info)]
  {
    var e1, e2, e3, e4, e5 := DoClean(30 * SECOND), DoAdd(key, 30 * SECOND), DoClean(60 * SECOND), DoClean(90 * SECOND), DoRespond(key, info, 120 * SECOND);
    var s1 := Step(Init(0), e1);
    var s2 := Step(s1, e2);
    var s3 := Step(s2, e3);
    var s4 := Step(s3, e4);
    var s5 := Step(s4, e5);
    assert s4.callbacks[key] == Callback(0, 30 * SECOND);
    assert [e1, e2, e3, e4, e5][1..] == [e2, e3, e4, e5];
    assert [e2, e3, e4, e5][1..] == [e3, e4, e5];
    assert [e3, e4, e5][1..] == [e4, e5];
    assert [e4, e5][1..] == [e5];
    assert [e5][1..] == [];
    assert Exec(s5, []) == s5 && Timely(s5, [], PERIOD);
    assert Exec(s4, [e5]) == s5 && Timely(s4, [e5], PERIOD);
    assert Exec(s3, [e4, e5]) == s5 && Timely(s3, [e4, e5], PERIOD);
    assert Exec(s2, [e3, e4, e5]) == s5 && Timely(s2, [e3, e4, e5], PERIOD);
  }

  /** In every run a callback is invoked at most once, with what the key it waits for sent. */
  lemma CalledAtMostOnce(start: nat, es: seq<Event>, gap: nat, t: Table, i: nat, j: nat)
    requires Timely(Init(start), es, gap) && t == Exec(Init(start), es) && i < |t.calls| && j < |t.calls|
    ensures t.calls[i].ticket < |t.issued| && t.issued[t.calls[i].ticket] == t.calls[i].key
    ensures t.calls[i].ticket == t.calls[j].ticket ==> i == j
  {
    RunInv(Init(start), es, gap);
  }

  /** A new callback is the one its key has from then on, whatever it had before; no other key's
      changes, and none is invoked. */
  lemma NewCallbackIsKept(t: Table, key: Key, at: nat)
    ensures var r := Step(t, DoAdd(key, at));
            && key in r.callbacks && r.callbacks[key] == Callback(|t.issued|, at) && r.issued == t.issued + [key]
            && (forall k | k != key :: (k in r.callbacks <==> k in t.callbacks) && (k in t.callbacks ==> r.callbacks[k] == t.callbacks[k]))
            && r.calls == t.calls
  {
  }

  /** Nothing has ended a callback: no newer one and no answer for its key, and no cleanup more
      than a minute after it was added. */
  ghost predicate LeftAlone(es: seq<Event>, key: Key, added: nat) {
    forall e | e in es :: if e.DoClean? then e.at <= added + 60 * SECOND else e.key != key
  }

  lemma {:induction false} StaysKept(t: Table, es: seq<Event>, key: Key, c: Callback)
    requires key in t.callbacks && t.callbacks[key] == c && LeftAlone(es, key, c.created)
    ensures key in Exec(t, es).callbacks && Exec(t, es).callbacks[key] == c
    decreases |es|
  {
    if es != [] {
      assert es[0] in es;
      StaysKept(Step(t, es[0]), es[1..], key, c);
    }
  }

  /** An answer invokes the callback added last for its key, with what was sent, unless that has
      ended in between; and not again. */
  lemma LastCallbackIsCalled(t: Table, key: Key, added: nat, es: seq<Event>, info: seq<Byte>, at: nat)
    requires LeftAlone(es, key, added)
    ensures var before := Exec(Step(t, DoAdd(key, added)), es);
            var r := Step(before, DoRespond(key, info, at));
            r.calls == before.calls + [Call(|t.issued|, key, info)] && r.callbacks == before.callbacks - {key}
  {
    StaysKept(Step(t, DoAdd(key, added)), es, key, Callback(|t.issued|, added));
  }

  /** A cleanup removes what is older than a minute, and nothing else. */
  lemma CleanupMeans(t: Table, at: nat, key: Key)
    ensures var r := Step(t, DoClean(at));
            && (key in r.callbacks <==> key in t.callbacks && at - t.callbacks[key].created <= 60 * SECOND)
            && (key in r.callbacks ==> r.callbacks[key] == t.callbacks[key])
            && r.calls == t.calls && r.issued == t.issued
  {
  }

  // ---- as it is kept -------------------------------------------------------------

  class NodeInfoHandler {
    var myNodeInfo: seq<Byte>
    var callbacks: map<Key, Callback>
    var calls: seq<Call>
    ghost var view: Table

    ghost predicate Valid()
      reads this
    {
      callbacks == view.callbacks && calls == view.calls && |myNodeInfo| <= MAX_LENGTH
    }

    constructor (at: nat)
      ensures Valid() && view == Init(at)
    {
      myNodeInfo, callbacks, calls, view := [], map[], [], Init(at);
    }

    method Cleanup(at: nat)
      requires Valid()
      modifies this
      ensures Valid() && view == Clean(old(view), at) && myNodeInfo == old(myNodeInfo)
    {
      var todo := callbacks.Keys;
      while todo != {}
        invariant todo <= old(callbacks).Keys
        invariant callbacks.Keys == set key | key in old(callbacks) && (key in todo || !Stale(old(callbacks)[key], at))
        invariant forall key | key in callbacks :: callbacks[key] == old(callbacks)[key]
        invariant calls == old(calls) && view == old(view) && myNodeInfo == old(myNodeInfo)
        decreases |todo|
      {
        var key :| key in todo;
        todo := todo - {key};
        if at - callbacks[key].created > MAX_AGE {
          callbacks := callbacks - {key};
        }
      }
      view := Clean(view, at);
      assert callbacks.Keys == view.callbacks.Keys;
    }

    /** ticket is the number the ledger gives the callback. */
    method AddCallback(sender: Key, at: nat, ticket: nat)
      requires Valid() && ticket == |view.issued|
      modifies this
      ensures Valid() && view == Add(old(view), sender, at) && myNodeInfo == old(myNodeInfo)
      ensures callbacks == old(callbacks)[sender := Callback(ticket, at)] && calls == old(calls)
    {
      callbacks := callbacks[sender := Callback(ticket, at)];
      view := Add(view, sender, at);
    }

    method RunCallback(sender: Key, info: seq<Byte>, ghost at: nat)
      requires Valid()
      modifies this
      ensures Valid() && view == Respond(old(view), sender, info, at) && myNodeInfo == old(myNodeInfo)
      ensures callbacks == old(callbacks) - {sender}
      ensures calls == old(calls) + if sender in old(callbacks) then [Call(old(callbacks)[sender].ticket, sender, info)] else []
    {
      if sender in callbacks {
        calls := calls + [Call(callbacks[sender].ticket, sender, info)];
        callbacks := callbacks - {sender};
      }
      view := Respond(view, sender, info, at);
    }

    /** json is the encoded information, or None if it cannot be encoded. What is stored is never
        longer than 16384 bytes, and is kept if the new information is refused. */
    method SetNodeInfo(json: Option<seq<Byte>>) returns (ok: bool)
      requires Valid()
      modifies this`myNodeInfo
      ensures Valid()
      ensures ok <==> json.Some? && |json.value| <= 16384
      ensures myNodeInfo == if ok then json.value else old(myNodeInfo)
    {
      if json == None {
        return false;
      }
      if |json.value| > MAX_LENGTH {
        return false;
      }
      myNodeInfo := json.value;
      ok := true;
    }
  }
}
