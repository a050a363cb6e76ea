/** A table of outstanding requests, one per key. A request is answered, replaced by a newer one
    for its key, or removed by its timer; the handler keeps one such table for each of its three
    kinds of request. One step is one message of the actor. */
module Requests {
  import opened Bytes

  /** An outstanding request. Each has a timer of its own, whose callback captures it. */
  class ReqInfo {
    const callback: nat

    constructor (callback: nat)
      ensures this.callback == callback
    {
      this.callback := callback;
    }
  }

  /** One invocation of a request's callback. */
  datatype Call = Call(info: ReqInfo, key: Key, data: seq<Byte>)

  datatype Fate = Open | Answered(call: nat) | Superseded | TimedOut

  /** keyOf and fate are a ledger of every request ever made; pending holds those whose timer may
      still fire. Stopping a timer that has fired does not take back the message it has sent to
      the actor, so a request only leaves pending when that message is dealt with. */
  datatype Table = Table(requests: map<Key, ReqInfo>, pending: set<ReqInfo>, keyOf: map<ReqInfo, Key>, fate: map<ReqInfo, Fate>, calls: seq<Call>)

  const EMPTY := Table(map[], {}, map[], map[], [])

  function Register(t: Table, key: Key, info: ReqInfo): (r: Table) {
    var fate := if key in t.requests then t.fate[t.requests[key] := Superseded] else t.fate;
    Table(t.requests[key := info], t.pending + {info}, t.keyOf[info := key], fate[info := Open], t.calls)
  }

  function Answer(t: Table, key: Key, data: seq<Byte>): (r: Table) {
    if key in t.requests then
      var info := t.requests[key];
      t.(requests := t.requests - {key}, fate := t.fate[info := Answered(|t.calls|)], calls := t.calls + [Call(info, key, data)])
    else t
  }

  function Expire(t: Table, key: Key, info: ReqInfo): (r: Table) {
    if key in t.requests && t.requests[key] == info then
      t.(requests := t.requests - {key}, pending := t.pending - {info}, fate := t.fate[info := TimedOut])
    else t.(pending := t.pending - {info})
  }

  datatype Event = DoRegister(key: Key, info: ReqInfo) | DoAnswer(key: Key, data: seq<Byte>) | DoExpire(key: Key, info: ReqInfo)

  function Step(t: Table, e: Event): (r: Table) {
    match e
    case DoRegister(key, info) => Register(t, key, info)
    case DoAnswer(key, data) => Answer(t, key, data)
    case DoExpire(key, info) => Expire(t, key, info)
  }

  /** Every request is a new object, and a timer fires for the key and request it captured. */
  ghost predicate Enabled(t: Table, e: Event) {
    match e
    case DoRegister(_, info) => info !in t.keyOf
    case DoAnswer(_, _) => true
    case DoExpire(key, info) => info in t.pending && info in t.keyOf && t.keyOf[info] == key
  }

  function Exec(t: Table, es: seq<Event>): (r: Table)
    decreases |es|
  {
    if es == [] then t else Exec(Step(t, es[0]), es[1..])
  }

  ghost predicate Possible(t: Table, es: seq<Event>)
    decreases |es|
  {
    es != [] ==> Enabled(t, es[0]) && Possible(Step(t, es[0]), es[1..])
  }

  // ---- invariant -----------------------------------------------------------------

  ghost predicate EntryOk(t: Table, key: Key)
    requires key in t.requests
  {
    var info := t.requests[key];
    info in t.keyOf && t.keyOf[info] == key && info in t.fate && t.fate[info] == Open && info in t.pending
  }

  /** What is said of a request is so. */
  ghost predicate FateOk(t: Table, info: ReqInfo)
    requires info in t.fate && info in t.keyOf
  {
    match t.fate[info]
    case Open => t.keyOf[info] in t.requests && t.requests[t.keyOf[info]] == info
    case Answered(i) => i < |t.calls| && t.calls[i].info == info
    case _ => true
  }

  ghost predicate CallOk(t: Table, i: nat)
    requires i < |t.calls|
  {
    var c := t.calls[i];
    c.info in t.keyOf && t.keyOf[c.info] == c.key && c.info in t.fate && t.fate[c.info] == Answered(i)
  }

  ghost predicate Inv(t: Table) {
    && t.fate.Keys == t.keyOf.Keys
    && (forall key | key in t.requests :: EntryOk(t, key))
    && (forall info | info in t.fate :: FateOk(t, info))
    && (forall i | 0 <= i < |t.calls| :: CallOk(t, i))
  }

  lemma RegisterInv(t: Table, key: Key, info: ReqInfo)
    requires Inv(t) && info !in t.keyOf
    ensures Inv(Register(t, key, info))
  {
    var r := Register(t, key, info);
    assert key in t.requests ==> EntryOk(t, key);
    forall k | k in r.requests ensures EntryOk(r, k) { assert k != key ==> EntryOk(t, k); }
    forall x | x in r.fate ensures FateOk(r, x) { assert x in t.fate ==> FateOk(t, x); }
    forall i | 0 <= i < |r.calls| ensures CallOk(r, i) { assert CallOk(t, i); }
  }

  lemma AnswerInv(t: Table, key: Key, data: seq<Byte>)
    requires Inv(t)
    ensures Inv(Answer(t, key, data))
  {
    var r := Answer(t, key, data);
    if key in t.requests {
      assert EntryOk(t, key);
      forall k | k in r.requests ensures EntryOk(r, k) { assert EntryOk(t, k); }
      forall x | x in r.fate ensures FateOk(r, x) { assert FateOk(t, x); }
      forall i | 0 <= i < |r.calls| ensures CallOk(r, i) { assert i < |t.calls| ==> CallOk(t, i); }
    }
  }

  lemma ExpireInv(t: Table, key: Key, info: ReqInfo)
    requires Inv(t) && info in t.keyOf && t.keyOf[info] == key
    ensures Inv(Expire(t, key, info))
  {
    var r := Expire(t, key, info);
    forall k | k in r.requests ensures EntryOk(r, k) { assert EntryOk(t, k); }
    forall x | x in r.fate ensures FateOk(r, x) { assert FateOk(t, x); }
    forall i | 0 <= i < |r.calls| ensures CallOk(r, i) { assert CallOk(t, i); }
  }

  lemma StepInv(t: Table, e: Event)
    requires Inv(t) && Enabled(t, e)
    ensures Inv(Step(t, e))
  {
    match e
    case DoRegister(key, info) => RegisterInv(t, key, info);
    case DoAnswer(key, data) => AnswerInv(t, key, data);
    case DoExpire(key, info) => ExpireInv(t, key, info);
  }

  lemma {:induction false} RunInv(t: Table, es: seq<Event>)
    requires Inv(t) && Possible(t, es)
    ensures Inv(Exec(t, es))
    decreases |es|
  {
    if es != [] {
      StepInv(t, es[0]);
      RunInv(Step(t, es[0]), es[1..]);
    }
  }

  // ---- theorems ------------------------------------------------------------------

  /** In every run a callback is invoked at most once, and for the key it was registered for. */
  lemma CalledAtMostOnce(t: Table, es: seq<Event>, i: nat, j: nat)
    requires Possible(EMPTY, es) && t == Exec(EMPTY, es) && i < |t.calls| && j < |t.calls|
    ensures t.calls[i].info in t.keyOf && t.keyOf[t.calls[i].info] == t.calls[i].key
    ensures t.calls[i].info == t.calls[j].info ==> i == j
  {
    RunInv(EMPTY, es);
    assert CallOk(t, i) && CallOk(t, j);
  }

  /** A new request is the open one for its key from then on; the one that was open before, if
      any, is superseded; and nothing else changes. */
  lemma NewRequestIsOpen(t: Table, key: Key, info: ReqInfo)
    requires Inv(t) && info !in t.keyOf
    ensures var r := Step(t, DoRegister(key, info));
            && key in r.requests && r.requests[key] == info
            && info in r.keyOf && r.keyOf[info] == key && r.fate[info] == Open && info in r.pending
            && (key in t.requests ==> t.requests[key] in r.fate && r.fate[t.requests[key]] == Superseded)
            && (forall k | k != key :: (k in r.requests <==> k in t.requests) && (k in t.requests ==> r.requests[k] == t.requests[k]))
            && (forall x | x in t.fate && !(key in t.requests && t.requests[key] == x) :: x in r.fate && r.fate[x] == t.fate[x])
            && r.calls == t.calls
  {
    if key in t.requests { assert EntryOk(t, key); }
  }

  /** Nothing has ended the request: no newer request and no response for its key, and not its own
      timer. */
  ghost predicate LeftAlone(es: seq<Event>, key: Key, info: ReqInfo) {
    forall e | e in es :: e.key == key ==> e.DoExpire? && e.info != info
  }

  lemma {:induction false} StaysOpen(t: Table, es: seq<Event>, key: Key, info: ReqInfo)
    requires key in t.requests && t.requests[key] == info && LeftAlone(es, key, info)
    ensures key in Exec(t, es).requests && Exec(t, es).requests[key] == info
    decreases |es|
  {
    if es != [] {
      assert es[0] in es;
      StaysOpen(Step(t, es[0]), es[1..], key, info);
    }
  }

  /** A response invokes the callback of the last request sent for its key, with the response's
      data, unless that request has been answered or has timed out in between. */
  lemma LastRequestIsAnswered(t: Table, key: Key, info: ReqInfo, es: seq<Event>, data: seq<Byte>)
    requires Inv(t) && info !in t.keyOf && LeftAlone(es, key, info)
    ensures var before := Exec(Step(t, DoRegister(key, info)), es);
            var r := Step(before, DoAnswer(key, data));
            && r.calls == before.calls + [Call(info, key, data)]
            && key !in r.requests && (forall k | k != key && k in before.requests :: k in r.requests && r.requests[k] == before.requests[k])
  {
    StaysOpen(Step(t, DoRegister(key, info)), es, key, info);
  }

  /** Event j of a run is a response from a key with a request open at the time; call i is what
      it makes of it. */
  ghost predicate Causes(t: Table, es: seq<Event>, j: nat, i: nat, c: Call)
    requires j < |es|
  {
    var before := Exec(t, es[..j]);
    && es[j].DoAnswer? && es[j].key in before.requests
    && i == |before.calls| && c == Call(before.requests[es[j].key], es[j].key, es[j].data)
  }

  lemma CausesLater(t: Table, es: seq<Event>, j: nat, i: nat, c: Call)
    requires 0 < |es| && j < |es| - 1
    ensures Causes(Step(t, es[0]), es[1..], j, i, c) == Causes(t, es, j + 1, i, c)
  {
    assert es[..j + 1][0] == es[0] && es[..j + 1][1..] == es[1..][..j];
  }

  /** Over any run, every callback invoked is invoked by one of its responses, from the very key
      the request was open for at the time, with that response's data. */
  lemma {:induction false} CalledOnlyByResponse(t: Table, es: seq<Event>, i: nat)
    requires |t.calls| <= i < |Exec(t, es).calls|
    ensures exists j :: 0 <= j < |es| && Causes(t, es, j, i, Exec(t, es).calls[i])
    decreases |es|
  {
    if es != [] {
      var next, c := Step(t, es[0]), Exec(t, es).calls[i];
      if i < |next.calls| {
        CallStays(next, es[1..], i);
        assert es[..0] == [] && Exec(t, []) == t;
        assert Causes(t, es, 0, i, c);
      } else {
        CalledOnlyByResponse(next, es[1..], i);
        var j :| 0 <= j < |es[1..]| && Causes(next, es[1..], j, i, c);
        CausesLater(t, es, j, i, c);
        assert Causes(t, es, j + 1, i, c);
      }
    }
  }

  /** And every such response invokes one: the call is there at the end of the run. */
  lemma {:induction false} EveryResponseCalls(t: Table, es: seq<Event>, j: nat)
    requires j < |es| && es[j].DoAnswer? && es[j].key in Exec(t, es[..j]).requests
    ensures var i := |Exec(t, es[..j]).calls|;
            i < |Exec(t, es).calls| && Causes(t, es, j, i, Exec(t, es).calls[i])
    decreases |es|
  {
    var next := Step(t, es[0]);
    if j == 0 {
      assert es[..0] == [] && Exec(t, []) == t;
      CallsGrow(next, es[1..]);
      CallStays(next, es[1..], |t.calls|);
    } else {
      assert es[..j][0] == es[0] && es[..j][1..] == es[1..][..j - 1];
      EveryResponseCalls(next, es[1..], j - 1);
      CausesLater(t, es, j - 1, |Exec(t, es[..j]).calls|, Exec(t, es).calls[|Exec(t, es[..j]).calls|]);
    }
  }

  lemma {:induction false} CallsGrow(t: Table, es: seq<Event>)
    ensures |t.calls| <= |Exec(t, es).calls|
    decreases |es|
  {
    if es != [] { CallsGrow(Step(t, es[0]), es[1..]); }
  }

  lemma {:induction false} CallStays(t: Table, es: seq<Event>, i: nat)
    requires i < |Exec(t, es).calls|
    ensures i < |t.calls| ==> Exec(t, es).calls[i] == t.calls[i]
    decreases |es|
  {
    if es != [] { CallStays(Step(t, es[0]), es[1..], i); }
  }

  /** A request that is no longer open stays as it is, whatever comes: its callback is not invoked
      any more. */
  lemma {:induction false} FateIsFinal(t: Table, es: seq<Event>, info: ReqInfo)
    requires Inv(t) && Possible(t, es) && info in t.fate && t.fate[info] != Open
    ensures var r := Exec(t, es);
            && info in r.fate && r.fate[info] == t.fate[info]
            && |t.calls| <= |r.calls| && forall i | |t.calls| <= i < |r.calls| :: r.calls[i].info != info
    decreases |es|
  {
    if es != [] {
      var next := Step(t, es[0]);
      StepInv(t, es[0]);
      assert FateOk(t, info);
      assert forall key | key in t.requests :: EntryOk(t, key) && t.requests[key] != info;
      assert next.fate[info] == t.fate[info];
      FateIsFinal(next, es[1..], info);
      var r := Exec(next, es[1..]);
      forall i | |t.calls| <= i < |r.calls| ensures r.calls[i].info != info { CallStays(next, es[1..], i); }
    }
  }

  /** How one step can change a request's fate: only from open, and only so. */
  lemma HowFatesChange(t: Table, e: Event, info: ReqInfo)
    requires Inv(t) && Enabled(t, e) && info in t.fate
    ensures var r := Step(t, e);
            && info in r.fate
            && (r.fate[info] == t.fate[info] ||
                (t.fate[info] == Open && t.keyOf[info] == e.key &&
                 match r.fate[info]
                 case Open => false
                 case Answered(i) => e.DoAnswer? && i == |t.calls|
                 case Superseded => e.DoRegister?
                 case TimedOut => e.DoExpire? && e.info == info))
  {
    assert FateOk(t, info);
    if e.key in t.requests { assert EntryOk(t, e.key); }
  }

  /** A request's timer removes that request or nothing: a replacement stays. */
  lemma TimerRemovesOnlyItsOwn(t: Table, key: Key, info: ReqInfo)
    requires Inv(t) && info in t.keyOf && t.keyOf[info] == key
    ensures forall k | k in t.requests && t.requests[k] != info ::
              k in Expire(t, key, info).requests && Expire(t, key, info).requests[k] == t.requests[k]
    ensures Expire(t, key, info).requests == t.requests <==> t.fate[info] != Open
  {
    assert FateOk(t, info);
    if key in t.requests {
      assert EntryOk(t, key);
      assert t.requests[key] == info ==> key !in Expire(t, key, info).requests;
    }
  }

  /** Nothing is forgotten: as long as a request is open its timer has still to fire. */
  lemma OpenRequestsTimeOut(t: Table, es: seq<Event>, info: ReqInfo)
    requires Possible(EMPTY, es) && t == Exec(EMPTY, es) && info in t.fate && t.fate[info] == Open
    ensures info in t.pending && info in t.keyOf
    ensures t.keyOf[info] in t.requests && t.keyOf[info] !in Expire(t, t.keyOf[info], info).requests
  {
    RunInv(EMPTY, es);
    assert FateOk(t, info);
    assert EntryOk(t, t.keyOf[info]);
  }

  // ---- the table as it is kept ---------------------------------------------------

  class RequestTable {
    var requests: map<Key, ReqInfo>
    var calls: seq<Call>
    ghost var view: Table

    ghost predicate Valid()
      reads this
    {
      requests == view.requests && calls == view.calls && Inv(view)
    }

    constructor ()
      ensures Valid() && view == EMPTY
    {
      requests, calls, view := map[], [], EMPTY;
    }

    /** A request for the key takes the place of the one before. */
    method Send(key: Key, callback: nat) returns (info: ReqInfo)
      requires Valid()
      modifies this
      ensures Valid() && fresh(info) && info.callback == callback
      ensures view == Register(old(view), key, info) && Enabled(old(view), DoRegister(key, info))
      ensures requests == old(requests)[key := info] && calls == old(calls)
    {
      if key in requests {
        requests := requests - {key};
      }
      info := new ReqInfo(callback);
      requests := requests[key := info];
      RegisterInv(view, key, info);
      view := Register(view, key, info);
    }

    method HandleResponse(key: Key, data: seq<Byte>)
      requires Valid()
      modifies this
      ensures Valid() && view == Answer(old(view), key, data)
      ensures requests == old(requests) - {key}
      ensures calls == old(calls) + if key in old(requests) then [Call(old(requests)[key], key, data)] else []
    {
      if key in requests {
        calls := calls + [Call(requests[key], key, data)];
        requests := requests - {key};
      }
      AnswerInv(view, key, data);
      view := Answer(view, key, data);
    }

    method TimerFired(key: Key, info: ReqInfo)
      requires Valid() && Enabled(view, DoExpire(key, info))
      modifies this
      ensures Valid() && view == Expire(old(view), key, info)
      ensures requests == (if key in old(requests) && old(requests)[key] == info then old(requests) - {key} else old(requests)) && calls == old(calls)
    {
      if key in requests && requests[key] == info {
        requests := requests - {key};
      }
      ExpireInv(view, key, info);
      view := Expire(view, key, info);
    }
  }
}
