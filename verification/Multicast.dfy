/** Multicast discovery: the listeners kept for the interfaces of the moment, and the beacons that
    announce them. */
module Multicast {
  import opened Bytes
  import opened Icmp

  type Index = nat

  /** An address of an interface. */
  datatype IP = IP(bytes: Address, isIPv4: bool, linkLocal: bool)

  predicate Suitable(ip: IP) {
    !ip.isIPv4 && ip.linkLocal
  }

  type LinkLocal = ip: IP | Suitable(ip) witness IP(seq(16, _ => 0), false, true)

  datatype Interface = Interface(addrs: seq<IP>, beacon: bool, listen: bool, port: nat)

  /** A socket that listens on an address of the interface with the given index. */
  class Listener {
    const index: Index
    const ip: LinkLocal
    const port: nat
    var closed: bool

    constructor (index: Index, ip: LinkLocal, port: nat)
      ensures this.index == index && this.ip == ip && this.port == port && !closed
    {
      this.index, this.ip, this.port, closed := index, ip, port, false;
    }

    method Close()
      modifies this
      ensures closed
    {
      closed := true;
    }
  }

  const MAX_INTERVAL := 15

  /** The time until the next beacon, in seconds. */
  type Interval = n: nat | n <= MAX_INTERVAL

  /** Other times are in nanoseconds. */
  class ListenerInfo {
    const listener: Listener
    const started: nat
    var interval: Interval

    constructor (listener: Listener, started: nat)
      ensures this.listener == listener && this.started == started && interval == 0
    {
      this.listener, this.started, interval := listener, started, 0;
    }
  }

  const SECOND := 1_000_000_000

  /** What the system answers during one announcement: whether the address of a listener can be
      resolved, whether a listener can be opened on an address, and the port it then gets. */
  datatype System = System(resolves: IP -> bool, opens: (Index, IP) -> bool, port: (Index, IP) -> nat)

  /** It is time for another beacon. */
  predicate Due(info: ListenerInfo, interval: nat, now: nat) {
    now - info.started >= interval * SECOND
  }

  function Longer(interval: Interval): Interval {
    if interval < MAX_INTERVAL then interval + 1 else interval
  }

  predicate HasAddress(itf: Interface, ip: IP) {
    exists a :: a in itf.addrs && a.bytes == ip.bytes
  }

  /** A listener is kept as long as its interface is there with its address. */
  predicate Stays(sys: System, interfaces: map<Index, Interface>, name: Index, ip: IP) {
    name in interfaces && sys.resolves(ip) && HasAddress(interfaces[name], ip)
  }

  predicate AnySuitable(addrs: seq<IP>) {
    exists a :: a in addrs && Suitable(a)
  }

  predicate AnyOpens(sys: System, name: Index, addrs: seq<IP>) {
    exists a :: a in addrs && Suitable(a) && sys.opens(name, a)
  }

  lemma OneMoreAddress(sys: System, name: Index, addrs: seq<IP>, i: nat)
    requires i < |addrs|
    ensures AnySuitable(addrs[..i + 1]) <==> AnySuitable(addrs[..i]) || Suitable(addrs[i])
    ensures AnyOpens(sys, name, addrs[..i + 1]) <==> AnyOpens(sys, name, addrs[..i]) || (Suitable(addrs[i]) && sys.opens(name, addrs[i]))
  {
    assert addrs[..i + 1] == addrs[..i] + [addrs[i]];
  }

  lemma SomeAddresses(sys: System, name: Index, addrs: seq<IP>, i: nat)
    requires i <= |addrs|
    ensures AnySuitable(addrs[..i]) ==> AnySuitable(addrs)
    ensures AnyOpens(sys, name, addrs[..i]) ==> AnyOpens(sys, name, addrs)
    ensures i == |addrs| ==> addrs[..i] == addrs
  {
  }

  /** Beacons for the interface's listener go out on it. */
  predicate Announces(itf: Interface) {
    itf.beacon && AnySuitable(itf.addrs)
  }

  /** A listener can be opened for the interface. */
  predicate CanListen(sys: System, name: Index, itf: Interface) {
    itf.beacon && AnyOpens(sys, name, itf.addrs)
  }

  // ---- beacons -------------------------------------------------------------------

  datatype Beacon = Beacon(key: Key, ip: seq<Byte>, port: nat)

  function BeaconBytes(b: Beacon): (bs: seq<Byte>) {
    b.key + b.ip + [Low(b.port / 256), Low(b.port)]
  }

  method WriteBeacon(b: Beacon) returns (msg: seq<Byte>)
    requires b.port < 0x1_0000
    ensures Heard(msg) == if b.ip == [] then None else Some(b)
  {
    msg := [];
    msg := msg + b.key;
    msg := msg + b.ip;
    var pbs := [Low(b.port / 256), Low(b.port)];
    msg := msg + pbs;
    assert msg == BeaconBytes(b);
    BeaconHeard(b);
  }

  /** Two bytes, the higher one first. */
  function PortOf(hi: Byte, lo: Byte): (port: nat) {
    hi as int * 256 + lo as int
  }

  lemma PortValue(hi: Byte, lo: Byte, h: nat, l: nat)
    requires hi as int == h && lo as int == l
    ensures PortOf(hi, lo) == h * 256 + l
  {
  }

  lemma PortReads(port: nat)
    requires port < 0x1_0000
    ensures PortOf(Low(port / 256), Low(port)) == port
  {
    LowValue(port);
    LowValue(port / 256);
    PortValue(Low(port / 256), Low(port), port / 256, port % 256);
  }

  /** What a listener makes of a datagram, if anything. */
  function Heard(bs: seq<Byte>): (b: Option<Beacon>) {
    if |bs| < 32 then None
    else if |bs| - 2 <= 32 then None
    else Some(Beacon(bs[..32], bs[32..|bs| - 2], PortOf(bs[|bs| - 2], bs[|bs| - 1])))
  }

  lemma BeaconParts(key: Key, ip: seq<Byte>, hi: Byte, lo: Byte)
    ensures var bs := key + ip + [hi, lo];
            |bs| == 34 + |ip| && bs[..32] == key && bs[32..|bs| - 2] == ip && bs[|bs| - 2] == hi && bs[|bs| - 1] == lo
  {
  }

  /** A beacon is heard as it was sent, unless it has no address. */
  lemma BeaconHeard(b: Beacon)
    requires b.port < 0x1_0000
    ensures Heard(BeaconBytes(b)) == if b.ip == [] then None else Some(b)
  {
    BeaconParts(b.key, b.ip, Low(b.port / 256), Low(b.port));
    PortReads(b.port);
  }

  lemma Digits(h: nat, l: nat)
    requires h < 256 && l < 256
    ensures (h * 256 + l) / 256 % 256 == h && (h * 256 + l) % 256 == l
  {
  }

  lemma PortDigits(h: nat, l: nat, port: nat)
    requires h < 256 && l < 256 && port == h * 256 + l
    ensures Low(port / 256) == Counter(h) && Low(port) == Counter(l)
  {
    Digits(h, l);
  }

  lemma PortBytes(hi: Byte, lo: Byte, h: nat, l: nat)
    requires h == hi as int && l == lo as int
    ensures Counter(h) == hi && Counter(l) == lo
  {
    CounterOf(hi);
    CounterOf(lo);
  }

  /** Nothing else is heard: what is heard is what its sender announced. */
  lemma OnlyBeaconsHeard(bs: seq<Byte>)
    ensures Heard(bs).Some? <==> |bs| >= 35
    ensures Heard(bs).Some? ==> BeaconBytes(Heard(bs).value) == bs
    ensures Heard(bs).Some? ==>
              var n := |bs| - 2;
              Heard(bs).value.key == bs[..32] && Heard(bs).value.ip == bs[32..n] && Heard(bs).value.port == bs[n] as int * 256 + bs[n + 1] as int
  {
    if |bs| >= 35 {
      var b, n := Heard(bs).value, |bs| - 2;
      PortBytes(bs[n], bs[n + 1], bs[n] as int, bs[n + 1] as int);
      PortDigits(bs[n] as int, bs[n + 1] as int, b.port);
      assert bs == bs[..32] + bs[32..n] + [bs[n], bs[n + 1]];
    }
  }

  /** Tables are gone through in any order. */
  method AnyOf(names: set<Index>) returns (name: Index)
    requires names != {}
    ensures name in names
  {
    name :| name in names;
  }

  /** A listener's beacon, if its address can be resolved. */
  function BeaconOf(sys: System, key: Key, name: Index, info: ListenerInfo): (sent: seq<(Index, seq<Byte>)>) {
    if sys.resolves(info.listener.ip) then [(name, BeaconBytes(Beacon(key, info.listener.ip.bytes, info.listener.port)))] else []
  }

  /** The listener's beacon is to go out on its interface; a new listener's always is. */
  ghost predicate Beaconed(now: nat, itf: Interface, info: ListenerInfo, before: map<ListenerInfo, Interval>) {
    Announces(itf) && (info in before ==> Due(info, before[info], now))
  }

  /** The beacon that goes out on one interface, if any. */
  ghost function BeaconsOn(sys: System, key: Key, now: nat, interfaces: map<Index, Interface>, name: Index,
                           listeners: map<Index, ListenerInfo>, before: map<ListenerInfo, Interval>): (sent: seq<(Index, seq<Byte>)>)
  {
    if name in interfaces && name in listeners && Beaconed(now, interfaces[name], listeners[name], before)
    then BeaconOf(sys, key, name, listeners[name]) else []
  }

  ghost predicate Advances(now: nat, interfaces: map<Index, Interface>, listeners: map<Index, ListenerInfo>,
                           a: map<ListenerInfo, Interval>, info: ListenerInfo)
  {
    var name := info.listener.index;
    name in interfaces && name in listeners && listeners[name] == info && Beaconed(now, interfaces[name], info, a)
  }

  /** From a to b, of the listeners of the named interfaces, the intervals of those whose beacon
      goes out have become longer, and no others have changed. */
  ghost predicate Advanced(now: nat, interfaces: map<Index, Interface>, listeners: map<Index, ListenerInfo>,
                           a: map<ListenerInfo, Interval>, b: map<ListenerInfo, Interval>, names: set<Index>)
  {
    forall info | info in a ::
      info in b && b[info] == if info.listener.index in names && Advances(now, interfaces, listeners, a, info) then Longer(a[info]) else a[info]
  }

  // ---- announcements -------------------------------------------------------------

  class Multicast {
    const key: Key
    var isOpen: bool
    var listeners: map<Index, ListenerInfo>
    var interfaces: map<Index, Interface>
    var joined: seq<Index>
    var sent: seq<(Index, seq<Byte>)>
    ghost var made: set<Listener>      // every listener ever opened
    ghost var infos: set<ListenerInfo>   // and what has been kept about them

    /** The open listeners are exactly those in the table, each under its own interface. */
    ghost predicate Valid()
      reads `listeners, `made, `infos, made
    {
      && (forall l | l in made :: !l.closed <==> l.index in listeners && listeners[l.index].listener == l)
      && (forall name | name in listeners ::
            listeners[name] in infos && listeners[name].listener in made && listeners[name].listener.index == name)
    }

    constructor (key: Key)
      ensures Valid() && fresh(made) && fresh(infos) && listeners == map[]
    {
      this.key, isOpen, listeners, interfaces, joined, sent := key, true, map[], map[], [], [];
      made, infos := {}, {};
    }

    /** Every listener in the table is for an interface of the moment, on one of its addresses. */
    ghost predicate Current()
      reads `listeners, `interfaces
    {
      forall name | name in listeners :: name in interfaces && HasAddress(interfaces[name], listeners[name].listener.ip)
    }

    method Stop(name: Index)
      requires Valid() && name in listeners
      modifies `listeners, listeners[name].listener
      ensures Valid() && listeners == old(listeners) - {name} && old(listeners)[name].listener.closed
    {
      listeners[name].listener.Close();
      listeners := listeners - {name};
    }

    method FindAddress(itf: Interface, ip: IP) returns (found: bool)
      ensures found <==> HasAddress(itf, ip)
    {
      found := false;
      var i := 0;
      while i < |itf.addrs|
        invariant i <= |itf.addrs| && !found && forall j | 0 <= j < i :: itf.addrs[j].bytes != ip.bytes
      {
        if itf.addrs[i].bytes == ip.bytes {
          found := true;
          break;
        }
        i := i + 1;
      }
    }

    /** Whether one listener is kept. */
    method Review(sys: System, name: Index)
      requires Valid() && name in listeners
      modifies `listeners, listeners[name].listener
      ensures Valid()
      ensures listeners == if Stays(sys, interfaces, name, old(listeners)[name].listener.ip) then old(listeners) else old(listeners) - {name}
    {
      if name !in interfaces {
        Stop(name);
        return;
      }
      if !sys.resolves(listeners[name].listener.ip) {
        Stop(name);
        return;
      }
      var found := FindAddress(interfaces[name], listeners[name].listener.ip);
      if !found {
        Stop(name);
      }
    }

    /** Listeners whose interface or address is gone are closed, and all others kept. */
    method Prune(sys: System)
      requires Valid()
      modifies `listeners, made
      ensures Valid() && Current() && Pruned(sys, interfaces, old(listeners), listeners, {})
    {
      var todo := listeners.Keys;
      while todo != {}
        invariant Valid() && Pruned(sys, interfaces, old(listeners), listeners, todo)
        decreases |todo|
      {
        var name := AnyOf(todo);
        PrunedMore(sys, interfaces, old(listeners), listeners, todo, name);
        todo := todo - {name};
        Review(sys, name);
      }
    }

    /** The listener of an interface: the one there is, or a new one on the given address, if one
        can be opened. */
    method ListenerFor(sys: System, now: nat, name: Index, ip: LinkLocal) returns (info: ListenerInfo?)
      requires Valid()
      modifies `listeners, `made, `infos
      ensures Valid() && old(made) <= made && fresh(made - old(made)) && old(infos) <= infos && fresh(infos - old(infos))
      ensures info != null <==> name in listeners
      ensures info != null ==> listeners[name] == info
      ensures name in old(listeners) ==> listeners == old(listeners)
      ensures name !in old(listeners) && !sys.opens(name, ip) ==> listeners == old(listeners)
      ensures name !in old(listeners) && sys.opens(name, ip) ==>
                info != null && fresh(info) && listeners == old(listeners)[name := info] && info.listener.ip == ip && info.interval == 0 && info.started == now
    {
      info := null;
      if name !in listeners {
        if sys.opens(name, ip) {
          var li := new Listener(name, ip, sys.port(name, ip));
          info := new ListenerInfo(li, now);
          made, infos := made + {li}, infos + {info};
          listeners := listeners[name := info];
        }
      } else {
        info := listeners[name];
      }
    }

    /** A beacon for a listener, and a longer interval until the next. */
    method Announced(sys: System, name: Index, info: ListenerInfo)
      requires Valid() && info in infos
      modifies `sent, info
      ensures Valid() && info.interval == Longer(old(info.interval))
      ensures sent == old(sent) + BeaconOf(sys, key, name, info)
    {
      var listener := info.listener;
      if sys.resolves(listener.ip) {
        sent := sent + [(name, key + listener.ip.bytes + [Low(listener.port / 256), Low(listener.port)])];
      }
      if info.interval < MAX_INTERVAL {
        info.interval := info.interval + 1;
      }
    }

    /** One suitable address of an interface that beacons go out on: is there, or can there be, a
        listener whose beacon is due? If so, one goes out. */
    method TryAddress(sys: System, now: nat, name: Index, ip: LinkLocal) returns (done: bool)
      requires Valid() && Current() && name in interfaces && ip in interfaces[name].addrs
      modifies `listeners, `made, `infos, `sent, infos
      ensures Valid() && Current() && Grown()
      ensures name in old(listeners) || !sys.opens(name, ip) ==> listeners == old(listeners)
      ensures name !in old(listeners) && sys.opens(name, ip) ==>
                name in listeners && listeners == old(listeners)[name := listeners[name]] && listeners[name] !in old(infos)
      ensures done <==> name in listeners && (name in old(listeners) ==> Due(listeners[name], old(listeners[name].interval), now))
      ensures sent == old(sent) + if done then BeaconOf(sys, key, name, listeners[name]) else []
      ensures forall info | info in old(infos) ::
                info.interval == if done && listeners[name] == info then Longer(old(info.interval)) else old(info.interval)
    {
      done := false;
      var info := ListenerFor(sys, now, name, ip);
      if info == null {
        return;
      }
      if now - info.started < info.interval * SECOND {
        return;
      }
      Announced(sys, name, info);
      done := true;
    }

    /** Listeners are added and never forgotten. */
    twostate predicate Grown()
      reads this
    {
      old(made) <= made && fresh(made - old(made)) && old(infos) <= infos && fresh(infos - old(infos))
    }

    /** One address of an interface. An address that is not suitable is passed over; the first
        that is ends the search if the interface sends no beacons. */
    method Consider(sys: System, now: nat, name: Index, ip: IP) returns (done: bool)
      requires Valid() && Current() && name in interfaces && ip in interfaces[name].addrs
      modifies `listeners, `made, `infos, `sent, `joined, infos
      ensures Valid() && Current() && Grown()
      ensures if name !in old(listeners) && interfaces[name].beacon && Suitable(ip) && sys.opens(name, ip)
              then name in listeners && listeners == old(listeners)[name := listeners[name]] && listeners[name] !in old(infos)
              else listeners == old(listeners)
      ensures done <==> Suitable(ip) && (interfaces[name].beacon ==>
                name in listeners && (name in old(listeners) ==> Due(listeners[name], old(listeners[name].interval), now)))
      ensures sent == old(sent) + if done && interfaces[name].beacon then BeaconOf(sys, key, name, listeners[name]) else []
      ensures forall info | info in old(infos) ::
                info.interval == if done && interfaces[name].beacon && listeners[name] == info then Longer(old(info.interval)) else old(info.interval)
    {
      done := false;
      if ip.isIPv4 {
        return;
      }
      if !ip.linkLocal {
        return;
      }
      if interfaces[name].listen {
        joined := joined + [name];
      }
      if !interfaces[name].beacon {
        return true;
      }
      done := TryAddress(sys, now, name, ip);
    }

    ghost function Intervals(): map<ListenerInfo, Interval>
      reads `infos, infos
    {
      map info | info in infos :: info.interval
    }

    /** Since the table was a, the intervals before and the log sent0, the first i addresses of an
        interface have been gone through; done says whether the search has ended. */
    ghost predicate Searched(sys: System, now: nat, name: Index, itf: Interface, a: map<Index, ListenerInfo>, before: map<ListenerInfo, Interval>,
                             sent0: seq<(Index, seq<Byte>)>, i: nat, done: bool)
      requires i <= |itf.addrs|
      reads `listeners, `infos, `sent, infos
    {
      var going := done && itf.beacon;
      && (if name !in a && itf.beacon && AnyOpens(sys, name, itf.addrs[..i])
          then name in listeners && listeners == a[name := listeners[name]] && listeners[name] !in before
          else listeners == a)
      && (itf.beacon ==> done == (AnySuitable(itf.addrs[..i]) && name in listeners &&
                                  (name in a && a[name] in before ==> Due(a[name], before[a[name]], now))))
      && sent == sent0 + (if going then BeaconOf(sys, key, name, listeners[name]) else [])
      && (forall info | info in before ::
            info in infos && info.interval == if going && listeners[name] == info then Longer(before[info]) else before[info])
    }

    method SearchNext(sys: System, now: nat, name: Index, i: nat, ghost a: map<Index, ListenerInfo>, ghost before: map<ListenerInfo, Interval>,
                      ghost sent0: seq<(Index, seq<Byte>)>)
      returns (done: bool)
      requires Valid() && Current() && name in interfaces && i < |interfaces[name].addrs|
      requires Searched(sys, now, name, interfaces[name], a, before, sent0, i, false) && before.Keys <= infos && (name in a ==> a[name] in before)
      modifies `listeners, `made, `infos, `sent, `joined, infos
      ensures Valid() && Current() && Grown()
      ensures Searched(sys, now, name, interfaces[name], a, before, sent0, i + 1, done)
    {
      OneMoreAddress(sys, name, interfaces[name].addrs, i);
      done := Consider(sys, now, name, interfaces[name].addrs[i]);
    }

    /** The addresses of an interface are gone through until a beacon has gone out. */
    method Search(sys: System, now: nat, name: Index) returns (done: bool, ghost i: nat)
      requires Valid() && Current() && name in interfaces
      modifies `listeners, `made, `infos, `sent, `joined, infos
      ensures Valid() && Current() && Grown()
      ensures i <= |interfaces[name].addrs| && (done || i == |interfaces[name].addrs|)
      ensures Searched(sys, now, name, interfaces[name], old(listeners), old(Intervals()), old(sent), i, done)
    {
      var itf, k := interfaces[name], 0;
      done := false;
      while k < |itf.addrs| && !done
        invariant k <= |itf.addrs| && Valid() && Current() && Grown()
        invariant Searched(sys, now, name, itf, old(listeners), old(Intervals()), old(sent), k, done)
      {
        done := SearchNext(sys, now, name, k, old(listeners), old(Intervals()), old(sent));
        k := k + 1;
      }
      i := k;
    }

    /** One interface: on the first suitable address on which there is, or can be, a listener whose
        beacon is due, one goes out. */
    method AnnounceOn(sys: System, now: nat, name: Index)
      requires Valid() && Current() && name in interfaces
      modifies `listeners, `made, `infos, `sent, `joined, infos
      ensures Valid() && Current() && Grown()
      ensures if name !in old(listeners) && CanListen(sys, name, interfaces[name])
              then name in listeners && listeners == old(listeners)[name := listeners[name]] && listeners[name] !in old(infos)
              else listeners == old(listeners)
      ensures sent == old(sent) + BeaconsOn(sys, key, now, interfaces, name, listeners, old(Intervals()))
      ensures Advanced(now, interfaces, listeners, old(Intervals()), Intervals(), {name})
    {
      var done, i := Search(sys, now, name);
      SomeAddresses(sys, name, interfaces[name].addrs, i);
    }

    /** Since the table was a, the intervals before and the log sent0, the interfaces in order have
        been announced on. */
    ghost predicate AnnouncedOn(sys: System, now: nat, a: map<Index, ListenerInfo>, before: map<ListenerInfo, Interval>,
                                sent0: seq<(Index, seq<Byte>)>, order: seq<Index>)
      reads this, infos
    {
      Turns(sys, key, now, interfaces, a, listeners, before, Intervals(), sent0, sent, order)
    }

    /** One interface more. */
    method AnnounceNext(sys: System, now: nat, name: Index, ghost a: map<Index, ListenerInfo>, ghost before: map<ListenerInfo, Interval>,
                        ghost sent0: seq<(Index, seq<Byte>)>, ghost order: seq<Index>)
      requires Valid() && Current() && name in interfaces && name !in order
      requires AnnouncedOn(sys, now, a, before, sent0, order) && forall n | n in a :: a[n] in before
      modifies `listeners, `made, `infos, `sent, `joined, infos
      ensures Valid() && Current() && Grown()
      ensures AnnouncedOn(sys, now, a, before, sent0, order + [name])
    {
      AnnounceOn(sys, now, name);
      OneMoreTurn(sys, key, now, interfaces, a, old(listeners), listeners, before, old(Intervals()), Intervals(), sent0, old(sent), sent, order, name);
    }

    /** The next of the interfaces still to be announced on, which may be any of them. */
    method AnnounceAny(sys: System, now: nat, todo: set<Index>, ghost a: map<Index, ListenerInfo>, ghost before: map<ListenerInfo, Interval>,
                       ghost sent0: seq<(Index, seq<Byte>)>, ghost order: seq<Index>)
      returns (name: Index)
      requires Valid() && Current() && todo != {} && todo <= interfaces.Keys
      requires InTurn(order, interfaces.Keys - todo)
      requires AnnouncedOn(sys, now, a, before, sent0, order) && forall n | n in a :: a[n] in before
      modifies `listeners, `made, `infos, `sent, `joined, infos
      ensures Valid() && Current() && Grown()
      ensures name in todo && InTurn(order + [name], interfaces.Keys - (todo - {name}))
      ensures AnnouncedOn(sys, now, a, before, sent0, order + [name])
    {
      name := AnyOf(todo);
      MoreInTurn(order, interfaces.Keys, todo, name);
      AnnounceNext(sys, now, name, a, before, sent0, order);
    }

    /** All interfaces of the moment, in some order. */
    method AnnounceAll(sys: System, now: nat) returns (ghost order: seq<Index>)
      requires Valid() && Current()
      modifies `listeners, `made, `infos, `sent, `joined, infos
      ensures Valid() && Current() && Grown()
      ensures InTurn(order, interfaces.Keys)
      ensures AnnouncedOn(sys, now, old(listeners), old(Intervals()), old(sent), order)
    {
      var todo := interfaces.Keys;
      order := [];
      while todo != {}
        invariant Valid() && Current() && Grown() && todo <= interfaces.Keys
        invariant InTurn(order, interfaces.Keys - todo)
        invariant AnnouncedOn(sys, now, old(listeners), old(Intervals()), old(sent), order)
        decreases |todo|
      {
        var name := AnnounceAny(sys, now, todo, old(listeners), old(Intervals()), old(sent), order);
        order := order + [name];
        todo := todo - {name};
      }
      assert interfaces.Keys - todo == interfaces.Keys;
    }

    method Reconcile(sys: System, now: nat) returns (ghost order: seq<Index>)
      requires Valid()
      modifies `listeners, `made, `infos, `sent, `joined, infos, made
      ensures Valid() && Grown() && Current() && Reconciled(sys, interfaces, old(listeners), listeners)
      ensures InTurn(order, interfaces.Keys)
      ensures Advanced(now, interfaces, listeners, old(Intervals()), Intervals(), interfaces.Keys)
      ensures sent == old(sent) + AllBeacons(sys, key, now, interfaces, order, listeners, old(Intervals()))
    {
      Prune(sys);
      assert Intervals() == old(Intervals());
      ghost var pruned := listeners;
      order := AnnounceAll(sys, now);
      BothReconcile(sys, interfaces, old(listeners), pruned, listeners);
    }

    method AnnounceWith(sys: System, now: nat, current: map<Index, Interface>) returns (ghost order: seq<Index>)
      requires Valid()
      modifies `listeners, `interfaces, `made, `infos, `sent, `joined, infos, made
      ensures Valid() && Grown() && interfaces == current && Current() && Reconciled(sys, current, old(listeners), listeners)
      ensures InTurn(order, current.Keys)
      ensures Advanced(now, current, listeners, old(Intervals()), Intervals(), current.Keys)
      ensures sent == old(sent) + AllBeacons(sys, key, now, current, order, listeners, old(Intervals()))
    {
      interfaces := current;
      assert Intervals() == old(Intervals());
      order := Reconcile(sys, now);
    }

    /** One announcement. A listener is kept, as it is, exactly if its interface is still there
        with its address, and otherwise, no longer being in the table, closed; and every
        interface for which a listener can be opened has one. Then, on every interface, in some
        order, the beacon of its listener goes out if it is due and its address can be resolved,
        and only the intervals of listeners whose beacon is due become longer. */
    method Announce(sys: System, now: nat, current: map<Index, Interface>) returns (ghost order: seq<Index>)
      requires Valid()
      modifies `listeners, `interfaces, `made, `infos, `sent, `joined, infos, made
      ensures Valid() && Grown()
      ensures !isOpen ==> listeners == old(listeners) && interfaces == old(interfaces) && sent == old(sent) && Intervals() == old(Intervals())
      ensures isOpen ==> interfaces == current && Current() && Reconciled(sys, current, old(listeners), listeners)
      ensures isOpen ==> InTurn(order, current.Keys)
                         && sent == old(sent) + AllBeacons(sys, key, now, current, order, listeners, old(Intervals()))
      ensures isOpen ==> Advanced(now, current, listeners, old(Intervals()), Intervals(), current.Keys)
      ensures isOpen ==> forall name | name in listeners ::
                var ip: IP := listeners[name].listener.ip;
                name in current && (exists x :: x in current[name].addrs && x.bytes == ip.bytes) && !ip.isIPv4 && ip.linkLocal
    {
      order := [];
      if isOpen {
        order := AnnounceWith(sys, now, current);
      }
    }
  }

  // ---- all interfaces, in some order ---------------------------------------------

  ghost function Names(order: seq<Index>): set<Index> {
    set name | name in order
  }

  ghost predicate NoDuplicates(order: seq<Index>) {
    forall i, j | 0 <= i < j < |order| :: order[i] != order[j]
  }

  /** order is one in which the names may be gone through. */
  ghost predicate InTurn(order: seq<Index>, names: set<Index>) {
    NoDuplicates(order) && Names(order) == names
  }

  lemma MoreInTurn(order: seq<Index>, all: set<Index>, todo: set<Index>, name: Index)
    requires InTurn(order, all - todo) && name in todo && todo <= all
    ensures name !in order && InTurn(order + [name], all - (todo - {name}))
  {
    assert name !in Names(order);
    OneMoreName(order, name);
    assert all - (todo - {name}) == (all - todo) + {name};
  }

  lemma OneMoreName(order: seq<Index>, name: Index)
    requires name !in order
    ensures Names(order + [name]) == Names(order) + {name} && name !in Names(order)
    ensures NoDuplicates(order) ==> NoDuplicates(order + [name])
  {
  }

  /** The beacons that go out on some interfaces, one after the other. */
  ghost function AllBeacons(sys: System, key: Key, now: nat, interfaces: map<Index, Interface>, order: seq<Index>,
                            listeners: map<Index, ListenerInfo>, before: map<ListenerInfo, Interval>): (sent: seq<(Index, seq<Byte>)>)
  {
    if order == [] then []
    else
      var n := |order| - 1;
      AllBeacons(sys, key, now, interfaces, order[..n], listeners, before)
      + BeaconsOn(sys, key, now, interfaces, order[n], listeners, before)
  }

  /** The two tables agree on a name. */
  ghost predicate Agree(a: map<Index, ListenerInfo>, b: map<Index, ListenerInfo>, name: Index) {
    (name in a <==> name in b) && (name in a ==> a[name] == b[name])
  }

  lemma {:induction false} AllBeaconsStay(sys: System, key: Key, now: nat, interfaces: map<Index, Interface>, order: seq<Index>,
                                          a: map<Index, ListenerInfo>, b: map<Index, ListenerInfo>, before: map<ListenerInfo, Interval>)
    requires forall name | name in order :: Agree(a, b, name)
    ensures AllBeacons(sys, key, now, interfaces, order, a, before) == AllBeacons(sys, key, now, interfaces, order, b, before)
    decreases |order|
  {
    if order != [] {
      var n := |order| - 1;
      AllBeaconsStay(sys, key, now, interfaces, order[..n], a, b, before);
      assert Agree(a, b, order[n]);
    }
  }

  lemma AllBeaconsMore(sys: System, key: Key, now: nat, interfaces: map<Index, Interface>, order: seq<Index>, name: Index,
                       a: map<Index, ListenerInfo>, b: map<Index, ListenerInfo>, before: map<ListenerInfo, Interval>)
    requires name !in order && (b == a || (name in b && b == a[name := b[name]]))
    ensures AllBeacons(sys, key, now, interfaces, order + [name], b, before) ==
            AllBeacons(sys, key, now, interfaces, order, a, before) + BeaconsOn(sys, key, now, interfaces, name, b, before)
  {
    assert (order + [name])[..|order|] == order;
    forall n | n in order ensures Agree(a, b, n) {
      assert n != name;
    }
    AllBeaconsStay(sys, key, now, interfaces, order, a, b, before);
  }

  /** What the announcements on some interfaces have changed: the table from a to b, the intervals
      from before to after, and the log from sent0 to sent. */
  ghost predicate Turns(sys: System, key: Key, now: nat, interfaces: map<Index, Interface>, a: map<Index, ListenerInfo>, b: map<Index, ListenerInfo>,
                        before: map<ListenerInfo, Interval>, after: map<ListenerInfo, Interval>,
                        sent0: seq<(Index, seq<Byte>)>, sent: seq<(Index, seq<Byte>)>, order: seq<Index>)
  {
    && OpenedFor(sys, interfaces, a, b, Names(order))
    && Advanced(now, interfaces, b, before, after, Names(order))
    && sent == sent0 + AllBeacons(sys, key, now, interfaces, order, b, before)
  }

  lemma OneMoreTurn(sys: System, key: Key, now: nat, interfaces: map<Index, Interface>, a: map<Index, ListenerInfo>, b: map<Index, ListenerInfo>,
                    c: map<Index, ListenerInfo>, before: map<ListenerInfo, Interval>, between: map<ListenerInfo, Interval>,
                    after: map<ListenerInfo, Interval>, sent0: seq<(Index, seq<Byte>)>, sent1: seq<(Index, seq<Byte>)>,
                    sent2: seq<(Index, seq<Byte>)>, order: seq<Index>, name: Index)
    requires Turns(sys, key, now, interfaces, a, b, before, between, sent0, sent1, order)
    requires name !in order && name in interfaces && forall n | n in a :: a[n] in before
    requires if name !in b && CanListen(sys, name, interfaces[name]) then name in c && c == b[name := c[name]] && c[name] !in between else c == b
    requires name in c ==> c[name].listener.index == name
    requires Advanced(now, interfaces, c, between, after, {name}) && sent2 == sent1 + BeaconsOn(sys, key, now, interfaces, name, c, between)
    ensures Turns(sys, key, now, interfaces, a, c, before, after, sent0, sent2, order + [name])
  {
    OneMoreName(order, name);
    OpenedMore(sys, interfaces, a, b, c, Names(order), name);
    AdvancedMore(now, interfaces, b, c, before, between, after, Names(order), name);
    SameBeacon(sys, key, now, interfaces, name, a, b, c, before, between, Names(order));
    AllBeaconsMore(sys, key, now, interfaces, order, name, b, c, before);
  }

  /** Whether a listener's beacon is due can as well be told from the intervals at the start, as
      long as its interface has not had its turn. */
  lemma SameBeacon(sys: System, key: Key, now: nat, interfaces: map<Index, Interface>, name: Index, a: map<Index, ListenerInfo>,
                   b: map<Index, ListenerInfo>, c: map<Index, ListenerInfo>, before: map<ListenerInfo, Interval>,
                   between: map<ListenerInfo, Interval>, names: set<Index>)
    requires OpenedFor(sys, interfaces, a, b, names) && Advanced(now, interfaces, b, before, between, names) && name !in names
    requires forall n | n in a :: a[n] in before
    requires c == b || (name in c && c == b[name := c[name]] && c[name] !in between)
    requires name in c ==> c[name].listener.index == name
    ensures BeaconsOn(sys, key, now, interfaces, name, c, before) == BeaconsOn(sys, key, now, interfaces, name, c, between)
  {
    if name in c {
      var info := c[name];
      if info in before {
        assert info in between && between[info] == before[info];
      }
    }
  }

  lemma AdvancedMore(now: nat, interfaces: map<Index, Interface>, b: map<Index, ListenerInfo>, c: map<Index, ListenerInfo>,
                     before: map<ListenerInfo, Interval>, between: map<ListenerInfo, Interval>, after: map<ListenerInfo, Interval>,
                     names: set<Index>, name: Index)
    requires Advanced(now, interfaces, b, before, between, names) && Advanced(now, interfaces, c, between, after, {name}) && name !in names
    requires c == b || (name in c && c == b[name := c[name]])
    ensures Advanced(now, interfaces, c, before, after, names + {name})
  {
    forall info | info in before
      ensures info in after
      ensures after[info] == if info.listener.index in names + {name} && Advances(now, interfaces, c, before, info)
                             then Longer(before[info]) else before[info]
    {
      assert info in between && info in after;
      if info.listener.index == name {
        assert between[info] == before[info];
      } else {
        assert Advances(now, interfaces, b, before, info) == Advances(now, interfaces, c, before, info);
      }
    }
  }

  // ---- in plain terms ------------------------------------------------------------

  /** A listener is kept if its interface is there and its address resolves to one of the
      interface's; and an interface has one afterwards if it is kept, or one can be opened on a
      link-local IPv6 address of an interface that sends beacons; and in no other case. */
  lemma ReconciledMeans(sys: System, interfaces: map<Index, Interface>, a: map<Index, ListenerInfo>, b: map<Index, ListenerInfo>, name: Index)
    requires Reconciled(sys, interfaces, a, b)
    ensures var kept := name in a && name in interfaces && sys.resolves(a[name].listener.ip)
                        && exists x :: x in interfaces[name].addrs && x.bytes == a[name].listener.ip.bytes;
            var opens := name in interfaces && interfaces[name].beacon
                         && exists x :: x in interfaces[name].addrs && !x.isIPv4 && x.linkLocal && sys.opens(name, x);
            (name in b <==> kept || opens) && (kept ==> b[name] == a[name])
  {
    if name in a && name in interfaces {
      assert HasAddress(interfaces[name], a[name].listener.ip) <==>
             exists x :: x in interfaces[name].addrs && x.bytes == a[name].listener.ip.bytes;
    }
    if name in interfaces {
      assert CanListen(sys, name, interfaces[name]) <==>
             interfaces[name].beacon && exists x :: x in interfaces[name].addrs && !x.isIPv4 && x.linkLocal && sys.opens(name, x);
    }
  }

  /** On an interface that sends beacons and has a link-local IPv6 address, the beacon of its
      listener goes out if the interval has passed since the listener was opened, or it is new,
      and its address resolves: the key, the listener's address and its port. */
  lemma BeaconsMean(sys: System, key: Key, now: nat, interfaces: map<Index, Interface>, name: Index,
                    listeners: map<Index, ListenerInfo>, before: map<ListenerInfo, Interval>)
    ensures BeaconsOn(sys, key, now, interfaces, name, listeners, before) ==
            if && name in interfaces && interfaces[name].beacon && (exists x :: x in interfaces[name].addrs && !x.isIPv4 && x.linkLocal)
               && name in listeners && sys.resolves(listeners[name].listener.ip)
               && (listeners[name] in before ==> now - listeners[name].started >= before[listeners[name]] as int * 1_000_000_000)
            then [(name, key + listeners[name].listener.ip.bytes
                         + [Low(listeners[name].listener.port / 256), Low(listeners[name].listener.port)])]
            else []
  {
    if name in interfaces {
      assert AnySuitable(interfaces[name].addrs) <==> exists x :: x in interfaces[name].addrs && !x.isIPv4 && x.linkLocal;
    }
  }

  /** The interval of a listener whose beacon is due on its interface becomes longer by a second
      unless it is 15 seconds already, and no other changes. */
  lemma AdvancedMeans(now: nat, interfaces: map<Index, Interface>, listeners: map<Index, ListenerInfo>,
                      a: map<ListenerInfo, Interval>, b: map<ListenerInfo, Interval>, names: set<Index>, info: ListenerInfo)
    requires Advanced(now, interfaces, listeners, a, b, names) && info in a
    ensures var name := info.listener.index;
            var due := && name in names && name in interfaces && name in listeners && listeners[name] == info
                       && interfaces[name].beacon && (exists x :: x in interfaces[name].addrs && !x.isIPv4 && x.linkLocal)
                       && now - info.started >= a[info] as int * 1_000_000_000;
            info in b && b[info] as int == if due && a[info] < 15 then a[info] as int + 1 else a[info] as int
  {
    var name := info.listener.index;
    if name in interfaces {
      assert AnySuitable(interfaces[name].addrs) <==> exists x :: x in interfaces[name].addrs && !x.isIPv4 && x.linkLocal;
    }
  }

  lemma AdvancedIsLater(now: nat, interfaces: map<Index, Interface>, listeners: map<Index, ListenerInfo>,
                        a: map<ListenerInfo, Interval>, b: map<ListenerInfo, Interval>, names: set<Index>)
    requires Advanced(now, interfaces, listeners, a, b, names)
    ensures Later(a, b, names)
  {
  }

  ghost predicate Reconciled(sys: System, interfaces: map<Index, Interface>, a: map<Index, ListenerInfo>, b: map<Index, ListenerInfo>) {
    && (forall name | name in a && Stays(sys, interfaces, name, a[name].listener.ip) :: name in b && b[name] == a[name])
    && (forall name | name in interfaces && CanListen(sys, name, interfaces[name]) :: name in b)
    && (forall name | name in b ::
          (name in a && Stays(sys, interfaces, name, a[name].listener.ip)) || (name in interfaces && CanListen(sys, name, interfaces[name])))
  }

  lemma BothReconcile(sys: System, interfaces: map<Index, Interface>, a: map<Index, ListenerInfo>, b: map<Index, ListenerInfo>, c: map<Index, ListenerInfo>)
    requires Pruned(sys, interfaces, a, b, {}) && OpenedFor(sys, interfaces, b, c, interfaces.Keys)
    ensures Reconciled(sys, interfaces, a, c)
  {
    forall name | name in interfaces && CanListen(sys, name, interfaces[name]) ensures name in c {
      assert MayOpen(sys, interfaces, name, interfaces.Keys);
    }
  }

  /** From a to b, listeners have been removed that cannot stay, but for those still in todo. */
  ghost predicate Pruned(sys: System, interfaces: map<Index, Interface>, a: map<Index, ListenerInfo>, b: map<Index, ListenerInfo>, todo: set<Index>) {
    && todo <= b.Keys <= a.Keys
    && (forall name | name in b :: b[name] == a[name] && (name in todo || Stays(sys, interfaces, name, a[name].listener.ip)))
    && (forall name | name in a && Stays(sys, interfaces, name, a[name].listener.ip) :: name in b)
  }

  lemma PrunedMore(sys: System, interfaces: map<Index, Interface>, a: map<Index, ListenerInfo>, b: map<Index, ListenerInfo>, todo: set<Index>, name: Index)
    requires Pruned(sys, interfaces, a, b, todo) && name in todo
    ensures var c := if Stays(sys, interfaces, name, b[name].listener.ip) then b else b - {name};
            Pruned(sys, interfaces, a, c, todo - {name})
  {
  }

  /** From a to b, listeners have been added for those of the named interfaces for which one can
      be opened. */
  ghost predicate OpenedFor(sys: System, interfaces: map<Index, Interface>, a: map<Index, ListenerInfo>, b: map<Index, ListenerInfo>, names: set<Index>) {
    && (forall name | name in b :: name in a || MayOpen(sys, interfaces, name, names))
    && (forall name | name in names && MayOpen(sys, interfaces, name, names) :: name in b)
    && (forall name | name in a :: name in b && b[name] == a[name])
  }

  ghost predicate MayOpen(sys: System, interfaces: map<Index, Interface>, name: Index, names: set<Index>) {
    name in names && name in interfaces && CanListen(sys, name, interfaces[name])
  }

  lemma OpenedMore(sys: System, interfaces: map<Index, Interface>, a: map<Index, ListenerInfo>, b: map<Index, ListenerInfo>,
                   c: map<Index, ListenerInfo>, names: set<Index>, name: Index)
    requires OpenedFor(sys, interfaces, a, b, names) && name in interfaces
    requires if name !in b && CanListen(sys, name, interfaces[name]) then name in c && c == b[name := c[name]] else c == b
    ensures OpenedFor(sys, interfaces, a, c, names + {name})
  {
    forall n | n in c ensures n in a || MayOpen(sys, interfaces, n, names + {name}) {
      assert n in b ==> n in a || MayOpen(sys, interfaces, n, names);
    }
    forall n | n in names + {name} && MayOpen(sys, interfaces, n, names + {name}) ensures n in c {
      assert n in names ==> MayOpen(sys, interfaces, n, names);
    }
  }

  /** No interval has become shorter, and only those of the named interfaces longer, by one. */
  ghost predicate Later(a: map<ListenerInfo, nat>, b: map<ListenerInfo, nat>, names: set<Index>) {
    forall info | info in a :: info in b && a[info] <= b[info] <= a[info] + if info.listener.index in names then 1 else 0
  }
}
