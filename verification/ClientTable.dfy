/** The clients of the UDP gateway as a sequence with unique keys: lookup, creation, deletion, expiry. */
module ClientTable {

  const TIMEOUT: int := 30 * 60

  /** The bytes of a client's socket address. */
  type Address = seq<int>

  /** A client, its IPv6 socket (negative when it could not be opened) and the time of its last packet. */
  datatype Entry = Entry(address: Address, socket: int, last: int)

  ghost predicate UniqueKeys(es: seq<Entry>) {
    forall i, j :: 0 <= i < j < |es| ==> es[i].address != es[j].address
  }

  /** The position of a client; the length if it is not there. */
  function Find(es: seq<Entry>, address: Address): (i: nat)
    ensures i <= |es|
    ensures i < |es| ==> es[i].address == address
    ensures forall k :: 0 <= k < i ==> es[k].address != address
  {
    if es == [] || es[0].address == address then 0 else 1 + Find(es[1..], address)
  }

  /** psCreateMapping: nothing without memory; without a socket the entry stays, with no time. */
  function Create(es: seq<Entry>, address: Address, memory: bool, socket: int, now: int): seq<Entry> {
    if memory then es + [Entry(address, socket, if socket < 0 then 0 else now)] else es
  }

  function Delete(es: seq<Entry>, i: nat): seq<Entry>
    requires i < |es|
  {
    es[..i] + es[i + 1..]
  }

  /**
   * What a sweep leaves of one entry: refreshed at the moment its socket's packet is received, if there is one, and
   * dropped if it has timed out.
   */
  function Swept(e: Entry, received: map<int, int>, now: int): seq<Entry> {
    var e' := if e.socket in received then e.(last := received[e.socket]) else e;
    if now > e'.last + TIMEOUT then [] else [e']
  }

  function Sweep(es: seq<Entry>, received: map<int, int>, now: int): seq<Entry> {
    if es == [] then []
    else Sweep(es[..|es| - 1], received, now) + Swept(es[|es| - 1], received, now)
  }

  /** A packet from a client: it is found or created, and its time is set. */
  function Packet(es: seq<Entry>, address: Address, memory: bool, socket: int, now: int): seq<Entry> {
    var i := Find(es, address);
    if i < |es| then es[i := es[i].(last := now)] else Create(es, address, memory, socket, now)
  }

  // ---------- what a sweep does ----------

  /** An entry with the time of a packet that came on its socket, if one came. */
  function Renewed(e: Entry, received: map<int, int>): Entry {
    Entry(e.address, e.socket, if e.socket in received then received[e.socket] else e.last)
  }

  /** A sweep leaves exactly the entries, with the times of the packets that it received, of the last half hour. */
  lemma {:induction false} SweepKeepsExactly(es: seq<Entry>, received: map<int, int>, now: int, x: Entry)
    ensures x in Sweep(es, received, now) <==> (exists e <- es :: x == Renewed(e, received)) && now <= x.last + 1800
  {
    hide Swept;
    if es != [] {
      var front, e := es[..|es| - 1], es[|es| - 1];
      assert es == front + [e];
      SweepKeepsExactly(front, received, now, x);
      SweptIsRenewed(e, received, now);
      if x == Renewed(e, received) {
        assert e in es;
      }
    }
  }

  lemma SweptIsRenewed(e: Entry, received: map<int, int>, now: int)
    ensures var r := Renewed(e, received); Swept(e, received, now) == if now <= r.last + 1800 then [r] else []
  {}

  /** The addresses that are left are some of the old ones, in the old order. */
  ghost predicate Thinned(a: seq<Entry>, b: seq<Entry>, from: seq<nat>) {
    && |from| == |b|
    && (forall i :: 0 <= i < |from| ==> from[i] < |a| && a[from[i]].address == b[i].address)
    && (forall i, j :: 0 <= i < j < |from| ==> from[i] < from[j])
  }

  lemma {:induction false} SweepKeepsOrder(es: seq<Entry>, received: map<int, int>, now: int)
    returns (from: seq<nat>)
    ensures Thinned(es, Sweep(es, received, now), from)
  {
    hide Swept;
    from := [];
    if es != [] {
      var front, e := es[..|es| - 1], es[|es| - 1];
      from := SweepKeepsOrder(front, received, now);
      SweptIsRenewed(e, received, now);
      if |Swept(e, received, now)| == 1 {
        from := from + [|es| - 1];
      }
    }
  }

  lemma ThinnedIsUnique(a: seq<Entry>, b: seq<Entry>, from: seq<nat>)
    requires Thinned(a, b, from) && UniqueKeys(a)
    ensures UniqueKeys(b)
  {}

  // ---------- every operation keeps the keys unique ----------

  lemma PacketKeepsUnique(es: seq<Entry>, address: Address, memory: bool, socket: int, now: int)
    requires UniqueKeys(es)
    ensures UniqueKeys(Packet(es, address, memory, socket, now))
  {}

  /** Deletion removes one entry and no other. */
  lemma DeleteKeepsUnique(es: seq<Entry>, i: nat)
    requires UniqueKeys(es) && i < |es|
    ensures UniqueKeys(Delete(es, i))
    ensures forall e :: e in Delete(es, i) <==> e in es && e != es[i]
  {
    var d := Delete(es, i);
    assert forall k :: 0 <= k < |d| ==> d[k] == es[if k < i then k else k + 1];
    forall e
      ensures e in d <==> e in es && e != es[i]
    {
      DeletedIsGone(es, i, e);
    }
  }

  lemma DeletedIsGone(es: seq<Entry>, i: nat, e: Entry)
    requires UniqueKeys(es) && i < |es|
    ensures e in Delete(es, i) <==> e in es && e != es[i]
  {
    var d := Delete(es, i);
    if e in es && e != es[i] {
      var k :| 0 <= k < |es| && es[k] == e;
      assert d[if k < i then k else k - 1] == e;
    }
    if e in d {
      var k :| 0 <= k < |d| && d[k] == e;
      assert e == es[if k < i then k else k + 1];
    }
  }

  lemma SweepKeepsUnique(es: seq<Entry>, received: map<int, int>, now: int)
    requires UniqueKeys(es)
    ensures UniqueKeys(Sweep(es, received, now))
  {
    hide Sweep;
    var from := SweepKeepsOrder(es, received, now);
    ThinnedIsUnique(es, Sweep(es, received, now), from);
  }

  // ---------- runs of the gateway ----------

  datatype Event =
    | FromClient(address: Address, memory: bool, socket: int, now: int)
    | Idle(received: map<int, int>, time: int)

  function Step(es: seq<Entry>, e: Event): seq<Entry> {
    match e
    case FromClient(address, memory, socket, now) => Packet(es, address, memory, socket, now)
    case Idle(received, time) => Sweep(es, received, time)
  }

  function Run(es: seq<Entry>, events: seq<Event>): seq<Entry> {
    if events == [] then es else Step(Run(es, events[..|events| - 1]), events[|events| - 1])
  }

  lemma {:induction false} RunKeepsUnique(es: seq<Entry>, events: seq<Event>)
    requires UniqueKeys(es)
    ensures UniqueKeys(Run(es, events))
  {
    hide UniqueKeys, Packet, Sweep;
    if events != [] {
      var before := Run(es, events[..|events| - 1]);
      RunKeepsUnique(es, events[..|events| - 1]);
      match events[|events| - 1] {
        case FromClient(address, memory, socket, now) => PacketKeepsUnique(before, address, memory, socket, now);
        case Idle(received, time) => SweepKeepsUnique(before, received, time);
      }
    }
  }

  ghost predicate Listed(es: seq<Entry>, address: Address) {
    exists e <- es :: e.address == address
  }

  /** The client is in the list all along. */
  ghost predicate StaysListed(es: seq<Entry>, events: seq<Event>, address: Address) {
    forall k :: 0 <= k <= |events| ==> Listed(Run(es, events[..k]), address)
  }

  /** When a client on a socket was last heard: its own packets, and those that a sweep receives on its socket. */
  function LastHeard(events: seq<Event>, address: Address, socket: int, since: int): int {
    if events == [] then since
    else
      var before := LastHeard(events[..|events| - 1], address, socket, since);
      match events[|events| - 1]
      case FromClient(a, _, _, now) => if a == address then now else before
      case Idle(received, _) => if socket in received then received[socket] else before
  }

  /** No sweep comes later than half an hour after the client was last heard. */
  ghost predicate NeverSilent(events: seq<Event>, address: Address, socket: int, since: int) {
    forall k :: 0 <= k < |events| && events[k].Idle? ==>
      events[k].time <= LastHeard(events[..k + 1], address, socket, since) + 1800
  }

  /**
   * What a packet does. A client that is listed keeps its socket and is heard now; one that is not gets the new socket,
   * without a time if it could not be opened, or nothing if there is no memory. No other client is touched.
   */
  lemma PacketIsHeard(es: seq<Entry>, address: Address, memory: bool, socket: int, now: int)
    requires UniqueKeys(es)
    ensures var es' := Packet(es, address, memory, socket, now);
            && (forall e <- es :: e.address == address ==> Entry(address, e.socket, now) in es')
            && (!Listed(es, address) ==>
                  if !memory then es' == es else Entry(address, socket, if socket >= 0 then now else 0) in es')
            && (forall x: Entry :: x.address != address ==> (x in es' <==> x in es))
  {
    var es' := Packet(es, address, memory, socket, now);
    var i := Find(es, address);
    if i < |es| {
      assert es[i] in es && es'[i] == Entry(address, es[i].socket, now);
      assert forall k :: 0 <= k < |es| && k != i ==> es'[k] == es[k] && es[k].address != address;
    } else {
      assert forall k :: 0 <= k < |es| ==> es[k] in es;
      assert memory ==> es'[|es|] == Entry(address, socket, if socket >= 0 then now else 0);
    }
  }

  lemma HeardOf(e: Event, address: Address, socket: int, since: int)
    ensures LastHeard([e], address, socket, since) ==
            match e
            case FromClient(a, _, _, now) => if a == address then now else since
            case Idle(received, _) => if socket in received then received[socket] else since
  {
    var one := [e];
    assert one[..|one| - 1] == [];
    assert LastHeard(one[..|one| - 1], address, socket, since) == since;
  }

  /** One event: the client's entry has the time when it was last heard, unless a sweep comes too late for it. */
  lemma StepHears(es: seq<Entry>, e: Event, address: Address, socket: int, since: int)
    requires UniqueKeys(es) && Entry(address, socket, since) in es
    ensures var last := LastHeard([e], address, socket, since);
            && (e.Idle? && e.time > last + 1800 ==> !Listed(Step(es, e), address))
            && (!(e.Idle? && e.time > last + 1800) ==> Entry(address, socket, last) in Step(es, e))
  {
    var last := LastHeard([e], address, socket, since);
    HeardOf(e, address, socket, since);
    hide LastHeard;
    match e {
      case FromClient(a, memory, s, now) =>
        hide Packet;
        PacketIsHeard(es, a, memory, s, now);
      case Idle(received, time) =>
        hide Sweep;
        assert Entry(address, socket, last) == Renewed(Entry(address, socket, since), received);
        SweepKeepsExactly(es, received, time, Entry(address, socket, last));
        forall x | x in Sweep(es, received, time) && x.address == address
          ensures x.last == last && time <= last + 1800
        {
          SweepKeepsExactly(es, received, time, x);
          var d :| d in es && x == Renewed(d, received);
          OneEntry(es, d, Entry(address, socket, since));
        }
    }
  }

  lemma OneEntry(es: seq<Entry>, d: Entry, e: Entry)
    requires UniqueKeys(es) && d in es && e in es && d.address == e.address
    ensures d == e
  {}

  lemma LastHeardOfOne(events: seq<Event>, e: Event, address: Address, socket: int, since: int)
    ensures LastHeard(events + [e], address, socket, since)
            == LastHeard([e], address, socket, LastHeard(events, address, socket, since))
  {
    assert (events + [e])[..|events|] == events && [e][..0] == [];
  }

  /**
   * From the moment a client is listed: it stays listed if and only if no sweep comes later than half an hour after
   * it was last heard; and then it has its socket still, and the time when it was last heard.
   */
  lemma {:induction false} ListedWhileHeardIff(es: seq<Entry>, events: seq<Event>, address: Address, socket: int,
                                               since: int)
    requires UniqueKeys(es) && Entry(address, socket, since) in es
    ensures StaysListed(es, events, address) <==> NeverSilent(events, address, socket, since)
    ensures NeverSilent(events, address, socket, since) ==>
              Entry(address, socket, LastHeard(events, address, socket, since)) in Run(es, events)
  {
    hide UniqueKeys, Step, Listed;
    if events == [] {
      IsListed(es, Entry(address, socket, since));
    } else {
      var front, e := events[..|events| - 1], events[|events| - 1];
      ListedWhileHeardIff(es, front, address, socket, since);
      RunKeepsUnique(es, front);
      FrontStays(es, front, e, address);
      FrontIsHeard(front, e, address, socket, since);
      assert front + [e] == events;
      if NeverSilent(front, address, socket, since) {
        var heard := LastHeard(front, address, socket, since);
        LastHeardOfOne(front, e, address, socket, since);
        StepHears(Run(es, front), e, address, socket, heard);
        if NeverSilent(events, address, socket, since) {
          IsListed(Run(es, events), Entry(address, socket, LastHeard(events, address, socket, since)));
        }
      }
      hide StaysListed, NeverSilent, LastHeard;
    }
  }

  lemma IsListed(es: seq<Entry>, e: Entry)
    requires e in es
    ensures Listed(es, e.address)
  {}

  lemma FrontStays(es: seq<Entry>, front: seq<Event>, e: Event, address: Address)
    ensures StaysListed(es, front + [e], address) <==>
            StaysListed(es, front, address) && Listed(Run(es, front + [e]), address)
  {
    hide Run, Listed;
    var events := front + [e];
    assert events[..|events|] == events;
    assert forall k :: 0 <= k <= |front| ==> events[..k] == front[..k];
  }

  lemma FrontIsHeard(front: seq<Event>, e: Event, address: Address, socket: int, since: int)
    ensures NeverSilent(front + [e], address, socket, since) <==>
            && NeverSilent(front, address, socket, since)
            && (e.Idle? ==> e.time <= LastHeard(front + [e], address, socket, since) + 1800)
  {
    hide LastHeard;
    var events := front + [e];
    assert events[..|front| + 1] == events && events[|front|] == e;
    assert forall k :: 0 <= k < |front| ==> events[..k + 1] == front[..k + 1] && events[k] == front[k];
    if NeverSilent(events, address, socket, since) && e.Idle? {
      assert events[|front|].time <= LastHeard(events[..|front| + 1], address, socket, since) + 1800;
    }
  }

  /**
   * After a packet from a client, on its old socket or on the one that was opened for it: whatever packets, its own and
   * others', and whatever sweeps follow, it is dropped by no sweep at most half an hour after its last packet, and by
   * the first one that comes later.
   */
  lemma ClientStaysKnown(es: seq<Entry>, address: Address, memory: bool, obtained: int, now: int, events: seq<Event>,
                         socket: int)
    requires UniqueKeys(es) && obtained >= 0
    requires if Listed(es, address) then exists e <- es :: e.address == address && e.socket == socket
             else memory && socket == obtained
    ensures var es' := Packet(es, address, memory, obtained, now);
            && (StaysListed(es', events, address) <==> NeverSilent(events, address, socket, now))
            && (NeverSilent(events, address, socket, now) ==>
                  Entry(address, socket, LastHeard(events, address, socket, now)) in Run(es', events))
  {
    PacketIsHeard(es, address, memory, obtained, now);
    PacketKeepsUnique(es, address, memory, obtained, now);
    ListedWhileHeardIff(Packet(es, address, memory, obtained, now), events, address, socket, now);
    hide UniqueKeys, Packet, StaysListed, NeverSilent, LastHeard, Run;
  }

  /** Whatever mapping the client has, it has this socket. */
  ghost predicate OnlySocket(es: seq<Entry>, address: Address, socket: int) {
    forall e <- es :: e.address == address ==> e.socket == socket
  }

  lemma StepKeepsSocket(es: seq<Entry>, e: Event, address: Address, socket: int)
    requires Listed(es, address) && OnlySocket(es, address, socket)
    ensures OnlySocket(Step(es, e), address, socket)
  {
    match e {
      case FromClient(a, memory, s, now) =>
        var i := Find(es, a);
        if i < |es| {
          assert es[i] in es;
        }
      case Idle(received, time) =>
        hide Sweep;
        forall x | x in Sweep(es, received, time) && x.address == address
          ensures x.socket == socket
        {
          SweepKeepsExactly(es, received, time, x);
          var d :| d in es && x == Renewed(d, received);
        }
    }
  }

  /** As long as a client is not dropped from the list, nothing gives it another socket. */
  lemma {:induction false} SocketStays(es: seq<Entry>, events: seq<Event>, address: Address, socket: int)
    requires OnlySocket(es, address, socket) && StaysListed(es, events, address)
    ensures OnlySocket(Run(es, events), address, socket)
  {
    hide Listed, OnlySocket, Step;
    if events != [] {
      var front := events[..|events| - 1];
      forall k | 0 <= k <= |front|
        ensures front[..k] == events[..k]
      {}
      SocketStays(es, front, address, socket);
      assert Listed(Run(es, front), address) by {
        assert events[..|front|] == front;
      }
      StepKeepsSocket(Run(es, front), events[|events| - 1], address, socket);
    }
  }

  /**
   * A new client keeps what opening its socket gave through whatever packets and sweeps follow, until it is dropped
   * from the list: it is left without a socket exactly if that failed.
   */
  lemma FailedSocketStaysIff(es: seq<Entry>, address: Address, socket: int, now: int, events: seq<Event>)
    requires Find(es, address) == |es|
    requires StaysListed(Packet(es, address, true, socket, now), events, address)
    ensures var es' := Run(Packet(es, address, true, socket, now), events);
            && Find(es', address) < |es'| && es'[Find(es', address)].socket == socket
            && (es'[Find(es', address)].socket < 0 <==> socket < 0)
  {
    var es1 := Packet(es, address, true, socket, now);
    var es' := Run(es1, events);
    assert OnlySocket(es1, address, socket);
    SocketStays(es1, events, address, socket);
    assert Listed(es', address) by {
      assert events[..|events|] == events;
    }
    var i := Find(es', address);
    assert i == |es'| ==> forall e <- es' :: e.address != address;
    assert i < |es'| ==> es'[i] in es';
  }
}
