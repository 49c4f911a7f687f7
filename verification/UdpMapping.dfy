/** The UDP gateway's linked list of client mappings, changed in place. */
module UdpMapping {
  import opened ClientTable

  class Mapping {
    var address: Address
    var socket: int
    var last: int
    var next: Mapping?

    constructor (address: Address)
      ensures this.address == address && socket == 0 && last == 0 && next == null
    {
      this.address, socket, last, next := address, 0, 0, null;
    }

    ghost function Value(): Entry
      reads this`address, this`socket, this`last
    {
      Entry(address, socket, last)
    }
  }

  class Gateway {
    var head: Mapping?
    // the mappings from the head on
    ghost var spine: seq<Mapping>

    /** The mapping at a position, or the null pointer behind the last. */
    static ghost function At(ms: seq<Mapping>, i: nat): Mapping? {
      if i < |ms| then ms[i] else null
    }

    /** Each mapping points to the one after it, apart from the one at position `gap`. */
    static ghost predicate Linked(ms: seq<Mapping>, gap: int)
      reads ms`next
    {
      forall k :: 0 <= k < |ms| && k != gap ==> ms[k].next == At(ms, k + 1)
    }

    static ghost predicate Distinct(ms: seq<Mapping>) {
      forall i, j :: 0 <= i < j < |ms| ==> ms[i] != ms[j]
    }

    /** The list is acyclic and ends after the spine. */
    ghost predicate Valid()
      reads this, spine`next
    {
      head == At(spine, 0) && Linked(spine, -1) && Distinct(spine)
    }

    static ghost function Values(ms: seq<Mapping>): (es: seq<Entry>)
      reads ms`address, ms`socket, ms`last
      ensures |es| == |ms| && forall i :: 0 <= i < |ms| ==> es[i] == ms[i].Value()
    {
      if ms == [] then [] else Values(ms[..|ms| - 1]) + [ms[|ms| - 1].Value()]
    }

    ghost function Entries(): seq<Entry>
      reads this, spine`address, spine`socket, spine`last
    {
      Values(spine)
    }

    constructor ()
      ensures Valid() && Entries() == [] && spine == []
    {
      head, spine := null, [];
    }

    /** psGetMapping */
    method GetMapping(address: Address) returns (m: Mapping?)
      requires Valid()
      ensures m == At(spine, Find(Entries(), address))
    {
      ghost var es := Entries();
      var walk := head;
      ghost var k: nat := 0;
      while walk != null
        invariant k <= |spine| && walk == At(spine, k)
        invariant forall i :: 0 <= i < k ==> es[i].address != address
        decreases |spine| - k
      {
        if walk.address == address {
          assert es[k].address == address;
          return walk;
        }
        walk := walk.next;
        k := k + 1;
      }
      return null;
    }

    /** psCreateMapping; memory: whether malloc succeeds; socket: what opening the IPv6 socket returns. */
    method CreateMapping(address: Address, memory: bool, socket: int, now: int) returns (m: Mapping?)
      requires Valid()
      modifies this, spine`next
      ensures Valid() && Entries() == Create(old(Entries()), address, memory, socket, now)
      ensures old(spine) <= spine && (m != null ==> fresh(m))
      ensures m == if memory && socket >= 0 then At(spine, |old(spine)|) else null
    {
      if !memory {
        return null;
      }
      var added := AddMapping(address, socket, now);
      return if socket < 0 then null else added;
    }

    /** The new mapping is linked before its socket is opened. */
    method AddMapping(address: Address, socket: int, now: int) returns (added: Mapping)
      requires Valid()
      modifies this, spine`next
      ensures Valid() && fresh(added) && spine == old(spine) + [added]
      ensures Entries() == old(Entries()) + [Entry(address, socket, if socket < 0 then 0 else now)]
    {
      hide Values, Valid;
      ghost var was := Entries();
      added := new Mapping(address);
      Append(added);
      OpenSocket(added, socket, now);
      assert added !in old(spine);
      forall i | 0 <= i < |was|
        ensures Entries()[i] == was[i]
      {
        assert spine[i] == old(spine)[i] && old(spine)[i] in old(spine);
        assert was[i] == old(spine[i].Value());
      }
      assert Entries()[|was|] == added.Value();
    }

    /** The socket of a new mapping, and its time unless that failed. */
    method OpenSocket(m: Mapping, socket: int, now: int)
      requires m.last == 0
      modifies m`socket, m`last
      ensures m.Value() == Entry(m.address, socket, if socket < 0 then 0 else now)
    {
      m.socket := socket;
      if socket >= 0 {
        m.last := now;
      }
    }

    /** Links a new mapping behind the last one. */
    method Append(added: Mapping)
      requires Valid() && added !in spine && added.next == null
      modifies this, spine`next
      ensures Valid() && spine == old(spine) + [added]
    {
      ghost var was := spine;
      if head == null {
        head := added;
        assert was == [];
      } else {
        var walk := head;
        ghost var k: nat := 0;
        while walk.next != null
          invariant k < |was| && walk == was[k]
          decreases |was| - k
        {
          walk := walk.next;
          k := k + 1;
        }
        assert k + 1 == |was|;
        walk.next := added;
      }
      spine := was + [added];
    }

    /** A list in which the pointer to position i leads past it is one without that position. */
    static lemma Unlinked(was: seq<Mapping>, i: nat)
      requires i < |was| && Linked(was, i - 1) && Distinct(was) && (i > 0 ==> was[i - 1].next == At(was, i + 1))
      ensures Linked(was[..i] + was[i + 1..], -1) && Distinct(was[..i] + was[i + 1..])
    {
      var rest := was[..i] + was[i + 1..];
      forall k | 0 <= k < |rest|
        ensures rest[k].next == At(rest, k + 1)
        ensures rest[k] == was[if k < i then k else k + 1]
      {}
    }

    /** Makes the mapping at position k point past the next one. */
    static method Bypass(m: Mapping, ghost was: seq<Mapping>, ghost k: nat) returns (next: Mapping?)
      requires k + 1 < |was| && was[k] == m && Linked(was, -1) && Distinct(was)
      requires m.next != null
      modifies m`next
      ensures Linked(was, k) && m.next == next == At(was, k + 2)
    {
      var skipped := m.next;
      assert was[k].next == was[k + 1] == skipped && skipped.next == At(was, k + 2);
      next := skipped.next;
      m.next := next;
    }

    /** psDeleteMapping: unlinks the mapping and gives its successor; null if it is not in the list. */
    method DeleteMapping(m: Mapping) returns (next: Mapping?)
      requires Valid() && spine != []
      modifies this, spine`next
      ensures Valid()
      ensures m !in old(spine) ==> spine == old(spine) && next == null
      ensures forall i :: 0 <= i < |old(spine)| && old(spine)[i] == m ==>
                spine == old(spine)[..i] + old(spine)[i + 1..] && next == At(old(spine), i + 1)
    {
      ghost var was := spine;
      if head == m {
        next := head.next;
        head := next;
        spine := was[..0] + was[1..];
        Unlinked(was, 0);
      } else {
        next := Unlink(m, was);
      }
    }

    /** The search of psDeleteMapping for a mapping that is not the first. */
    method Unlink(m: Mapping, ghost was: seq<Mapping>) returns (next: Mapping?)
      requires was == spine != [] && head == was[0] != m && Linked(was, -1) && Distinct(was)
      modifies this`spine, was`next
      ensures Linked(spine, -1) && Distinct(spine) && head == At(spine, 0)
      ensures m !in was ==> spine == was && next == null
      ensures forall i :: 0 <= i < |was| && was[i] == m ==> spine == was[..i] + was[i + 1..] && next == At(was, i + 1)
    {
      var walk := head;
      ghost var k: nat := 0;
      while walk.next != null
        invariant k < |was| && walk == was[k]
        invariant forall j :: 0 <= j <= k ==> was[j] != m
        decreases |was| - k
      {
        assert was[k].next == At(was, k + 1);
        if walk.next == m {
          next := Bypass(walk, was, k);
          spine := was[..k + 1] + was[k + 2..];
          Unlinked(was, k + 1);
          return;
        }
        walk := walk.next;
        k := k + 1;
      }
      return null;
    }

    // ---------- the gateway's loop ----------

    /** A packet from a client: its mapping is found or created, and its time is set. */
    method FromClient(address: Address, memory: bool, socket: int, now: int) returns (m: Mapping?)
      requires Valid()
      modifies this, spine`next, spine`last
      ensures Valid() && Entries() == Packet(old(Entries()), address, memory, socket, now)
      ensures m == null <==> Find(old(Entries()), address) == |old(Entries())| && (!memory || socket < 0)
    {
      hide Valid, Values;
      ghost var es := Entries();
      ghost var i := Find(es, address);
      m := GetMapping(address);
      if m == null {
        m := CreateMapping(address, memory, socket, now);
        if m != null {
          SetTime(m, now, |es|);
        }
      } else {
        SetTime(m, now, i);
      }
    }

    method SetTime(m: Mapping, now: int, ghost i: nat)
      requires i < |spine| && spine[i] == m && Valid()
      modifies m`last
      ensures Valid() && Entries() == old(Entries())[i := old(Entries()[i]).(last := now)]
    {
      m.last := now;
      forall k | 0 <= k < |spine|
        ensures Entries()[k] == if k == i then old(Entries()[i]).(last := now) else old(Entries()[k])
      {
        assert k != i ==> spine[k] != m;
        assert spine[k].Value() == if k == i then old(m.Value()).(last := now) else old(spine[k].Value());
      }
    }

    static ghost predicate AllIn(a: seq<Mapping>, b: seq<Mapping>) {
      forall k :: 0 <= k < |a| ==> a[k] in b
    }

    /** Deletes the mapping at a position and gives the one that takes its place. */
    method DropMapping(m: Mapping, ghost i: nat) returns (next: Mapping?)
      requires Valid() && i < |spine| && spine[i] == m
      modifies this, spine`next
      ensures Valid() && AllIn(spine, old(spine))
      ensures Entries() == Delete(old(Entries()), i) && next == At(spine, i)
    {
      ghost var was := spine;
      hide Valid, Values, Delete, AllIn;
      next := DeleteMapping(m);
      ValuesWithout(was, i);
      AtWithout(was, i);
    }

    static lemma ValuesWithout(ms: seq<Mapping>, i: nat)
      requires i < |ms|
      ensures Values(ms[..i] + ms[i + 1..]) == Delete(Values(ms), i)
    {
      hide Values;
      ValuesConcat(ms[..i], ms[i + 1..]);
      ValuesPrefix(ms, i);
      ValuesSuffix(ms, i + 1);
    }

    static lemma ValuesConcat(a: seq<Mapping>, b: seq<Mapping>)
      ensures Values(a + b) == Values(a) + Values(b)
    {
      hide Values;
    }

    static lemma ValuesPrefix(ms: seq<Mapping>, i: nat)
      requires i <= |ms|
      ensures Values(ms[..i]) == Values(ms)[..i]
    {
      hide Values;
    }

    static lemma ValuesSuffix(ms: seq<Mapping>, i: nat)
      requires i <= |ms|
      ensures Values(ms[i..]) == Values(ms)[i..]
    {
      hide Values;
    }

    static lemma AtWithout(ms: seq<Mapping>, i: nat)
      requires i < |ms|
      ensures At(ms[..i] + ms[i + 1..], i) == At(ms, i + 1) && AllIn(ms[..i] + ms[i + 1..], ms)
    {}

    lemma NextIs(i: nat)
      requires Valid() && i < |spine|
      ensures spine[i].next == At(spine, i + 1)
    {}

    /** One mapping in a sweep; gives the one to go on with. */
    method SweepOne(m: Mapping, received: map<int, int>, now: int, ghost i: nat)
      returns (next: Mapping?, ghost kept: seq<Entry>)
      requires Valid() && i < |spine| && spine[i] == m
      modifies this, spine`next, m`last
      ensures Valid() && AllIn(spine, old(spine))
      ensures kept == Swept(old(Entries()[i]), received, now) && next == At(spine, i + |kept|)
      ensures Entries() == old(Entries())[..i] + kept + old(Entries())[i + 1..]
    {
      hide Values, Valid, At;
      ghost var e := m.Value();
      ghost var es := Entries();
      if m.socket in received {
        SetTime(m, received[m.socket], i);
      }
      if now > m.last + TIMEOUT {
        next := DropMapping(m, i);
        kept := [];
      } else {
        NextIs(i);
        next := m.next;
        kept := [m.Value()];
      }
    }

    /** The first `seen` of the entries have become the first `kept`; the others are as they were. */
    static ghost predicate Midway(es: seq<Entry>, current: seq<Entry>, received: map<int, int>, now: int,
                                  seen: nat, kept: nat)
    {
      && seen <= |es| && kept <= |current|
      && current[..kept] == Sweep(es[..seen], received, now) && current[kept..] == es[seen..]
    }

    /** One round of the sweep; every mapping is one of those in `was`. */
    method SweepRound(m: Mapping, received: map<int, int>, now: int,
                      ghost was: seq<Mapping>, ghost es: seq<Entry>, ghost seen: nat, ghost kept: nat)
      returns (next: Mapping?, ghost kept': nat)
      requires Valid() && AllIn(spine, was) && At(spine, kept) == m
      requires Midway(es, Entries(), received, now, seen, kept)
      modifies this, was`next, was`last
      ensures Valid() && AllIn(spine, was) && next == At(spine, kept')
      ensures seen < |es| && Midway(es, Entries(), received, now, seen + 1, kept')
    {
      hide Values, Valid, Swept, Midway, Sweep;
      assert spine[kept] == m && spine[kept] in was;
      hide At;
      SweepNext(es, Entries(), received, now, seen, kept);
      ghost var s, before := [], spine;
      next, s := SweepOne(m, received, now, kept);
      kept' := kept + |s|;
      hide AllIn;
      AllInTransitive(spine, before, was);
    }

    static lemma AllInTransitive(a: seq<Mapping>, b: seq<Mapping>, c: seq<Mapping>)
      requires AllIn(a, b) && AllIn(b, c)
      ensures AllIn(a, c)
    {}

    /** The expiry sweep: on each readable socket a packet is received, each at its own time. */
    method SweepMappings(received: map<int, int>, now: int)
      requires Valid()
      modifies this, spine`next, spine`last
      ensures Valid() && Entries() == Sweep(old(Entries()), received, now)
    {
      hide Values, Valid, Swept, Midway, Sweep, At, AllIn;
      ghost var es, was := Entries(), spine;
      ghost var seen: nat, kept: nat := 0, 0;
      var walk := head;
      SpineIsStart();
      SweepBegins(es, received, now);
      while walk != null
        invariant Valid() && walk == At(spine, kept) && AllIn(spine, was)
        invariant Midway(es, Entries(), received, now, seen, kept)
        decreases |es| - seen
      {
        walk, kept := SweepRound(walk, received, now, was, es, seen, kept);
        seen := seen + 1;
      }
      AtIs(spine, kept);
      SweepEnds(es, Entries(), received, now, seen, kept);
    }

    static lemma AtIs(ms: seq<Mapping>, i: nat)
      ensures if i < |ms| then At(ms, i) == ms[i] else At(ms, i) == null
    {}

    lemma SpineIsStart()
      requires Valid()
      ensures head == At(spine, 0) && AllIn(spine, spine)
    {}

    static lemma SweepBegins(es: seq<Entry>, received: map<int, int>, now: int)
      ensures Midway(es, es, received, now, 0, 0)
    {}

    static lemma SweepNext(es: seq<Entry>, before: seq<Entry>, received: map<int, int>, now: int,
                           seen: nat, kept: nat)
      requires Midway(es, before, received, now, seen, kept) && kept < |before|
      ensures seen < |es| && before[kept] == es[seen]
      ensures var s := Swept(es[seen], received, now);
              Midway(es, before[..kept] + s + before[kept + 1..], received, now, seen + 1, kept + |s|)
    {
      hide Swept;
      assert before[kept..][0] == es[seen..][0];
      assert es[..seen + 1][..seen] == es[..seen];
      assert before[kept + 1..] == before[kept..][1..] && es[seen + 1..] == es[seen..][1..];
    }

    static lemma SweepEnds(es: seq<Entry>, current: seq<Entry>, received: map<int, int>, now: int,
                           seen: nat, kept: nat)
      requires Midway(es, current, received, now, seen, kept) && kept >= |current|
      ensures current == Sweep(es, received, now)
    {
      assert current[..kept] == current && es[..seen] == es;
    }
  }
}
