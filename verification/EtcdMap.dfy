/** The reactive map of `packages/bsky/src/etcd.ts`: watch events and a snapshot are applied
    as they arrive, and the highest revision of each key wins. */
module EtcdMap {
  import opened Wrappers

  /** A key's value at a revision; a deletion has no value. */
  datatype Versioned = Versioned(rev: int, value: Option<string>)

  datatype Event = Event(key: string, vv: Versioned)

  function Applied(inner: map<string, Versioned>, e: Event): map<string, Versioned> {
    if e.key in inner && inner[e.key].rev > e.vv.rev then inner else inner[e.key := e.vv]
  }

  /** The map after some events, in the order in which they were applied. */
  function Final(events: seq<Event>): map<string, Versioned> {
    if events == [] then map[] else Applied(Final(events[..|events| - 1]), events[|events| - 1])
  }

  /** The first `n` snapshot entries, with the watch events that came in before each. */
  function Interleaved(early: seq<Event>, snapshot: seq<Event>, meanwhile: seq<seq<Event>>, n: nat): seq<Event>
    requires n <= |snapshot| == |meanwhile|
  {
    if n == 0 then early
    else Interleaved(early, snapshot, meanwhile, n - 1) + meanwhile[n - 1] + [snapshot[n - 1]]
  }

  /** The event was in the snapshot, or came in before it or while it was applied. */
  ghost predicate Seen(early: seq<Event>, snapshot: seq<Event>, meanwhile: seq<seq<Event>>, e: Event) {
    e in early || e in snapshot || exists k :: 0 <= k < |meanwhile| && e in meanwhile[k]
  }

  lemma {:induction false} InterleavedHas(early: seq<Event>, snapshot: seq<Event>, meanwhile: seq<seq<Event>>, n: nat, e: Event)
    requires n <= |snapshot| == |meanwhile|
    ensures e in Interleaved(early, snapshot, meanwhile, n) <==>
      e in early || exists k :: 0 <= k < n && (e == snapshot[k] || e in meanwhile[k])
  {
    if n > 0 {
      InterleavedHas(early, snapshot, meanwhile, n - 1, e);
      assert e in Interleaved(early, snapshot, meanwhile, n) <==>
        e in Interleaved(early, snapshot, meanwhile, n - 1) || e in meanwhile[n - 1] || e == snapshot[n - 1];
    }
  }

  lemma SeenExactly(early: seq<Event>, snapshot: seq<Event>, meanwhile: seq<seq<Event>>, e: Event)
    requires |snapshot| == |meanwhile|
    ensures e in Interleaved(early, snapshot, meanwhile, |snapshot|) <==> Seen(early, snapshot, meanwhile, e)
  {
    InterleavedHas(early, snapshot, meanwhile, |snapshot|, e);
    if e in snapshot {
      var k :| 0 <= k < |snapshot| && snapshot[k] == e;
    }
  }

  class Map {
    var inner: map<string, Versioned>
    var notified: nat

    constructor ()
      ensures inner == map[] && notified == 0
    {
      inner, notified := map[], 0;
    }

    function Get(key: string): Option<string>
      reads this
    {
      if key in inner then inner[key].value else None
    }

    /** Handlers are notified of every event that is not out of date. */
    method Apply(e: Event)
      modifies this
      ensures inner == Applied(old(inner), e)
      ensures notified == old(notified) + if e.key in old(inner) && old(inner)[e.key].rev > e.vv.rev then 0 else 1
    {
      if e.key in inner && inner[e.key].rev > e.vv.rev {
        return;
      }
      inner := inner[e.key := e.vv];
      notified := notified + 1;
    }

    /** `connect`: some watch events come in before the snapshot is answered, and some while
        it is being applied, a batch before each of its entries. */
    method Connect(early: seq<Event>, snapshot: seq<Event>, meanwhile: seq<seq<Event>>)
      requires inner == map[] && |meanwhile| == |snapshot|
      modifies this
      ensures inner == Final(Interleaved(early, snapshot, meanwhile, |snapshot|))
      // each key seen is there at its highest revision, with the value of an event seen
      ensures forall e :: Seen(early, snapshot, meanwhile, e) ==> e.key in inner && inner[e.key].rev >= e.vv.rev
      ensures forall key :: key in inner ==> Seen(early, snapshot, meanwhile, Event(key, inner[key]))
    {
      ApplyAll(early, []);
      assert [] + early == early;
      for i := 0 to |snapshot|
        invariant inner == Final(Interleaved(early, snapshot, meanwhile, i))
      {
        ghost var before := Interleaved(early, snapshot, meanwhile, i);
        ApplyAll(meanwhile[i], before);
        FinalSnoc(before + meanwhile[i], snapshot[i]);
        Apply(snapshot[i]);
      }
      forall e | Seen(early, snapshot, meanwhile, e) ensures e.key in inner && inner[e.key].rev >= e.vv.rev {
        SeenExactly(early, snapshot, meanwhile, e);
        FinalIsNewest(Interleaved(early, snapshot, meanwhile, |snapshot|), e.key);
      }
      forall key | key in inner ensures Seen(early, snapshot, meanwhile, Event(key, inner[key])) {
        FinalIsNewest(Interleaved(early, snapshot, meanwhile, |snapshot|), key);
        SeenExactly(early, snapshot, meanwhile, Event(key, inner[key]));
      }
    }

    method ApplyAll(events: seq<Event>, ghost before: seq<Event>)
      requires inner == Final(before)
      modifies this
      ensures inner == Final(before + events)
    {
      assert before + events[..0] == before;
      for i := 0 to |events|
        invariant inner == Final(before + events[..i])
      {
        FinalSnoc(before + events[..i], events[i]);
        assert before + events[..i + 1] == before + events[..i] + [events[i]];
        Apply(events[i]);
      }
      assert events[..|events|] == events;
    }
  }

  lemma FinalSnoc(events: seq<Event>, e: Event)
    ensures Final(events + [e]) == Applied(Final(events), e)
  {
    assert (events + [e])[..|events|] == events;
  }

  /** `e` has the highest revision among the events of its key. */
  ghost predicate Newest(events: seq<Event>, e: Event) {
    e in events && forall a :: a in events && a.key == e.key ==> a.vv.rev <= e.vv.rev
  }

  /** A key is present exactly if there was an event for it, with the value of the newest. */
  lemma {:induction false} FinalIsNewest(events: seq<Event>, key: string)
    ensures key in Final(events) <==> exists e :: e in events && e.key == key
    ensures key in Final(events) ==> Newest(events, Event(key, Final(events)[key]))
  {
    if events != [] {
      var init, e := events[..|events| - 1], events[|events| - 1];
      assert events == init + [e];
      FinalIsNewest(init, key);
      if a :| a in events && a.key == key && a != e { assert a in init; }
      assert forall a :: a in events <==> a in init || a == e;
    }
  }

  /** The events of a key's highest revision all give it the same value. */
  ghost predicate Settled(events: seq<Event>) {
    forall a, b :: Newest(events, a) && Newest(events, b) && a.key == b.key ==> a == b
  }

  ghost predicate SameEvents(a: seq<Event>, b: seq<Event>) {
    forall e :: e in a <==> e in b
  }

  lemma SameNewest(a: seq<Event>, b: seq<Event>, e: Event)
    requires SameEvents(a, b) && Newest(a, e)
    ensures Newest(b, e)
  {
  }

  lemma SettledConverges(a: seq<Event>, b: seq<Event>)
    requires Settled(a) && SameEvents(a, b)
    ensures Final(a) == Final(b)
  {
    forall key ensures (key in Final(a) <==> key in Final(b)) && (key in Final(a) ==> Final(a)[key] == Final(b)[key]) {
      FinalIsNewest(a, key);
      FinalIsNewest(b, key);
      if key in Final(b) { SameNewest(b, a, Event(key, Final(b)[key])); }
    }
  }

  lemma NewestAgainWins(events: seq<Event>, e: Event)
    requires Newest(events, e)
    ensures SameEvents(events, events + [e]) && e.key in Final(events + [e]) && Final(events + [e])[e.key] == e.vv
  {
    FinalSnoc(events, e);
    FinalIsNewest(events, e.key);
  }

  /** The same events, in any order and with any repeats, lead to the same map, exactly if for
      each key those of its highest revision agree. */
  lemma {:induction false} OrderDoesNotMatter(events: seq<Event>)
    ensures Settled(events) <==> forall other :: SameEvents(events, other) ==> Final(other) == Final(events)
  {
    if Settled(events) {
      forall other | SameEvents(events, other) ensures Final(other) == Final(events) {
        SettledConverges(events, other);
      }
    } else {
      var a, b :| Newest(events, a) && Newest(events, b) && a.key == b.key && a != b;
      NewestAgainWins(events, a);
      NewestAgainWins(events, b);
      assert Final(events + [a]) != Final(events + [b]);
    }
  }

  /** Once the events of a key's highest revision agree, that is what the key reads; so a key
      whose newest event is a deletion reads as none, and so does one without events. */
  lemma {:induction false} GetReadsNewest(m: Map, events: seq<Event>, key: string)
    requires m.inner == Final(events) && Settled(events)
    ensures forall e :: Newest(events, e) && e.key == key ==> m.Get(key) == e.vv.value
    ensures m.Get(key).None? <==> forall e :: Newest(events, e) && e.key == key ==> e.vv.value.None?
  {
    FinalIsNewest(events, key);
    if key in m.inner { assert Newest(events, Event(key, m.inner[key])); }
  }

  /** A late, older event changes nothing: a deleted key stays deleted. */
  lemma LateEventIsIgnored(events: seq<Event>, e: Event)
    requires exists d :: d in events && d.key == e.key && d.vv.rev > e.vv.rev
    ensures Final(events + [e]) == Final(events)
  {
    FinalSnoc(events, e);
    FinalIsNewest(events, e.key);
  }

  /** In particular two events commute exactly unless they give one revision of one key two values. */
  lemma CommuteExactly(a: Event, b: Event)
    ensures Final([a, b]) == Final([b, a]) <==> !(a.key == b.key && a.vv.rev == b.vv.rev && a.vv != b.vv)
  {
    Unfold(a, b);
    Unfold(b, a);
    if a.key != b.key {
      assert map[a.key := a.vv][b.key := b.vv] == map[b.key := b.vv][a.key := a.vv];
    } else {
      assert Final([a, b])[a.key] == if a.vv.rev > b.vv.rev then a.vv else b.vv;
      assert Final([b, a])[a.key] == if b.vv.rev > a.vv.rev then b.vv else a.vv;
      assert map[a.key := a.vv][b.key := b.vv] == map[b.key := b.vv];
      assert map[b.key := b.vv][a.key := a.vv] == map[a.key := a.vv];
    }
  }

  lemma Unfold(a: Event, b: Event)
    ensures Final([a, b]) == Applied(map[a.key := a.vv], b)
  {
    FinalSnoc([], a);
    FinalSnoc([a], b);
    assert [] + [a] == [a] && [a] + [b] == [a, b];
  }

  /** So connecting ends in the map of all the events seen, as if they had come in order of
      revision, or in any other order. */
  lemma {:induction false} ConnectConverges(early: seq<Event>, snapshot: seq<Event>, meanwhile: seq<seq<Event>>, sorted: seq<Event>)
    requires |meanwhile| == |snapshot| && Settled(sorted)
    requires SameEvents(sorted, Interleaved(early, snapshot, meanwhile, |snapshot|))
    ensures Final(Interleaved(early, snapshot, meanwhile, |snapshot|)) == Final(sorted)
  {
    SettledConverges(sorted, Interleaved(early, snapshot, meanwhile, |snapshot|));
  }
}
