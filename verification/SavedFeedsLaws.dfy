/** What each operation on the saved feeds stores, feed by feed and uri by uri, and what it
    leaves alone. */
module SavedFeedsLaws {
  import opened Wrappers
  import opened SavedFeeds

  // ---------------------------------------------------------- other preferences

  predicate IsFeeds(p: Pref) {
    p.FeedsV1? || p.FeedsV2?
  }

  /** The preferences that are none of the two versions', in order. */
  function Others(prefs: seq<Pref>): seq<Pref> {
    if prefs == [] then []
    else Others(prefs[..|prefs| - 1]) + if IsFeeds(prefs[|prefs| - 1]) then [] else [prefs[|prefs| - 1]]
  }

  lemma OthersSnoc(prefs: seq<Pref>, p: Pref)
    ensures Others(prefs + [p]) == Others(prefs) + if IsFeeds(p) then [] else [p]
  {
    assert (prefs + [p])[..|prefs|] == prefs;
  }

  lemma {:induction false} OthersDropV1(prefs: seq<Pref>)
    ensures Others(DropV1(prefs)) == Others(prefs)
  {
    if prefs != [] {
      var init, p := prefs[..|prefs| - 1], prefs[|prefs| - 1];
      OthersDropV1(init);
      OthersSnoc(DropV1(init), p);
      assert DropV1(init) + [] == DropV1(init);
    }
  }

  lemma {:induction false} OthersDropV2(prefs: seq<Pref>)
    ensures Others(DropV2(prefs)) == Others(prefs)
  {
    if prefs != [] {
      var init, p := prefs[..|prefs| - 1], prefs[|prefs| - 1];
      OthersDropV2(init);
      OthersSnoc(DropV2(init), p);
      assert DropV2(init) + [] == DropV2(init);
    }
  }

  lemma OthersWriteV1(prefs: seq<Pref>, saved: seq<string>, pinned: seq<string>)
    ensures Others(WriteV1(prefs, saved, pinned)) == Others(prefs)
  {
    OthersDropV1(prefs);
    OthersSnoc(DropV1(prefs), FeedsV1(saved, pinned, true));
  }

  lemma OthersWriteV2(prefs: seq<Pref>, feeds: seq<Feed>)
    ensures Others(WriteV2(prefs, feeds)) == Others(prefs)
  {
    var items := PinnedFirst(feeds);
    var updated := DropV2(prefs) + [FeedsV2(items, true)];
    OthersDropV2(prefs);
    OthersSnoc(DropV2(prefs), FeedsV2(items, true));
    if LastV1(prefs).Some? {
      OthersDropV1(updated);
      OthersSnoc(DropV1(updated), MergedV1(LastV1(prefs).value, items));
    }
  }

  lemma StepKeepsOthers(prefs: seq<Pref>, op: Op)
    ensures Others(Apply(prefs, op)) == Others(prefs)
  {
    var saved, pinned := Saved(prefs), Pinned(prefs);
    match op
    case SetSavedFeeds(s, p) => OthersWriteV1(prefs, s, p);
    case AddSaved(v) => OthersWriteV1(prefs, Remove(saved, v) + [v], pinned);
    case RemoveSaved(v) => OthersWriteV1(prefs, Remove(saved, v), Remove(pinned, v));
    case AddPinned(v) => OthersWriteV1(prefs, Remove(saved, v) + [v], Remove(pinned, v) + [v]);
    case RemovePinned(v) => OthersWriteV1(prefs, saved, Remove(pinned, v));
    case _ => OthersWriteV2(prefs, Callback(Items(prefs), op));
  }

  /** No run touches any other preference, or moves it among those. */
  lemma {:induction false} RunKeepsOthers(prefs: seq<Pref>, ops: seq<Op>)
    ensures Others(Run(prefs, ops)) == Others(prefs)
  {
    if ops != [] {
      RunKeepsOthers(prefs, ops[..|ops| - 1]);
      StepKeepsOthers(Run(prefs, ops[..|ops| - 1]), ops[|ops| - 1]);
    }
  }

  // ------------------------------------------------------------------ version 2

  /** The first update of this id, if there is one, is at `i`. */
  predicate FirstUpdate(updates: seq<Feed>, id: string, i: nat) {
    i < |updates| && updates[i].id == id && forall j :: 0 <= j < i ==> updates[j].id != id
  }

  /** An update changes whether a feed is pinned, as the first one of its id says, and nothing else. */
  lemma {:induction false} RepinnedExactly(f: Feed, updates: seq<Feed>)
    ensures var r := Repinned(f, updates);
      && r.id == f.id && r.kind == f.kind && r.value == f.value
      && (!HasId(updates, f.id) ==> r.pinned == f.pinned)
      && forall i: nat :: FirstUpdate(updates, f.id, i) ==> r.pinned == updates[i].pinned
  {
    if updates != [] && updates[0].id != f.id {
      var rest := updates[1..];
      RepinnedExactly(f, rest);
      assert HasId(rest, f.id) ==> HasId(updates, f.id) by {
        if HasId(rest, f.id) {
          var i :| 0 <= i < |rest| && rest[i].id == f.id;
          assert updates[i + 1].id == f.id;
        }
      }
      forall i: nat | FirstUpdate(updates, f.id, i) ensures Repinned(f, updates).pinned == updates[i].pinned {
        assert forall j :: 0 <= j < |rest| ==> rest[j] == updates[j + 1];
        assert FirstUpdate(rest, f.id, i - 1);
      }
    }
  }

  /** A list of feeds is another one, repinned. */
  ghost predicate UpdateOf(new_: seq<Feed>, old_: seq<Feed>, updates: seq<Feed>) {
    |new_| == |old_| && forall k :: 0 <= k < |old_| ==>
      && new_[k].id == old_[k].id && new_[k].kind == old_[k].kind && new_[k].value == old_[k].value
      && (!HasId(updates, old_[k].id) ==> new_[k].pinned == old_[k].pinned)
      && forall i: nat :: FirstUpdate(updates, old_[k].id, i) ==> new_[k].pinned == updates[i].pinned
  }

  /** What updating stores: the feeds there were, repinned, the pinned ones first. */
  lemma {:induction false} UpdateStores(prefs: seq<Pref>, updates: seq<Feed>) returns (feeds: seq<Feed>)
    ensures Items(Apply(prefs, Update(updates))) == PinnedFirst(feeds) && UpdateOf(feeds, Items(prefs), updates)
  {
    feeds := Callback(Items(prefs), Update(updates));
    AfterWriteV2(prefs, feeds);
    forall k | 0 <= k < |feeds| ensures feeds[k] == Repinned(Items(prefs)[k], updates) { }
    forall k | 0 <= k < |feeds|
      ensures var g := Items(prefs)[k];
        && feeds[k].id == g.id && feeds[k].kind == g.kind && feeds[k].value == g.value
        && (!HasId(updates, g.id) ==> feeds[k].pinned == g.pinned)
        && forall i: nat :: FirstUpdate(updates, g.id, i) ==> feeds[k].pinned == updates[i].pinned
    {
      RepinnedExactly(Items(prefs)[k], updates);
    }
  }

  /** What adding stores: the feeds there were and then the new ones, the pinned ones first. */
  lemma {:induction false} AddStores(prefs: seq<Pref>, feeds: seq<Feed>)
    ensures Items(Apply(prefs, Add(feeds))) == PinnedFirst(Items(prefs) + feeds)
  {
    AfterWriteV2(prefs, Items(prefs) + feeds);
  }

  lemma {:induction false} DropIdsKeeps(items: seq<Feed>, ids: seq<string>, f: Feed)
    ensures f in DropIds(items, ids) <==> f in items && (f.id !in ids || f.id == "")
  {
    if items != [] {
      var init, last := items[..|items| - 1], items[|items| - 1];
      DropIdsKeeps(init, ids, f);
      assert f in items <==> f in init || f == last;
    }
  }

  lemma {:induction false} KeepHas(feeds: seq<Feed>, pinned: bool, f: Feed)
    ensures f in Keep(feeds, pinned) <==> f in feeds && f.pinned == pinned
  {
    if feeds != [] {
      var init, last := feeds[..|feeds| - 1], feeds[|feeds| - 1];
      KeepHas(init, pinned, f);
      assert f in feeds <==> f in init || f == last;
    }
  }

  lemma PinnedFirstHas(feeds: seq<Feed>, f: Feed)
    ensures f in PinnedFirst(feeds) <==> f in feeds
  {
    KeepHas(feeds, true, f);
    KeepHas(feeds, false, f);
  }

  /** What removing stores: the feeds there were whose ids were not named, unchanged. */
  lemma {:induction false} RemoveStores(prefs: seq<Pref>, ids: seq<string>, f: Feed)
    ensures f in Items(Apply(prefs, RemoveIds(ids))) <==> f in Items(prefs) && (f.id !in ids || f.id == "")
  {
    var kept := DropIds(Items(prefs), ids);
    assert Items(Apply(prefs, RemoveIds(ids))) == PinnedFirst(kept) by { AfterWriteV2(prefs, kept); }
    PinnedFirstHas(kept, f);
    DropIdsKeeps(Items(prefs), ids, f);
  }

  // ------------------------------------------------------------------ version 1

  lemma {:induction false} RemoveConcat(a: seq<string>, b: seq<string>, v: string)
    ensures Remove(a + b, v) == Remove(a, v) + Remove(b, v)
  {
    if b == [] {
      assert a + b == a;
    } else {
      var init := b[..|b| - 1];
      RemoveConcat(a, init, v);
      assert (a + b)[..|a + b| - 1] == a + init && (a + b)[|a + b| - 1] == b[|b| - 1];
      assert Remove(a, v) + (Remove(init, v) + [b[|b| - 1]]) == Remove(a, v) + Remove(init, v) + [b[|b| - 1]];
    }
  }

  lemma {:induction false} RemoveAbsent(a: seq<string>, v: string)
    requires v !in a
    ensures Remove(a, v) == a
  {
    if a != [] {
      assert a == a[..|a| - 1] + [a[|a| - 1]];
      RemoveAbsent(a[..|a| - 1], v);
    }
  }

  /** Removing a uri that is there once takes out just that. */
  lemma RemoveOnce(a: seq<string>, b: seq<string>, v: string)
    requires v !in a && v !in b
    ensures Remove(a + [v] + b, v) == a + b && Remove(a + b, v) == a + b
  {
    RemoveConcat(a + [v], b, v);
    RemoveConcat(a, [v], v);
    RemoveConcat(a, b, v);
    RemoveAbsent(a, v);
    RemoveAbsent(b, v);
    assert Remove([v], v) == [];
  }

  /** `s` is `a + b`, with `v` between the two at most. */
  predicate Around(s: seq<string>, a: seq<string>, b: seq<string>, v: string) {
    v !in a && v !in b && (s == a + [v] + b || s == a + b)
  }

  lemma RemoveAround(s: seq<string>, a: seq<string>, b: seq<string>, v: string)
    requires Around(s, a, b, v)
    ensures Remove(s, v) == a + b
  {
    RemoveOnce(a, b, v);
  }

  predicate Lists(prefs: seq<Pref>, saved: seq<string>, pinned: seq<string>) {
    Saved(prefs) == saved && Pinned(prefs) == pinned
  }

  lemma WriteV1Lists(prefs: seq<Pref>, saved: seq<string>, pinned: seq<string>)
    ensures Lists(WriteV1(prefs, saved, pinned), saved, pinned)
  {
    AfterWriteV1(prefs, saved, pinned);
  }

  /** The deprecated operations move or remove the one uri and keep the others in their order. */
  lemma {:induction false} AddSavedStores(prefs: seq<Pref>, v: string, a: seq<string>, b: seq<string>)
    requires Around(Saved(prefs), a, b, v)
    ensures Lists(Apply(prefs, AddSaved(v)), a + b + [v], Pinned(prefs))
  {
    RemoveAround(Saved(prefs), a, b, v);
    WriteV1Lists(prefs, a + b + [v], Pinned(prefs));
  }

  lemma {:induction false} RemoveSavedStores(
      prefs: seq<Pref>, v: string, a: seq<string>, b: seq<string>, c: seq<string>, d: seq<string>)
    requires Around(Saved(prefs), a, b, v) && Around(Pinned(prefs), c, d, v)
    ensures Lists(Apply(prefs, RemoveSaved(v)), a + b, c + d)
  {
    RemoveAround(Saved(prefs), a, b, v);
    RemoveAround(Pinned(prefs), c, d, v);
    WriteV1Lists(prefs, a + b, c + d);
  }

  lemma {:induction false} AddPinnedStores(
      prefs: seq<Pref>, v: string, a: seq<string>, b: seq<string>, c: seq<string>, d: seq<string>)
    requires Around(Saved(prefs), a, b, v) && Around(Pinned(prefs), c, d, v)
    ensures Lists(Apply(prefs, AddPinned(v)), a + b + [v], c + d + [v])
  {
    var saved, pinned := a + b + [v], c + d + [v];
    assert Apply(prefs, AddPinned(v)) == WriteV1(prefs, saved, pinned) by {
      RemoveAround(Saved(prefs), a, b, v);
      RemoveAround(Pinned(prefs), c, d, v);
    }
    WriteV1Lists(prefs, saved, pinned);
  }

  lemma {:induction false} RemovePinnedStores(prefs: seq<Pref>, v: string, c: seq<string>, d: seq<string>)
    requires Around(Pinned(prefs), c, d, v)
    ensures Lists(Apply(prefs, RemovePinned(v)), Saved(prefs), c + d)
  {
    RemoveAround(Pinned(prefs), c, d, v);
    WriteV1Lists(prefs, Saved(prefs), c + d);
  }

  /** Every list without duplicates is around any uri. */
  lemma {:induction false} DistinctIsAround(s: seq<string>, v: string) returns (a: seq<string>, b: seq<string>)
    requires Distinct(s)
    ensures Around(s, a, b, v)
  {
    if i :| 0 <= i < |s| && s[i] == v {
      a, b := s[..i], s[i + 1..];
      assert s == a + [v] + b;
    } else {
      a, b := s, [];
      assert s == a + b;
    }
  }

  // -------------------------------------------------------------- the double-write

  /** The uris that version 1 is given: those of the feeds and lists, and none else. */
  lemma {:induction false} CompatibleExactly(items: seq<Feed>, f: Feed)
    ensures f in Compatible(items) <==> f in items && (f.kind == "feed" || f.kind == "list")
  {
    if items != [] {
      var init, last := items[..|items| - 1], items[|items| - 1];
      CompatibleExactly(init, f);
      assert f in items <==> f in init || f == last;
    }
  }

  lemma {:induction false} DedupDistinct(s: seq<string>)
    requires Distinct(s)
    ensures Dedup(s) == s
  {
    if s != [] {
      var init, x := s[..|s| - 1], s[|s| - 1];
      assert s == init + [x] && x !in init;
      DedupDistinct(init);
    }
  }

  lemma {:induction false} DedupPrefix(a: seq<string>, b: seq<string>)
    requires Distinct(a)
    ensures a <= Dedup(a + b)
  {
    if b == [] {
      assert a + b == a;
      DedupDistinct(a);
    } else {
      DedupPrefix(a, b[..|b| - 1]);
      assert (a + b)[..|a + b| - 1] == a + b[..|b| - 1];
    }
  }

  /** A write of version 2 keeps what version 1 lists, in its order and before anything new, and
      adds exactly the uris of the feeds and lists that are stored, and the pinned ones of them. */
  lemma {:induction false} DoubleWriteStores(prefs: seq<Pref>, feeds: seq<Feed>, uri: string)
    requires LastV1(prefs).Some? && Consistent(Saved(prefs), Pinned(prefs))
    ensures var p, items := WriteV2(prefs, feeds), PinnedFirst(feeds);
      && Saved(prefs) <= Saved(p) && Pinned(prefs) <= Pinned(p)
      && (uri in Saved(p) <==> uri in Saved(prefs) || uri in Values(Compatible(items)))
      && (uri in Pinned(p) <==> uri in Pinned(prefs) || uri in Values(Keep(Compatible(items), true)))
  {
    var v1, items := LastV1(prefs).value, PinnedFirst(feeds);
    AfterWriteV2(prefs, feeds);
    MergeKeepsConsistent(v1, items);
    DedupPrefix(v1.saved, Values(Compatible(items)));
    DedupPrefix(v1.pinned, Values(Keep(Compatible(items), true)));
  }
}
