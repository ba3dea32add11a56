/** Saved feeds of `packages/api/src/agent.ts` and `util.ts`: the second version of the
    preference, and its double-writes into the first. */
module SavedFeeds {
  import opened Wrappers

  datatype Feed = Feed(id: string, kind: string, value: string, pinned: bool)

  /** One stored preference; `valid` says that it passes its schema. */
  datatype Pref =
    | FeedsV1(saved: seq<string>, pinned: seq<string>, valid: bool)
    | FeedsV2(items: seq<Feed>, valid: bool)
    | Other(id: int)

  // ------------------------------------------------------------ list tools

  predicate HasId(feeds: seq<Feed>, id: string) {
    exists i :: 0 <= i < |feeds| && feeds[i].id == id
  }

  predicate Distinct<T(==)>(s: seq<T>) {
    forall i, j :: 0 <= i < j < |s| ==> s[i] != s[j]
  }

  /** `Array.from(new Set(s))`: the first of each, in order. */
  function Dedup(s: seq<string>): (r: seq<string>)
    ensures Distinct(r)
    ensures forall x :: x in r <==> x in s
  {
    if s == [] then []
    else
      var init, x := Dedup(s[..|s| - 1]), s[|s| - 1];
      assert s == s[..|s| - 1] + [x];
      if x in init then init else init + [x]
  }

  /** `s.filter((uri) => uri !== v)` */
  function Remove(s: seq<string>, v: string): (r: seq<string>)
    ensures forall x :: x in r <==> x in s && x != v
    ensures Distinct(s) ==> Distinct(r)
  {
    if s == [] then []
    else
      var init, x := Remove(s[..|s| - 1], v), s[|s| - 1];
      assert s == s[..|s| - 1] + [x];
      assert Distinct(s) ==> x !in s[..|s| - 1];
      if x == v then init else init + [x]
  }

  /** The feeds with the given pinned status, in order. */
  function Keep(feeds: seq<Feed>, pinned: bool): (r: seq<Feed>)
    ensures forall i :: 0 <= i < |r| ==> r[i].pinned == pinned
  {
    if feeds == [] then []
    else
      var init, f := feeds[..|feeds| - 1], feeds[|feeds| - 1];
      Keep(init, pinned) + if f.pinned == pinned then [f] else []
  }

  /** `[...feeds].sort(...)` with the pinned ones first. */
  function PinnedFirst(feeds: seq<Feed>): seq<Feed> {
    Keep(feeds, true) + Keep(feeds, false)
  }

  lemma {:induction false} KeepConcat(a: seq<Feed>, b: seq<Feed>, pinned: bool)
    ensures Keep(a + b, pinned) == Keep(a, pinned) + Keep(b, pinned)
  {
    if b == [] {
      assert a + b == a;
    } else {
      var init := b[..|b| - 1];
      KeepConcat(a, init, pinned);
      assert (a + b)[..|a + b| - 1] == a + init;
    }
  }

  lemma {:induction false} KeepAll(s: seq<Feed>, pinned: bool)
    requires forall i :: 0 <= i < |s| ==> s[i].pinned == pinned
    ensures Keep(s, pinned) == s && Keep(s, !pinned) == []
  {
    if s != [] { KeepAll(s[..|s| - 1], pinned); }
  }

  /** The comparator's order. */
  predicate Ordered(r: seq<Feed>) {
    forall i, j :: 0 <= i < j < |r| && r[j].pinned ==> r[i].pinned
  }

  /** A stable sort by that comparator keeps the feeds of either status in their order. There
      is only one such sort, and it is `PinnedFirst`. */
  lemma {:induction false} StableSortIsPinnedFirst(feeds: seq<Feed>, r: seq<Feed>)
    ensures Ordered(r) && Keep(r, true) == Keep(feeds, true) && Keep(r, false) == Keep(feeds, false) <==>
      r == PinnedFirst(feeds)
  {
    var p, u := Keep(feeds, true), Keep(feeds, false);
    KeepAll(p, true);
    KeepAll(u, false);
    KeepConcat(p, u, true);
    KeepConcat(p, u, false);
    if Ordered(r) { OrderedSplits(r); }
  }

  lemma KeepSnoc(init: seq<Feed>, f: Feed, pinned: bool)
    ensures Keep(init + [f], pinned) == Keep(init, pinned) + if f.pinned == pinned then [f] else []
  {
    assert (init + [f])[..|init|] == init;
  }

  lemma {:induction false} OrderedSplits(r: seq<Feed>)
    requires Ordered(r)
    ensures r == PinnedFirst(r)
  {
    if r != [] {
      var init, f := r[..|r| - 1], r[|r| - 1];
      if f.pinned {
        KeepAll(r, true);
      } else {
        OrderedSplits(init);
        PinnedFirstSnoc(init, f);
        assert r == init + [f];
      }
    }
  }

  lemma PinnedFirstSnoc(init: seq<Feed>, f: Feed)
    requires !f.pinned && init == PinnedFirst(init)
    ensures init + [f] == PinnedFirst(init + [f])
  {
    KeepSnoc(init, f, true);
    KeepSnoc(init, f, false);
    assert Keep(init, true) + (Keep(init, false) + [f]) == Keep(init, true) + Keep(init, false) + [f];
  }

  // ------------------------------------------------------------ overwriting

  /** The feeds that no later feed of the same id replaces. */
  function LastOfEach(feeds: seq<Feed>): seq<Feed> {
    if feeds == [] then []
    else (if HasId(feeds[1..], feeds[0].id) then [] else [feeds[0]]) + LastOfEach(feeds[1..])
  }

  /** `delete` on a map kept in insertion order. */
  function DropId(entries: seq<Feed>, id: string): seq<Feed> {
    if entries == [] then []
    else (if entries[0].id == id then [] else [entries[0]]) + DropId(entries[1..], id)
  }

  /** The map that `overwriteSavedFeeds` fills: removing and re-inserting keeps the last feed
      of each id, in the order of those last occurrences. */
  method UniqueSavedFeeds(savedFeeds: seq<Feed>) returns (entries: seq<Feed>)
    ensures entries == LastOfEach(savedFeeds)
  {
    entries := [];
    for i := 0 to |savedFeeds|
      invariant entries == LastOfEach(savedFeeds[..i])
    {
      var feed := savedFeeds[i];
      LastOfEachSnoc(savedFeeds[..i], feed);
      assert savedFeeds[..i + 1] == savedFeeds[..i] + [feed];
      entries := DropId(entries, feed.id) + [feed];
    }
    assert savedFeeds[..|savedFeeds|] == savedFeeds;
  }

  lemma HasIdSnoc(feeds: seq<Feed>, f: Feed, id: string)
    ensures HasId(feeds + [f], id) <==> HasId(feeds, id) || f.id == id
  {
    if HasId(feeds, id) {
      var i :| 0 <= i < |feeds| && feeds[i].id == id;
      assert (feeds + [f])[i].id == id;
    }
    if f.id == id { assert (feeds + [f])[|feeds|].id == id; }
  }

  lemma DropIdCons(f: Feed, rest: seq<Feed>, id: string)
    ensures DropId([f] + rest, id) == (if f.id == id then [] else [f]) + DropId(rest, id)
  {
    assert ([f] + rest)[1..] == rest;
  }

  lemma {:induction false} LastOfEachSnoc(feeds: seq<Feed>, f: Feed)
    ensures LastOfEach(feeds + [f]) == DropId(LastOfEach(feeds), f.id) + [f]
  {
    if feeds == [] {
      assert feeds + [f] == [f];
    } else {
      var head, tail := feeds[0], feeds[1..];
      LastOfEachSnoc(tail, f);
      assert (feeds + [f])[1..] == tail + [f];
      HasIdSnoc(tail, f, head.id);
      if HasId(tail, head.id) {
        assert LastOfEach(feeds) == LastOfEach(tail);
      } else {
        DropIdCons(head, LastOfEach(tail), f.id);
      }
    }
  }

  /** One feed for each id that was given, and it is the last one given for that id. */
  lemma {:induction false} LastOfEachIsTheLast(feeds: seq<Feed>, f: Feed)
    ensures f in LastOfEach(feeds) <==>
      exists i :: 0 <= i < |feeds| && feeds[i] == f && forall j :: i < j < |feeds| ==> feeds[j].id != f.id
  {
    if feeds != [] {
      var tail := feeds[1..];
      LastOfEachIsTheLast(tail, f);
      assert forall j :: 1 <= j < |feeds| ==> feeds[j] == tail[j - 1];
      if f in LastOfEach(tail) {
        var i :| 0 <= i < |tail| && tail[i] == f && forall j :: i < j < |tail| ==> tail[j].id != f.id;
        assert feeds[i + 1] == f;
      }
    }
  }

  ghost predicate DistinctIds(feeds: seq<Feed>) {
    forall i, j :: 0 <= i < j < |feeds| ==> feeds[i].id != feeds[j].id
  }

  lemma {:induction false} LastOfEachDistinct(feeds: seq<Feed>)
    ensures DistinctIds(LastOfEach(feeds))
    ensures forall id :: HasId(LastOfEach(feeds), id) ==> HasId(feeds, id)
  {
    if feeds != [] {
      var tail := feeds[1..];
      LastOfEachDistinct(tail);
      forall id | HasId(LastOfEach(feeds), id) ensures HasId(feeds, id) {
        if HasId(tail, id) {
          var i :| 0 <= i < |tail| && tail[i].id == id;
          assert feeds[i + 1].id == id;
        } else {
          assert !HasId(LastOfEach(tail), id);
        }
      }
    }
  }

  // ------------------------------------------------------- writing version 2

  function Values(feeds: seq<Feed>): seq<string> {
    seq(|feeds|, i requires 0 <= i < |feeds| => feeds[i].value)
  }

  /** `savedFeedsToUriArrays`: the pinned uris, and all of them. */
  method SavedFeedsToUriArrays(savedFeeds: seq<Feed>) returns (pinned: seq<string>, saved: seq<string>)
    ensures pinned == Values(Keep(savedFeeds, true)) && saved == Values(savedFeeds)
  {
    pinned, saved := [], [];
    for i := 0 to |savedFeeds|
      invariant pinned == Values(Keep(savedFeeds[..i], true)) && saved == Values(savedFeeds[..i])
    {
      var feed := savedFeeds[i];
      assert savedFeeds[..i + 1] == savedFeeds[..i] + [feed];
      KeepSnoc(savedFeeds[..i], feed, true);
      ValuesSnoc(savedFeeds[..i], feed);
      ValuesSnoc(Keep(savedFeeds[..i], true), feed);
      if feed.pinned {
        pinned := pinned + [feed.value];
        saved := saved + [feed.value];
      } else {
        saved := saved + [feed.value];
      }
    }
    assert savedFeeds[..|savedFeeds|] == savedFeeds;
  }

  lemma ValuesSnoc(feeds: seq<Feed>, f: Feed)
    ensures Values(feeds + [f]) == Values(feeds) + [f.value]
  {
  }

  function LastV1(prefs: seq<Pref>): (r: Option<Pref>)
    ensures r.Some? ==> r.value.FeedsV1? && r.value.valid
  {
    if prefs == [] then None
    else if prefs[|prefs| - 1].FeedsV1? && prefs[|prefs| - 1].valid then Some(prefs[|prefs| - 1])
    else LastV1(prefs[..|prefs| - 1])
  }

  function LastV2(prefs: seq<Pref>): (r: Option<Pref>)
    ensures r.Some? ==> r.value.FeedsV2? && r.value.valid
  {
    if prefs == [] then None
    else if prefs[|prefs| - 1].FeedsV2? && prefs[|prefs| - 1].valid then Some(prefs[|prefs| - 1])
    else LastV2(prefs[..|prefs| - 1])
  }

  /** Filters out every preference of the version, malformed ones too. */
  function DropV1(prefs: seq<Pref>): seq<Pref> {
    if prefs == [] then []
    else DropV1(prefs[..|prefs| - 1]) + if prefs[|prefs| - 1].FeedsV1? then [] else [prefs[|prefs| - 1]]
  }

  function DropV2(prefs: seq<Pref>): seq<Pref> {
    if prefs == [] then []
    else DropV2(prefs[..|prefs| - 1]) + if prefs[|prefs| - 1].FeedsV2? then [] else [prefs[|prefs| - 1]]
  }

  /** Version 1 only knows feeds and lists. */
  function Compatible(items: seq<Feed>): seq<Feed> {
    if items == [] then []
    else
      var init, f := items[..|items| - 1], items[|items| - 1];
      Compatible(init) + if f.kind == "feed" || f.kind == "list" then [f] else []
  }

  function Items(prefs: seq<Pref>): seq<Feed> {
    if LastV2(prefs).Some? then LastV2(prefs).value.items else []
  }

  function MergedV1(v1: Pref, items: seq<Feed>): Pref
    requires v1.FeedsV1?
  {
    var compatible := Compatible(items);
    v1.(saved := Dedup(v1.saved + Values(compatible)), pinned := Dedup(v1.pinned + Values(Keep(compatible, true))))
  }

  /** `updateSavedFeedsV2Preferences`, given what its callback returned. */
  function WriteV2(prefs: seq<Pref>, newSavedFeeds: seq<Feed>): seq<Pref> {
    var items := PinnedFirst(newSavedFeeds);
    var updated := DropV2(prefs) + [FeedsV2(items, true)];
    var v1 := LastV1(prefs);
    if v1.None? then updated else DropV1(updated) + [MergedV1(v1.value, items)]
  }

  // ------------------------------------------------------- writing version 1

  /** `updateFeedPreferences`, given what its callback returned. */
  function WriteV1(prefs: seq<Pref>, saved: seq<string>, pinned: seq<string>): seq<Pref> {
    DropV1(prefs) + [FeedsV1(saved, pinned, true)]
  }

  function Saved(prefs: seq<Pref>): seq<string> {
    if LastV1(prefs).Some? then LastV1(prefs).value.saved else []
  }

  function Pinned(prefs: seq<Pref>): seq<string> {
    if LastV1(prefs).Some? then LastV1(prefs).value.pinned else []
  }

  // ------------------------------------------------------------- operations

  datatype Op =
    | Overwrite(feeds: seq<Feed>)
    | Update(feeds: seq<Feed>)
    | Add(feeds: seq<Feed>)
    | RemoveIds(ids: seq<string>)
    | SetSavedFeeds(saved: seq<string>, pinned: seq<string>)
    | AddSaved(uri: string)
    | RemoveSaved(uri: string)
    | AddPinned(uri: string)
    | RemovePinned(uri: string)

  /** The first of the updates with this feed's id decides about its being pinned. */
  function Repinned(f: Feed, updates: seq<Feed>): Feed {
    if updates == [] then f
    else if updates[0].id == f.id then f.(pinned := updates[0].pinned)
    else Repinned(f, updates[1..])
  }

  /** `savedFeeds.filter((feed) => !ids.find((id) => feed.id === id))`: the id found is the test,
      so that a feed whose id is empty is never removed. */
  function DropIds(items: seq<Feed>, ids: seq<string>): seq<Feed> {
    if items == [] then []
    else
      var init, f := items[..|items| - 1], items[|items| - 1];
      DropIds(init, ids) + if f.id in ids && f.id != "" then [] else [f]
  }

  /** What the callbacks of the four operations on version 2 return. */
  function Callback(items: seq<Feed>, op: Op): seq<Feed>
    requires op.Overwrite? || op.Update? || op.Add? || op.RemoveIds?
  {
    match op
    case Overwrite(feeds) => LastOfEach(feeds)
    case Update(feeds) => seq(|items|, i requires 0 <= i < |items| => Repinned(items[i], feeds))
    case Add(feeds) => items + feeds
    case RemoveIds(ids) => DropIds(items, ids)
  }

  function Apply(prefs: seq<Pref>, op: Op): seq<Pref> {
    var saved, pinned := Saved(prefs), Pinned(prefs);
    match op
    case Overwrite(_) => WriteV2(prefs, Callback(Items(prefs), op))
    case Update(_) => WriteV2(prefs, Callback(Items(prefs), op))
    case Add(_) => WriteV2(prefs, Callback(Items(prefs), op))
    case RemoveIds(_) => WriteV2(prefs, Callback(Items(prefs), op))
    case SetSavedFeeds(s, p) => WriteV1(prefs, s, p)
    case AddSaved(v) => WriteV1(prefs, Remove(saved, v) + [v], pinned)
    case RemoveSaved(v) => WriteV1(prefs, Remove(saved, v), Remove(pinned, v))
    case AddPinned(v) => WriteV1(prefs, Remove(saved, v) + [v], Remove(pinned, v) + [v])
    case RemovePinned(v) => WriteV1(prefs, saved, Remove(pinned, v))
  }

  function Run(prefs: seq<Pref>, ops: seq<Op>): seq<Pref> {
    if ops == [] then prefs else Apply(Run(prefs, ops[..|ops| - 1]), ops[|ops| - 1])
  }

  // -------------------------------------------------- what each write leaves

  lemma LastSnoc(prefs: seq<Pref>, p: Pref)
    ensures LastV1(prefs + [p]) == if p.FeedsV1? && p.valid then Some(p) else LastV1(prefs)
    ensures LastV2(prefs + [p]) == if p.FeedsV2? && p.valid then Some(p) else LastV2(prefs)
    ensures DropV1(prefs + [p]) == DropV1(prefs) + if p.FeedsV1? then [] else [p]
  {
    assert (prefs + [p])[..|prefs|] == prefs;
  }

  lemma {:induction false} DropV1KeepsV2(prefs: seq<Pref>)
    ensures LastV2(DropV1(prefs)) == LastV2(prefs)
  {
    if prefs != [] {
      DropV1KeepsV2(prefs[..|prefs| - 1]);
      LastSnoc(DropV1(prefs[..|prefs| - 1]), prefs[|prefs| - 1]);
      assert DropV1(prefs[..|prefs| - 1]) + [] == DropV1(prefs[..|prefs| - 1]);
    }
  }

  lemma {:induction false} DropV2KeepsV1(prefs: seq<Pref>)
    ensures LastV1(DropV2(prefs)) == LastV1(prefs)
  {
    if prefs != [] {
      DropV2KeepsV1(prefs[..|prefs| - 1]);
      LastSnoc(DropV2(prefs[..|prefs| - 1]), prefs[|prefs| - 1]);
      assert DropV2(prefs[..|prefs| - 1]) + [] == DropV2(prefs[..|prefs| - 1]);
    }
  }

  /** A write of version 2 stores exactly the sorted feeds, and adds them to version 1 if
      there is one. */
  lemma {:induction false} AfterWriteV2(prefs: seq<Pref>, feeds: seq<Feed>)
    ensures Items(WriteV2(prefs, feeds)) == PinnedFirst(feeds)
    ensures LastV1(WriteV2(prefs, feeds)) ==
      if LastV1(prefs).None? then None else Some(MergedV1(LastV1(prefs).value, PinnedFirst(feeds)))
  {
    var v2 := FeedsV2(PinnedFirst(feeds), true);
    var updated := DropV2(prefs) + [v2];
    LastSnoc(DropV2(prefs), v2);
    DropV2KeepsV1(prefs);
    if LastV1(prefs).Some? {
      var v1 := MergedV1(LastV1(prefs).value, PinnedFirst(feeds));
      DropV1KeepsV2(updated);
      LastSnoc(DropV1(updated), v1);
    }
  }

  lemma AfterWriteV1(prefs: seq<Pref>, saved: seq<string>, pinned: seq<string>)
    ensures Saved(WriteV1(prefs, saved, pinned)) == saved && Pinned(WriteV1(prefs, saved, pinned)) == pinned
    ensures Items(WriteV1(prefs, saved, pinned)) == Items(prefs)
  {
    LastSnoc(DropV1(prefs), FeedsV1(saved, pinned, true));
    DropV1KeepsV2(prefs);
  }

  /** Overwriting stores one feed for each id given: the last one given, in the order of
      the last occurrences, the pinned ones first. */
  lemma {:induction false} OverwriteStores(prefs: seq<Pref>, feeds: seq<Feed>)
    ensures Items(Apply(prefs, Overwrite(feeds))) == PinnedFirst(LastOfEach(feeds))
    ensures DistinctIds(PinnedFirst(LastOfEach(feeds)))
  {
    AfterWriteV2(prefs, LastOfEach(feeds));
    LastOfEachDistinct(feeds);
    PinnedFirstDistinct(LastOfEach(feeds));
  }

  lemma {:induction false} KeepHasId(feeds: seq<Feed>, pinned: bool, id: string)
    ensures HasId(Keep(feeds, pinned), id) ==> HasId(feeds, id)
  {
    if feeds != [] {
      var init, f := feeds[..|feeds| - 1], feeds[|feeds| - 1];
      KeepHasId(init, pinned, id);
      assert feeds == init + [f];
      HasIdSnoc(init, f, id);
      HasIdSnoc(Keep(init, pinned), f, id);
      assert Keep(init, pinned) + [] == Keep(init, pinned);
    }
  }

  lemma DistinctIdsSnoc(feeds: seq<Feed>, f: Feed)
    ensures DistinctIds(feeds + [f]) <==> DistinctIds(feeds) && !HasId(feeds, f.id)
  {
    var s := feeds + [f];
    assert s[|feeds|] == f && forall i :: 0 <= i < |feeds| ==> s[i] == feeds[i];
    if DistinctIds(s) {
      forall i | 0 <= i < |feeds| ensures feeds[i].id != f.id { assert s[i].id != s[|feeds|].id; }
      forall i, j | 0 <= i < j < |feeds| ensures feeds[i].id != feeds[j].id { assert s[i].id != s[j].id; }
    }
  }

  lemma HasIdConcat(a: seq<Feed>, b: seq<Feed>, id: string)
    requires HasId(a + b, id)
    ensures HasId(a, id) || HasId(b, id)
  {
    var i :| 0 <= i < |a + b| && (a + b)[i].id == id;
    if i >= |a| { assert b[i - |a|].id == id; } else { assert a[i].id == id; }
  }

  /** Moving a feed past feeds of other ids keeps the ids distinct. */
  lemma DistinctIdsInsert(p: seq<Feed>, u: seq<Feed>, f: Feed)
    requires DistinctIds(p + u) && !HasId(p, f.id) && !HasId(u, f.id)
    ensures DistinctIds(p + [f] + u)
  {
    var s, t := p + u, p + [f] + u;
    forall i, j | 0 <= i < j < |t| ensures t[i].id != t[j].id {
      var i', j' := if i <= |p| then i else i - 1, if j <= |p| then j else j - 1;
      if i != |p| && j != |p| { assert s[i'] == t[i] && s[j'] == t[j]; }
    }
  }

  lemma {:induction false} PinnedFirstDistinct(feeds: seq<Feed>)
    requires DistinctIds(feeds)
    ensures DistinctIds(PinnedFirst(feeds))
  {
    if feeds != [] {
      var init, f := feeds[..|feeds| - 1], feeds[|feeds| - 1];
      assert feeds == init + [f];
      DistinctIdsSnoc(init, f);
      PinnedFirstDistinct(init);
      var p, u := Keep(init, true), Keep(init, false);
      KeepHasId(init, true, f.id);
      KeepHasId(init, false, f.id);
      KeepSnoc(init, f, true);
      KeepSnoc(init, f, false);
      if f.pinned {
        DistinctIdsInsert(p, u, f);
        assert Keep(feeds, false) == u;
      } else {
        if HasId(p + u, f.id) { HasIdConcat(p, u, f.id); }
        DistinctIdsSnoc(p + u, f);
        assert Keep(feeds, true) == p && p + u + [f] == p + (u + [f]);
      }
    }
  }

  // ------------------------------------------------------------- every run

  /** Version 1 lists no uri twice, and what is pinned is saved. */
  ghost predicate Consistent(saved: seq<string>, pinned: seq<string>) {
    Distinct(saved) && Distinct(pinned) && forall x :: x in pinned ==> x in saved
  }

  lemma DistinctSnoc(s: seq<string>, x: string)
    requires Distinct(s) && x !in s
    ensures Distinct(s + [x])
  {
  }

  lemma {:induction false} CompatiblePinned(items: seq<Feed>, x: string)
    ensures x in Values(Keep(items, true)) ==> x in Values(items)
  {
    if items != [] {
      var init, f := items[..|items| - 1], items[|items| - 1];
      CompatiblePinned(init, x);
      assert items == init + [f];
      KeepSnoc(init, f, true);
      ValuesSnoc(init, f);
      ValuesSnoc(Keep(init, true), f);
      assert Keep(init, true) + [] == Keep(init, true);
    }
  }

  lemma MergeKeepsConsistent(v1: Pref, items: seq<Feed>)
    requires v1.FeedsV1? && Consistent(v1.saved, v1.pinned)
    ensures Consistent(MergedV1(v1, items).saved, MergedV1(v1, items).pinned)
    // the double-write: nothing is dropped, and all of version 2 that version 1 knows is there
    ensures forall x :: x in MergedV1(v1, items).saved <==> x in v1.saved || x in Values(Compatible(items))
    ensures forall x :: x in MergedV1(v1, items).pinned <==> x in v1.pinned || x in Values(Keep(Compatible(items), true))
  {
    forall x | x in MergedV1(v1, items).pinned ensures x in MergedV1(v1, items).saved {
      CompatiblePinned(Compatible(items), x);
    }
  }

  /** Every operation keeps version 1 consistent; the deprecated `setSavedFeeds` exactly when
      what it is given is consistent. */
  lemma {:induction false} StepKeepsConsistent(prefs: seq<Pref>, op: Op)
    requires Consistent(Saved(prefs), Pinned(prefs))
    ensures Consistent(Saved(Apply(prefs, op)), Pinned(Apply(prefs, op))) <==>
      op.SetSavedFeeds? ==> Consistent(op.saved, op.pinned)
  {
    var saved, pinned := Saved(prefs), Pinned(prefs);
    match op
    case SetSavedFeeds(s, p) => AfterWriteV1(prefs, s, p);
    case AddSaved(v) =>
      AfterWriteV1(prefs, Remove(saved, v) + [v], pinned);
      DistinctSnoc(Remove(saved, v), v);
    case RemoveSaved(v) => AfterWriteV1(prefs, Remove(saved, v), Remove(pinned, v));
    case AddPinned(v) =>
      AfterWriteV1(prefs, Remove(saved, v) + [v], Remove(pinned, v) + [v]);
      DistinctSnoc(Remove(saved, v), v);
      DistinctSnoc(Remove(pinned, v), v);
    case RemovePinned(v) => AfterWriteV1(prefs, saved, Remove(pinned, v));
    case _ =>
      var feeds := Callback(Items(prefs), op);
      AfterWriteV2(prefs, feeds);
      if LastV1(prefs).Some? { MergeKeepsConsistent(LastV1(prefs).value, PinnedFirst(feeds)); }
  }

  /** So every run keeps version 1's pinned feeds among its saved ones, without duplicates. */
  lemma {:induction false} RunKeepsConsistent(prefs: seq<Pref>, ops: seq<Op>)
    requires Consistent(Saved(prefs), Pinned(prefs))
    requires forall i :: 0 <= i < |ops| && ops[i].SetSavedFeeds? ==> Consistent(ops[i].saved, ops[i].pinned)
    ensures Consistent(Saved(Run(prefs, ops)), Pinned(Run(prefs, ops)))
  {
    if ops != [] {
      RunKeepsConsistent(prefs, ops[..|ops| - 1]);
      StepKeepsConsistent(Run(prefs, ops[..|ops| - 1]), ops[|ops| - 1]);
    }
  }

  lemma {:induction false} RepinnedId(f: Feed, updates: seq<Feed>)
    ensures Repinned(f, updates).id == f.id && Repinned(f, updates).value == f.value
  {
    if updates != [] { RepinnedId(f, updates[1..]); }
  }

  lemma {:induction false} DropIdsHas(items: seq<Feed>, ids: seq<string>, id: string)
    ensures HasId(DropIds(items, ids), id) <==> HasId(items, id) && (id !in ids || id == "")
  {
    if items != [] {
      var init, f := items[..|items| - 1], items[|items| - 1];
      var kept := DropIds(init, ids);
      DropIdsHas(init, ids, id);
      assert items == init + [f];
      assert DropIds(items, ids) == if f.id in ids && f.id != "" then kept else kept + [f];
      HasIdSnoc(init, f, id);
      HasIdSnoc(kept, f, id);
    }
  }

  lemma {:induction false} DropIdsDistinct(items: seq<Feed>, ids: seq<string>)
    requires DistinctIds(items)
    ensures DistinctIds(DropIds(items, ids))
  {
    if items != [] {
      var init, f := items[..|items| - 1], items[|items| - 1];
      var kept := DropIds(init, ids);
      assert items == init + [f];
      DistinctIdsSnoc(init, f);
      DropIdsDistinct(init, ids);
      DropIdsHas(init, ids, f.id);
      DistinctIdsSnoc(kept, f);
      assert DropIds(items, ids) == if f.id in ids && f.id != "" then kept else kept + [f];
    }
  }

  lemma HasIdPinnedFirst(feeds: seq<Feed>, id: string)
    ensures HasId(PinnedFirst(feeds), id) <==> HasId(feeds, id)
  {
    KeepHasId(feeds, true, id);
    KeepHasId(feeds, false, id);
    var p, u := Keep(feeds, true), Keep(feeds, false);
    if HasId(p + u, id) { HasIdConcat(p, u, id); }
    if HasId(feeds, id) {
      KeptWithId(feeds, id);
      if HasId(p, id) {
        var i :| 0 <= i < |p| && p[i].id == id;
        assert (p + u)[i].id == id;
      } else {
        var i :| 0 <= i < |u| && u[i].id == id;
        assert (p + u)[|p| + i].id == id;
      }
    }
  }

  lemma {:induction false} KeptWithId(feeds: seq<Feed>, id: string)
    requires HasId(feeds, id)
    ensures HasId(Keep(feeds, true), id) || HasId(Keep(feeds, false), id)
  {
    var init, f := feeds[..|feeds| - 1], feeds[|feeds| - 1];
    assert feeds == init + [f];
    HasIdSnoc(init, f, id);
    HasIdSnoc(Keep(init, f.pinned), f, id);
    assert Keep(init, !f.pinned) + [] == Keep(init, !f.pinned);
    if HasId(init, id) { KeptWithId(init, id); }
  }

  /** Removing leaves exactly the ids that were not named, and the empty one in any case. */
  lemma {:induction false} RemoveIdsExactly(prefs: seq<Pref>, ids: seq<string>, id: string)
    ensures HasId(Items(Apply(prefs, RemoveIds(ids))), id) <==> HasId(Items(prefs), id) && (id !in ids || id == "")
  {
    AfterWriteV2(prefs, DropIds(Items(prefs), ids));
    HasIdPinnedFirst(DropIds(Items(prefs), ids), id);
    DropIdsHas(Items(prefs), ids, id);
  }

  /** Version 2 keeps one feed per id: always, except that an addition must bring ids that
      are new and distinct. */
  lemma {:induction false} StepKeepsIds(prefs: seq<Pref>, op: Op)
    requires DistinctIds(Items(prefs)) && (op.Add? ==> DistinctIds(Items(prefs) + op.feeds))
    ensures DistinctIds(Items(Apply(prefs, op)))
  {
    var items := Items(prefs);
    match op
    case Overwrite(feeds) => OverwriteStores(prefs, feeds);
    case Update(feeds) =>
      var updated := Callback(items, op);
      forall i | 0 <= i < |items| ensures updated[i].id == items[i].id { RepinnedId(items[i], feeds); }
      AfterWriteV2(prefs, updated);
      PinnedFirstDistinct(updated);
    case Add(feeds) =>
      AfterWriteV2(prefs, items + feeds);
      PinnedFirstDistinct(items + feeds);
    case RemoveIds(ids) =>
      DropIdsDistinct(items, ids);
      AfterWriteV2(prefs, DropIds(items, ids));
      PinnedFirstDistinct(DropIds(items, ids));
    case _ =>
      V1OpsKeepItems(prefs, op);
  }

  lemma V1OpsKeepItems(prefs: seq<Pref>, op: Op)
    requires op.SetSavedFeeds? || op.AddSaved? || op.RemoveSaved? || op.AddPinned? || op.RemovePinned?
    ensures Items(Apply(prefs, op)) == Items(prefs)
  {
    var saved, pinned := Saved(prefs), Pinned(prefs);
    match op
    case SetSavedFeeds(s, p) => AfterWriteV1(prefs, s, p);
    case AddSaved(v) => AfterWriteV1(prefs, Remove(saved, v) + [v], pinned);
    case RemoveSaved(v) => AfterWriteV1(prefs, Remove(saved, v), Remove(pinned, v));
    case AddPinned(v) => AfterWriteV1(prefs, Remove(saved, v) + [v], Remove(pinned, v) + [v]);
    case RemovePinned(v) => AfterWriteV1(prefs, saved, Remove(pinned, v));
  }
}
