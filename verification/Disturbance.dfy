/** The other half of the sweep lock's exclusion: a disturbed link can always be gone on from
    so that two live calls hold. And what the source assumes instead, which implies that no
    link is disturbed. */
module Disturbance {
  import opened Wrappers
  import opened SweepLock

  // ------------------------------------------------ what holds in every run at all

  /** The entries that a scan has still to visit. */
  function Rest(p: Phase): set<Generation> {
    match p
    case Scanning(rest) => rest
    case Inspecting(_, _, rest) => rest
    case Removing(_, rest) => rest
    case BackingOff(rest) => rest
    case _ => {}
  }

  /** Markers are of calls that have not ended, and no call visits its own. */
  ghost predicate Orderly(w: World) {
    && MarkersKnown(w)
    && (forall g :: g in w.markers ==> Marked(w.callers[w.markers[g]].phase))
    && (forall id :: id in w.callers ==> w.callers[id].generation !in Rest(w.callers[id].phase))
  }

  lemma SetPhaseIsOrderly(w: World, id: Id, p: Phase)
    requires Orderly(w) && id in w.callers && w.callers[id].generation !in Rest(p)
    requires Marked(p) || forall g :: g in w.markers ==> w.markers[g] != id
    ensures Orderly(SetPhase(w, id, p))
  {
  }

  lemma UnlinkIsOrderly(w: World, g: Generation)
    requires Orderly(w)
    ensures Orderly(Unlink(w, g))
  {
  }

  /** A call that ends unlinks its own generation, whoever owns that marker. */
  lemma EndIsOrderly(w: World, id: Id)
    requires Orderly(w) && id in w.callers
    ensures Orderly(Unlink(SetPhase(w, id, Gone), w.callers[id].generation))
  {
    var g := w.callers[id].generation;
    var u := Unlink(w, g);
    UnlinkIsOrderly(w, g);
    assert forall h :: h in u.markers ==> u.markers[h] != id;
    SetPhaseIsOrderly(u, id, Gone);
    assert SetPhase(u, id, Gone).callers == Unlink(SetPhase(w, id, Gone), g).callers;
  }

  lemma LinkIsOrderly(w: World, a: Action)
    requires Orderly(w) && Enabled(w, a) && (a.Arrive? || a.Link?)
    ensures Orderly(Apply(w, a))
  {
  }

  lemma StepIsOrderly(w: World, a: Action)
    requires Orderly(w) && Enabled(w, a)
    ensures Orderly(Apply(w, a))
  {
    match a
    case Arrive(_, _, _) => LinkIsOrderly(w, a);
    case Link(_) => LinkIsOrderly(w, a);
    case Crash(_) =>
    case CleanUp(id) => EndIsOrderly(w, id);
    case Release(id) => EndIsOrderly(w, id);
    case UnlinkStale(id) =>
      SetPhaseIsOrderly(w, id, Apply(w, a).callers[id].phase);
      UnlinkIsOrderly(SetPhase(w, id, Scanning(w.callers[id].phase.rest)), w.callers[id].phase.marker);
    case UnlinkOwn(id) =>
      if w.callers[id].generation in w.markers {
        EndIsOrderly(w, id);
      } else {
        SetPhaseIsOrderly(w, id, Scanning(w.callers[id].phase.rest));
      }
    case _ => SetPhaseIsOrderly(w, a.id, Apply(w, a).callers[a.id].phase);
  }

  lemma {:induction false} RunIsOrderly(run: seq<Action>)
    requires Exec(run).Some?
    ensures Orderly(Exec(run).value)
  {
    if run != [] {
      RunIsOrderly(Before(run));
      StepIsOrderly(Exec(Before(run)).value, Last(run));
    }
  }

  // --------------------------------------------------------------- going on

  ghost predicate NoLinkFrom(run: seq<Action>, n: nat) {
    forall k :: n <= k < |run| ==> !run[k].Link?
  }

  /** `next` goes on from `run` without a link, and leads to `w`. */
  ghost predicate Reaches(run: seq<Action>, next: seq<Action>, w: World) {
    run <= next && NoLinkFrom(next, |run|) && Exec(next) == Some(w)
  }

  lemma Go(run: seq<Action>, now: seq<Action>, w: World, a: Action) returns (next: seq<Action>, v: World)
    requires Reaches(run, now, w) && Enabled(w, a) && !a.Link?
    ensures v == Apply(w, a) && Reaches(run, next, v)
  {
    ExecSnoc(now, w, a);
    next, v := now + [a], Apply(w, a);
  }

  // ------------------------------------------------------- the inspector comes to hold

  /** `a` scans with `rest` to go; `b` has linked, and its marker is gone again. */
  ghost predicate Poised(w: World, a: Id, b: Id, rest: set<Generation>) {
    && a != b && Live(w, a) && Live(w, b)
    && w.callers[a].phase == Scanning(rest) && w.callers[b].phase.Linked?
    && w.callers[b].generation !in w.markers
  }

  /** A live call that is neither of the two, and has a marker, can fail or release. */
  lemma Evict(run: seq<Action>, now: seq<Action>, w: World, a: Id, b: Id, rest: set<Generation>, o: Id)
    returns (next: seq<Action>, v: World)
    requires Reaches(run, now, w) && Poised(w, a, b, rest)
    requires o != a && o != b && Live(w, o) && Marked(w.callers[o].phase)
    ensures Reaches(run, next, v) && Poised(v, a, b, rest) && w.callers[o].generation !in v.markers
  {
    if w.callers[o].phase.Holding? {
      next, v := Go(run, now, w, Release(o));
    } else {
      next, v := now, w;
      if !w.callers[o].phase.Failing? {
        next, v := Go(run, now, w, Throw(o));
      }
      next, v := Go(run, next, v, CleanUp(o));
    }
  }

  lemma RemoveStale(run: seq<Action>, now: seq<Action>, w: World, a: Id, b: Id, rest: set<Generation>, g: Generation)
    returns (next: seq<Action>, v: World)
    requires Reaches(run, now, w) && Poised(w, a, b, rest) && g in rest
    requires g in w.markers && w.markers[g] in w.callers && w.callers[w.markers[g]].pid in w.dead
    ensures Reaches(run, next, v) && Poised(v, a, b, rest - {g})
  {
    next, v := Go(run, now, w, ReadMarker(a, g));
    next, v := Go(run, next, v, JudgeMarker(a));
    next, v := Go(run, next, v, UnlinkStale(a));
  }

  lemma PassEntry(run: seq<Action>, now: seq<Action>, w: World, a: Id, b: Id, rest: set<Generation>, g: Generation)
    returns (next: seq<Action>, v: World)
    requires Reaches(run, now, w) && Poised(w, a, b, rest) && g in rest
    ensures Reaches(run, next, v) && Poised(v, a, b, rest - {g})
  {
    RunIsOrderly(now);
    if g in w.markers && w.callers[w.markers[g]].pid in w.dead {
      next, v := RemoveStale(run, now, w, a, b, rest, g);
    } else {
      next, v := now, w;
      if g in w.markers {
        next, v := Evict(run, now, w, a, b, rest, w.markers[g]);
      }
      next, v := Go(run, next, v, ReadMarker(a, g));
    }
  }

  lemma {:induction false} PassAll(run: seq<Action>, now: seq<Action>, w: World, a: Id, b: Id, rest: set<Generation>)
    returns (next: seq<Action>, v: World)
    requires Reaches(run, now, w) && Poised(w, a, b, rest)
    ensures Reaches(run, next, v) && Poised(v, a, b, {})
    decreases rest
  {
    next, v := now, w;
    if g :| g in rest {
      next, v := PassEntry(run, now, w, a, b, rest, g);
      next, v := PassAll(run, next, v, a, b, rest - {g});
    }
  }

  // ------------------------------------------- the call without a marker cannot back off

  /** `a` holds, and `b` is in phase `p` without a marker. */
  ghost predicate Beside(w: World, a: Id, b: Id, p: Phase) {
    && a != b && Live(w, a) && Live(w, b)
    && w.callers[a].phase.Holding? && w.callers[b].phase == p
    && w.callers[b].generation !in w.markers
  }

  /** It passes every entry: a live one makes it unlink its own marker, which fails. */
  lemma PassBeside(run: seq<Action>, now: seq<Action>, w: World, a: Id, b: Id, rest: set<Generation>, g: Generation)
    returns (next: seq<Action>, v: World)
    requires Reaches(run, now, w) && Beside(w, a, b, Scanning(rest)) && g in rest
    ensures Reaches(run, next, v) && Beside(v, a, b, Scanning(rest - {g}))
  {
    next, v := Go(run, now, w, ReadMarker(b, g));
    if v.callers[b].phase.Inspecting? {
      next, v := Go(run, next, v, JudgeMarker(b));
      if v.callers[b].phase.Removing? {
        next, v := Go(run, next, v, UnlinkStale(b));
      } else {
        next, v := Go(run, next, v, UnlinkOwn(b));
      }
    }
  }

  lemma {:induction false} PassAllBeside(run: seq<Action>, now: seq<Action>, w: World, a: Id, b: Id, rest: set<Generation>)
    returns (next: seq<Action>, v: World)
    requires Reaches(run, now, w) && Beside(w, a, b, Scanning(rest))
    ensures Reaches(run, next, v) && Beside(v, a, b, Holding)
    decreases rest
  {
    if g :| g in rest {
      next, v := PassBeside(run, now, w, a, b, rest, g);
      next, v := PassAllBeside(run, next, v, a, b, rest - {g});
    } else {
      assert rest == {};
      next, v := Go(run, now, w, FinishScan(b));
    }
  }

  lemma BothHold(run: seq<Action>, now: seq<Action>, w: World, a: Id, b: Id)
    returns (next: seq<Action>, v: World)
    requires Reaches(run, now, w) && Poised(w, a, b, {})
    ensures Reaches(run, next, v) && !MutualExclusion(v)
  {
    next, v := Go(run, now, w, FinishScan(a));
    next, v := Go(run, next, v, StartListing(b));
    var listed := v.markers.Keys;
    next, v := Go(run, next, v, EndListing(b, listed));
    next, v := PassAllBeside(run, next, v, a, b, listed - {v.callers[b].generation});
    assert v.callers[a].phase.Holding? && v.callers[b].phase.Holding?;
  }

  // ------------------------------------------------------------ the disturbed link

  /** After the link, the inspector judges stale what it read before, and unlinks the new marker. */
  lemma NewMarkerGoes(run: seq<Action>, w: World, a: Id, b: Id) returns (next: seq<Action>, v: World, rest: set<Generation>)
    requires Exec(run) == Some(w) && Disturbs(w, a, b)
    ensures Reaches(run + [Link(b)], next, v) && Poised(v, a, b, rest)
  {
    ExecSnoc(run, w, Link(b));
    var linked := run + [Link(b)];
    next, v := linked, Apply(w, Link(b));
    rest := Rest(v.callers[a].phase);
    if v.callers[a].phase.Inspecting? {
      next, v := Go(linked, next, v, Crash(v.callers[a].phase.content));
      next, v := Go(linked, next, v, JudgeMarker(a));
    }
    next, v := Go(linked, next, v, UnlinkStale(a));
  }

  /** Every disturbed link, in every run, can be gone on from, without another link, to a point
      at which two live calls hold. */
  lemma {:induction false} DisturbedLinkBreaks(run: seq<Action>, w: World, a: Id, b: Id) returns (next: seq<Action>, v: World)
    requires Exec(run) == Some(w) && Disturbs(w, a, b)
    ensures Reaches(run + [Link(b)], next, v) && !MutualExclusion(v)
  {
    var rest;
    next, v, rest := NewMarkerGoes(run, w, a, b);
    next, v := PassAll(run + [Link(b)], next, v, a, b, rest);
    next, v := BothHold(run + [Link(b)], next, v, a, b);
  }

  lemma {:induction false} NoLinkIsUndisturbed(run: seq<Action>, next: seq<Action>)
    requires run <= next && NoLinkFrom(next, |run|) && Undisturbed(run)
    ensures Undisturbed(next)
    decreases |next|
  {
    if |run| < |next| {
      assert Last(next) == next[|next| - 1];
      NoLinkIsUndisturbed(run, Before(next));
    } else {
      assert run == next;
    }
  }

  /** The exact condition: after a run without disturbed links, a further link is disturbed if
      and only if what can follow it, without any more links, breaks the exclusion. */
  lemma {:induction false} LinkBreaksExactly(run: seq<Action>, w: World, b: Id)
    requires Exec(run) == Some(w) && Undisturbed(run) && Enabled(w, Link(b))
    ensures (exists a :: Disturbs(w, a, b)) <==>
      exists next, v :: Reaches(run + [Link(b)], next, v) && !MutualExclusion(v)
  {
    var linked := run + [Link(b)];
    if a :| Disturbs(w, a, b) {
      var next, v := DisturbedLinkBreaks(run, w, a, b);
    } else {
      assert Before(linked) == run && Last(linked) == Link(b);
      assert Undisturbed(linked);
      forall next, v | Reaches(linked, next, v) ensures MutualExclusion(v) {
        NoLinkIsUndisturbed(linked, next);
        AtMostOneHolder(next);
      }
    }
  }

  /** A run is safe, whatever is made of it from any point on without further links, exactly
      if none of its links is disturbed. */
  lemma {:induction false} SafeExactlyIfUndisturbed(run: seq<Action>)
    requires Exec(run).Some?
    ensures Undisturbed(run) <==>
      forall n: nat, next, v :: n <= |run| && Reaches(run[..n], next, v) ==> MutualExclusion(v)
  {
    if Undisturbed(run) {
      forall n: nat, next, v | n <= |run| && Reaches(run[..n], next, v) ensures MutualExclusion(v) {
        PrefixUndisturbed(run, n);
        NoLinkIsUndisturbed(run[..n], next);
        AtMostOneHolder(next);
      }
    } else {
      var n, w, a := FirstDisturbed(run);
      var next, v := DisturbedLinkBreaks(run[..n], w, a, run[n].id);
      assert run[..n] + [run[n]] == run[..n + 1];
    }
  }

  lemma {:induction false} PrefixUndisturbed(run: seq<Action>, n: nat)
    requires n <= |run| && Undisturbed(run)
    ensures Undisturbed(run[..n])
    decreases |run|
  {
    if n < |run| {
      PrefixUndisturbed(Before(run), n);
      assert Before(run)[..n] == run[..n];
    } else {
      assert run[..n] == run;
    }
  }

  lemma {:induction false} FirstDisturbed(run: seq<Action>) returns (n: nat, w: World, a: Id)
    requires Exec(run).Some? && !Undisturbed(run)
    ensures n < |run| && Exec(run[..n]) == Some(w) && run[n].Link? && Disturbs(w, a, run[n].id)
    decreases |run|
  {
    n := |run| - 1;
    w := Exec(Before(run)).value;
    if Undisturbed(Before(run)) {
      a :| Disturbs(w, a, Last(run).id);
    } else {
      n, w, a := FirstDisturbed(Before(run));
      assert Before(run)[..n] == run[..n];
    }
  }

  // ----------------------------------------------------- what the comment assumes

  /** A live call has read marker `g` and not yet decided or finished what to do with it. */
  ghost predicate UnderInspection(w: World, g: Generation) {
    exists id :: Live(w, id) && Inspects(w.callers[id].phase, g)
  }

  /** The action is a link that will not fail with EEXIST. */
  ghost predicate Creates(w: World, a: Action) {
    a.Link? && a.id in w.callers && w.callers[a.id].generation !in w.markers
  }

  /** The generations for which some link of the run succeeded. */
  ghost function EverLinked(run: seq<Action>): set<Generation> {
    if run == [] then {} else
      EverLinked(Before(run)) +
      (match Exec(Before(run))
       case None => {}
       case Some(w) => if Creates(w, Last(run)) then {w.callers[Last(run).id].generation} else {})
  }

  /** What the source's comment assumes: a generation, once linked, is never linked again. */
  ghost predicate NeverReclaimed(run: seq<Action>) {
    run != [] ==>
      && NeverReclaimed(Before(run))
      && (match Exec(Before(run))
          case None => true
          case Some(w) => Creates(w, Last(run)) ==> w.callers[Last(run).id].generation !in EverLinked(Before(run)))
  }

  lemma InspectedWasThere(w: World, a: Action, g: Generation)
    requires Enabled(w, a) && UnderInspection(Apply(w, a), g) && g !in w.markers
    ensures UnderInspection(w, g)
  {
    var v := Apply(w, a);
    var id :| Live(v, id) && Inspects(v.callers[id].phase, g);
    assert Live(w, id) && Inspects(w.callers[id].phase, g);
  }

  lemma {:induction false} MarkersWereLinked(run: seq<Action>)
    requires Exec(run).Some?
    ensures forall g :: g in Exec(run).value.markers ==> g in EverLinked(run)
    ensures forall g :: UnderInspection(Exec(run).value, g) ==> g in EverLinked(run)
  {
    if run != [] {
      MarkersWereLinked(Before(run));
      var w := Exec(Before(run)).value;
      forall g | UnderInspection(Apply(w, Last(run)), g) ensures g in EverLinked(run) {
        if g !in w.markers { InspectedWasThere(w, Last(run), g); }
      }
    }
  }

  lemma {:induction false} NeverReclaimedIsUndisturbed(run: seq<Action>)
    requires Exec(run).Some? && NeverReclaimed(run)
    ensures Undisturbed(run)
  {
    if run != [] {
      NeverReclaimedIsUndisturbed(Before(run));
      MarkersWereLinked(Before(run));
    }
  }

  /** The source's own claim: under its assumption, the lock is exclusive. */
  lemma {:induction false} ExclusiveIfNeverReclaimed(run: seq<Action>)
    requires Exec(run).Some? && NeverReclaimed(run)
    ensures MutualExclusion(Exec(run).value)
  {
    NeverReclaimedIsUndisturbed(run);
    AtMostOneHolder(run);
  }

  // ----------------------------------------------------------- a run that breaks it

  /** The world at the end of a run, as far as the counterexample needs it: calls 0 and 1
      are given generation 5, and call 2 the next one. */
  ghost predicate Shows(run: seq<Action>, w: World, phases: seq<Phase>, markers: map<Generation, Id>) {
    && Exec(run) == Some(w) && w.markers == markers && w.dead == {}
    && (forall id :: id in w.callers <==> 0 <= id < |phases|)
    && (forall id | 0 <= id < |phases| ::
          w.callers[id] == Caller(10 + id, if id == 2 then 6 else 5, phases[id]))
  }

  lemma {:induction false} Play(run: seq<Action>, w: World, a: Action, phases: seq<Phase>, markers: map<Generation, Id>)
    returns (next: seq<Action>, v: World)
    requires Exec(run) == Some(w) && Enabled(w, a)
    requires var v := Apply(w, a);
      && v.markers == markers && v.dead == {}
      && (forall id :: id in v.callers <==> 0 <= id < |phases|)
      && (forall id | 0 <= id < |phases| :: v.callers[id] == Caller(10 + id, if id == 2 then 6 else 5, phases[id]))
    ensures Shows(next, v, phases, markers)
  {
    ExecSnoc(run, w, a);
    next, v := run + [a], Apply(w, a);
  }

  /** Some run shows this. */
  ghost predicate Reachable(phases: seq<Phase>, markers: map<Generation, Id>) {
    exists run, w :: Shows(run, w, phases, markers)
  }

  lemma {:induction false} FirstHolds()
    ensures Reachable([Holding], map[5 := 0])
  {
    var run, w := Play([], EMPTY, Arrive(0, 10, 5), [Start], map[]);
    run, w := Play(run, w, Link(0), [Linked], map[5 := 0]);
    run, w := Play(run, w, StartListing(0), [Listing(w.markers.Keys)], map[5 := 0]);
    run, w := Play(run, w, EndListing(0, w.markers.Keys), [Scanning(w.markers.Keys - {5})], map[5 := 0]);
    assert w.markers.Keys - {5} == {};
    run, w := Play(run, w, FinishScan(0), [Holding], map[5 := 0]);
  }

  lemma {:induction false} ThirdLinks()
    ensures Reachable([Holding, Start, Linked], map[5 := 0, 6 := 2])
  {
    FirstHolds();
    var run, w :| Shows(run, w, [Holding], map[5 := 0]);
    run, w := Play(run, w, Arrive(1, 11, 5), [Holding, Start], map[5 := 0]);
    run, w := Play(run, w, Arrive(2, 12, 6), [Holding, Start, Start], map[5 := 0]);
    run, w := Play(run, w, Link(2), [Holding, Start, Linked], map[5 := 0, 6 := 2]);
  }

  lemma {:induction false} ThirdInspects()
    ensures Reachable([Holding, Start, Inspecting(5, 10, {})], map[5 := 0, 6 := 2])
  {
    ThirdLinks();
    var run, w :| Shows(run, w, [Holding, Start, Linked], map[5 := 0, 6 := 2]);
    run, w := Play(run, w, StartListing(2), [Holding, Start, Listing(w.markers.Keys)], map[5 := 0, 6 := 2]);
    run, w := Play(run, w, EndListing(2, w.markers.Keys), [Holding, Start, Scanning(w.markers.Keys - {6})], map[5 := 0, 6 := 2]);
    assert w.markers.Keys - {6} - {5} == {};
    run, w := Play(run, w, ReadMarker(2, 5), [Holding, Start, Inspecting(5, 10, {})], map[5 := 0, 6 := 2]);
  }

  lemma {:induction false} FirstReleases()
    ensures Reachable([Gone, Start, Inspecting(5, 10, {})], map[6 := 2])
  {
    ThirdInspects();
    var run, w :| Shows(run, w, [Holding, Start, Inspecting(5, 10, {})], map[5 := 0, 6 := 2]);
    run, w := Play(run, w, Release(0), [Gone, Start, Inspecting(5, 10, {})], map[6 := 2]);
  }

  /** The run is possible, and ends with two live holders. */
  ghost predicate Breaks(run: seq<Action>, w: World) {
    Exec(run) == Some(w) && !MutualExclusion(w)
  }

  /** Without the assumption the lock is not exclusive. Call 0 acquires generation 5 and
      releases it while call 2, of the next second, is inspecting it; and call 1, which
      started in the same second as call 0, links generation 5 again. */
  lemma {:induction false} RelinkingBreaksExclusion()
    ensures exists run, w :: Breaks(run, w)
  {
    FirstReleases();
    var run, w :| Shows(run, w, [Gone, Start, Inspecting(5, 10, {})], map[6 := 2]);
    assert Disturbs(w, 2, 1);
    run, w := DisturbedLinkBreaks(run, w, 2, 1);
    assert Breaks(run, w);
  }
}
