/** One call of the sweep lock with no one else taking a step: the method, what it does, and
    that this is a run of the interleaving machine. */
module SoloCall {
  import opened Wrappers
  import opened SweepLock

  datatype Sweep = Sweep(acquired: bool, markers: map<Generation, Pid>)

  /** The scan of one call over the entries it listed, while no other call takes a step. */
  function Scan(markers: map<Generation, Pid>, generation: Generation, dead: set<Pid>, entries: seq<Generation>): Sweep {
    if entries == [] then Sweep(true, markers)
    else if entries[0] == generation || entries[0] !in markers then Scan(markers, generation, dead, entries[1..])
    else if markers[entries[0]] in dead then Scan(markers - {entries[0]}, generation, dead, entries[1..])
    else Sweep(false, markers - {generation})
  }

  /** What a whole call does, given the order in which it is told the entries. */
  function Solo(markers: map<Generation, Pid>, self: Pid, generation: Generation, dead: set<Pid>, entries: seq<Generation>): Sweep {
    if generation in markers then Sweep(false, markers)
    else Scan(markers[generation := self], generation, dead, entries)
  }

  /** The entries are the markers, each once, in some order. */
  ghost predicate Lists(entries: seq<Generation>, markers: map<Generation, Pid>) {
    && (forall g :: g in entries <==> g in markers)
    && (forall i, j :: 0 <= i < j < |entries| ==> entries[i] != entries[j])
  }

  ghost predicate Within(part: map<Generation, Pid>, all: map<Generation, Pid>) {
    forall g :: g in part ==> g in all && part[g] == all[g]
  }

  /** Acquires exactly when the generation is free and every other marker is dead, and then its
      marker is the only one; a call that backs off leaves no marker of its own; and none
      removes a live one. */
  ghost predicate RightOutcome(before: map<Generation, Pid>, self: Pid, generation: Generation, dead: set<Pid>, s: Sweep) {
    && (s.acquired <==> generation !in before && forall g :: g in before ==> before[g] in dead)
    && (s.acquired ==> s.markers == map[generation := self])
    && (generation in before ==> s.markers == before)
    && (!s.acquired ==> Within(s.markers, before))
    && (forall g :: g in before && before[g] !in dead ==> g in s.markers && s.markers[g] == before[g])
  }

  lemma {:induction false} ScanOutcome(markers: map<Generation, Pid>, generation: Generation, dead: set<Pid>, entries: seq<Generation>)
    requires generation in markers
    ensures var s := Scan(markers, generation, dead, entries);
      && (s.acquired <==> forall g :: g in entries && g != generation && g in markers ==> markers[g] in dead)
      && (s.acquired ==> forall g :: g in s.markers <==> g in markers && (g == generation || g !in entries))
      && Within(s.markers, markers)
      && (!s.acquired ==> generation !in s.markers)
      && (forall g :: g in markers && g != generation && markers[g] !in dead ==> g in s.markers)
  {
    if entries != [] {
      assert entries == [entries[0]] + entries[1..];
      if entries[0] == generation || entries[0] !in markers {
        ScanOutcome(markers, generation, dead, entries[1..]);
      } else if markers[entries[0]] in dead {
        ScanOutcome(markers - {entries[0]}, generation, dead, entries[1..]);
      }
    }
  }

  lemma {:induction false} SoloOutcome(markers: map<Generation, Pid>, self: Pid, generation: Generation, dead: set<Pid>, entries: seq<Generation>)
    requires generation !in markers ==> Lists(entries, markers[generation := self])
    ensures RightOutcome(markers, self, generation, dead, Solo(markers, self, generation, dead, entries))
  {
    if generation !in markers {
      var linked, s := markers[generation := self], Solo(markers, self, generation, dead, entries);
      ScanOutcome(linked, generation, dead, entries);
      assert forall g :: g in markers ==> g in linked && g in entries && linked[g] == markers[g];
      assert forall g :: g in entries && g != generation ==> g in markers;
      if s.acquired {
        assert s.markers.Keys == {generation};
      }
    }
  }

  /** The directory as one caller sees it while no other caller takes a step. */
  class Directory {
    var markers: map<Generation, Pid>

    constructor ()
      ensures markers == map[]
    {
      markers := map[];
    }

    /** The names of the markers, in no particular order. */
    method List() returns (names: seq<Generation>)
      ensures Lists(names, markers)
    {
      names := [];
      var left := markers.Keys;
      while left != {}
        invariant left <= markers.Keys
        invariant forall g :: g in names <==> g in markers && g !in left
        invariant forall i, j :: 0 <= i < j < |names| ==> names[i] != names[j]
      {
        var g :| g in left;
        names, left := names + [g], left - {g};
      }
    }

    /** Does what `Solo` says for the order in which the entries are listed, and so acquires and
        cleans up as it should. */
    method AcquireSweepLock(self: Pid, generation: Generation, dead: set<Pid>)
      returns (acquired: bool, ghost entries: seq<Generation>)
      modifies this
      ensures generation !in old(markers) ==> Lists(entries, old(markers)[generation := self])
      ensures Sweep(acquired, markers) == Solo(old(markers), self, generation, dead, entries)
      ensures RightOutcome(old(markers), self, generation, dead, Sweep(acquired, markers))
    {
      entries := [];
      if generation in markers {
        return false, entries;
      }
      markers := markers[generation := self];
      var listed := List();
      entries := listed;
      SoloOutcome(old(markers), self, generation, dead, entries);
      ghost var linked := markers;
      for i := 0 to |listed|
        invariant Scan(linked, generation, dead, listed) == Scan(markers, generation, dead, listed[i..])
        invariant forall k :: i <= k < |listed| ==> listed[k] in markers
      {
        var entry := listed[i];
        assert listed[i..][1..] == listed[i + 1..];
        if entry == generation {
          continue;
        }
        var pid := markers[entry];
        if pid !in dead {
          markers := markers - {generation};
          return false, entries;
        }
        markers := markers - {entry};
      }
      acquired := true;
    }

    method Release(generation: Generation)
      modifies this
      ensures markers == old(markers) - {generation}
    {
      markers := markers - {generation};
    }
  }

  // ---------------------------------------- the call alone, as a run of the machine

  /** The world's directory, as the processes see it. */
  ghost predicate Mirrors(w: World, markers: map<Generation, Pid>) {
    && w.markers.Keys == markers.Keys
    && (forall g :: g in markers ==> w.markers[g] in w.callers && w.callers[w.markers[g]].pid == markers[g])
  }

  /** `next` goes on from `run` with steps of call `id` alone, none of which is a crash. */
  ghost predicate GoesOn(run: seq<Action>, next: seq<Action>, id: Id) {
    run <= next && forall k :: |run| <= k < |next| ==> !next[k].Crash? && next[k].id == id
  }

  lemma One(run: seq<Action>, w: World, a: Action) returns (next: seq<Action>)
    requires Exec(run) == Some(w) && Enabled(w, a) && !a.Crash?
    ensures next == run + [a] && Exec(next) == Some(Apply(w, a)) && GoesOn(run, next, a.id)
  {
    next := run + [a];
    ExecSnoc(run, w, a);
  }

  lemma GoesOnTwice(a: seq<Action>, b: seq<Action>, c: seq<Action>, id: Id)
    requires GoesOn(a, b, id) && GoesOn(b, c, id)
    ensures GoesOn(a, c, id)
  {
    forall k | |a| <= k < |c| ensures !c[k].Crash? && c[k].id == id {
      if k < |b| { assert c[k] == b[k]; }
    }
  }

  /** Call `id` is scanning, with `rest` to go, in a world that shows `markers`. */
  ghost predicate ScanningIn(w: World, id: Id, self: Pid, generation: Generation, rest: set<Generation>,
                             markers: map<Generation, Pid>, dead: set<Pid>) {
    && Mirrors(w, markers) && w.dead == dead && self !in dead
    && id in w.callers && w.callers[id] == Caller(self, generation, Scanning(rest))
    && generation in markers
  }

  ghost predicate EndedIn(w: World, id: Id, s: Sweep) {
    Mirrors(w, s.markers) && id in w.callers && w.callers[id].phase == if s.acquired then Holding else Gone
  }

  lemma UnlinkMirrors(w: World, markers: map<Generation, Pid>, g: Generation)
    requires Mirrors(w, markers)
    ensures Mirrors(Unlink(w, g), markers - {g})
  {
  }

  lemma StaleEntry(run: seq<Action>, w: World, id: Id, self: Pid, generation: Generation, g: Generation,
                   rest: set<Generation>, markers: map<Generation, Pid>, dead: set<Pid>)
    returns (next: seq<Action>, v: World)
    requires Exec(run) == Some(w) && ScanningIn(w, id, self, generation, rest + {g}, markers, dead)
    requires g !in rest && g != generation && g in markers && markers[g] in dead
    ensures Exec(next) == Some(v) && GoesOn(run, next, id)
    ensures ScanningIn(v, id, self, generation, rest, markers - {g}, dead)
  {
    var step := One(run, w, ReadMarker(id, g));
    var w1 := Apply(w, ReadMarker(id, g));
    assert rest + {g} - {g} == rest;
    assert w1.callers[id].phase == Inspecting(g, markers[g], rest);
    var step2 := One(step, w1, JudgeMarker(id));
    var w2 := Apply(w1, JudgeMarker(id));
    next := One(step2, w2, UnlinkStale(id));
    v := Apply(w2, UnlinkStale(id));
    GoesOnTwice(run, step, step2, id);
    GoesOnTwice(run, step2, next, id);
    assert Mirrors(SetPhase(w2, id, Scanning(rest)), markers);
    UnlinkMirrors(SetPhase(w2, id, Scanning(rest)), markers, g);
  }

  lemma LiveEntry(run: seq<Action>, w: World, id: Id, self: Pid, generation: Generation, g: Generation,
                  rest: set<Generation>, markers: map<Generation, Pid>, dead: set<Pid>)
    returns (next: seq<Action>, v: World)
    requires Exec(run) == Some(w) && ScanningIn(w, id, self, generation, rest, markers, dead)
    requires g in rest && g != generation && g in markers && markers[g] !in dead
    ensures Exec(next) == Some(v) && GoesOn(run, next, id) && EndedIn(v, id, Sweep(false, markers - {generation}))
  {
    var step := One(run, w, ReadMarker(id, g));
    var w1 := Apply(w, ReadMarker(id, g));
    var step2 := One(step, w1, JudgeMarker(id));
    var w2 := Apply(w1, JudgeMarker(id));
    next := One(step2, w2, UnlinkOwn(id));
    v := Apply(w2, UnlinkOwn(id));
    GoesOnTwice(run, step, step2, id);
    GoesOnTwice(run, step2, next, id);
    assert Mirrors(SetPhase(w2, id, Gone), markers);
    UnlinkMirrors(SetPhase(w2, id, Gone), markers, generation);
  }

  /** The entries still to be visited. */
  ghost function Left(entries: seq<Generation>, generation: Generation): set<Generation> {
    (set g | g in entries) - {generation}
  }

  lemma LeftFirst(entries: seq<Generation>, generation: Generation)
    requires entries != [] && forall i, j :: 0 <= i < j < |entries| ==> entries[i] != entries[j]
    ensures entries[0] !in Left(entries[1..], generation)
    ensures Left(entries, generation) ==
      if entries[0] == generation then Left(entries[1..], generation) else Left(entries[1..], generation) + {entries[0]}
  {
    assert entries == [entries[0]] + entries[1..];
  }

  lemma {:induction false} ScanRuns(run: seq<Action>, w: World, id: Id, self: Pid, generation: Generation,
                                    entries: seq<Generation>, markers: map<Generation, Pid>, dead: set<Pid>)
    returns (next: seq<Action>, v: World)
    requires Exec(run) == Some(w) && ScanningIn(w, id, self, generation, Left(entries, generation), markers, dead)
    requires forall i, j :: 0 <= i < j < |entries| ==> entries[i] != entries[j]
    requires forall g :: g in entries ==> g in markers
    ensures Exec(next) == Some(v) && GoesOn(run, next, id) && EndedIn(v, id, Scan(markers, generation, dead, entries))
    decreases |entries|
  {
    if entries == [] {
      assert Left(entries, generation) == {};
      next := One(run, w, FinishScan(id));
      v := Apply(w, FinishScan(id));
    } else {
      var g, rest := entries[0], entries[1..];
      LeftFirst(entries, generation);
      if g == generation {
        next, v := ScanRuns(run, w, id, self, generation, rest, markers, dead);
      } else if markers[g] in dead {
        var step, u := StaleEntry(run, w, id, self, generation, g, Left(rest, generation), markers, dead);
        next, v := ScanRuns(step, u, id, self, generation, rest, markers - {g}, dead);
        GoesOnTwice(run, step, next, id);
      } else {
        next, v := LiveEntry(run, w, id, self, generation, g, Left(entries, generation), markers, dead);
      }
    }
  }

  lemma ListsAll(run: seq<Action>, w: World, id: Id, self: Pid, generation: Generation,
                 entries: seq<Generation>, markers: map<Generation, Pid>, dead: set<Pid>)
    returns (next: seq<Action>, v: World)
    requires Exec(run) == Some(w) && Mirrors(w, markers) && w.dead == dead && self !in dead && Lists(entries, markers)
    requires id in w.callers && w.callers[id] == Caller(self, generation, Linked) && generation in markers
    ensures Exec(next) == Some(v) && GoesOn(run, next, id)
    ensures ScanningIn(v, id, self, generation, Left(entries, generation), markers, dead)
  {
    var listed := set g | g in entries;
    var step := One(run, w, StartListing(id));
    var w1 := Apply(w, StartListing(id));
    assert w1.callers[id].phase.must <= listed;
    next := One(step, w1, EndListing(id, listed));
    v := Apply(w1, EndListing(id, listed));
    GoesOnTwice(run, step, next, id);
  }

  /** Call `id` has arrived, or gone on from there, in a world that shows `markers`. */
  ghost predicate StandsIn(w: World, id: Id, c: Caller, markers: map<Generation, Pid>, dead: set<Pid>) {
    Mirrors(w, markers) && w.dead == dead && id in w.callers && w.callers[id] == c
  }

  lemma Arrives(w: World, id: Id, self: Pid, generation: Generation, markers: map<Generation, Pid>, dead: set<Pid>)
    requires Mirrors(w, markers) && w.dead == dead && id !in w.callers && self !in dead
    ensures Enabled(w, Arrive(id, self, generation))
    ensures StandsIn(Apply(w, Arrive(id, self, generation)), id, Caller(self, generation, Start), markers, dead)
  {
  }

  lemma Links(w: World, id: Id, self: Pid, generation: Generation, markers: map<Generation, Pid>, dead: set<Pid>)
    requires StandsIn(w, id, Caller(self, generation, Start), markers, dead) && self !in dead
    ensures Enabled(w, Link(id))
    ensures StandsIn(Apply(w, Link(id)), id, Caller(self, generation, if generation in markers then Gone else Linked),
                     if generation in markers then markers else markers[generation := self], dead)
  {
  }

  lemma LinksFirst(run: seq<Action>, w: World, id: Id, self: Pid, generation: Generation,
                   markers: map<Generation, Pid>, dead: set<Pid>)
    returns (next: seq<Action>, v: World)
    requires Exec(run) == Some(w) && Mirrors(w, markers) && w.dead == dead && id !in w.callers && self !in dead
    ensures Exec(next) == Some(v) && GoesOn(run, next, id)
    ensures StandsIn(v, id, Caller(self, generation, if generation in markers then Gone else Linked),
                     if generation in markers then markers else markers[generation := self], dead)
  {
    Arrives(w, id, self, generation, markers, dead);
    var step := One(run, w, Arrive(id, self, generation));
    var w1 := Apply(w, Arrive(id, self, generation));
    Links(w1, id, self, generation, markers, dead);
    next := One(step, w1, Link(id));
    v := Apply(w1, Link(id));
    GoesOnTwice(run, step, next, id);
  }

  /** A call that runs alone does what the machine does when, from any point of any run, only
      that call takes steps: it ends with the same directory, holding exactly if it acquired. */
  lemma {:induction false} SoloIsARun(run: seq<Action>, w: World, id: Id, self: Pid, generation: Generation,
                                      entries: seq<Generation>, markers: map<Generation, Pid>)
    returns (next: seq<Action>, v: World)
    requires Exec(run) == Some(w) && Mirrors(w, markers) && id !in w.callers && self !in w.dead
    requires generation !in markers ==> Lists(entries, markers[generation := self])
    ensures Exec(next) == Some(v) && GoesOn(run, next, id)
    ensures EndedIn(v, id, Solo(markers, self, generation, w.dead, entries))
  {
    next, v := LinksFirst(run, w, id, self, generation, markers, w.dead);
    if generation !in markers {
      var linked := markers[generation := self];
      var step, u := ListsAll(next, v, id, self, generation, entries, linked, w.dead);
      GoesOnTwice(run, next, step, id);
      next, v := ScanRuns(step, u, id, self, generation, entries, linked, w.dead);
      GoesOnTwice(run, step, next, id);
    }
  }
}
