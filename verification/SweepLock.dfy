/** The sweep lock of `packages/dev-env/src/get-port.ts`: many processes link, list,
    inspect and unlink `.sweep-<generation>` markers in one shared directory.
    Every file-system call is one atomic step, except the listing, which may span
    other processes' steps. */
module SweepLock {
  import opened Wrappers

  type Pid = nat
  type Generation = nat
  type Id = nat

  /** Where one call of `acquireSweepLock` stands. `rest` are the listed entries that
      the scan has still to visit, its own marker left out. */
  datatype Phase =
    | Start
    | Linked
    | Listing(must: set<Generation>)
    | Scanning(rest: set<Generation>)
    | Inspecting(marker: Generation, content: Pid, rest: set<Generation>)
    | Removing(marker: Generation, rest: set<Generation>)
    | BackingOff(rest: set<Generation>)
    | Failing
    | Holding
    | Gone

  /** One call: the process that makes it and the generation it was given. */
  datatype Caller = Caller(pid: Pid, generation: Generation, phase: Phase)

  /** The shared directory maps each marker to the call that linked it, whose pid is
      the file's content; `dead` are the pids that no longer run. */
  datatype World = World(markers: map<Generation, Id>, callers: map<Id, Caller>, dead: set<Pid>)

  datatype Action =
    | Arrive(id: Id, pid: Pid, generation: Generation)
    | Link(id: Id)
    | StartListing(id: Id)
    | EndListing(id: Id, listed: set<Generation>)
    | ReadMarker(id: Id, marker: Generation)
    | JudgeMarker(id: Id)
    | UnlinkStale(id: Id)
    | UnlinkOwn(id: Id)
    | FinishScan(id: Id)
    | Throw(id: Id)
    | CleanUp(id: Id)
    | Release(id: Id)
    | Crash(pid: Pid)

  ghost predicate Live(w: World, id: Id) {
    id in w.callers && w.callers[id].pid !in w.dead
  }

  ghost predicate Enabled(w: World, a: Action) {
    match a
    case Arrive(id, pid, _) => id !in w.callers && pid !in w.dead
    case Crash(pid) => true
    case EndListing(id, listed) =>
      // A listing returns every entry that is there from its start to its end; about
      // entries that come or go meanwhile it promises nothing.
      && Live(w, id) && w.callers[id].phase.Listing?
      && w.callers[id].phase.must <= listed
    case Link(id) => Live(w, id) && w.callers[id].phase.Start?
    case StartListing(id) => Live(w, id) && w.callers[id].phase.Linked?
    case ReadMarker(id, g) =>
      Live(w, id) && w.callers[id].phase.Scanning? && g in w.callers[id].phase.rest
    case JudgeMarker(id) => Live(w, id) && w.callers[id].phase.Inspecting?
    case UnlinkStale(id) => Live(w, id) && w.callers[id].phase.Removing?
    case UnlinkOwn(id) => Live(w, id) && w.callers[id].phase.BackingOff?
    case FinishScan(id) => Live(w, id) && w.callers[id].phase == Scanning({})
    case Throw(id) => Live(w, id) && CanThrow(w.callers[id].phase)
    case CleanUp(id) => Live(w, id) && w.callers[id].phase.Failing?
    case Release(id) => Live(w, id) && w.callers[id].phase.Holding?
  }

  /** Phases inside the outer `try`, whose failure removes the caller's own marker. */
  predicate CanThrow(p: Phase) {
    p.Linked? || p.Listing? || p.Scanning? || p.Inspecting? || p.Removing? || p.BackingOff?
  }

  ghost function SetPhase(w: World, id: Id, p: Phase): World
    requires id in w.callers
  {
    w.(callers := w.callers[id := w.callers[id].(phase := p)])
  }

  /** Removes a marker, if it is there. A listing under way then need not return it. */
  ghost function Unlink(w: World, g: Generation): World {
    w.(markers := w.markers - {g},
       callers := map id | id in w.callers :: w.callers[id].(phase := Forget(w.callers[id].phase, g)))
  }

  function Forget(p: Phase, g: Generation): Phase {
    if p.Listing? then Listing(p.must - {g}) else p
  }

  ghost function Apply(w: World, a: Action): World
    requires Enabled(w, a)
  {
    match a
    case Arrive(id, pid, g) => w.(callers := w.callers[id := Caller(pid, g, Start)])
    case Crash(pid) => w.(dead := w.dead + {pid})
    case Link(id) =>
      var g := w.callers[id].generation;
      if g in w.markers then SetPhase(w, id, Gone)
      else SetPhase(w.(markers := w.markers[g := id]), id, Linked)
    case StartListing(id) => SetPhase(w, id, Listing(w.markers.Keys))
    case EndListing(id, listed) => SetPhase(w, id, Scanning(listed - {w.callers[id].generation}))
    case ReadMarker(id, g) =>
      var rest := w.callers[id].phase.rest - {g};
      if g in w.markers && w.markers[g] in w.callers
      then SetPhase(w, id, Inspecting(g, w.callers[w.markers[g]].pid, rest))
      else SetPhase(w, id, Scanning(rest))
    case JudgeMarker(id) =>
      var p := w.callers[id].phase;
      if p.content in w.dead then SetPhase(w, id, Removing(p.marker, p.rest))
      else SetPhase(w, id, BackingOff(p.rest))
    case UnlinkStale(id) =>
      var p := w.callers[id].phase;
      Unlink(SetPhase(w, id, Scanning(p.rest)), p.marker)
    case UnlinkOwn(id) =>
      // When the caller's own marker has vanished, the unlink fails with ENOENT, and the
      // catch around one entry's work swallows that: the scan goes on.
      var c := w.callers[id];
      if c.generation in w.markers then Unlink(SetPhase(w, id, Gone), c.generation)
      else SetPhase(w, id, Scanning(c.phase.rest))
    case FinishScan(id) => SetPhase(w, id, Holding)
    case Throw(id) => SetPhase(w, id, Failing)
    case CleanUp(id) => Unlink(SetPhase(w, id, Gone), w.callers[id].generation)
    case Release(id) => Unlink(SetPhase(w, id, Gone), w.callers[id].generation)
  }

  const EMPTY := World(map[], map[], {})

  /** The world a run of actions leads to, if each of them was possible in turn. */
  ghost function Exec(run: seq<Action>): Option<World> {
    if run == [] then Some(EMPTY) else
      match Exec(Before(run))
      case None => None
      case Some(w) => if Enabled(w, Last(run)) then Some(Apply(w, Last(run))) else None
  }

  function Before(run: seq<Action>): seq<Action>
    requires run != []
  {
    run[..|run| - 1]
  }

  function Last(run: seq<Action>): Action
    requires run != []
  {
    run[|run| - 1]
  }

  /** The property the lock is for. */
  ghost predicate MutualExclusion(w: World) {
    forall a, b :: Live(w, a) && Live(w, b) && w.callers[a].phase.Holding? && w.callers[b].phase.Holding? ==> a == b
  }

  // ---------------------------------------------------------------- when it holds

  predicate Inspects(p: Phase, g: Generation) {
    (p.Inspecting? || p.Removing?) && p.marker == g
  }

  /** If `b` links now, `a` can take the new marker for the one it is inspecting: that was gone,
      and `a` has judged it stale or can come to, since its process can end without either
      call ending with it. */
  ghost predicate Disturbs(w: World, a: Id, b: Id) {
    && a != b && Live(w, a) && Live(w, b)
    && w.callers[b].phase.Start? && w.callers[b].generation !in w.markers
    && Inspects(w.callers[a].phase, w.callers[b].generation)
    && (w.callers[a].phase.Inspecting? ==>
          w.callers[a].phase.content != w.callers[a].pid && w.callers[a].phase.content != w.callers[b].pid)
  }

  /** No link of the run is disturbed. */
  ghost predicate Undisturbed(run: seq<Action>) {
    run != [] ==>
      && Undisturbed(Before(run))
      && (Exec(Before(run)).Some? ==> Harmless(Exec(Before(run)).value, Last(run)))
  }

  ghost predicate Harmless(w: World, a: Action) {
    a.Link? ==> forall x :: !Disturbs(w, x, a.id)
  }

  /** The caller's marker is there and is the caller's to remove. */
  ghost predicate Marked(p: Phase) {
    !p.Start? && !p.Gone?
  }

  /** The scan of a caller in phase `p` has yet to decide about marker `g`. */
  ghost predicate Pending(p: Phase, g: Generation) {
    match p
    case Linked => true
    case Listing(must) => g in must
    case Scanning(rest) => g in rest
    case Inspecting(m, _, rest) => g in rest || g == m
    case Removing(_, rest) => g in rest
    case BackingOff(_) => true
    case Failing => true
    case _ => false
  }

  /** Markers are linked by known callers, of that generation. */
  ghost predicate MarkersKnown(w: World) {
    forall g :: g in w.markers ==> w.markers[g] in w.callers && w.callers[w.markers[g]].generation == g
  }

  /** No one else removes a live caller's marker. */
  ghost predicate MarkersKept(w: World) {
    forall a :: Live(w, a) && Marked(w.callers[a].phase) ==>
      w.callers[a].generation in w.markers && w.markers[w.callers[a].generation] == a
  }

  /** If call `a` in phase `p` inspects a marker, that is still the one that was read, or one of
      the same process, or is gone; or else what was read is its own pid, so that it will back off. */
  ghost predicate Current(w: World, a: Id, p: Phase)
    requires MarkersKnown(w) && a in w.callers
  {
    (p.Inspecting? || p.Removing?) && p.marker in w.markers ==>
      var owner := w.callers[w.markers[p.marker]];
      if p.Inspecting? then p.content == owner.pid || p.content == w.callers[a].pid else owner.pid in w.dead
  }

  ghost predicate InspectionsCurrent(w: World)
    requires MarkersKnown(w)
  {
    forall a :: Live(w, a) ==> Current(w, a, w.callers[a].phase)
  }

  /** Of two live marked callers, one has yet to decide about the other. */
  ghost predicate SomeonePending(w: World) {
    forall a, b :: a != b && Live(w, a) && Live(w, b) && Marked(w.callers[a].phase) && Marked(w.callers[b].phase) ==>
      Pending(w.callers[a].phase, w.callers[b].generation) || Pending(w.callers[b].phase, w.callers[a].generation)
  }

  ghost predicate Invariant(w: World) {
    MarkersKnown(w) && MarkersKept(w) && InspectionsCurrent(w) && SomeonePending(w)
  }

  /** In phase `p`, a call has yet to decide about all that it has yet to decide about now. */
  ghost predicate StillPending(w: World, id: Id, p: Phase)
    requires id in w.callers
  {
    forall b :: b != id && Live(w, b) && Marked(w.callers[b].phase) ==>
      Pending(w.callers[id].phase, w.callers[b].generation) ==> Pending(p, w.callers[b].generation)
  }

  lemma SetPhaseKeeps(w: World, id: Id, p: Phase)
    requires Invariant(w) && Live(w, id) && Current(w, id, p)
    requires Marked(p) ==> Marked(w.callers[id].phase) && StillPending(w, id, p)
    ensures Invariant(SetPhase(w, id, p))
  {
  }

  lemma UnlinkKeeps(w: World, g: Generation)
    requires Invariant(w)
    requires g in w.markers && Live(w, w.markers[g]) ==> !Marked(w.callers[w.markers[g]].phase)
    ensures Invariant(Unlink(w, g))
  {
  }

  lemma ArriveKeeps(w: World, a: Action)
    requires Invariant(w) && Enabled(w, a) && a.Arrive?
    ensures Invariant(Apply(w, a))
  {
  }

  lemma LinkKeeps(w: World, a: Action)
    requires Invariant(w) && Enabled(w, a) && a.Link? && Harmless(w, a)
    ensures Invariant(Apply(w, a))
  {
    var g := w.callers[a.id].generation;
    if g !in w.markers {
      assert forall b :: Live(w, b) && Inspects(w.callers[b].phase, g) ==> !Disturbs(w, b, a.id);
    }
  }

  /** The steps of listing and scanning, none of which touches the directory. */
  lemma {:induction false} ScanKeeps(w: World, a: Action)
    requires Invariant(w) && Enabled(w, a)
    requires a.StartListing? || a.EndListing? || a.ReadMarker? || a.JudgeMarker? || a.FinishScan? || a.Throw?
    ensures Invariant(Apply(w, a))
  {
    var old_, p := w.callers[a.id].phase, Apply(w, a).callers[a.id].phase;
    forall b | b != a.id && Live(w, b) && Marked(w.callers[b].phase) && Pending(old_, w.callers[b].generation)
      ensures Pending(p, w.callers[b].generation)
    {
      assert w.markers[w.callers[b].generation] == b;
    }
    SetPhaseKeeps(w, a.id, p);
  }

  /** The steps that unlink a marker. */
  lemma {:induction false} UnlinkStepKeeps(w: World, a: Action)
    requires Invariant(w) && Enabled(w, a)
    requires a.UnlinkStale? || a.UnlinkOwn? || a.CleanUp? || a.Release?
    ensures Invariant(Apply(w, a))
  {
    var c := w.callers[a.id];
    var p := if a.UnlinkStale? then Scanning(c.phase.rest) else Gone;
    SetPhaseKeeps(w, a.id, p);
    UnlinkKeeps(SetPhase(w, a.id, p), if a.UnlinkStale? then c.phase.marker else c.generation);
  }

  lemma {:induction false} StepKeepsInvariant(w: World, a: Action)
    requires Invariant(w) && Enabled(w, a) && Harmless(w, a)
    ensures Invariant(Apply(w, a))
  {
    match a
    case Arrive(_, _, _) => ArriveKeeps(w, a);
    case Crash(_) =>
    case Link(_) => LinkKeeps(w, a);
    case UnlinkStale(_) => UnlinkStepKeeps(w, a);
    case UnlinkOwn(_) => UnlinkStepKeeps(w, a);
    case CleanUp(_) => UnlinkStepKeeps(w, a);
    case Release(_) => UnlinkStepKeeps(w, a);
    case _ => ScanKeeps(w, a);
  }

  lemma {:induction false} InvariantHolds(run: seq<Action>)
    requires Exec(run).Some? && Undisturbed(run)
    ensures Invariant(Exec(run).value)
  {
    if run != [] {
      InvariantHolds(Before(run));
      StepKeepsInvariant(Exec(Before(run)).value, Last(run));
    }
  }

  /** At most one live call holds the lock, in every interleaving of every number of calls,
      provided no link is disturbed. */
  lemma {:induction false} AtMostOneHolder(run: seq<Action>)
    requires Exec(run).Some? && Undisturbed(run)
    ensures MutualExclusion(Exec(run).value)
  {
    InvariantHolds(run);
  }

  lemma ExecSnoc(run: seq<Action>, w: World, a: Action)
    requires Exec(run) == Some(w) && Enabled(w, a)
    ensures Exec(run + [a]) == Some(Apply(w, a))
  {
    assert Before(run + [a]) == run;
  }
}
