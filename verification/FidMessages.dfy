/** The messages of the 9P server, when each succeeds, and what each does. */
module FidMessages {
  import opened Words
  import opened PathNodes
  import opened FidState
  import opened FidSteps
  import opened FidTree
  import opened FidRename
  import opened FidWalk
  import opened FidLemmas
  import opened FidTheorem

  /** A message, with what the backend answers to it. */
  datatype Request =
    | Attach(fid: Fid, names: seq<string>, attached: Option<Mode>, answers: nat -> Option<Mode>)
    | Walk(fid: Fid, newFid: Fid, names: seq<string>, answers: nat -> Option<Mode>)
    | Clunk(fid: Fid)
    | Open(fid: Fid, readOnly: bool, truncate: bool, ok: bool)
    | Create(fid: Fid, name: string, ok: bool)
    | Remove(fid: Fid, ok: bool)
    | Unlink(fid: Fid, name: string, ok: bool)
    | Rename(fid: Fid, dir: Fid, name: string)
    | RenameAt(fid: Fid, name: string, dir: Fid, newName: string)
    | Hangup(conn: nat)

  /** The backend's answers to renames, which depend on the state: it refuses to
      move a directory into itself. */
  type Renames = (State, Request) -> bool

  ghost predicate RefusesLoops(renames: Renames) {
    forall s: State, rank, m :: Ranked(s.nodes, rank) && renames(s, m) ==> MakesNoLoop(s, rank, m)
  }

  ghost predicate MakesNoLoop(s: State, rank: seq<nat>, m: Request)
    requires Ranked(s.nodes, rank)
  {
    && (m.Rename? && CanRename(s, m.fid, m.dir, m.name) && HasName(s, s.fids[m.fid]) ==>
          MovesOut(s, rank, s.fids[m.fid], s.fids[m.dir]))
    && (m.RenameAt? && CanRenameAt(s, m.fid, m.name, m.dir, m.newName) ==>
          s.refs[s.fids[m.fid]].node < |s.nodes| ==>
          MovesOutOf(s, rank, s.refs[s.fids[m.fid]].node, m.name, s.fids[m.dir]))
  }

  lemma RenameAllowed(s: State, rank: seq<nat>, depth: seq<nat>, m: Request, renames: Renames)
    requires Good(s, NO_HANDS, rank, depth) && RefusesLoops(renames)
    ensures m.Rename? && renames(s, m) && CanRename(s, m.fid, m.dir, m.name) ==>
              MovesOut(s, rank, s.fids[m.fid], s.fids[m.dir])
    ensures m.RenameAt? && renames(s, m) && CanRenameAt(s, m.fid, m.name, m.dir, m.newName) ==>
              MovesOutOf(s, rank, s.refs[s.fids[m.fid]].node, m.name, s.fids[m.dir])
  {
    hide Counted, ClosedOnce, Named, MovesOut, MovesOutOf;
    if m.Rename? && CanRename(s, m.fid, m.dir, m.name) {
      LastingHasName(s, NO_HANDS, rank, depth, s.fids[m.fid]);
    }
    assert renames(s, m) ==> MakesNoLoop(s, rank, m);
  }

  // ---- When a message succeeds ---------------------------------------------

  predicate Succeeds(m: Request, renames: Renames, s: State) {
    match m
    case Attach(_, names, attached, answers) =>
      attached.Some? && (names == [] || RootWalks(attached.value, names, answers))
    case Walk(fid, _, names, answers) =>
      fid in s.fids && s.fids[fid] < |s.refs| && WalkSucceeds(s, s.fids[fid], names, answers)
    case Clunk(fid) => fid in s.fids
    case Open(fid, readOnly, truncate, ok) => ok && CanOpen(s, fid, readOnly, truncate)
    case Create(fid, name, ok) => ok && CanCreate(s, fid, name)
    case Remove(fid, ok) => ok && CanRemove(s, fid)
    case Unlink(fid, name, ok) => ok && CanCreate(s, fid, name)
    case Rename(fid, dir, name) =>
      CanRename(s, fid, dir, name) && (renames(s, m) || SamePlace(s, s.fids[fid], s.fids[dir], name))
    case RenameAt(fid, name, dir, newName) =>
      CanRenameAt(s, fid, name, dir, newName) && (renames(s, m) || SameEntry(s, fid, name, dir, newName))
    case Hangup(_) => true
  }

  // ---- What a message does -------------------------------------------------

  /** The effect of a message, whether it succeeds or not. */
  ghost predicate Handled(m: Request, renames: Renames, s: State, rank: seq<nat>, s': State) {
    if Succeeds(m, renames, s) then Does(m, s, rank, s') else Fails(m, s, s')
  }

  ghost predicate Does(m: Request, s: State, rank: seq<nat>, s': State) {
    match m
    case Attach(fid, names, attached, answers) =>
      attached.Some? && Grown(s.(fids := s'.fids), s')
      && exists root :: Attached(s, fid, names, attached.value, answers, root, s')
    case Walk(fid, newFid, names, answers) =>
      fid in s.fids && Grown(s.(fids := s'.fids), s') && WalkInstalled(s, s.fids[fid], newFid, names, answers, s')
    case Clunk(fid) => OnlyCloses(s.(fids := s.fids - {fid}), s')
    case Open(fid, _, _, _) => fid in s.fids && s.fids[fid] < |s.refs| && s' == Opening(s, s.fids[fid])
    case Create(fid, name, _) => Grown(s.(fids := s'.fids), s') && Created(s, fid, name, s')
    case Remove(fid, _) => FileRemoved(s, rank, fid, s')
    case Unlink(fid, name, _) => fid in s.fids && NameUnlinked(s, rank, s.fids[fid], name, s')
    case Rename(fid, dir, name) =>
      fid in s.fids && dir in s.fids
      && if SamePlace(s, s.fids[fid], s.fids[dir], name) then s' == s
         else FileRenamed(s, rank, s.fids[fid], s.fids[dir], name, s')
    case RenameAt(fid, name, dir, newName) =>
      fid in s.fids && dir in s.fids
      && if SameEntry(s, fid, name, dir, newName) then s' == s
         else EntryRenamed(s, rank, s.fids[fid], name, s.fids[dir], newName, s')
    case Hangup(conn) => OnlyCloses(s.(fids := OtherFids(s.fids, conn)), s')
  }

  /** A message that fails changes nothing that was there; a failing Remove drops its
      FID. */
  ghost predicate Fails(m: Request, s: State, s': State) {
    match m
    case Attach(_, _, _, _) => s'.fids == s.fids && Grown(s, s')
    case Walk(_, _, _, _) => s'.fids == s.fids && Grown(s, s')
    case Clunk(fid) => OnlyCloses(s.(fids := s.fids - {fid}), s')
    case Remove(fid, _) => if fid in s.fids then OnlyCloses(s.(fids := s.fids - {fid}), s') else s' == s
    case Unlink(fid, name, _) => if CanCreate(s, fid, name) then Grown(s, s') else s' == s
    case _ => s' == s
  }

  /** The FID is at a new open child of its directory. */
  ghost predicate Created(s: State, fid: Fid, name: string, s': State) {
    && fid in s.fids && fid in s'.fids && s'.fids == s.fids[fid := s'.fids[fid]] && |s.refs| <= s'.fids[fid]
    && BornBelow(s', s.fids[fid], name, Openable, true, s'.fids[fid])
  }

  lemma FidsInRange(s: State, rank: seq<nat>, depth: seq<nat>)
    requires Good(s, NO_HANDS, rank, depth)
    ensures forall f :: f in s.fids ==> s.fids[f] < |s.refs|
  {
  }

  // ---- Runs ----------------------------------------------------------------

  /** A state between messages, with the witnesses of its order. */
  datatype Snapshot = Snapshot(s: State, rank: seq<nat>, depth: seq<nat>)

  /** The invariant; exactly the files that a FID refers to, or that have such a file
      below, are open, and every other file was closed once; and in every path node
      the references and the names are inverse to each other. */
  ghost predicate Sound(x: Snapshot) {
    && Good(x.s, NO_HANDS, x.rank, x.depth)
    && (forall r :: 0 <= r < |x.s.refs| ==> x.s.refs[r].closed == if Reachable(x.s, x.depth, r) then 0 else 1)
    && forall n, name, r :: 0 <= n < |x.s.nodes| ==>
         (r in x.s.nodes[n].RefsNamed(name) <==>
          r in x.s.nodes[n].childRefNames && x.s.nodes[n].childRefNames[r] == name)
  }

  ghost predicate Step(m: Request, renames: Renames, x: Snapshot, ok: bool, y: Snapshot) {
    ok == Succeeds(m, renames, x.s) && Handled(m, renames, x.s, x.rank, y.s)
  }

  lemma SoundNow(s: State, rank: seq<nat>, depth: seq<nat>)
    requires Good(s, NO_HANDS, rank, depth)
    ensures Sound(Snapshot(s, rank, depth))
  {
    hide Counted, ClosedOnce, Named, Placed, Ranked, Tidy;
    OpenFiles(s, rank, depth);
    forall n, name, r | 0 <= n < |s.nodes|
      ensures r in s.nodes[n].RefsNamed(name) <==> r in s.nodes[n].childRefNames && s.nodes[n].childRefNames[r] == name
    {
      NamesAreInverse(s, rank, depth, n, name, r);
    }
  }
}
