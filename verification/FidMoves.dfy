/** Where the files are after a message: the path of every file, from the paths before
    it. */
module FidMoves {
  import opened Words
  import opened PathNodes
  import opened FidState
  import opened FidSteps
  import opened FidTree
  import opened FidRename
  import opened FidWalk
  import opened FidLemmas
  import opened FidTheorem
  import opened FidMessages
  import opened FidDeletion
  import opened FidPaths

  // ---- What lies under a name ----------------------------------------------

  lemma {:induction false} PathIsUnder(s: State, rank: seq<nat>, depth: seq<nat>, path: seq<string>, n: NodeId,
                                       name: string, r: RefId)
    requires Good(s, NO_HANDS, rank, depth) && Treelike(s) && Live(s, r) && !s.refs[r].deleted
    requires n < |s.nodes| && NodeAt(s.nodes, path) == Some(n) && path + [name] <= PathOf(s, depth, r)
    ensures Under(s, NO_HANDS, depth, r, s.nodes[n].RefsNamed(name))
    decreases if r < |depth| then depth[r] else 0
  {
    hide Counted, ClosedOnce, Placed, Treelike;
    Upwards(s, depth, r);
    var p := s.refs[r].parent.value;
    if |PathOf(s, depth, p)| == |path| {
      LastOfPrefix(path, name, PathOf(s, depth, p), NameFor(s, r));
      PathLeadsToNode(s, depth, p);
      assert s.nodes[n].Matched();
    } else {
      PrefixOfMost(path + [name], PathOf(s, depth, p), NameFor(s, r));
      PathIsUnder(s, rank, depth, path, n, name, p);
    }
  }

  /** A file lies under the files with a name exactly if its path begins so, and then its
      path goes on from there as that from the file with the name. */
  lemma UnderIffPath(s: State, rank: seq<nat>, depth: seq<nat>, path: seq<string>, n: NodeId, name: string, r: RefId)
    requires Good(s, NO_HANDS, rank, depth) && Treelike(s) && Live(s, r) && !s.refs[r].deleted
    requires n < |s.nodes| && NodeAt(s.nodes, path) == Some(n)
    ensures var top := s.nodes[n].RefsNamed(name);
            && (Under(s, NO_HANDS, depth, r, top) <==> path + [name] <= PathOf(s, depth, r))
            && (Under(s, NO_HANDS, depth, r, top) ==>
                  PathOf(s, depth, r) == path + [name] + PathFrom(s, depth, r, top))
  {
    hide Counted, ClosedOnce, Named, Placed, Treelike;
    var top := s.nodes[n].RefsNamed(name);
    if Under(s, NO_HANDS, depth, r, top) {
      var m := PathThrough(s, depth, r, top);
      assert s.nodes[n].Matched();
      NamedHasPath(s, rank, depth, path, n, m);
    }
    if path + [name] <= PathOf(s, depth, r) {
      PathIsUnder(s, rank, depth, path, n, name, r);
    }
  }

  // ---- Paths that stay -----------------------------------------------------

  /** Files that are still there have the parents and names that they had. */
  ghost predicate KeepsNames(s: State, s': State) {
    forall r :: 0 <= r < |s.refs| && Live(s', r) && !s'.refs[r].deleted ==>
      && Live(s, r) && !s.refs[r].deleted && s'.refs[r].parent == s.refs[r].parent
      && (HasName(s, r) && HasName(s', r) ==> NameFor(s', r) == NameFor(s, r))
  }

  lemma {:induction false} PathStays(s: State, depth: seq<nat>, s': State, depth': seq<nat>, r: RefId)
    requires Quiet(s, depth) && Quiet(s', depth') && KeepsNames(s, s')
    requires r < |s.refs| && Live(s', r) && !s'.refs[r].deleted
    ensures Live(s, r) && !s.refs[r].deleted && PathOf(s', depth', r) == PathOf(s, depth, r)
    decreases if r < |depth| then depth[r] else 0
  {
    hide Counted, ClosedOnce, Named, Placed;
    if s.refs[r].parent.Some? {
      Upwards(s, depth, r);
      Upwards(s', depth', r);
      PathStays(s, depth, s', depth', s.refs[r].parent.value);
    }
  }

  lemma GrowthKeepsNames(s: State, s': State, rank: seq<nat>, depth: seq<nat>)
    requires Good(s, NO_HANDS, rank, depth) && Grown(s.(fids := s'.fids), s')
    ensures KeepsNames(s, s')
  {
    hide Counted, ClosedOnce, Named, Placed, Tidy, Ranked, Treelike;
    forall r | 0 <= r < |s.refs| && Live(s', r) && !s'.refs[r].deleted && HasName(s, r) && HasName(s', r)
      ensures NameFor(s', r) == NameFor(s, r)
    {
      assert GrownName(s.(fids := s'.fids), s', ParentNode(s, r), r);
    }
  }

  lemma UnlinkKeepsNames(s: State, rank: seq<nat>, n: NodeId, name: string, s': State, rank': seq<nat>,
                         depth': seq<nat>)
    requires Ranked(s.nodes, rank) && n < |s.nodes| && Unlinked(s, rank, n, name, s')
    requires Good(s', NO_HANDS, rank', depth')
    ensures KeepsNames(s, s')
  {
    hide Counted, ClosedOnce, Named, Placed, Doomed, Treelike;
    forall r | 0 <= r < |s.refs| && Live(s', r) && !s'.refs[r].deleted && HasName(s, r) && HasName(s', r)
      ensures NameFor(s', r) == NameFor(s, r)
    {
      ParentLives(s', NO_HANDS, r);
      assert UnlinkedName(s, n, name, s', ParentNode(s', r), r);
    }
  }

  // ---- Messages ------------------------------------------------------------

  /** The path that a rename moves, with all below, and where to. */
  ghost function Moves(m: Request, x: Snapshot): Option<(seq<string>, seq<string>)>
    requires Quiet(x.s, x.depth)
  {
    match m
    case Rename(fid, dir, name) => Pair(PathOfFid(x, fid), Extended(PathOfFid(x, dir), name))
    case RenameAt(fid, name, dir, newName) =>
      Pair(Extended(PathOfFid(x, fid), name), Extended(PathOfFid(x, dir), newName))
    case _ => None
  }

  function Pair(a: Option<seq<string>>, b: Option<seq<string>>): Option<(seq<string>, seq<string>)> {
    if a.Some? && b.Some? then Some((a.value, b.value)) else None
  }

  /** A path that begins with what is moved begins with the new path instead. */
  function MovedPath(move: Option<(seq<string>, seq<string>)>, path: seq<string>): seq<string> {
    if move.Some? && move.value.0 <= path then move.value.1 + path[|move.value.0|..] else path
  }

  /** After every message, every file that was there and is not deleted has its old path,
      except that a successful rename replaces the old path by the new one in all
      paths that begin with it. */
  lemma PathsFollow(m: Request, renames: Renames, x: Snapshot, ok: bool, y: Snapshot, r: RefId)
    requires Sound(x) && Sound(y) && Treelike(x.s) && RefusesLoops(renames) && Step(m, renames, x, ok, y)
    requires r < |x.s.refs| && Live(y.s, r) && !y.s.refs[r].deleted
    ensures Quiet(x.s, x.depth) && Quiet(y.s, y.depth) && Live(x.s, r) && !x.s.refs[r].deleted
    ensures var path := PathOf(x.s, x.depth, r);
            PathOf(y.s, y.depth, r) == if ok then MovedPath(Moves(m, x), path) else path
  {
    hide Inv, Tidy, Ranked, Reachable, Succeeds, Does, Fails, Treelike, RefusesLoops, KeepsNames;
    if ok && (m.Rename? || m.RenameAt?) {
      RenamesFollow(m, renames, x, y, r);
    } else {
      if ok { DoneKeepsNames(m, x, y); } else { FailureKeepsNames(m, x, y); }
      PathStays(x.s, x.depth, y.s, y.depth, r);
    }
  }

  lemma SameKeepsNames(s: State, s': State)
    requires s'.nodes == s.nodes && |s'.refs| == |s.refs|
    requires forall r :: 0 <= r < |s.refs| ==>
               && s'.refs[r].closed == s.refs[r].closed && s'.refs[r].deleted == s.refs[r].deleted
               && s'.refs[r].parent == s.refs[r].parent && s'.refs[r].node == s.refs[r].node
    ensures KeepsNames(s, s')
  {
  }

  lemma ClosingKeepsNames(s: State, fids: map<Fid, RefId>, s': State, rank: seq<nat>, depth: seq<nat>)
    requires Good(s, NO_HANDS, rank, depth) && OnlyCloses(s.(fids := fids), s')
    ensures KeepsNames(s, s')
  {
    hide Inv, Tidy, Ranked, KeepsNames, Treelike;
    ClosingIsGrowth(s.(fids := fids), s');
    GrowthKeepsNames(s, s', rank, depth);
  }

  lemma FailureKeepsNames(m: Request, x: Snapshot, y: Snapshot)
    requires Good(x.s, NO_HANDS, x.rank, x.depth) && Fails(m, x.s, y.s)
    ensures KeepsNames(x.s, y.s)
  {
    hide Inv, Tidy, Ranked, OnlyCloses, Grown, KeepsNames, CanCreate;
    var s, s' := x.s, y.s;
    if s' == s {
      SameKeepsNames(s, s');
    } else {
      match m
      case Attach(_, _, _, _) => GrowthKeepsNames(s, s', x.rank, x.depth);
      case Walk(_, _, _, _) => GrowthKeepsNames(s, s', x.rank, x.depth);
      case Unlink(_, _, _) =>
        GrownHasFids(s, s');
        GrowthKeepsNames(s, s', x.rank, x.depth);
      case Clunk(fid) => ClosingKeepsNames(s, s.fids - {fid}, s', x.rank, x.depth);
      case Remove(fid, _) => ClosingKeepsNames(s, s.fids - {fid}, s', x.rank, x.depth);
    }
  }

  lemma GrownHasFids(s: State, s': State)
    requires Grown(s, s')
    ensures s.(fids := s'.fids) == s
  {
  }

  lemma DoneKeepsNames(m: Request, x: Snapshot, y: Snapshot)
    requires Good(x.s, NO_HANDS, x.rank, x.depth) && Good(y.s, NO_HANDS, y.rank, y.depth)
    requires Does(m, x.s, x.rank, y.s) && !m.Rename? && !m.RenameAt?
    ensures KeepsNames(x.s, y.s)
  {
    hide Good, OnlyCloses, Grown, KeepsNames, WalkInstalled, Attached, Created, Unlinked, WithNode;
    var s, s', rank, depth := x.s, y.s, x.rank, x.depth;
    match m
    case Attach(_, _, _, _) => GrowthKeepsNames(s, s', rank, depth);
    case Walk(_, _, _, _) => GrowthKeepsNames(s, s', rank, depth);
    case Create(_, _, _) => GrowthKeepsNames(s, s', rank, depth);
    case Clunk(fid) => ClosingKeepsNames(s, s.fids - {fid}, s', rank, depth);
    case Hangup(conn) => ClosingKeepsNames(s, OtherFids(s.fids, conn), s', rank, depth);
    case Open(fid, _, _, _) => SameKeepsNames(s, s');
    case Remove(fid, _) =>
      var t := s.(fids := s.fids - {fid});
      UnlinkKeepsNames(t, rank, ParentNode(s, s.fids[fid]), NameFor(s, s.fids[fid]), s', y.rank, y.depth);
      SameKeepsNames(s, t);
      KeptTwice(s, t, s');
    case Unlink(fid, name, _) =>
      var n := s.refs[s.fids[fid]].node;
      UnlinkKeepsNames(WithNode(s, n, name).0, WithNodeRank(s, n, name, rank), n, name, s', y.rank, y.depth);
      WithNodeKeepsNames(s, n, name);
      KeptTwice(s, WithNode(s, n, name).0, s');
  }

  lemma WithNodeKeepsNames(s: State, n: NodeId, name: string)
    requires n < |s.nodes|
    ensures KeepsNames(s, WithNode(s, n, name).0)
  {
    hide WithNode;
  }

  lemma KeptTwice(s: State, t: State, s': State)
    requires KeepsNames(s, t) && KeepsNames(t, s') && t.refs == s.refs && |s.nodes| <= |t.nodes|
    requires forall m :: 0 <= m < |s.nodes| ==> t.nodes[m].childRefNames == s.nodes[m].childRefNames
    ensures KeepsNames(s, s')
  {
  }

  // ---- Renames -------------------------------------------------------------

  /** Both places are the same: every path is moved to itself. */
  lemma MovedToItself(path: seq<string>, p: seq<string>)
    ensures MovedPath(Some((p, p)), path) == path
  {
    if p <= path { assert p + path[|p|..] == path; }
  }

  /** Files with the same node have the same path. */
  lemma SameNodeSamePath(s: State, depth: seq<nat>, a: RefId, b: RefId)
    requires Quiet(s, depth) && Treelike(s) && IsDir(s, a) && IsDir(s, b) && s.refs[a].node == s.refs[b].node
    ensures PathOf(s, depth, a) == PathOf(s, depth, b)
  {
    hide Inv, Tidy, Treelike, NodeAt;
    PathLeadsToNode(s, depth, a);
    PathLeadsToNode(s, depth, b);
    NodeHasOnePath(s, PathOf(s, depth, a), PathOf(s, depth, b));
  }

  /** A rename that went through, told by paths. */
  lemma RenameByPath(s: State, rank: seq<nat>, depth: seq<nat>, path: seq<string>, n: NodeId, old_: string,
                     target: RefId, new_: string, s': State, depth': seq<nat>, r: RefId)
    requires RenameDone(s, rank, depth, n, old_, target, new_, s', depth') && Treelike(s)
    requires n < |s.nodes| && NodeAt(s.nodes, path) == Some(n)
    requires Live(s', r) && !s'.refs[r].deleted && Live(s', target)
    ensures Live(s, r) && !s.refs[r].deleted && IsDir(s, target)
    ensures PathOf(s', depth', r)
         == MovedPath(Some((path + [old_], PathOf(s, depth, target) + [new_])), PathOf(s, depth, r))
  {
    hide Inv, Tidy, Ranked, Treelike, Renamed, NodeAt, Below;
    RenameCarriesPaths(s, rank, depth, n, old_, target, new_, s', depth', r);
    UnderIffPath(s, rank, depth, path, n, old_, r);
  }

  lemma RenamesFollow(m: Request, renames: Renames, x: Snapshot, y: Snapshot, r: RefId)
    requires Good(x.s, NO_HANDS, x.rank, x.depth) && Good(y.s, NO_HANDS, y.rank, y.depth) && Treelike(x.s)
    requires RefusesLoops(renames) && (m.Rename? || m.RenameAt?) && Succeeds(m, renames, x.s)
    requires Does(m, x.s, x.rank, y.s) && r < |x.s.refs| && Live(y.s, r) && !y.s.refs[r].deleted
    ensures Live(x.s, r) && !x.s.refs[r].deleted
    ensures PathOf(y.s, y.depth, r) == MovedPath(Moves(m, x), PathOf(x.s, x.depth, r))
  {
    hide Inv, Tidy, Ranked, RefusesLoops, Treelike, Renamed, SafeName, MovesOut, MovesOutOf, MovedPath;
    RenameAllowed(x.s, x.rank, x.depth, m, renames);
    GoodFidLives(x.s, NO_HANDS, x.rank, x.depth, m.fid);
    GoodFidLives(x.s, NO_HANDS, x.rank, x.depth, m.dir);
    if m.Rename? { RenameFollows(m, renames, x, y, r); } else { RenameAtFollows(m, renames, x, y, r); }
  }

  lemma RenameFollows(m: Request, renames: Renames, x: Snapshot, y: Snapshot, r: RefId)
    requires Good(x.s, NO_HANDS, x.rank, x.depth) && Good(y.s, NO_HANDS, y.rank, y.depth) && Treelike(x.s)
    requires m.Rename? && CanRename(x.s, m.fid, m.dir, m.name) && Does(m, x.s, x.rank, y.s)
    requires Live(x.s, x.s.fids[m.fid]) && Live(x.s, x.s.fids[m.dir])
    requires SamePlace(x.s, x.s.fids[m.fid], x.s.fids[m.dir], m.name)
             || MovesOut(x.s, x.rank, x.s.fids[m.fid], x.s.fids[m.dir])
    requires r < |x.s.refs| && Live(y.s, r) && !y.s.refs[r].deleted
    ensures Live(x.s, r) && !x.s.refs[r].deleted
    ensures PathOf(y.s, y.depth, r) == MovedPath(Moves(m, x), PathOf(x.s, x.depth, r))
  {
    hide Inv, Tidy, Ranked, Treelike, Renamed, SafeName, MovedPath, NodeAt, Below;
    var s, rank, depth, ref, dir := x.s, x.rank, x.depth, x.s.fids[m.fid], x.s.fids[m.dir];
    RemovedPath(s, rank, depth, ref);
    var p := s.refs[ref].parent.value;
    if SamePlace(s, ref, dir, m.name) {
      SameNodeSamePath(s, depth, p, dir);
      SameKeepsNames(s, y.s);
      PathStays(s, depth, y.s, y.depth, r);
      MovedToItself(PathOf(s, depth, r), PathOf(s, depth, ref));
    } else {
      PathLeadsToNode(s, depth, p);
      var n, name := ParentNode(s, ref), NameFor(s, ref);
      RenameKeepsFids(s, rank, n, name, dir, m.name, y.s);
      GoodFidLives(y.s, NO_HANDS, y.rank, y.depth, m.dir);
      RenameByPath(s, rank, depth, PathOf(s, depth, p), n, name, dir, m.name, y.s, y.depth, r);
    }
  }

  lemma RenameKeepsFids(s: State, rank: seq<nat>, n: NodeId, old_: string, target: RefId, new_: string, s': State)
    requires Ranked(s.nodes, rank) && n < |s.nodes| && target < |s.refs| && s.refs[target].node < |s.nodes|
    requires Renamed(s, rank, n, old_, target, new_, s')
    ensures s'.fids == s.fids
  {
  }

  lemma RenameAtFollows(m: Request, renames: Renames, x: Snapshot, y: Snapshot, r: RefId)
    requires Good(x.s, NO_HANDS, x.rank, x.depth) && Good(y.s, NO_HANDS, y.rank, y.depth) && Treelike(x.s)
    requires m.RenameAt? && CanRenameAt(x.s, m.fid, m.name, m.dir, m.newName) && Does(m, x.s, x.rank, y.s)
    requires Live(x.s, x.s.fids[m.fid]) && Live(x.s, x.s.fids[m.dir])
    requires SameEntry(x.s, m.fid, m.name, m.dir, m.newName)
             || MovesOutOf(x.s, x.rank, x.s.refs[x.s.fids[m.fid]].node, m.name, x.s.fids[m.dir])
    requires r < |x.s.refs| && Live(y.s, r) && !y.s.refs[r].deleted
    ensures Live(x.s, r) && !x.s.refs[r].deleted
    ensures PathOf(y.s, y.depth, r) == MovedPath(Moves(m, x), PathOf(x.s, x.depth, r))
  {
    hide Inv, Tidy, Ranked, Treelike, Renamed, SafeName, MovedPath, NodeAt, Below;
    var s, rank, depth, ref, dir := x.s, x.rank, x.depth, x.s.fids[m.fid], x.s.fids[m.dir];
    if SameEntry(s, m.fid, m.name, m.dir, m.newName) {
      SameNodeSamePath(s, depth, ref, dir);
      SameKeepsNames(s, y.s);
      PathStays(s, depth, y.s, y.depth, r);
      MovedToItself(PathOf(s, depth, r), PathOf(s, depth, ref) + [m.name]);
    } else {
      var n := s.refs[ref].node;
      PathLeadsToNode(s, depth, ref);
      RenameKeepsFids(s, rank, n, m.name, dir, m.newName, y.s);
      GoodFidLives(y.s, NO_HANDS, y.rank, y.depth, m.dir);
      RenameByPath(s, rank, depth, PathOf(s, depth, ref), n, m.name, dir, m.newName, y.s, y.depth, r);
    }
  }

  // ---- New files -----------------------------------------------------------

  /** The path at which a message that succeeds puts a FID. */
  ghost function Puts(m: Request, x: Snapshot): Option<seq<string>>
    requires Quiet(x.s, x.depth)
  {
    match m
    case Attach(_, names, _, _) => Some(names)
    case Walk(fid, _, names, _) =>
      if names != [] && PathOfFid(x, fid).Some? then Some(PathOfFid(x, fid).value + names) else None
    case Create(fid, name, _) => Extended(PathOfFid(x, fid), name)
    case _ => None
  }

  function PutFid(m: Request): Fid
    requires m.Attach? || m.Walk? || m.Create?
  {
    if m.Walk? then m.newFid else m.fid
  }

  /** Attach, walk and create put their FID at a file with the path of where they start and
      the names that they give. */
  lemma NewFileIsThere(m: Request, renames: Renames, x: Snapshot, y: Snapshot)
    requires Sound(x) && Sound(y) && Treelike(x.s) && RefusesLoops(renames) && Step(m, renames, x, true, y)
    requires m.Attach? || m.Create? || (m.Walk? && m.names != [])
    ensures Quiet(x.s, x.depth) && Quiet(y.s, y.depth) && PutFid(m) in y.s.fids && IsDir(y.s, y.s.fids[PutFid(m)])
    ensures Puts(m, x) == Some(PathOf(y.s, y.depth, y.s.fids[PutFid(m)]))
  {
    hide Inv, Tidy, Ranked, Reachable, Treelike, RefusesLoops, Walked, Grown, SafeName;
    match m
    case Attach(fid, names, attached, answers) =>
      var root :| Attached(x.s, fid, names, attached.value, answers, root, y.s);
      GoodFidLives(y.s, NO_HANDS, y.rank, y.depth, fid);
      EndLasts(y.s, root, names, y.s.fids[fid]);
      WalkAddsNames(y.s, y.depth, root, names, y.s.fids[fid]);
      assert [] + names == names;
    case Walk(fid, newFid, names, answers) =>
      GoodFidLives(y.s, NO_HANDS, y.rank, y.depth, newFid);
      StartIsThere(m, renames, x, y, fid, names, y.s.fids[newFid]);
    case Create(fid, name, ok) =>
      GoodFidLives(y.s, NO_HANDS, y.rank, y.depth, fid);
      OneNameWalked(y.s, x.s.fids[fid], name, y.s.fids[fid]);
      StartIsThere(m, renames, x, y, fid, [name], y.s.fids[fid]);
  }

  lemma EndLasts(s: State, ref: RefId, names: seq<string>, x: RefId)
    requires Walked(s, ref, names, x) && ref < |s.refs| && (names == [] ==> !s.refs[ref].deleted)
    ensures x < |s.refs| && !s.refs[x].deleted
  {
  }

  lemma OneNameWalked(s: State, w: RefId, name: string, x: RefId)
    requires BornBelow(s, w, name, Openable, true, x)
    ensures Walked(s, w, [name], x)
  {
    assert [name][..0] == [] && Walked(s, w, [], w);
  }

  lemma StartIsThere(m: Request, renames: Renames, x: Snapshot, y: Snapshot, fid: Fid, names: seq<string>, e: RefId)
    requires Sound(x) && Sound(y) && Treelike(x.s) && RefusesLoops(renames) && Step(m, renames, x, true, y)
    requires (m.Create? || m.Walk?) && fid in x.s.fids && x.s.fids[fid] < |x.s.refs|
    requires Walked(y.s, x.s.fids[fid], names, e) && names != [] && Live(y.s, e)
    ensures Quiet(x.s, x.depth) && Quiet(y.s, y.depth) && IsDir(x.s, x.s.fids[fid]) && IsDir(y.s, e)
    ensures PathOf(y.s, y.depth, e) == PathOf(x.s, x.depth, x.s.fids[fid]) + names
  {
    hide Inv, Tidy, Ranked, Reachable, Treelike, RefusesLoops, Succeeds, Does, Fails;
    WalkAddsNames(y.s, y.depth, x.s.fids[fid], names, e);
    PathsFollow(m, renames, x, true, y, x.s.fids[fid]);
  }
}
