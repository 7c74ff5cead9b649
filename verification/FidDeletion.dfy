/** What a deletion means to a client: exactly the files below the deleted path are
    deleted, for good, and nothing can be done with them any more. */
module FidDeletion {
  import opened Words
  import opened PathNodes
  import opened FidState
  import opened FidSteps
  import opened FidTree
  import opened FidRename
  import opened FidWalk
  import opened FidLemmas
  import opened FidTheorem
  import opened FidMessages

  // ---- Paths and nodes -----------------------------------------------------

  /** The node that a path leads to. */
  ghost function NodeAt(nodes: seq<PathNode>, path: seq<string>): Option<NodeId>
    decreases |path|
  {
    if path == [] then Some(0)
    else
      var n := NodeAt(nodes, path[..|path| - 1]);
      if n.Some? && IsKid(nodes, n.value, path[|path| - 1])
      then Some(nodes[n.value].childNodes[path[|path| - 1]]) else None
  }

  lemma NodeAtMore(nodes: seq<PathNode>, path: seq<string>, n: NodeId, name: string)
    requires NodeAt(nodes, path) == Some(n)
    ensures NodeAt(nodes, path + [name]) == if IsKid(nodes, n, name) then Some(nodes[n].childNodes[name]) else None
  {
    assert (path + [name])[..|path|] == path;
  }

  /** The path of a file leads to its node. */
  lemma {:induction false} PathLeadsToNode(s: State, depth: seq<nat>, r: RefId)
    requires Quiet(s, depth) && Treelike(s) && Live(s, r) && !s.refs[r].deleted
    ensures NodeAt(s.nodes, PathOf(s, depth, r)) == Some(s.refs[r].node)
    decreases if r < |depth| then depth[r] else 0
  {
    hide Counted, ClosedOnce, Named, OneParent;
    if s.refs[r].parent.Some? {
      Upwards(s, depth, r);
      var p := s.refs[r].parent.value;
      PathLeadsToNode(s, depth, p);
      assert PlacedAt(s, r);
      NodeAtMore(s.nodes, PathOf(s, depth, p), s.refs[p].node, NameFor(s, r));
    }
  }

  /** Different paths lead to different nodes. */
  lemma {:induction false} NodeHasOnePath(s: State, p: seq<string>, q: seq<string>)
    requires Treelike(s) && NodeAt(s.nodes, p).Some? && NodeAt(s.nodes, p) == NodeAt(s.nodes, q)
    ensures p == q
    decreases |p|
  {
    OnlyRootAtRoot(s, p);
    OnlyRootAtRoot(s, q);
    if p != [] && q != [] {
      var a, b := p[|p| - 1], q[|q| - 1];
      var n, m := NodeAt(s.nodes, p[..|p| - 1]).value, NodeAt(s.nodes, q[..|q| - 1]).value;
      assert IsKid(s.nodes, n, a) && IsKid(s.nodes, m, b);
      assert n == m && a == b;
      NodeHasOnePath(s, p[..|p| - 1], q[..|q| - 1]);
      assert p == p[..|p| - 1] + [a] && q == q[..|q| - 1] + [b];
    }
  }

  lemma OnlyRootAtRoot(s: State, path: seq<string>)
    requires Treelike(s) && NodeAt(s.nodes, path).Some?
    ensures NodeAt(s.nodes, path) == Some(0) <==> path == []
  {
    hide OneParent;
  }

  /** What is below a node is at a longer path. */
  lemma {:induction false} BelowHasPath(nodes: seq<PathNode>, rank: seq<nat>, path: seq<string>, n: NodeId, x: NodeId)
    returns (rest: seq<string>)
    requires Ranked(nodes, rank) && n < |nodes| && NodeAt(nodes, path) == Some(n) && x in Below(nodes, rank, n)
    ensures NodeAt(nodes, path + rest) == Some(x)
    decreases rank[n]
  {
    hide Below, NodeAt;
    BelowOf(nodes, rank, n, x);
    if x == n {
      rest := [];
      assert path + rest == path;
    } else {
      var name :| name in nodes[n].childNodes && x in Below(nodes, rank, nodes[n].childNodes[name]);
      NodeAtMore(nodes, path, n, name);
      var more := BelowHasPath(nodes, rank, path + [name], nodes[n].childNodes[name], x);
      rest := [name] + more;
      assert path + rest == path + [name] + more;
    }
  }

  // ---- Deletion by path ----------------------------------------------------

  /** A directory that is not deleted. */
  ghost predicate IsDir(s: State, dir: RefId) { Live(s, dir) && !s.refs[dir].deleted }

  lemma {:induction false} PathIsDoomed(s: State, rank: seq<nat>, depth: seq<nat>, dir: RefId, name: string, r: RefId)
    requires Good(s, NO_HANDS, rank, depth) && Treelike(s) && IsDir(s, dir) && Live(s, r) && !s.refs[r].deleted
    requires PathOf(s, depth, dir) + [name] <= PathOf(s, depth, r) && s.refs[dir].node < |s.nodes|
    ensures r in Doomed(s.nodes, rank, s.refs[dir].node, name)
    decreases if r < |depth| then depth[r] else 0
  {
    hide Counted, ClosedOnce, Below, Treelike, RefsBelow;
    Upwards(s, depth, r);
    var p, path := s.refs[r].parent.value, PathOf(s, depth, dir);
    assert PathOf(s, depth, r) == PathOf(s, depth, p) + [NameFor(s, r)];
    if |PathOf(s, depth, p)| == |path| {
      LastOfPrefix(path, name, PathOf(s, depth, p), NameFor(s, r));
      PathLeadsToNode(s, depth, dir);
      PathLeadsToNode(s, depth, p);
      assert s.nodes[s.refs[dir].node].Matched();
    } else {
      PrefixOfMost(path + [name], PathOf(s, depth, p), NameFor(s, r));
      PathIsDoomed(s, rank, depth, dir, name, p);
      DoomedChild(s, NO_HANDS, rank, s.refs[dir].node, name, p, r);
    }
  }

  lemma LastOfPrefix(a: seq<string>, x: string, b: seq<string>, y: string)
    requires a + [x] <= b + [y] && |a| == |b|
    ensures a == b && x == y
  {
    assert (a + [x])[|a|] == x && (b + [y])[|b|] == y;
    assert (b + [y])[..|b|] == b && (a + [x])[..|a|] == a;
  }

  lemma PrefixOfMost(a: seq<string>, b: seq<string>, y: string)
    requires a <= b + [y] && |a| <= |b|
    ensures a <= b
  {
    assert (b + [y])[..|b|] == b;
  }

  /** The files that a deletion of a name in a directory dooms are exactly those whose
      path begins with the directory's path and the name. */
  lemma DoomedIffPath(s: State, rank: seq<nat>, depth: seq<nat>, dir: RefId, name: string, r: RefId)
    requires Good(s, NO_HANDS, rank, depth) && Treelike(s) && IsDir(s, dir) && Live(s, r) && !s.refs[r].deleted
    ensures s.refs[dir].node < |s.nodes|
    ensures r in Doomed(s.nodes, rank, s.refs[dir].node, name) <==>
            PathOf(s, depth, dir) + [name] <= PathOf(s, depth, r)
  {
    hide Counted, ClosedOnce, Placed, Below, Treelike, RefsBelow;
    var n, path := s.refs[dir].node, PathOf(s, depth, dir);
    if path + [name] <= PathOf(s, depth, r) {
      PathIsDoomed(s, rank, depth, dir, name, r);
    }
    if r in Doomed(s.nodes, rank, n, name) {
      PathLeadsToNode(s, depth, dir);
      DoomedHasPath(s, rank, depth, path, n, name, r);
    }
  }

  lemma DoomedHasPath(s: State, rank: seq<nat>, depth: seq<nat>, path: seq<string>, n: NodeId, name: string, r: RefId)
    requires Good(s, NO_HANDS, rank, depth) && Treelike(s) && Live(s, r) && !s.refs[r].deleted
    requires n < |s.nodes| && NodeAt(s.nodes, path) == Some(n) && r in Doomed(s.nodes, rank, n, name)
    ensures path + [name] <= PathOf(s, depth, r)
  {
    hide Counted, ClosedOnce, Placed, Below, Treelike;
    if r in s.nodes[n].RefsNamed(name) {
      assert s.nodes[n].Matched();
      NamedHasPath(s, rank, depth, path, n, r);
    } else {
      var c := s.nodes[n].childNodes[name];
      var m: NodeId :| m in Below(s.nodes, rank, c) && m < |s.nodes| && r in s.nodes[m].childRefNames;
      NodeAtMore(s.nodes, path, n, name);
      var rest := BelowHasPath(s.nodes, rank, path + [name], c, m);
      NamedHasPath(s, rank, depth, path + [name] + rest, m, r);
    }
  }

  /** What has a name in the node at a path is at that path and its name. */
  lemma NamedHasPath(s: State, rank: seq<nat>, depth: seq<nat>, path: seq<string>, n: NodeId, r: RefId)
    requires Good(s, NO_HANDS, rank, depth) && Treelike(s) && Live(s, r) && !s.refs[r].deleted
    requires n < |s.nodes| && NodeAt(s.nodes, path) == Some(n) && r in s.nodes[n].childRefNames
    ensures PathOf(s, depth, r) == path + [s.nodes[n].childRefNames[r]]
  {
    hide Counted, ClosedOnce, Treelike;
    assert NamedAt(s, NO_HANDS, n, r);
    Upwards(s, depth, r);
    var p := s.refs[r].parent.value;
    PathLeadsToNode(s, depth, p);
    NodeHasOnePath(s, path, PathOf(s, depth, p));
  }

  // ---- Messages ------------------------------------------------------------

  /** A state in which references, nodes and names of references are the same has the
      same paths. */
  lemma {:induction false} SamePath(s: State, t: State, depth: seq<nat>, r: RefId)
    requires Quiet(s, depth) && Quiet(t, depth) && t.refs == s.refs && |s.nodes| <= |t.nodes|
    requires forall m :: 0 <= m < |s.nodes| ==> t.nodes[m].childRefNames == s.nodes[m].childRefNames
    requires Live(s, r) && !s.refs[r].deleted
    ensures PathOf(t, depth, r) == PathOf(s, depth, r)
    decreases if r < |depth| then depth[r] else 0
  {
    hide Counted, ClosedOnce, Named, Placed;
    if s.refs[r].parent.Some? {
      Upwards(s, depth, r);
      Upwards(t, depth, r);
      SamePath(s, t, depth, s.refs[r].parent.value);
    }
  }

  /** The path that a message deletes, with all below. A rename deletes what had the new
      name. */
  ghost function Deletes(m: Request, x: Snapshot): Option<seq<string>>
    requires Quiet(x.s, x.depth)
  {
    match m
    case Remove(fid, _) => PathOfFid(x, fid)
    case Unlink(fid, name, _) => Extended(PathOfFid(x, fid), name)
    case Rename(fid, dir, name) =>
      if fid in x.s.fids && dir in x.s.fids && SamePlace(x.s, x.s.fids[fid], x.s.fids[dir], name) then None
      else Extended(PathOfFid(x, dir), name)
    case RenameAt(fid, name, dir, newName) =>
      if SameEntry(x.s, fid, name, dir, newName) then None else Extended(PathOfFid(x, dir), newName)
    case _ => None
  }

  ghost function PathOfFid(x: Snapshot, fid: Fid): Option<seq<string>>
    requires Quiet(x.s, x.depth)
  {
    if fid in x.s.fids && IsDir(x.s, x.s.fids[fid]) then Some(PathOf(x.s, x.depth, x.s.fids[fid])) else None
  }

  function Extended(path: Option<seq<string>>, name: string): Option<seq<string>> {
    if path.Some? then Some(path.value + [name]) else None
  }

  ghost predicate Dies(m: Request, x: Snapshot, r: RefId)
    requires Quiet(x.s, x.depth) && Live(x.s, r) && !x.s.refs[r].deleted
  {
    Deletes(m, x).Some? && Deletes(m, x).value <= PathOf(x.s, x.depth, r)
  }

  /** After a message a file is deleted exactly if it was deleted before, or the message
      succeeded and the file's path is the deleted one or goes on from there. */
  lemma DeletionIsByPath(m: Request, renames: Renames, x: Snapshot, ok: bool, y: Snapshot, r: RefId)
    requires Sound(x) && Sound(y) && Treelike(x.s) && Step(m, renames, x, ok, y)
    requires r < |x.s.refs| && Live(y.s, r)
    ensures Quiet(x.s, x.depth) && Live(x.s, r)
    ensures y.s.refs[r].deleted <==> x.s.refs[r].deleted || (ok && Dies(m, x, r))
  {
    hide Inv, Tidy, Ranked, Reachable, Succeeds, Does, Fails, Treelike, Dies;
    if !ok {
      FailureDeletesNothing(m, x.s, y.s, r);
    } else if m.Remove? || m.Unlink? {
      UnlinkingIsByPath(m, renames, x, y, r);
    } else if m.Rename? || m.RenameAt? {
      RenamingIsByPath(m, renames, x, y, r);
    } else {
      OthersDeleteNothing(m, renames, x, y, r);
    }
  }

  lemma FailureDeletesNothing(m: Request, s: State, s': State, r: RefId)
    requires Fails(m, s, s') && r < |s.refs| && Live(s', r)
    ensures Live(s, r) && s'.refs[r].deleted == s.refs[r].deleted
  {
    hide Treelike;
  }

  lemma OthersDeleteNothing(m: Request, renames: Renames, x: Snapshot, y: Snapshot, r: RefId)
    requires Good(x.s, NO_HANDS, x.rank, x.depth) && Does(m, x.s, x.rank, y.s) && r < |x.s.refs| && Live(y.s, r)
    requires m.Attach? || m.Walk? || m.Clunk? || m.Open? || m.Create? || m.Hangup?
    ensures Live(x.s, r) && y.s.refs[r].deleted == x.s.refs[r].deleted
    ensures !x.s.refs[r].deleted ==> !Dies(m, x, r)
  {
    hide Treelike, Inv, Tidy, Ranked, WalkInstalled, Attached, Created;
  }

  lemma UnlinkingIsByPath(m: Request, renames: Renames, x: Snapshot, y: Snapshot, r: RefId)
    requires Good(x.s, NO_HANDS, x.rank, x.depth) && Treelike(x.s) && (m.Remove? || m.Unlink?)
    requires Succeeds(m, renames, x.s) && Does(m, x.s, x.rank, y.s) && r < |x.s.refs| && Live(y.s, r)
    ensures Live(x.s, r) && (y.s.refs[r].deleted <==> x.s.refs[r].deleted || Dies(m, x, r))
  {
    hide Inv, Tidy, Ranked, Treelike, Doomed, SafeName;
    var s, rank, depth := x.s, x.rank, x.depth;
    if m.Remove? {
      var ref := s.fids[m.fid];
      RemovedPath(s, rank, depth, ref);
      var dir := s.refs[ref].parent.value;
      if Live(s, r) && !s.refs[r].deleted { DoomedIffPath(s, rank, depth, dir, NameFor(s, ref), r); }
    } else {
      var dir, name := s.fids[m.fid], m.name;
      GoodFidLives(s, NO_HANDS, rank, depth, m.fid);
      UnlinkedPath(s, rank, depth, dir, name, r);
    }
  }

  /** The file to remove has its directory's path and its name. */
  lemma RemovedPath(s: State, rank: seq<nat>, depth: seq<nat>, ref: RefId)
    requires Good(s, NO_HANDS, rank, depth) && Lasting(s, ref)
    ensures HasName(s, ref) && IsDir(s, s.refs[ref].parent.value)
    ensures ParentNode(s, ref) == s.refs[s.refs[ref].parent.value].node
    ensures PathOf(s, depth, ref) == PathOf(s, depth, s.refs[ref].parent.value) + [NameFor(s, ref)]
  {
    Upwards(s, depth, ref);
  }

  /** Unlink adds a node for the name first, which changes no path. */
  lemma UnlinkedPath(s: State, rank: seq<nat>, depth: seq<nat>, dir: RefId, name: string, r: RefId)
    requires Good(s, NO_HANDS, rank, depth) && Treelike(s) && IsDir(s, dir) && r < |s.refs|
    ensures s.refs[dir].node < |s.nodes| == |rank|
    ensures var t, rank' := WithNode(s, s.refs[dir].node, name).0, WithNodeRank(s, s.refs[dir].node, name, rank);
            && Ranked(t.nodes, rank') && t.refs == s.refs
            && (Live(s, r) && !s.refs[r].deleted ==>
                  (r in Doomed(t.nodes, rank', s.refs[dir].node, name) <==>
                   PathOf(s, depth, dir) + [name] <= PathOf(s, depth, r)))
  {
    hide Inv, Tidy, Ranked, Treelike, Doomed, WithNode;
    UnlinkReady(s, NO_HANDS, rank, depth, dir, name);
    var n := s.refs[dir].node;
    var t, rank' := WithNode(s, n, name).0, WithNodeRank(s, n, name, rank);
    WithNodeKeepsTree(s, n, name);
    if Live(s, r) && !s.refs[r].deleted {
      DoomedIffPath(t, rank', depth, dir, name, r);
      SamePath(s, t, depth, dir);
      SamePath(s, t, depth, r);
    }
  }

  lemma RenamingIsByPath(m: Request, renames: Renames, x: Snapshot, y: Snapshot, r: RefId)
    requires Good(x.s, NO_HANDS, x.rank, x.depth) && Treelike(x.s) && (m.Rename? || m.RenameAt?)
    requires Succeeds(m, renames, x.s) && Does(m, x.s, x.rank, y.s) && r < |x.s.refs| && Live(y.s, r)
    ensures Live(x.s, r) && (y.s.refs[r].deleted <==> x.s.refs[r].deleted || Dies(m, x, r))
  {
    hide Inv, Tidy, Ranked, Treelike, Doomed, SafeName, RenamedKids, RenamedName;
    var s, rank, depth := x.s, x.rank, x.depth;
    GoodFidLives(s, NO_HANDS, rank, depth, m.dir);
    var dir, name := s.fids[m.dir], if m.Rename? then m.name else m.newName;
    if Live(s, r) && !s.refs[r].deleted { DoomedIffPath(s, rank, depth, dir, name, r); }
  }

  // ---- What cannot be done with a deleted file -----------------------------

  /** The message opens, walks from, changes or moves the file of a FID, or moves
      something under it. */
  predicate ActsOn(m: Request, fid: Fid) {
    match m
    case Walk(f, _, names, _) => f == fid && names != []
    case Open(f, _, _, _) => f == fid
    case Create(f, _, _) => f == fid
    case Remove(f, _) => f == fid
    case Unlink(f, _, _) => f == fid
    case Rename(f, d, _) => f == fid || d == fid
    case RenameAt(f, _, d, _) => f == fid || d == fid
    case _ => false
  }

  /** Nothing can be done with a deleted file but closing it and cloning its FID. */
  lemma DeletedIsDead(m: Request, renames: Renames, s: State, fid: Fid)
    requires fid in s.fids && s.fids[fid] < |s.refs| && s.refs[s.fids[fid]].deleted && ActsOn(m, fid)
    ensures !Succeeds(m, renames, s)
  {
  }

  /** The message needs a file that is not open. */
  predicate NeedsClosed(m: Request, fid: Fid) {
    match m
    case Walk(f, _, _, _) => f == fid
    case Open(f, _, _, _) => f == fid
    case Create(f, _, _) => f == fid
    case Unlink(f, _, _) => f == fid
    case RenameAt(f, _, _, _) => f == fid
    case _ => false
  }

  /** A file is opened once: after a successful Open the FID cannot be opened again, and
      is no longer one to walk from or to create in. */
  lemma OpensOnce(fid: Fid, readOnly: bool, truncate: bool, renames: Renames, x: Snapshot, y: Snapshot, m: Request)
    requires Step(Open(fid, readOnly, truncate, true), renames, x, true, y) && NeedsClosed(m, fid)
    ensures fid in y.s.fids && y.s.fids == x.s.fids && !Succeeds(m, renames, y.s)
  {
  }

  // ---- The tree in every run -----------------------------------------------

  lemma UnlinkKeepsTree(s: State, rank: seq<nat>, n: NodeId, name: string, s': State)
    requires Ranked(s.nodes, rank) && n < |s.nodes| && Unlinked(s, rank, n, name, s') && Treelike(s)
    ensures Treelike(s')
  {
    hide Doomed, Ranked, UnlinkedName;
    assert forall m: NodeId, k :: IsKid(s'.nodes, m, k) ==>
             IsKid(s.nodes, m, k) && s'.nodes[m].childNodes[k] == s.nodes[m].childNodes[k];
  }

  lemma RenameKeepsTree(s: State, rank: seq<nat>, n: NodeId, old_: string, target: RefId, new_: string, s': State)
    requires Ranked(s.nodes, rank) && n < |s.nodes| && target < |s.refs| && s.refs[target].node < |s.nodes|
    requires Renamed(s, rank, n, old_, target, new_, s') && Treelike(s)
    ensures Treelike(s')
  {
    hide Doomed, Ranked, RenamedName;
    var tn := s.refs[target].node;
    forall m: NodeId, k | IsKid(s'.nodes, m, k)
      ensures if m == tn && k == new_ && IsKid(s.nodes, n, old_)
              then s'.nodes[m].childNodes[k] == s.nodes[n].childNodes[old_]
              else IsKid(s.nodes, m, k) && !(m == n && k == old_)
                   && s'.nodes[m].childNodes[k] == s.nodes[m].childNodes[k]
    {
      assert s'.nodes[m].childNodes == RenamedKids(s.nodes, m, n, old_, tn, new_);
    }
  }

  /** Every message keeps the tree. */
  lemma MessageKeepsTree(m: Request, renames: Renames, x: Snapshot, ok: bool, y: Snapshot)
    requires Sound(x) && Sound(y) && Step(m, renames, x, ok, y) && Treelike(x.s)
    ensures Treelike(y.s)
  {
    hide Inv, Tidy, Ranked, Reachable, Succeeds, Does, Fails, Treelike;
    if !ok {
      FailureKeepsTree(m, x.s, y.s);
    } else if m.Attach? || m.Walk? || m.Create? {
      GrowthKeepsTree(m, x.s, x.rank, y.s);
    } else {
      OthersKeepTree(m, x.s, x.rank, y.s);
    }
  }

  lemma FailureKeepsTree(m: Request, s: State, s': State)
    requires Fails(m, s, s') && Treelike(s)
    ensures Treelike(s')
  {
    hide Treelike;
    if m.Clunk? || m.Remove? {
      var t := s.(fids := s.fids - {m.fid});
      SameTree(s, t);
      if s' != s { SameTree(t, s'); }
    }
  }

  lemma GrowthKeepsTree(m: Request, s: State, rank: seq<nat>, s': State)
    requires Does(m, s, rank, s') && Treelike(s) && (m.Attach? || m.Walk? || m.Create?)
    ensures Treelike(s')
  {
    hide Treelike, WalkInstalled, Attached, Created;
    SameTree(s, s.(fids := s'.fids));
  }

  lemma OthersKeepTree(m: Request, s: State, rank: seq<nat>, s': State)
    requires Does(m, s, rank, s') && Treelike(s) && !m.Attach? && !m.Walk? && !m.Create?
    ensures Treelike(s')
  {
    hide Treelike, Unlinked, Renamed, WithNode, ClosesName;
    match m
    case Clunk(fid) =>
      SameTree(s, s.(fids := s.fids - {fid}));
      SameTree(s.(fids := s.fids - {fid}), s');
    case Open(fid, _, _, _) => SameTree(s, s');
    case Remove(fid, _) =>
      var t := s.(fids := s.fids - {fid});
      SameTree(s, t);
      UnlinkKeepsTree(t, rank, ParentNode(s, s.fids[fid]), NameFor(s, s.fids[fid]), s');
    case Unlink(fid, name, _) =>
      var n := s.refs[s.fids[fid]].node;
      WithNodeKeepsTree(s, n, name);
      UnlinkKeepsTree(WithNode(s, n, name).0, WithNodeRank(s, n, name, rank), n, name, s');
    case Rename(fid, dir, name) =>
      var ref, target := s.fids[fid], s.fids[dir];
      if !SamePlace(s, ref, target, name) {
        RenameKeepsTree(s, rank, ParentNode(s, ref), NameFor(s, ref), target, name, s');
      }
    case RenameAt(fid, name, dir, newName) =>
      if !SameEntry(s, fid, name, dir, newName) {
        RenameKeepsTree(s, rank, s.refs[s.fids[fid]].node, name, s.fids[dir], newName, s');
      }
    case Hangup(conn) =>
      SameTree(s, s.(fids := OtherFids(s.fids, conn)));
      SameTree(s.(fids := OtherFids(s.fids, conn)), s');
  }
}
