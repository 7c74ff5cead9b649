/** Which names the 9P server accepts, and that the paths of its files lead to them
    and never out of the tree. */
module FidPaths {
  import opened Words
  import opened PathNodes
  import opened FidState
  import opened FidSteps
  import opened FidTree
  import opened FidRename
  import opened FidWalk
  import opened FidLemmas
  import opened FidTheorem
  import opened FidMessages

  // ---- Paths as strings ----------------------------------------------------

  /** The parts of a path, between slashes. */
  function Split(path: string): (parts: seq<string>)
    ensures |parts| > 0
  {
    if path == "" then [""]
    else
      var rest := Split(path[1..]);
      if path[0] == '/' then [""] + rest else [[path[0]] + rest[0]] + rest[1..]
  }

  /** Where the parts lead from a directory, which is given by the names above it. None
      if they leave the root. */
  function Resolve(dir: seq<string>, parts: seq<string>): Option<seq<string>>
    decreases |parts|
  {
    if parts == [] then Some(dir)
    else if parts[0] == "" || parts[0] == "." then Resolve(dir, parts[1..])
    else if parts[0] == ".." then if dir == [] then None else Resolve(dir[..|dir| - 1], parts[1..])
    else Resolve(dir + [parts[0]], parts[1..])
  }

  function Join(names: seq<string>): string {
    if names == [] then "" else if |names| == 1 then names[0] else names[0] + "/" + Join(names[1..])
  }

  lemma {:induction false} NoSlash(path: string)
    ensures forall i :: 0 <= i < |Split(path)| ==> '/' !in Split(path)[i]
    ensures '/' !in path ==> Split(path) == [path]
  {
    if path != "" {
      NoSlash(path[1..]);
      assert path == [path[0]] + path[1..];
    }
  }

  /** Everything in the result was in the directory's path or is a part. */
  lemma {:induction false} ResolvesToParts(dir: seq<string>, parts: seq<string>)
    ensures Resolve(dir, parts).Some? ==>
              forall i :: 0 <= i < |Resolve(dir, parts).value| ==>
                Resolve(dir, parts).value[i] in dir || Resolve(dir, parts).value[i] in parts
    decreases |parts|
  {
    if parts != [] {
      var next := if parts[0] == "" || parts[0] == "." then dir
        else if parts[0] == ".." then (if dir == [] then [] else dir[..|dir| - 1]) else dir + [parts[0]];
      ResolvesToParts(next, parts[1..]);
    }
  }

  /** From every directory, the name leads to the entry with that name. */
  ghost predicate LeadsToEntry(name: string) {
    forall dir :: Resolve(dir, Split(name)) == Some(dir + [name])
  }

  lemma SafeLeads(name: string, dir: seq<string>)
    requires SafeName(name)
    ensures Resolve(dir, Split(name)) == Some(dir + [name])
  {
    NoSlash(name);
    assert [name][1..] == [];
  }

  /** The names that are accepted are exactly those that lead from every directory to
      the entry with that name. */
  lemma SafeNameIff(name: string)
    ensures SafeName(name) <==> LeadsToEntry(name)
  {
    if SafeName(name) {
      forall dir ensures Resolve(dir, Split(name)) == Some(dir + [name]) { SafeLeads(name, dir); }
    } else {
      UnsafeMisses(name);
      assert [] + [name] == [name];
    }
  }

  lemma UnsafeMisses(name: string)
    requires !SafeName(name)
    ensures Resolve([], Split(name)) != Some([name])
  {
    NoSlash(name);
    if '/' in name {
      OneNameIsPart(Split(name), name);
    } else {
      assert [name][1..] == [];
    }
  }

  lemma OneNameIsPart(parts: seq<string>, name: string)
    ensures Resolve([], parts) == Some([name]) ==> name in parts
  {
    ResolvesToParts([], parts);
    if Resolve([], parts) == Some([name]) { assert [name][0] == name; }
  }

  ghost predicate AllSafe(names: seq<string>) { forall i :: 0 <= i < |names| ==> SafeName(names[i]) }

  lemma {:induction false} SplitAfter(name: string, rest: string)
    requires '/' !in name
    ensures Split(name + "/" + rest) == [name] + Split(rest)
  {
    var path := name + "/" + rest;
    if name == "" {
      assert path[1..] == rest;
    } else {
      assert path[1..] == name[1..] + "/" + rest && path[0] == name[0];
      SplitAfter(name[1..], rest);
      assert name == [name[0]] + name[1..];
    }
  }

  /** The joined path splits back into its names. */
  lemma {:induction false} SplitOfJoin(names: seq<string>)
    requires AllSafe(names) && names != []
    ensures Split(Join(names)) == names
  {
    if |names| == 1 {
      NoSlash(names[0]);
    } else {
      SplitAfter(names[0], Join(names[1..]));
      SplitOfJoin(names[1..]);
    }
  }

  lemma {:induction false} ResolveSafe(dir: seq<string>, names: seq<string>)
    requires AllSafe(names)
    ensures Resolve(dir, names) == Some(dir + names)
    decreases |names|
  {
    if names == [] {
      assert dir + names == dir;
    } else {
      ResolveSafe(dir + [names[0]], names[1..]);
      assert dir + [names[0]] + names[1..] == dir + names;
    }
  }

  /** From every directory the joined path leads to what has the names, and nowhere
      leaves the tree. */
  lemma JoinedPathLeads(dir: seq<string>, names: seq<string>)
    requires AllSafe(names)
    ensures Resolve(dir, Split(Join(names))) == Some(dir + names)
  {
    if names == [] {
      assert Split(Join(names)) == [""] && [""][1..] == [] && dir + names == dir;
    } else {
      SplitOfJoin(names);
      ResolveSafe(dir, names);
    }
  }

  // ---- The names in the server ---------------------------------------------

  /** The reference has a name in the node, and is not deleted. */
  ghost predicate NamedIn(s: State, n: NodeId, r: RefId) {
    n < |s.nodes| && r in s.nodes[n].childRefNames && r < |s.refs| && !s.refs[r].deleted
  }

  /** Every file that is not deleted has a name that is accepted. */
  ghost predicate NamesSafe(s: State) {
    forall n: NodeId, r: RefId :: NamedIn(s, n, r) ==> SafeName(s.nodes[n].childRefNames[r])
  }

  /** An old file has the name that it had. */
  lemma OldNameSafe(s: State, s': State, rank: seq<nat>, depth: seq<nat>, rank': seq<nat>, depth': seq<nat>, n: NodeId,
                    r: RefId)
    requires Good(s, NO_HANDS, rank, depth) && Good(s', NO_HANDS, rank', depth') && NamesSafe(s)
    requires Grown(s.(fids := s'.fids), s') && NamedIn(s', n, r) && r < |s.refs|
    ensures SafeName(s'.nodes[n].childRefNames[r])
  {
    hide Counted, ClosedOnce, Placed, Tidy, Ranked, SafeName;
    assert NamedAt(s', NO_HANDS, n, r);
    assert s'.refs[r].parent == s.refs[r].parent;
    assert GrownName(s.(fids := s'.fids), s', n, r);
    assert NamedIn(s, n, r);
  }

  /** An ancestor of an old file is an old file. */
  lemma {:induction false} OldAbove(s: State, s': State, rank: seq<nat>, depth: seq<nat>, depth': seq<nat>, x: RefId,
                                    r: RefId)
    requires Good(s, NO_HANDS, rank, depth) && Quiet(s', depth') && Grown(s.(fids := s'.fids), s')
    requires Live(s', x) && x < |s.refs| && Above(s', depth', x, r)
    ensures r < |s.refs|
    decreases depth'[x]
  {
    hide Counted, ClosedOnce, Named, Placed, Ranked;
    if x != r {
      ParentLives(s', NO_HANDS, x);
      assert s'.refs[x].parent == s.refs[x].parent;
      OldAbove(s, s', rank, depth, depth', s.refs[x].parent.value, r);
    }
  }

  /** All FIDs but one are where they were. */
  ghost predicate OnlyFid(s: State, s': State, fid: Fid) {
    forall f :: f in s'.fids && f != fid ==> f in s.fids && s'.fids[f] == s.fids[f]
  }

  /** A new file is above the FID that was set. */
  lemma NewIsAbove(s: State, s': State, rank: seq<nat>, depth: seq<nat>, rank': seq<nat>, depth': seq<nat>, fid: Fid,
                   r: RefId)
    requires Good(s, NO_HANDS, rank, depth) && Good(s', NO_HANDS, rank', depth') && Grown(s.(fids := s'.fids), s')
    requires OnlyFid(s, s', fid) && Live(s', r) && r >= |s.refs|
    ensures fid in s'.fids && Live(s', s'.fids[fid]) && Above(s', depth', s'.fids[fid], r)
  {
    hide Counted, ClosedOnce, Named, Placed, Ranked, Grown;
    LiveIsReachable(s', depth', r);
    var f :| f in s'.fids && Live(s', s'.fids[f]) && Above(s', depth', s'.fids[f], r);
    if f != fid {
      FidsInRange(s, rank, depth);
      OldAbove(s, s', rank, depth, depth', s'.fids[f], r);
    }
  }

  /** What is above the end of a walk, and above no old file, has one of its names. */
  lemma {:induction false} WalkedNameSafe(s': State, depth': seq<nat>, ref: RefId, names: seq<string>, x: RefId,
                                          n: NodeId, r: RefId)
    requires Quiet(s', depth') && Walked(s', ref, names, x) && AllSafe(names) && Live(s', x)
    requires Above(s', depth', x, r) && n < |s'.nodes| && r in s'.nodes[n].childRefNames
    ensures SafeName(s'.nodes[n].childRefNames[r]) || (Live(s', ref) && Above(s', depth', ref, r))
    decreases |names|
  {
    hide Counted, ClosedOnce, Placed, SafeName;
    if names != [] {
      assert NamedAt(s', NO_HANDS, n, r);
      if x != r {
        ParentLives(s', NO_HANDS, x);
        WalkedNameSafe(s', depth', ref, names[..|names| - 1], s'.refs[x].parent.value, n, r);
      }
    }
  }

  lemma GrownNamesSafe(s: State, s': State, rank: seq<nat>, depth: seq<nat>, rank': seq<nat>, depth': seq<nat>)
    requires Good(s, NO_HANDS, rank, depth) && Good(s', NO_HANDS, rank', depth') && Grown(s.(fids := s'.fids), s')
    requires NamesSafe(s) && s'.fids == s.fids
    ensures NamesSafe(s')
  {
    hide Counted, ClosedOnce, Placed, Tidy, Ranked, Grown, SafeName;
    forall n: NodeId, r: RefId | NamedIn(s', n, r)
      ensures SafeName(s'.nodes[n].childRefNames[r])
    {
      assert NamedAt(s', NO_HANDS, n, r);
      if r < |s.refs| {
        OldNameSafe(s, s', rank, depth, rank', depth', n, r);
      } else {
        NoNewFiles(s, s', rank, depth, rank', depth', r);
      }
    }
  }

  lemma NoNewFiles(s: State, s': State, rank: seq<nat>, depth: seq<nat>, rank': seq<nat>, depth': seq<nat>, r: RefId)
    requires Good(s, NO_HANDS, rank, depth) && Good(s', NO_HANDS, rank', depth') && Grown(s.(fids := s'.fids), s')
    requires s'.fids == s.fids && Live(s', r)
    ensures r < |s.refs|
  {
    hide Counted, ClosedOnce, Named, Placed, Ranked, Grown;
    LiveIsReachable(s', depth', r);
    var f :| f in s'.fids && Live(s', s'.fids[f]) && Above(s', depth', s'.fids[f], r);
    FidsInRange(s, rank, depth);
    OldAbove(s, s', rank, depth, depth', s'.fids[f], r);
  }

  /** A walk from an old file, or from a new root, adds only its names. */
  lemma WalkNamesSafe(s: State, s': State, rank: seq<nat>, depth: seq<nat>, rank': seq<nat>, depth': seq<nat>, fid: Fid,
                      ref: RefId, names: seq<string>)
    requires Good(s, NO_HANDS, rank, depth) && Good(s', NO_HANDS, rank', depth') && Grown(s.(fids := s'.fids), s')
    requires NamesSafe(s) && OnlyFid(s, s', fid) && fid in s'.fids && AllSafe(names)
    requires Walked(s', ref, names, s'.fids[fid])
    requires ref < |s.refs| || (ref < |s'.refs| && s'.refs[ref].parent.None?)
    ensures NamesSafe(s')
  {
    hide Counted, ClosedOnce, Placed, Ranked, Grown, SafeName;
    forall n: NodeId, r: RefId | NamedIn(s', n, r)
      ensures SafeName(s'.nodes[n].childRefNames[r])
    {
      assert NamedAt(s', NO_HANDS, n, r);
      if r < |s.refs| {
        OldNameSafe(s, s', rank, depth, rank', depth', n, r);
      } else {
        NewIsAbove(s, s', rank, depth, rank', depth', fid, r);
        WalkedNameSafe(s', depth', ref, names, s'.fids[fid], n, r);
        if Live(s', ref) && Above(s', depth', ref, r) && ref < |s.refs| {
          OldAbove(s, s', rank, depth, depth', ref, r);
        }
      }
    }
  }

  /** A clone has the name of what it is a clone of. */
  lemma CloneNamesSafe(s: State, s': State, rank: seq<nat>, depth: seq<nat>, rank': seq<nat>, depth': seq<nat>,
                       fid: Fid, ref: RefId)
    requires Good(s, NO_HANDS, rank, depth) && Good(s', NO_HANDS, rank', depth') && Grown(s.(fids := s'.fids), s')
    requires NamesSafe(s) && OnlyFid(s, s', fid) && fid in s'.fids && Live(s, ref) && CloneOf(s, ref, s', s'.fids[fid])
    ensures NamesSafe(s')
  {
    hide Counted, ClosedOnce, Ranked, Grown, SafeName;
    forall n: NodeId, r: RefId | NamedIn(s', n, r)
      ensures SafeName(s'.nodes[n].childRefNames[r])
    {
      assert NamedAt(s', NO_HANDS, n, r);
      if r < |s.refs| {
        OldNameSafe(s, s', rank, depth, rank', depth', n, r);
      } else {
        NewIsAbove(s, s', rank, depth, rank', depth', fid, r);
        CloneIsOnly(s, s', rank, depth, depth', ref, s'.fids[fid], r);
        CloneNameSafe(s, s', rank, depth, rank', depth', ref, n, r);
      }
    }
  }

  lemma CloneIsOnly(s: State, s': State, rank: seq<nat>, depth: seq<nat>, depth': seq<nat>, ref: RefId, x: RefId,
                    r: RefId)
    requires Good(s, NO_HANDS, rank, depth) && Quiet(s', depth') && Grown(s.(fids := s'.fids), s')
    requires CloneOf(s, ref, s', x) && Above(s', depth', x, r) && r >= |s.refs|
    ensures r == x
  {
    hide Counted, ClosedOnce, Named, Placed, Ranked, Grown;
    if r != x {
      ParentLives(s', NO_HANDS, x);
      OldAbove(s, s', rank, depth, depth', s'.refs[x].parent.value, r);
    }
  }

  lemma CloneNameSafe(s: State, s': State, rank: seq<nat>, depth: seq<nat>, rank': seq<nat>, depth': seq<nat>,
                      ref: RefId, n: NodeId, x: RefId)
    requires Good(s, NO_HANDS, rank, depth) && Good(s', NO_HANDS, rank', depth') && NamesSafe(s)
    requires Grown(s.(fids := s'.fids), s') && Live(s, ref) && CloneOf(s, ref, s', x) && n < |s'.nodes|
    requires NamedIn(s', n, x)
    ensures SafeName(s'.nodes[n].childRefNames[x])
  {
    hide Counted, ClosedOnce, Ranked, SafeName;
    assert NamedAt(s', NO_HANDS, n, x);
    var p := s.refs[ref].parent.value;
    assert s'.refs[p].node == s.refs[p].node == n;
    assert NamedIn(s, n, ref);
  }

  lemma CreateNamesSafe(s: State, s': State, rank: seq<nat>, depth: seq<nat>, rank': seq<nat>, depth': seq<nat>,
                        fid: Fid, name: string)
    requires Good(s, NO_HANDS, rank, depth) && Good(s', NO_HANDS, rank', depth') && Grown(s.(fids := s'.fids), s')
    requires NamesSafe(s) && Created(s, fid, name, s') && SafeName(name)
    ensures NamesSafe(s')
  {
    hide Counted, ClosedOnce, Named, Placed, Ranked, Tidy, Grown, SafeName;
    FidsInRange(s, rank, depth);
    var x, w := s'.fids[fid], s.fids[fid];
    assert Walked(s', w, [], w);
    assert [name][..0] == [];
    assert Walked(s', w, [name], x);
    WalkNamesSafe(s, s', rank, depth, rank', depth', fid, w, [name]);
  }

  lemma ClosesNamesSafe(s: State, s': State)
    requires OnlyCloses(s, s') && NamesSafe(s)
    ensures NamesSafe(s')
  {
    hide SafeName;
    forall n: NodeId, r: RefId | NamedIn(s', n, r) ensures SafeName(s'.nodes[n].childRefNames[r]) {
      assert ClosesName(s, s', n, r);
      assert NamedIn(s, n, r);
    }
  }

  lemma UnlinkNamesSafe(s: State, rank: seq<nat>, n: NodeId, name: string, s': State, rank': seq<nat>, depth': seq<nat>)
    requires Ranked(s.nodes, rank) && n < |s.nodes| && Unlinked(s, rank, n, name, s') && NamesSafe(s)
    requires Good(s', NO_HANDS, rank', depth')
    ensures NamesSafe(s')
  {
    hide SafeName, Doomed, Counted, ClosedOnce, Placed, Ranked, Tidy;
    forall m: NodeId, r: RefId | NamedIn(s', m, r) ensures SafeName(s'.nodes[m].childRefNames[r]) {
      assert UnlinkedName(s, n, name, s', m, r) && NamedAt(s', NO_HANDS, m, r);
      assert NamedIn(s, m, r);
    }
  }

  lemma RenameNamesSafe(s: State, rank: seq<nat>, n: NodeId, old_: string, target: RefId, new_: string, s': State,
                        rank': seq<nat>, depth': seq<nat>)
    requires Ranked(s.nodes, rank) && n < |s.nodes| && target < |s.refs| && s.refs[target].node < |s.nodes|
    requires Renamed(s, rank, n, old_, target, new_, s') && NamesSafe(s) && SafeName(new_)
    requires Good(s', NO_HANDS, rank', depth')
    ensures NamesSafe(s')
  {
    hide SafeName, Doomed, Counted, ClosedOnce, Placed, Ranked, Tidy, RenamedKids;
    forall m: NodeId, r: RefId | NamedIn(s', m, r) ensures SafeName(s'.nodes[m].childRefNames[r]) {
      assert RenamedName(s, n, old_, s.refs[target].node, new_, s', m, r) && NamedAt(s', NO_HANDS, m, r);
      assert r !in s.nodes[n].RefsNamed(old_) ==> NamedIn(s, m, r);
    }
  }

  /** A new node for a name changes no name. */
  lemma WithNodeNamesSafe(s: State, n: NodeId, name: string)
    requires n < |s.nodes| && NamesSafe(s)
    ensures NamesSafe(WithNode(s, n, name).0)
  {
    hide SafeName;
    var t := WithNode(s, n, name).0;
    forall m: NodeId, r: RefId | NamedIn(t, m, r) ensures SafeName(t.nodes[m].childRefNames[r]) {
      assert NamedIn(s, m, r);
    }
  }

  /** The successful messages that add files. */
  lemma NewFilesKeepNamesSafe(m: Request, renames: Renames, x: Snapshot, y: Snapshot)
    requires m.Attach? || m.Walk? || m.Create?
    requires Good(x.s, NO_HANDS, x.rank, x.depth) && Good(y.s, NO_HANDS, y.rank, y.depth) && NamesSafe(x.s)
    requires Succeeds(m, renames, x.s) && Does(m, x.s, x.rank, y.s)
    ensures NamesSafe(y.s)
  {
    hide Good, Grown, NamesSafe, Walked, CloneOf, SafeName;
    var s, s' := x.s, y.s;
    match m
    case Attach(fid, names, attached, answers) =>
      var root :| Attached(s, fid, names, attached.value, answers, root, s');
      assert OnlyFid(s, s', fid) && AllSafe(names);
      WalkNamesSafe(s, s', x.rank, x.depth, y.rank, y.depth, fid, root, names);
    case Walk(fid, newFid, names, answers) =>
      GoodFidLives(s, NO_HANDS, x.rank, x.depth, fid);
      assert OnlyFid(s, s', newFid);
      if names == [] {
        CloneNamesSafe(s, s', x.rank, x.depth, y.rank, y.depth, newFid, s.fids[fid]);
      } else {
        assert AllSafe(names);
        WalkNamesSafe(s, s', x.rank, x.depth, y.rank, y.depth, newFid, s.fids[fid], names);
      }
    case Create(fid, name, _) =>
      CreateNamesSafe(s, s', x.rank, x.depth, y.rank, y.depth, fid, name);
  }

  lemma SameNamesSafe(s: State, s': State)
    requires NamesSafe(s) && s'.nodes == s.nodes && |s'.refs| == |s.refs|
    requires forall r :: 0 <= r < |s.refs| ==> s'.refs[r].deleted == s.refs[r].deleted
    ensures NamesSafe(s')
  {
    hide SafeName;
    forall n: NodeId, r: RefId | NamedIn(s', n, r) ensures SafeName(s'.nodes[n].childRefNames[r]) {
      assert NamedIn(s, n, r);
    }
  }

  /** The other successful messages. */
  lemma OldFilesKeepNamesSafe(m: Request, renames: Renames, x: Snapshot, y: Snapshot)
    requires !m.Attach? && !m.Walk? && !m.Create?
    requires Good(x.s, NO_HANDS, x.rank, x.depth) && Good(y.s, NO_HANDS, y.rank, y.depth) && NamesSafe(x.s)
    requires Succeeds(m, renames, x.s) && Does(m, x.s, x.rank, y.s)
    ensures NamesSafe(y.s)
  {
    hide Good, NamesSafe, SafeName, OnlyCloses, Renamed, Unlinked, WithNode;
    var s, s' := x.s, y.s;
    match m
    case Clunk(fid) =>
      SameNamesSafe(s, s.(fids := s.fids - {fid}));
      ClosesNamesSafe(s.(fids := s.fids - {fid}), s');
    case Open(fid, _, _, _) => SameNamesSafe(s, s');
    case Remove(fid, _) =>
      var t := s.(fids := s.fids - {fid});
      SameNamesSafe(s, t);
      UnlinkNamesSafe(t, x.rank, ParentNode(s, s.fids[fid]), NameFor(s, s.fids[fid]), s', y.rank, y.depth);
    case Unlink(fid, name, _) =>
      var n := s.refs[s.fids[fid]].node;
      WithNodeNamesSafe(s, n, name);
      UnlinkNamesSafe(WithNode(s, n, name).0, WithNodeRank(s, n, name, x.rank), n, name, s', y.rank, y.depth);
    case Rename(fid, dir, name) =>
      var ref, target := s.fids[fid], s.fids[dir];
      if !SamePlace(s, ref, target, name) {
        RenameNamesSafe(s, x.rank, ParentNode(s, ref), NameFor(s, ref), target, name, s', y.rank, y.depth);
      }
    case RenameAt(fid, name, dir, newName) =>
      if !SameEntry(s, fid, name, dir, newName) {
        RenameNamesSafe(s, x.rank, s.refs[s.fids[fid]].node, name, s.fids[dir], newName, s', y.rank, y.depth);
      }
    case Hangup(conn) =>
      SameNamesSafe(s, s.(fids := OtherFids(s.fids, conn)));
      ClosesNamesSafe(s.(fids := OtherFids(s.fids, conn)), s');
  }

  lemma FailedKeepsNamesSafe(m: Request, x: Snapshot, y: Snapshot)
    requires Good(x.s, NO_HANDS, x.rank, x.depth) && Good(y.s, NO_HANDS, y.rank, y.depth) && NamesSafe(x.s)
    requires Fails(m, x.s, y.s)
    ensures NamesSafe(y.s)
  {
    hide Good, NamesSafe, OnlyCloses, Grown, CanCreate;
    var s, s' := x.s, y.s;
    if s' != s {
      match m
      case Attach(_, _, _, _) => GrownNamesSafe(s, s', x.rank, x.depth, y.rank, y.depth);
      case Walk(_, _, _, _) => GrownNamesSafe(s, s', x.rank, x.depth, y.rank, y.depth);
      case Unlink(_, _, _) =>
        GrownKeepsFids(s, s');
        GrownNamesSafe(s, s', x.rank, x.depth, y.rank, y.depth);
      case Clunk(fid) =>
        SameNamesSafe(s, s.(fids := s.fids - {fid}));
        ClosesNamesSafe(s.(fids := s.fids - {fid}), s');
      case Remove(fid, _) =>
        SameNamesSafe(s, s.(fids := s.fids - {fid}));
        ClosesNamesSafe(s.(fids := s.fids - {fid}), s');
    }
  }

  lemma GrownKeepsFids(s: State, s': State)
    requires Grown(s, s')
    ensures s'.fids == s.fids
  {
  }

  /** Every message leaves only accepted names. */
  lemma MessageKeepsNamesSafe(m: Request, renames: Renames, x: Snapshot, ok: bool, y: Snapshot)
    requires Sound(x) && Sound(y) && Step(m, renames, x, ok, y) && NamesSafe(x.s)
    ensures NamesSafe(y.s)
  {
    hide Good, Succeeds, Does, Fails, NamesSafe, Reachable;
    if !ok {
      FailedKeepsNamesSafe(m, x, y);
    } else if m.Attach? || m.Walk? || m.Create? {
      NewFilesKeepNamesSafe(m, renames, x, y);
    } else {
      OldFilesKeepNamesSafe(m, renames, x, y);
    }
  }

  // ---- The paths in the server ---------------------------------------------

  lemma {:induction false} PathIsSafe(s: State, depth: seq<nat>, r: RefId)
    requires Quiet(s, depth) && Live(s, r) && !s.refs[r].deleted && NamesSafe(s)
    ensures AllSafe(PathOf(s, depth, r))
    decreases if r < |depth| then depth[r] else 0
  {
    hide Counted, ClosedOnce, Named, Placed, SafeName;
    if s.refs[r].parent.Some? {
      Upwards(s, depth, r);
      PathIsSafe(s, depth, s.refs[r].parent.value);
      assert NamedIn(s, ParentNode(s, r), r);
    }
  }

  /** As a string, the path of every file that is not deleted leads from every
      directory down to the file's names, and never out of the tree. */
  ghost predicate PathsLead(s: State, depth: seq<nat>)
    requires Quiet(s, depth)
  {
    forall r, dir :: 0 <= r < |s.refs| && Live(s, r) && !s.refs[r].deleted ==>
      Resolve(dir, Split(Join(PathOf(s, depth, r)))) == Some(dir + PathOf(s, depth, r))
  }

  lemma SafeNamesLead(s: State, depth: seq<nat>)
    requires Quiet(s, depth) && NamesSafe(s)
    ensures PathsLead(s, depth)
  {
    hide Quiet, NamesSafe, AllSafe;
    forall r, dir | 0 <= r < |s.refs| && Live(s, r) && !s.refs[r].deleted
      ensures Resolve(dir, Split(Join(PathOf(s, depth, r)))) == Some(dir + PathOf(s, depth, r))
    {
      PathIsSafe(s, depth, r);
      JoinedPathLeads(dir, PathOf(s, depth, r));
    }
  }

  /** A walk adds its names to the path. */
  lemma {:induction false} WalkAddsNames(s: State, depth: seq<nat>, ref: RefId, names: seq<string>, x: RefId)
    requires Quiet(s, depth) && Walked(s, ref, names, x) && Live(s, x) && !s.refs[x].deleted
    ensures Live(s, ref) && !s.refs[ref].deleted && PathOf(s, depth, x) == PathOf(s, depth, ref) + names
    decreases |names|
  {
    hide Counted, ClosedOnce, Named, Placed;
    if names == [] {
      assert PathOf(s, depth, ref) + names == PathOf(s, depth, ref);
    } else {
      Upwards(s, depth, x);
      var most := names[..|names| - 1];
      WalkAddsNames(s, depth, ref, most, s.refs[x].parent.value);
      assert PathOf(s, depth, ref) + most + [names[|names| - 1]] == PathOf(s, depth, ref) + names;
    }
  }

  /** A walk leads to where its names, as a path, lead. */
  lemma WalkIsResolution(s: State, depth: seq<nat>, ref: RefId, names: seq<string>, x: RefId)
    requires Quiet(s, depth) && Walked(s, ref, names, x) && Live(s, x) && !s.refs[x].deleted && AllSafe(names)
    ensures Live(s, ref) && !s.refs[ref].deleted
    ensures Resolve(PathOf(s, depth, ref), Split(Join(names))) == Some(PathOf(s, depth, x))
  {
    hide Quiet, AllSafe, Walked;
    WalkAddsNames(s, depth, ref, names, x);
    JoinedPathLeads(PathOf(s, depth, ref), names);
  }

  /** Names are accepted ones, and paths lead to their files. */
  ghost predicate StaysInside(x: Snapshot) {
    NamesSafe(x.s) && Quiet(x.s, x.depth) && PathsLead(x.s, x.depth)
  }

  lemma SoundStaysInside(x: Snapshot)
    requires Sound(x) && NamesSafe(x.s)
    ensures StaysInside(x)
  {
    hide Inv, Tidy, Ranked, Reachable, NamesSafe, PathsLead;
    SafeNamesLead(x.s, x.depth);
  }

  lemma StepOf(m: Request, renames: Renames, x: Snapshot, ok: bool, y: Snapshot)
    requires ok == Succeeds(m, renames, x.s) && Handled(m, renames, x.s, x.rank, y.s)
    ensures Step(m, renames, x, ok, y)
  {
    hide Succeeds, Handled;
  }
}
