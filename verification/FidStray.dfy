/** Walks from a deleted directory. The server lets a client ask for one and leaves
    the answer to the backend. If the backend walks too, files can be lost: a
    reference becomes its own ancestor, and it and those between are never closed. */
module FidStray {
  import opened Words
  import opened PathNodes
  import opened FidState
  import opened FidSteps
  import opened FidTree
  import opened FidRename
  import opened FidWalk
  import opened FidLemmas
  import opened FidTheorem
  import opened FidServer

  // ---- A client can have a deleted directory -------------------------------

  const ROOT := Fid(0, 0)
  const DIR := Fid(0, 1)

  /** Attach, walk and unlink leave a FID at a deleted directory, and Trename panics
      on what a walk from there would leave. */
  method DeletedDirectory(name: string, mode: Mode) returns (server: Server)
    ensures fresh(server) && server.Valid() && DIR in server.s.fids
    ensures var s, w := server.s, server.s.fids[DIR];
            && Live(s, w) && s.refs[w].deleted && s.refs[w].mode.Directory? && !s.refs[w].open
            && CanBear(s, w) && RenamePanics(Born(s, w, name, mode, false), |s.refs|)
  {
    hide Good, Grown, Attached, WalkInstalled, WalkSucceeds, NameUnlinked, CanCreate, Born, CanBear, RenamePanics;
    server := new Server();
    ghost var start := server.s;
    var answers := (_: nat) => Some(Directory);
    var ok, root := server.Tattach(ROOT, [], Some(Directory), answers);
    ghost var a := server.s;
    AtRoot(start, server.s, root, answers);
    var walked := server.Twalk(ROOT, DIR, ["d"], answers);
    ghost var b, rank := server.s, server.rank;
    NamedAndMatched(b, NO_HANDS, rank, server.depth);
    AtChild(a, b, root, answers);
    var reply := server.Tunlinkat(ROOT, "d", true);
    ghost var c, w := server.s, b.fids[DIR];
    AtDeleted(b, rank, root, c, server.rank, server.depth, w);
    WalkPanicsIff(c, NO_HANDS, server.rank, server.depth, w, name, mode);
  }

  lemma AtRoot(s: State, s': State, root: RefId, answers: nat -> Option<Mode>)
    requires Attached(s, ROOT, [], Directory, answers, root, s') && (forall i :: answers(i) == Some(Directory))
    ensures ROOT in s'.fids && s'.fids[ROOT] == root < |s'.refs| && IsRoot(s'.refs[root], Directory)
    ensures WalkSucceeds(s', root, ["d"], answers)
  {
    assert '/' !in "d" && "d" != "." && "d" != "..";
    assert SafeName("d");
  }

  lemma AtChild(s: State, s': State, root: RefId, answers: nat -> Option<Mode>)
    requires ROOT in s.fids && s.fids[ROOT] == root < |s.refs| && IsRoot(s.refs[root], Directory)
    requires WalkInstalled(s, root, DIR, ["d"], answers, s') && Grown(s.(fids := s'.fids), s')
    requires forall i :: answers(i) == Some(Directory)
    ensures ROOT in s'.fids && s'.fids[ROOT] == root && CanCreate(s', ROOT, "d") && s'.refs[root].node < |s'.nodes|
    ensures DIR in s'.fids && s'.fids[DIR] < |s'.refs|
    ensures var w, names := s'.fids[DIR], s'.nodes[s'.refs[root].node].childRefNames;
            s'.refs[w].mode.Directory? && !s'.refs[w].open && w in names && names[w] == "d"
  {
    GrownRef(s.(fids := s'.fids), s', root);
    assert ROOT != DIR && ["d"][..0] == [];
    assert '/' !in "d" && "d" != "." && "d" != "..";
    assert SafeName("d");
  }

  lemma AtDeleted(s: State, rank: seq<nat>, root: RefId, s': State, rank': seq<nat>, depth': seq<nat>, w: RefId)
    requires NameUnlinked(s, rank, root, "d", s') && (forall n :: 0 <= n < |s.nodes| ==> s.nodes[n].Matched())
    requires DIR in s.fids && s.fids[DIR] == w && Good(s', NO_HANDS, rank', depth')
    requires w in s.nodes[s.refs[root].node].childRefNames && s.nodes[s.refs[root].node].childRefNames[w] == "d"
    ensures DIR in s'.fids && s'.fids[DIR] == w && Live(s', w) && w < |s.refs|
    ensures s'.refs[w].deleted && s'.refs[w].mode == s.refs[w].mode && s'.refs[w].open == s.refs[w].open
  {
    hide Good, Ranked, Doomed;
    assert s'.fids == s.fids;
    GoodFidLives(s', NO_HANDS, rank', depth', DIR);
    UnlinkMarks(s, rank, root, "d", s', w);
  }

  /** The reference with the name is marked, and otherwise as it was. */
  lemma UnlinkMarks(s: State, rank: seq<nat>, ref: RefId, name: string, s': State, w: RefId)
    requires NameUnlinked(s, rank, ref, name, s') && (forall n :: 0 <= n < |s.nodes| ==> s.nodes[n].Matched())
    requires w in s.nodes[s.refs[ref].node].childRefNames && s.nodes[s.refs[ref].node].childRefNames[w] == name
    requires Live(s', w)
    ensures w < |s.refs| && s'.fids == s.fids && s'.refs[w] == s.refs[w].(count := s'.refs[w].count, deleted := true)
  {
    hide Ranked, RefsBelow;
    var n := s.refs[ref].node;
    var t := WithNode(s, n, name).0;
    assert t.nodes[n].Matched();
    assert w in t.nodes[n].RefsNamed(name);
  }

  // ---- What a walk from it can lose ----------------------------------------

  /** No live reference is its own ancestor. */
  ghost predicate Ordered(s: State, depth: seq<nat>) {
    && |depth| == |s.refs|
    && forall r :: 0 <= r < |s.refs| && Live(s, r) && s.refs[r].parent.Some? ==>
         s.refs[r].parent.value < |s.refs| && depth[s.refs[r].parent.value] < depth[r]
  }

  /** A walk from w left a new file, and then the references with a name were moved
      under it. */
  ghost predicate MovedUnder(s: State, w: RefId, name: string, mode: Mode, t: State, rank: seq<nat>, n: NodeId,
                             old_: string, new_: string, s': State)
  {
    && CanBear(s, w) && n < |s.nodes| && !(n == s.refs[w].node && old_ == name)
    && SameFiles(Born(s, w, name, mode, false), t) && Ranked(t.nodes, rank)
    && t.refs[|s.refs|].node < |t.nodes| && Renamed(t, rank, n, old_, |s.refs|, new_, s')
    && Live(s', |s.refs|)
    && forall r :: 0 <= r < |s'.refs| && Live(s', r) && s'.refs[r].parent.Some? ==> Live(s', s'.refs[r].parent.value)
  }

  /** The parents after the move: the new file for what was moved, w for the new file,
      and otherwise as before. */
  lemma ParentsAfter(s: State, h: Hands, w: RefId, name: string, mode: Mode, t: State, rank: seq<nat>, n: NodeId,
                     old_: string, new_: string, s': State, r: RefId)
    requires Inv(s, h) && MovedUnder(s, w, name, mode, t, rank, n, old_, new_, s') && Live(s', r)
    ensures |s'.refs| == |s.refs| + 1 && (r < |s.refs| ==> Live(s, r))
    ensures s'.refs[r].parent == if r == |s.refs| then Some(w)
                                 else if r in s.nodes[n].RefsNamed(old_) then Some(|s.refs|)
                                 else s.refs[r].parent
  {
    hide Counted, ClosedOnce, Placed, Doomed, Ranked, RenamedKids, RenamedName;
    var b := Born(s, w, name, mode, false);
    BornNames(s, h, w, name, mode, n, old_);
    assert t.refs[r] == b.refs[r].(count := t.refs[r].count);
  }

  lemma BornNames(s: State, h: Hands, w: RefId, name: string, mode: Mode, n: NodeId, old_: string)
    requires Inv(s, h) && CanBear(s, w) && n < |s.nodes| && !(n == s.refs[w].node && old_ == name)
    ensures var b := Born(s, w, name, mode, false);
            n < |b.nodes| && b.nodes[n].RefsNamed(old_) == s.nodes[n].RefsNamed(old_)
    ensures |s.refs| !in s.nodes[n].RefsNamed(old_)
  {
    hide Counted, ClosedOnce, Placed;
    var b := Born(s, w, name, mode, false);
    assert s.nodes[n].Matched();
    assert |s.refs| in s.nodes[n].childRefNames ==> NamedAt(s, h, n, |s.refs|);
  }

  /** Above a file under the moved ones is the new file. */
  lemma {:induction false} NewFileAbove(s: State, depth: seq<nat>, w: RefId, name: string, mode: Mode, t: State,
                                        rank: seq<nat>, n: NodeId, old_: string, new_: string, s': State,
                                        depth': seq<nat>, r: RefId)
    requires n < |s.nodes| && Quiet(s, depth) && MovedUnder(s, w, name, mode, t, rank, n, old_, new_, s')
    requires r < |s.refs| && Live(s, r) && Live(s', r) && Ordered(s', depth')
    requires Under(s, NO_HANDS, depth, r, s.nodes[n].RefsNamed(old_))
    ensures |s.refs| < |depth'| && r < |depth'| && depth'[|s.refs|] < depth'[r]
    decreases depth[r]
  {
    hide Counted, ClosedOnce, Named, Placed, MovedUnder;
    LivesOn(s, w, name, mode, t, rank, n, old_, new_, s', r);
    ParentsAfter(s, NO_HANDS, w, name, mode, t, rank, n, old_, new_, s', r);
    if r !in s.nodes[n].RefsNamed(old_) {
      var p := s.refs[r].parent.value;
      ParentLives(s, NO_HANDS, r);
      NewFileAbove(s, depth, w, name, mode, t, rank, n, old_, new_, s', depth', p);
    }
  }

  lemma LivesOn(s: State, w: RefId, name: string, mode: Mode, t: State, rank: seq<nat>, n: NodeId, old_: string,
                new_: string, s': State, r: RefId)
    requires MovedUnder(s, w, name, mode, t, rank, n, old_, new_, s') && Live(s', r)
    ensures Live(s', |s.refs|) && (s'.refs[r].parent.Some? ==> Live(s', s'.refs[r].parent.value))
  {
  }

  /** Depths for the state after a move that makes no loop. */
  ghost function DepthAfter(s: State, depth: seq<nat>, w: RefId, top: set<RefId>): (d: seq<nat>)
    requires Quiet(s, depth) && w < |s.refs|
    ensures |d| == |s.refs| + 1
  {
    Deepened(s, NO_HANDS, depth, top, depth[w] + 2) + [depth[w] + 1]
  }

  lemma NoLoopAfter(s: State, depth: seq<nat>, w: RefId, name: string, mode: Mode, t: State, rank: seq<nat>, n: NodeId,
                    old_: string, new_: string, s': State)
    requires n < |s.nodes| && Quiet(s, depth) && MovedUnder(s, w, name, mode, t, rank, n, old_, new_, s') && Live(s, w)
    requires !Under(s, NO_HANDS, depth, w, s.nodes[n].RefsNamed(old_))
    ensures Ordered(s', DepthAfter(s, depth, w, s.nodes[n].RefsNamed(old_)))
  {
    hide Inv, Tidy, Under, MovedUnder, DepthAfter;
    var top := s.nodes[n].RefsNamed(old_);
    var d := DepthAfter(s, depth, w, top);
    ParentsAfter(s, NO_HANDS, w, name, mode, t, rank, n, old_, new_, s', |s.refs|) by {
      NewFileLives(s, w, name, mode, t, rank, n, old_, new_, s');
    }
    forall r | 0 <= r < |s'.refs| && Live(s', r) && s'.refs[r].parent.Some?
      ensures s'.refs[r].parent.value < |s'.refs| && d[s'.refs[r].parent.value] < d[r]
    {
      ParentsAfter(s, NO_HANDS, w, name, mode, t, rank, n, old_, new_, s', r);
      DepthsAfter(s, depth, w, top, r);
    }
  }

  lemma DepthsAfter(s: State, depth: seq<nat>, w: RefId, top: set<RefId>, r: RefId)
    requires Quiet(s, depth) && Live(s, w) && !Under(s, NO_HANDS, depth, w, top) && r <= |s.refs|
    ensures var d := DepthAfter(s, depth, w, top);
            && d[w] < d[|s.refs|]
            && (r < |s.refs| && Live(s, r) && r in top ==> d[|s.refs|] < d[r])
            && (r < |s.refs| && Live(s, r) && r !in top && s.refs[r].parent.Some? ==>
                  s.refs[r].parent.value < |s.refs| && d[s.refs[r].parent.value] < d[r])
  {
    hide Counted, ClosedOnce, Named, Placed;
    if r < |s.refs| && Live(s, r) && s.refs[r].parent.Some? {
      ParentLives(s, NO_HANDS, r);
    }
  }

  lemma NewFileLives(s: State, w: RefId, name: string, mode: Mode, t: State, rank: seq<nat>, n: NodeId, old_: string,
                     new_: string, s': State)
    requires MovedUnder(s, w, name, mode, t, rank, n, old_, new_, s')
    ensures Live(s', |s.refs|)
  {
  }

  /** Once a client has walked from a directory, moving references under the new file
      makes a reference its own ancestor exactly when one of them is above the
      directory. The path tree shows this to the backend only while the directory
      is not deleted. */
  lemma MoveLosesFilesIff(s: State, depth: seq<nat>, w: RefId, name: string, mode: Mode, t: State, rank: seq<nat>,
                          n: NodeId, old_: string, new_: string, s': State)
    requires n < |s.nodes| && Quiet(s, depth) && MovedUnder(s, w, name, mode, t, rank, n, old_, new_, s') && Live(s, w)
    ensures (exists d :: Ordered(s', d)) <==> !Under(s, NO_HANDS, depth, w, s.nodes[n].RefsNamed(old_))
  {
    hide Counted, ClosedOnce, Named, Placed, MovedUnder;
    if Under(s, NO_HANDS, depth, w, s.nodes[n].RefsNamed(old_)) {
      NewFileLives(s, w, name, mode, t, rank, n, old_, new_, s');
      ParentsAfter(s, NO_HANDS, w, name, mode, t, rank, n, old_, new_, s', |s.refs|);
      LivesOn(s, w, name, mode, t, rank, n, old_, new_, s', |s.refs|);
      forall d | Ordered(s', d)
        ensures false
      {
        NewFileAbove(s, depth, w, name, mode, t, rank, n, old_, new_, s', d, w);
      }
    } else {
      NoLoopAfter(s, depth, w, name, mode, t, rank, n, old_, new_, s');
    }
  }

  /** References of which each is the parent of the one before, and the first that of
      the last. */
  ghost predicate Ring(s: State, h: Hands, l: seq<RefId>) {
    && l != [] && (forall i :: 0 <= i < |l| ==> Live(s, l[i]) && l[i] !in h.loose)
    && (forall i :: 0 <= i < |l| - 1 ==> s.refs[l[i]].parent == Some(l[i + 1]))
    && s.refs[l[|l| - 1]].parent == Some(l[0])
  }

  /** They are never closed: with exact counts each has one reference more than the
      FIDs and the handlers have, so that dropping these does not bring it to
      zero. */
  lemma RingNeverCloses(s: State, h: Hands, l: seq<RefId>, i: nat)
    requires Counted(s, h) && Ring(s, h, l) && i < |l|
    ensures s.refs[l[i]].count > |FidsOf(s, l[i])| + h.held[l[i]]
  {
    var c := l[if i == 0 then |l| - 1 else i - 1];
    assert IsChild(s, h, c, l[i]);
    assert c in ChildrenOf(s, h, l[i]);
  }

  // ---- An example ----------------------------------------------------------

  const RANK: seq<nat> := [1, 0, 1, 0]

  /** The root, a directory q in it, and w, which was in q and is deleted. */
  const BEFORE: State :=
    State([FidRef(2, None, 0, Directory, false, false, 0), FidRef(2, Some(0), 1, Directory, false, false, 0),
           FidRef(1, Some(1), 2, Directory, false, true, 0)],
          [PathNode(map["q" := 1], map["q" := {1}], map[1 := "q"]), PathNode(map[], map["w" := {}], map[]), EMPTY_NODE],
          map[Fid(0, 0) := 0, Fid(0, 1) := 1, Fid(0, 2) := 2])

  /** A walk from w left the file t under a FID. */
  const WALKED: State :=
    State([FidRef(2, None, 0, Directory, false, false, 0), FidRef(2, Some(0), 1, Directory, false, false, 0),
           FidRef(2, Some(1), 2, Directory, false, true, 0), FidRef(1, Some(2), 3, Directory, false, false, 0)],
          BEFORE.nodes[2 := PathNode(map["t" := 3], map["t" := {3}], map[3 := "t"])] + [EMPTY_NODE],
          BEFORE.fids[Fid(0, 3) := 3])

  /** Then q was moved to the name r in t. */
  const MOVED: State :=
    State([FidRef(1, None, 0, Directory, false, false, 0), FidRef(2, Some(3), 1, Directory, false, false, 0),
           FidRef(2, Some(1), 2, Directory, false, true, 0), FidRef(2, Some(2), 3, Directory, false, false, 0)],
          [PathNode(map[], map["q" := {}], map[]), PathNode(map[], map["w" := {}], map[]),
           PathNode(map["t" := 3], map["t" := {3}], map[3 := "t"]),
           PathNode(map["r" := 1], map["r" := {1}], map[1 := "r"])],
          WALKED.fids)

  lemma BeforeIsGood()
    ensures Good(BEFORE, NO_HANDS, [1, 0, 0], [0, 1, 2])
  {
    BeforeIsCounted();
    hide Counted;
    var s := BEFORE;
    assert Named(s, NO_HANDS) by { assert NamedAt(s, NO_HANDS, 0, 1); }
    assert Placed(s, NO_HANDS) by { assert PlacedAt(s, 1); }
  }

  lemma BeforeIsCounted()
    ensures Counted(BEFORE, NO_HANDS)
  {
    var s := BEFORE;
    assert FidsOf(s, 0) == {Fid(0, 0)} && FidsOf(s, 1) == {Fid(0, 1)} && FidsOf(s, 2) == {Fid(0, 2)};
    assert ChildrenOf(s, NO_HANDS, 0) == {1};
    assert ChildrenOf(s, NO_HANDS, 1) == {2};
    assert ChildrenOf(s, NO_HANDS, 2) == {};
  }

  /** The server walks, and nothing in its path tree speaks against the move. */
  lemma WalkedAndMayMove()
    ensures CanBear(BEFORE, 2) && BEFORE.refs[2].deleted
    ensures SameFiles(Born(BEFORE, 2, "t", Directory, false), WALKED)
    ensures MayMove(WALKED, RANK, 0, "q", 3, "r")
  {
    var b := Born(BEFORE, 2, "t", Directory, false);
    assert {} + {3} == {3};
    assert b.nodes[2] == WALKED.nodes[2];
    assert b.nodes == WALKED.nodes;
    assert b.refs[3] == WALKED.refs[3].(count := 0);
    assert Ranked(WALKED.nodes, RANK);
    BelowOf(WALKED.nodes, RANK, 1, 3);
  }

  /** The steps of the move: the name goes, the root is dropped, t becomes the parent
      and is taken, the new name and the node are set. */
  ghost predicate MovesByHand(t: State, s': State) {
    && 3 < |t.refs| && |t.nodes| == 4 && t.nodes[0].Matched() && t.nodes[3].Matched()
    && 1 in t.nodes[0].childRefNames && 1 !in t.nodes[3].childRefNames && "r" !in t.nodes[3].childNodes
    && var dropped := Counting(Unnaming(t, 0, 1), 0, -1);
       var named := Naming(Counting(Reparenting(dropped, 1, 3), 3, 1), 3, 1, "r");
       s' == named.(nodes := MovedNodes(named.nodes, 0, "q", 3, "r"))
  }

  lemma MovedIs()
    ensures MovesByHand(WALKED, MOVED)
  {
    var t := WALKED;
    UnnamedByHand();
    NamedByHand();
    hide PathNode.Unname, PathNode.AddChild;
    var dropped := Counting(Unnaming(t, 0, 1), 0, -1);
    var named := Naming(Counting(Reparenting(dropped, 1, 3), 3, 1), 3, 1, "r");
    assert named.refs == MOVED.refs;
    assert MovedNodes(named.nodes, 0, "q", 3, "r") == MOVED.nodes;
  }

  lemma UnnamedByHand()
    ensures WALKED.nodes[0].Matched()
    ensures WALKED.nodes[0].Unname(1) == PathNode(map["q" := 1], map["q" := {}], map[])
  {
    assert {1} - {1} == {};
  }

  lemma NamedByHand()
    ensures EMPTY_NODE.Matched() && EMPTY_NODE.AddChild(1, "r") == PathNode(map[], map["r" := {1}], map[1 := "r"])
  {
    assert {} + {1} == {1};
  }

  /** Each of q, t and w has the next as its parent, and the counts are exact. */
  lemma MovedIsRing()
    ensures Ring(MOVED, NO_HANDS, [1, 3, 2]) && Counted(MOVED, NO_HANDS)
  {
    var s := MOVED;
    assert FidsOf(s, 0) == {Fid(0, 0)} && FidsOf(s, 1) == {Fid(0, 1)};
    assert FidsOf(s, 2) == {Fid(0, 2)} && FidsOf(s, 3) == {Fid(0, 3)};
    assert ChildrenOf(s, NO_HANDS, 0) == {};
    assert ChildrenOf(s, NO_HANDS, 1) == {2};
    assert ChildrenOf(s, NO_HANDS, 2) == {3};
    assert ChildrenOf(s, NO_HANDS, 3) == {1};
  }

  const LOST: State :=
    State([FidRef(0, None, 0, Directory, false, false, 1), FidRef(1, Some(3), 1, Directory, false, false, 0),
           FidRef(1, Some(1), 2, Directory, false, true, 0), FidRef(1, Some(2), 3, Directory, false, false, 0)],
          MOVED.nodes, map[])

  /** The steps that drop all four FIDs: only the root's count comes to zero. */
  ghost predicate DropsAll(s: State, s': State) {
    && |s.refs| == 4 && s.refs[0].parent.None? && s.refs[0].node < |s.nodes| && AllMatched(s)
    && s' == Closing(Counting(Counting(Counting(s.(fids := map[]), 1, -1), 2, -1), 3, -1), 0)
  }

  lemma LostIsCounted()
    ensures Counted(LOST, NO_HANDS) && ClosedOnce(LOST, NO_HANDS)
  {
    var s := LOST;
    assert forall r: nat :: FidsOf(s, r) == {};
    assert ChildrenOf(s, NO_HANDS, 0) == {};
    assert ChildrenOf(s, NO_HANDS, 1) == {2};
    assert ChildrenOf(s, NO_HANDS, 2) == {3};
    assert ChildrenOf(s, NO_HANDS, 3) == {1};
  }

  lemma LostIs()
    ensures DropsAll(MOVED, LOST)
  {
    assert AllMatched(MOVED);
    var s := Counting(Counting(Counting(MOVED.(fids := map[]), 1, -1), 2, -1), 3, -1);
    assert Closing(s, 0).refs == LOST.refs;
  }

  /** An input that loses files: with no FID left, three files are open that no
      message can reach. The counts are exact, and theirs are not zero. */
  lemma LosesFiles()
    ensures Good(BEFORE, NO_HANDS, [1, 0, 0], [0, 1, 2]) && Live(BEFORE, 2) && BEFORE.refs[2].deleted
    ensures CanBear(BEFORE, 2) && SameFiles(Born(BEFORE, 2, "t", Directory, false), WALKED)
    ensures MayMove(WALKED, RANK, 0, "q", 3, "r") && MovesByHand(WALKED, MOVED) && Ring(MOVED, NO_HANDS, [1, 3, 2])
    ensures DropsAll(MOVED, LOST) && Counted(LOST, NO_HANDS) && ClosedOnce(LOST, NO_HANDS)
    ensures LOST.fids == map[] && Live(LOST, 1) && Live(LOST, 2) && Live(LOST, 3)
  {
    hide Good, MayMove, MovesByHand, Ring, DropsAll, Counted, ClosedOnce, CanBear, Born, SameFiles;
    BeforeIsGood();
    WalkedAndMayMove();
    MovedIs();
    MovedIsRing();
    LostIs();
    LostIsCounted();
  }
}
