/** What the invariant of the 9P server means: which files are open, and what the
    server needs from its backend. */
module FidTheorem {
  import opened Words
  import opened PathNodes
  import opened FidState
  import opened FidSteps
  import opened FidTree
  import opened FidRename
  import opened FidWalk
  import opened FidLemmas

  // ---- Open files are the reachable ones -----------------------------------

  /** The reference is the other one or one of its ancestors. */
  ghost predicate Above(s: State, depth: seq<nat>, x: RefId, r: RefId)
    requires Inv(s, NO_HANDS) && Tidy(s, NO_HANDS, depth) && Live(s, x)
    decreases depth[x]
  {
    x == r || (s.refs[x].parent.Some? &&
               (ParentLives(s, NO_HANDS, x); Above(s, depth, s.refs[x].parent.value, r)))
  }

  ghost predicate Reachable(s: State, depth: seq<nat>, r: RefId)
    requires Inv(s, NO_HANDS) && Tidy(s, NO_HANDS, depth)
  {
    exists f :: f in s.fids && Live(s, s.fids[f]) && Above(s, depth, s.fids[f], r)
  }

  lemma {:induction false} AboveParent(s: State, depth: seq<nat>, x: RefId, c: RefId, r: RefId)
    requires Inv(s, NO_HANDS) && Tidy(s, NO_HANDS, depth) && Live(s, x) && Live(s, c)
    requires Above(s, depth, x, c) && s.refs[c].parent == Some(r)
    ensures Above(s, depth, x, r)
    decreases depth[x]
  {
    hide Counted, ClosedOnce, Named, Placed;
    ParentLives(s, NO_HANDS, x) by { assert x == c || s.refs[x].parent.Some?; }
    if x != c {
      AboveParent(s, depth, s.refs[x].parent.value, c, r);
    } else {
      assert Above(s, depth, r, r);
    }
  }

  lemma {:induction false} AboveLives(s: State, depth: seq<nat>, x: RefId, r: RefId)
    requires Inv(s, NO_HANDS) && Tidy(s, NO_HANDS, depth) && Live(s, x) && Above(s, depth, x, r)
    ensures Live(s, r)
    decreases depth[x]
  {
    hide Counted, ClosedOnce, Named, Placed;
    if x != r {
      ParentLives(s, NO_HANDS, x);
      AboveLives(s, depth, s.refs[x].parent.value, r);
    }
  }

  ghost function DeeperThan(depth: seq<nat>, d: nat): set<nat> { set i: nat | i < |depth| && depth[i] > d }

  lemma {:induction false} LiveIsReachable(s: State, depth: seq<nat>, r: RefId)
    requires Inv(s, NO_HANDS) && Tidy(s, NO_HANDS, depth) && Live(s, r)
    ensures Reachable(s, depth, r)
    decreases |DeeperThan(depth, depth[r])|
  {
    assert s.refs[r].count == Uses(s, NO_HANDS, r) > 0;
    if f :| f in FidsOf(s, r) {
      assert Above(s, depth, r, r);
    } else {
      assert FidsOf(s, r) == {};
      assert ChildrenOf(s, NO_HANDS, r) != {};
      var c :| c in ChildrenOf(s, NO_HANDS, r);
      Shallower(depth, r, c);
      LiveIsReachable(s, depth, c);
      var f :| f in s.fids && Live(s, s.fids[f]) && Above(s, depth, s.fids[f], c);
      AboveParent(s, depth, s.fids[f], c, r);
    }
  }

  lemma Shallower(depth: seq<nat>, r: nat, c: nat)
    requires r < |depth| && c < |depth| && depth[r] < depth[c]
    ensures |DeeperThan(depth, depth[c])| < |DeeperThan(depth, depth[r])|
  {
    var a, b := DeeperThan(depth, depth[c]), DeeperThan(depth, depth[r]);
    assert a <= b && c in b && c !in a;
    SubsetSize(a, b, c);
  }

  lemma SubsetSize<T>(a: set<T>, b: set<T>, x: T)
    requires a <= b && x in b && x !in a
    ensures |a| < |b|
  {
    assert a <= b - {x};
    SizeAtMost(a, b - {x});
  }

  lemma {:induction false} SizeAtMost<T>(a: set<T>, b: set<T>)
    requires a <= b
    ensures |a| <= |b|
    decreases |a|
  {
    if x :| x in a {
      SizeAtMost(a - {x}, b - {x});
    }
  }

  /** Between handlers a file is open, never closed, exactly when a FID refers to
      it or to a file below it; every other file was closed exactly once. */
  lemma OpenIffReachable(s: State, rank: seq<nat>, depth: seq<nat>, r: RefId)
    requires Good(s, NO_HANDS, rank, depth) && r < |s.refs|
    ensures s.refs[r].closed == if Reachable(s, depth, r) then 0 else 1
  {
    if Live(s, r) {
      LiveIsReachable(s, depth, r);
    }
    if Reachable(s, depth, r) {
      var f :| f in s.fids && Live(s, s.fids[f]) && Above(s, depth, s.fids[f], r);
      AboveLives(s, depth, s.fids[f], r);
    }
  }

  lemma OpenFiles(s: State, rank: seq<nat>, depth: seq<nat>)
    requires Good(s, NO_HANDS, rank, depth)
    ensures forall r :: 0 <= r < |s.refs| ==> s.refs[r].closed == if Reachable(s, depth, r) then 0 else 1
  {
    forall r | 0 <= r < |s.refs|
      ensures s.refs[r].closed == if Reachable(s, depth, r) then 0 else 1
    {
      OpenIffReachable(s, rank, depth, r);
    }
  }

  /** When no FID is left, every file was closed exactly once. */
  lemma AllClosedAtTheEnd(s: State, rank: seq<nat>, depth: seq<nat>, r: RefId)
    requires Good(s, NO_HANDS, rank, depth) && r < |s.refs| && s.fids == map[]
    ensures s.refs[r].closed == 1 && s.refs[r].count == 0
  {
    OpenIffReachable(s, rank, depth, r);
  }

  /** The names and the references of a node are inverse to each other. */
  lemma NamesAreInverse(s: State, rank: seq<nat>, depth: seq<nat>, n: NodeId, name: string, r: RefId)
    requires Good(s, NO_HANDS, rank, depth) && n < |s.nodes|
    ensures r in s.nodes[n].RefsNamed(name) <==> r in s.nodes[n].childRefNames && s.nodes[n].childRefNames[r] == name
  {
    assert s.nodes[n].Matched();
  }

  // ---- Walks from a deleted directory --------------------------------------

  /** Rename panics on a file that is not deleted while its parent is. */
  ghost predicate RenamePanics(s: State, r: RefId) {
    Lasting(s, r) && s.refs[r].parent.value < |s.refs| && s.refs[s.refs[r].parent.value].deleted
  }

  /** A step of a walk leaves a file on which Rename panics exactly when it starts
      from a deleted directory. */
  lemma WalkPanicsIff(s: State, h: Hands, rank: seq<nat>, depth: seq<nat>, w: RefId, name: string, mode: Mode)
    requires Good(s, h, rank, depth) && h.loose == {} && Live(s, w)
    ensures CanBear(s, w)
    ensures (exists r :: RenamePanics(Born(s, w, name, mode, false), r)) <==> s.refs[w].deleted
    ensures RenamePanics(Born(s, w, name, mode, false), |s.refs|) <==> s.refs[w].deleted
  {
    hide Counted, ClosedOnce, Placed;
    var n := s.refs[w].node;
    assert |s.refs| in s.nodes[n].childRefNames ==> NamedAt(s, h, n, |s.refs|);
    var t, x := Born(s, w, name, mode, false), |s.refs|;
    assert RenamePanics(t, x) <==> s.refs[w].deleted;
    forall r: RefId | r != x
      ensures !RenamePanics(t, r)
    {
      assert r < |s.refs| ==> t.refs[r] == s.refs[r];
    }
  }

  // ---- Paths ---------------------------------------------------------------

  ghost predicate Quiet(s: State, depth: seq<nat>) { Inv(s, NO_HANDS) && Tidy(s, NO_HANDS, depth) }

  /** The parent of a file that is not deleted is such a file, and the file has a
      name in its node. */
  lemma Upwards(s: State, depth: seq<nat>, r: RefId)
    requires Quiet(s, depth) && Lasting(s, r)
    ensures HasName(s, r) && Live(s, s.refs[r].parent.value) && !s.refs[s.refs[r].parent.value].deleted
    ensures r < |depth| && s.refs[r].parent.value < |depth| && depth[s.refs[r].parent.value] < depth[r]
  {
    ParentLives(s, NO_HANDS, r);
    assert PlacedAt(s, r);
  }

  /** The path of a file that is not deleted. */
  ghost function PathOf(s: State, depth: seq<nat>, r: RefId): seq<string>
    requires Quiet(s, depth) && Live(s, r) && !s.refs[r].deleted
    decreases if r < |depth| then depth[r] else 0
  {
    if s.refs[r].parent.None? then [] else
    Upwards(s, depth, r);
    PathOf(s, depth, s.refs[r].parent.value) + [NameFor(s, r)]
  }

  /** The path to a file from its ancestor in the set. */
  ghost function PathFrom(s: State, depth: seq<nat>, r: RefId, top: set<RefId>): seq<string>
    requires Quiet(s, depth) && Live(s, r) && !s.refs[r].deleted && Under(s, NO_HANDS, depth, r, top)
    decreases if r < |depth| then depth[r] else 0
  {
    if r in top then [] else
    Upwards(s, depth, r);
    PathFrom(s, depth, s.refs[r].parent.value, top) + [NameFor(s, r)]
  }

  /** The path of a file goes through its ancestor in the set. */
  lemma {:induction false} PathThrough(s: State, depth: seq<nat>, r: RefId, top: set<RefId>) returns (m: RefId)
    requires Quiet(s, depth) && Live(s, r) && !s.refs[r].deleted && Under(s, NO_HANDS, depth, r, top)
    ensures m in top && Live(s, m) && !s.refs[m].deleted
    ensures PathOf(s, depth, r) == PathOf(s, depth, m) + PathFrom(s, depth, r, top)
    decreases depth[r]
  {
    hide Counted, ClosedOnce, Named, Placed;
    if r in top {
      m := r;
      assert PathFrom(s, depth, r, top) == [];
    } else {
      Upwards(s, depth, r);
      m := PathThrough(s, depth, s.refs[r].parent.value, top);
    }
  }

  /** A rename that went through: both states are valid, and the target is not in
      what is moved. */
  ghost predicate RenameDone(s: State, rank: seq<nat>, depth: seq<nat>, n: NodeId, old_: string, target: RefId,
                             new_: string, s': State, depth': seq<nat>)
  {
    && Good(s, NO_HANDS, rank, depth) && Quiet(s', depth') && MayMove(s, rank, n, old_, target, new_)
    && Renamed(s, rank, n, old_, target, new_, s')
  }

  lemma {:induction false} ElsewhereStays(s: State, rank: seq<nat>, depth: seq<nat>, n: NodeId, old_: string,
                                          target: RefId, new_: string, s': State, depth': seq<nat>, r: RefId)
    requires RenameDone(s, rank, depth, n, old_, target, new_, s', depth')
    requires Live(s', r) && !s'.refs[r].deleted
    ensures Live(s, r) && !s.refs[r].deleted
    ensures !Under(s, NO_HANDS, depth, r, s.nodes[n].RefsNamed(old_)) ==>
              PathOf(s', depth', r) == PathOf(s, depth, r)
    decreases if r < |depth| then depth[r] else 0
  {
    hide Counted, ClosedOnce, Named, Placed, Doomed, Below, RenamedKids;
    if !Under(s, NO_HANDS, depth, r, s.nodes[n].RefsNamed(old_)) && s.refs[r].parent.Some? {
      Upwards(s, depth, r);
      Upwards(s', depth', r);
      assert RenamedName(s, n, old_, s.refs[target].node, new_, s', ParentNode(s', r), r);
      ElsewhereStays(s, rank, depth, n, old_, target, new_, s', depth', s.refs[r].parent.value);
    }
  }

  /** After a rename a file below the old name has the target's path and the new
      name in place of the old path, and what is below comes along; every other
      file has the path that it had. */
  lemma {:induction false} RenameCarriesPaths(s: State, rank: seq<nat>, depth: seq<nat>, n: NodeId, old_: string,
                                              target: RefId, new_: string, s': State, depth': seq<nat>, r: RefId)
    requires RenameDone(s, rank, depth, n, old_, target, new_, s', depth')
    requires Live(s', r) && !s'.refs[r].deleted && Live(s', target)
    ensures Live(s, r) && !s.refs[r].deleted
    ensures var moved := s.nodes[n].RefsNamed(old_);
            PathOf(s', depth', r) ==
              if Under(s, NO_HANDS, depth, r, moved)
              then PathOf(s, depth, target) + [new_] + PathFrom(s, depth, r, moved)
              else PathOf(s, depth, r)
    decreases if r < |depth| then depth[r] else 0
  {
    hide Counted, ClosedOnce, Named, Placed, Doomed, Below, RenamedKids;
    var moved := s.nodes[n].RefsNamed(old_);
    ElsewhereStays(s, rank, depth, n, old_, target, new_, s', depth', r);
    if Under(s, NO_HANDS, depth, r, moved) {
      NamedHasParent(s, n, old_, r);
      Upwards(s, depth, r);
      Upwards(s', depth', r);
      assert RenamedName(s, n, old_, s.refs[target].node, new_, s', ParentNode(s', r), r);
      if r in moved {
        TargetStays(s, rank, depth, n, old_, target, new_, s', depth');
      } else {
        RenameCarriesPaths(s, rank, depth, n, old_, target, new_, s', depth', s.refs[r].parent.value);
      }
    }
  }

  lemma NamedHasParent(s: State, n: NodeId, name: string, r: RefId)
    requires Inv(s, NO_HANDS) && n < |s.nodes|
    ensures r in s.nodes[n].RefsNamed(name) ==> Live(s, r) && s.refs[r].parent.Some?
  {
    assert r in s.nodes[n].RefsNamed(name) ==> NamedAt(s, NO_HANDS, n, r);
  }

  lemma TargetStays(s: State, rank: seq<nat>, depth: seq<nat>, n: NodeId, old_: string, target: RefId, new_: string,
                    s': State, depth': seq<nat>)
    requires RenameDone(s, rank, depth, n, old_, target, new_, s', depth') && Live(s', target)
    ensures !s'.refs[target].deleted && PathOf(s', depth', target) == PathOf(s, depth, target)
  {
    hide Counted, ClosedOnce, Named, Placed, Doomed, Below, RenamedKids;
    TargetLasts(s, NO_HANDS, rank, target, new_);
    if Under(s, NO_HANDS, depth, target, s.nodes[n].RefsNamed(old_)) {
      UnderIsBelow(s, NO_HANDS, rank, depth, n, old_, target);
    }
    ElsewhereStays(s, rank, depth, n, old_, target, new_, s', depth', target);
  }
}
