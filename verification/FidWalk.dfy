/** Walks and new references in the 9P server, and what a deletion does to the
    whole state. */
module FidWalk {
  import opened Words
  import opened PathNodes
  import opened FidState
  import opened FidSteps
  import opened FidTree
  import opened FidRename

  predicate SafeName(name: string) { name != "" && '/' !in name && name != "." && name != ".." }

  // ---- The tree of path nodes ----------------------------------------------

  /** No node has two parents or two names. */
  ghost predicate OneParent(nodes: seq<PathNode>) {
    forall n: NodeId, k, m: NodeId, j :: IsKid(nodes, n, k) && IsKid(nodes, m, j) ==>
      nodes[n].childNodes[k] == nodes[m].childNodes[j] ==> n == m && k == j
  }

  predicate IsKid(nodes: seq<PathNode>, n: NodeId, k: string) { n < |nodes| && k in nodes[n].childNodes }

  /** The path nodes form a tree, and all attached roots are at its root. */
  ghost predicate Treelike(s: State) {
    && OneParent(s.nodes)
    && (forall n, k :: 0 <= n < |s.nodes| && k in s.nodes[n].childNodes ==> 0 < s.nodes[n].childNodes[k] < |s.nodes|)
    && forall r :: 0 <= r < |s.refs| && Live(s, r) && s.refs[r].parent.None? ==> s.refs[r].node == 0
  }

  ghost predicate KeepsTree(s: State, s': State) { Treelike(s) ==> Treelike(s') }

  /** Neither the children of a node nor the roots have changed. */
  lemma SameTree(s: State, s': State)
    requires |s'.nodes| == |s.nodes| && |s'.refs| == |s.refs|
    requires forall n :: 0 <= n < |s.nodes| ==> s'.nodes[n].childNodes == s.nodes[n].childNodes
    requires forall r :: 0 <= r < |s.refs| && Live(s', r) ==>
               Live(s, r) && s'.refs[r].parent == s.refs[r].parent && s'.refs[r].node == s.refs[r].node
    ensures KeepsTree(s, s')
  {
  }

  // ---- Growth --------------------------------------------------------------

  /** References and nodes were added, and some files were closed; nothing else
      changed for what was there. */
  ghost predicate Grown(s: State, s': State) {
    && |s.refs| <= |s'.refs| && |s.nodes| <= |s'.nodes| && s'.fids == s.fids
    && (forall r :: 0 <= r < |s.refs| ==>
          && s'.refs[r] == s.refs[r].(count := s'.refs[r].count, closed := s'.refs[r].closed)
          && (Live(s', r) ==> Live(s, r)))
    && (forall n, k :: 0 <= n < |s.nodes| && k in s.nodes[n].childNodes ==>
          k in s'.nodes[n].childNodes && s'.nodes[n].childNodes[k] == s.nodes[n].childNodes[k])
    && (forall n, r :: 0 <= n < |s.nodes| && 0 <= r < |s.refs| ==> GrownName(s, s', n, r))
    && KeepsTree(s, s')
  }

  ghost predicate GrownName(s: State, s': State, n: NodeId, r: RefId)
    requires n < |s.nodes| <= |s'.nodes|
  {
    var names, names' := s.nodes[n].childRefNames, s'.nodes[n].childRefNames;
    (r in names' <==> r in names && Live(s', r)) && (r in names' ==> names'[r] == names[r])
  }

  lemma GrownTwice(s: State, s1: State, s2: State)
    requires Grown(s, s1) && Grown(s1, s2)
    ensures Grown(s, s2)
  {
    hide Treelike;
    forall n, r | 0 <= n < |s.nodes| && 0 <= r < |s.refs|
      ensures GrownName(s, s2, n, r)
    {
      assert GrownName(s, s1, n, r) && GrownName(s1, s2, n, r);
      assert Live(s2, r) ==> Live(s1, r);
    }
    forall n, k | 0 <= n < |s.nodes| && k in s.nodes[n].childNodes
      ensures k in s2.nodes[n].childNodes && s2.nodes[n].childNodes[k] == s.nodes[n].childNodes[k]
    {
      assert k in s1.nodes[n].childNodes;
    }
  }

  lemma ClosingIsGrowth(s: State, s': State)
    requires OnlyCloses(s, s')
    ensures Grown(s, s')
  {
    hide Treelike;
    SameTree(s, s');
    forall n, r | 0 <= n < |s.nodes| && 0 <= r < |s.refs|
      ensures GrownName(s, s', n, r)
    {
      assert ClosesName(s, s', n, r);
    }
  }

  // ---- Where a walk leads --------------------------------------------------

  /** The names lead from one reference to another, through new parents. */
  ghost predicate Walked(s: State, ref: RefId, names: seq<string>, x: RefId)
    decreases |names|
  {
    if names == [] then x == ref else
    && Live(s, x) && !s.refs[x].deleted && s.refs[x].parent.Some?
    && var p := s.refs[x].parent.value;
       p < |s.refs| && s.refs[p].node < |s.nodes| && x in s.nodes[s.refs[p].node].childRefNames
       && s.nodes[s.refs[p].node].childRefNames[x] == names[|names| - 1]
       && Walked(s, ref, names[..|names| - 1], p)
  }

  ghost predicate Keeps(s: State, s': State) { forall r :: 0 <= r < |s.refs| && Live(s, r) ==> Live(s', r) }

  lemma {:induction false} WalkedStays(s: State, s': State, ref: RefId, names: seq<string>, x: RefId)
    requires Walked(s, ref, names, x) && Grown(s, s') && Keeps(s, s')
    ensures Walked(s', ref, names, x)
    decreases |names|
  {
    if names != [] {
      var p := s.refs[x].parent.value;
      assert GrownName(s, s', s.refs[p].node, x);
      WalkedStays(s, s', ref, names[..|names| - 1], p);
    }
  }

  /** What a walk asks of the files it passes and of the backend. */
  predicate WalkSucceeds(s: State, ref: RefId, names: seq<string>, answers: nat -> Option<Mode>)
    requires ref < |s.refs|
  {
    && (forall i :: 0 <= i < |names| ==> SafeName(names[i])) && !s.refs[ref].open
    && if names == [] then answers(0).Some? else
       s.refs[ref].mode.Directory? && !s.refs[ref].deleted
       && (forall i :: 0 <= i < |names| ==> answers(i).Some?)
       && forall i :: 0 <= i < |names| - 1 ==> answers(i) == Some(Directory)
  }

  /** Another reference to the same file, with the same name if it has one. */
  ghost predicate CloneOf(s: State, ref: RefId, s': State, x: RefId) {
    && ref < |s.refs| && Live(s', x)
    && s'.refs[x] == s.refs[ref].(count := s'.refs[x].count, closed := 0, open := false)
    && (Lasting(s, ref) && s.refs[ref].parent.value < |s.refs| ==>
          var n := s.refs[s.refs[ref].parent.value].node;
          n < |s.nodes| && n < |s'.nodes| && ref in s.nodes[n].childRefNames && x in s'.nodes[n].childRefNames
          && s'.nodes[n].childRefNames[x] == s.nodes[n].childRefNames[ref])
  }

  lemma CloneStays(s: State, ref: RefId, s1: State, s2: State, x: RefId)
    requires CloneOf(s, ref, s1, x) && Grown(s1, s2) && Live(s2, x)
    ensures CloneOf(s, ref, s2, x)
  {
    if Lasting(s, ref) && s.refs[ref].parent.value < |s.refs| {
      assert GrownName(s1, s2, s.refs[s.refs[ref].parent.value].node, x);
    }
  }

  /** A walk stays one while its end is live. */
  lemma {:induction false} WalkedLives(s: State, s': State, h: Hands, ref: RefId, names: seq<string>, x: RefId)
    requires Walked(s, ref, names, x) && Grown(s, s') && Inv(s', h) && h.loose == {} && Live(s', x)
    ensures Walked(s', ref, names, x)
    decreases |names|
  {
    if names != [] {
      var p := s.refs[x].parent.value;
      assert GrownName(s, s', s.refs[p].node, x);
      ParentLives(s', h, x);
      WalkedLives(s, s', h, ref, names[..|names| - 1], p);
    }
  }

  // ---- New references ------------------------------------------------------

  /** A reference without a parent needs no link. */
  lemma RootKeeps(s: State, h: Hands, r: RefId, rank: seq<nat>, depth: seq<nat>)
    requires Good(s, h, rank, depth) && r < |s.refs| && s.refs[r].parent.None?
    ensures Good(s, h.(loose := h.loose - {r}), rank, depth)
  {
    var h' := h.(loose := h.loose - {r});
    forall x | 0 <= x < |s.refs|
      ensures s.refs[x].count == Uses(s, h', x)
    {
      assert ChildrenOf(s, h', x) == ChildrenOf(s, h, x);
    }
    forall n, x | 0 <= n < |s.nodes| && x in s.nodes[n].childRefNames
      ensures NamedAt(s, h', n, x)
    {
      assert NamedAt(s, h, n, x);
    }
  }

  lemma NamingGrows(s: State, h: Hands, n: NodeId, r: RefId, name: string, ref: FidRef)
    requires Named(s, h) && n < |s.nodes| && s.nodes[n].Matched() && r == |s.refs| && r !in s.nodes[n].childRefNames
    requires ref.parent.Some?
    ensures Grown(s, Naming(Adding(s, ref), n, r, name))
  {
    hide Treelike;
    var s' := Naming(Adding(s, ref), n, r, name);
    AddingKeepsTree(s, ref);
    SameTree(Adding(s, ref), s');
    forall m, x | 0 <= m < |s.nodes| && 0 <= x < |s.refs|
      ensures GrownName(s, s', m, x)
    {
      assert x in s.nodes[m].childRefNames ==> NamedAt(s, h, m, x);
    }
  }

  lemma AddingKeepsTree(s: State, ref: FidRef)
    requires ref.parent.None? && Treelike(s) ==> ref.node == 0
    ensures KeepsTree(s, Adding(s, ref))
  {
  }

  lemma AddingGrows(s: State, h: Hands, ref: FidRef)
    requires Named(s, h) && (ref.parent.None? && Treelike(s) ==> ref.node == 0)
    ensures Grown(s, Adding(s, ref))
  {
    hide Treelike;
    AddingKeepsTree(s, ref);
    forall m, x | 0 <= m < |s.nodes| && 0 <= x < |s.refs|
      ensures GrownName(s, Adding(s, ref), m, x)
    {
      assert x in s.nodes[m].childRefNames ==> NamedAt(s, h, m, x);
    }
  }

  lemma WithNodeKeepsTree(s: State, n: NodeId, name: string)
    requires n < |s.nodes|
    ensures KeepsTree(s, WithNode(s, n, name).0)
  {
    var s' := WithNode(s, n, name).0;
    if Treelike(s) && name !in s.nodes[n].childNodes {
      forall m, k | 0 <= m < |s'.nodes| && k in s'.nodes[m].childNodes
        ensures (m == n && k == name && s'.nodes[m].childNodes[k] == |s.nodes|)
             || (m < |s.nodes| && k in s.nodes[m].childNodes && s'.nodes[m].childNodes[k] == s.nodes[m].childNodes[k])
      {
      }
    }
  }

  lemma WithNodeGrows(s: State, h: Hands, n: NodeId, name: string)
    requires Named(s, h) && n < |s.nodes|
    ensures Grown(s, WithNode(s, n, name).0)
  {
    hide Treelike;
    var s' := WithNode(s, n, name).0;
    WithNodeKeepsTree(s, n, name);
    forall m, x | 0 <= m < |s.nodes| && 0 <= x < |s.refs|
      ensures GrownName(s, s', m, x)
    {
      assert x in s.nodes[m].childRefNames ==> NamedAt(s, h, m, x);
    }
  }

  // ---- Deletion as a whole -------------------------------------------------

  /** The name in the node is gone, everything with it and below it is deleted, and
      some files were closed. */
  ghost predicate Unlinked(s: State, rank: seq<nat>, n: NodeId, name: string, s': State)
    requires Ranked(s.nodes, rank) && n < |s.nodes|
  {
    && |s'.refs| == |s.refs| && |s'.nodes| == |s.nodes| && s'.fids == s.fids
    && (forall r :: 0 <= r < |s.refs| && Live(s', r) ==>
          Live(s, r)
          && s'.refs[r] == s.refs[r].(count := s'.refs[r].count,
                                      deleted := s.refs[r].deleted || r in Doomed(s.nodes, rank, n, name)))
    && (forall m :: 0 <= m < |s.nodes| ==>
          s'.nodes[m].childNodes == s.nodes[m].childNodes - if m == n then {name} else {})
    && forall m, r :: 0 <= m < |s.nodes| ==> UnlinkedName(s, n, name, s', m, r)
  }

  ghost predicate UnlinkedName(s: State, n: NodeId, name: string, s': State, m: NodeId, r: RefId)
    requires m < |s.nodes| == |s'.nodes|
  {
    var names, names' := s.nodes[m].childRefNames, s'.nodes[m].childRefNames;
    && (r in names' <==> Live(s', r) && r in names && !(m == n && names[r] == name))
    && (r in names' ==> names'[r] == names[r])
  }

  lemma UnlinkedThenCloses(s: State, rank: seq<nat>, n: NodeId, name: string, s1: State, s2: State)
    requires Ranked(s.nodes, rank) && n < |s.nodes| && Unlinked(s, rank, n, name, s1) && OnlyCloses(s1, s2)
    ensures Unlinked(s, rank, n, name, s2)
  {
    hide Doomed, Ranked;
    forall m, r | 0 <= m < |s.nodes|
      ensures UnlinkedName(s, n, name, s2, m, r)
    {
      assert UnlinkedName(s, n, name, s1, m, r) && ClosesName(s1, s2, m, r);
      assert Live(s2, r) ==> Live(s1, r);
    }
  }

  lemma DeletedIsUnlinked(s: State, h: Hands, rank: seq<nat>, n: NodeId, name: string, s1: State)
    requires Ranked(s.nodes, rank) && n < |s.nodes| && NameDeleted(s, rank, n, name, s1)
    requires Named(s, h) && s.nodes[n].Matched()
    ensures Unlinked(s, rank, n, name, s1)
  {
    hide Doomed, Ranked;
    forall m, r | 0 <= m < |s.nodes|
      ensures UnlinkedName(s, n, name, s1, m, r)
    {
      assert r in s.nodes[m].childRefNames ==> NamedAt(s, h, m, r);
    }
  }

  /** Only the counts and the FIDs differ before. */
  lemma UnlinkedFrom(s0: State, s: State, rank: seq<nat>, n: NodeId, name: string, s1: State)
    requires Ranked(s.nodes, rank) && n < |s.nodes| && Unlinked(s, rank, n, name, s1)
    requires SameFiles(s0, s) && s0.fids == s.fids
    ensures Unlinked(s0, rank, n, name, s1)
  {
    hide Doomed, Ranked;
    forall m, r | 0 <= m < |s.nodes|
      ensures UnlinkedName(s0, n, name, s1, m, r)
    {
      assert UnlinkedName(s, n, name, s1, m, r);
    }
  }

  lemma RenamedThenCloses(s: State, rank: seq<nat>, n: NodeId, old_: string, target: RefId, new_: string, s1: State,
                          s2: State)
    requires Ranked(s.nodes, rank) && n < |s.nodes| && target < |s.refs| && s.refs[target].node < |s.nodes|
    requires Renamed(s, rank, n, old_, target, new_, s1) && OnlyCloses(s1, s2)
    ensures Renamed(s, rank, n, old_, target, new_, s2)
  {
    hide Doomed, Ranked, RenamedKids;
    var tn := s.refs[target].node;
    forall m, r | 0 <= m < |s.nodes|
      ensures RenamedName(s, n, old_, tn, new_, s2, m, r)
    {
      assert RenamedName(s, n, old_, tn, new_, s1, m, r) && ClosesName(s1, s2, m, r);
      assert Live(s2, r) ==> Live(s1, r);
    }
  }

  lemma RenamedFrom(s0: State, s: State, rank: seq<nat>, n: NodeId, old_: string, target: RefId, new_: string,
                    s1: State)
    requires Ranked(s.nodes, rank) && n < |s.nodes| && target < |s.refs| && s.refs[target].node < |s.nodes|
    requires Renamed(s, rank, n, old_, target, new_, s1) && SameFiles(s0, s) && s0.fids == s.fids
    ensures Renamed(s0, rank, n, old_, target, new_, s1)
  {
    hide Doomed, Ranked, RenamedKids;
    var tn := s.refs[target].node;
    forall m, r | 0 <= m < |s.nodes|
      ensures RenamedName(s0, n, old_, tn, new_, s1, m, r)
    {
      assert RenamedName(s, n, old_, tn, new_, s1, m, r);
    }
  }

  lemma UnlinkedWithFids(s: State, rank: seq<nat>, n: NodeId, name: string, s1: State, fids: map<Fid, RefId>)
    requires Ranked(s.nodes, rank) && n < |s.nodes| && Unlinked(s, rank, n, name, s1)
    ensures Unlinked(s.(fids := fids), rank, n, name, s1.(fids := fids))
  {
    hide Doomed, Ranked;
    forall m, r | 0 <= m < |s.nodes|
      ensures UnlinkedName(s.(fids := fids), n, name, s1.(fids := fids), m, r)
    {
      assert UnlinkedName(s, n, name, s1, m, r);
    }
  }
}
