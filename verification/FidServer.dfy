/** The 9P server: the methods of its references and its FID table. Handlers run
    one at a time. */
module FidServer {
  import opened Words
  import opened PathNodes
  import opened FidState
  import opened FidSteps
  import opened FidTree
  import opened FidRename
  import opened FidWalk
  import opened FidLemmas
  import opened FidTheorem
  import opened FidMessages
  import opened FidPaths
  import opened FidDeletion

  class Server {
    var s: State
    ghost var rank: seq<nat>
    ghost var depth: seq<nat>

    ghost predicate With(h: Hands)
      reads this
    {
      Good(s, h, rank, depth)
    }

    /** No handler is running. */
    ghost predicate Valid()
      reads this
    {
      With(NO_HANDS)
    }

    constructor ()
      ensures Valid() && s.refs == [] && s.fids == map[] && NamesSafe(s) && Treelike(s)
    {
      s := State([], [EMPTY_NODE], map[]);
      rank := [0];
      depth := [];
    }

    // ---- References --------------------------------------------------------

    method IncRef(r: RefId, ghost h: Hands)
      requires With(h) && Live(s, r)
      modifies this`s
      ensures With(Holding(h, r).(young := h.young - {r})) && s == Counting(old(s), r, 1)
    {
      TakeKeeps(s, h, r, rank, depth);
      s := Counting(s, r, 1);
    }

    /** Closes the file with its last reference, and then drops the parent. */
    method DecRef(r: RefId, ghost h: Hands)
      requires With(h) && Droppable(h, depth, r)
      modifies this`s
      ensures With(Without(h, r)) && ClosesUpTo(old(s), s, depth, r)
      ensures Live(old(s), r) && (old(s).refs[r].count > 1 ==> s == Counting(old(s), r, -1))
      decreases depth[r]
    {
      hide Good, OnlyCloses;
      DropReady(s, h, rank, depth, r);
      if s.refs[r].count > 1 {
        Dropped(s, h, rank, depth, r);
        s := Counting(s, r, -1);
      } else {
        ClosedReady(s, h, rank, depth, r);
        var p := s.refs[r].parent;
        ghost var a := s;
        s := Closing(s, r);
        if p.Some? {
          DecRef(p.value, PassedOn(a, h, r));
          OnlyClosesTwice(a, Closing(a, r), s);
        }
      }
    }

    // ---- The FID table -----------------------------------------------------

    method LookupFID(fid: Fid, ghost h: Hands) returns (r: Option<RefId>)
      requires With(h)
      modifies this`s
      ensures r.Some? <==> fid in old(s).fids
      ensures r.Some? ==> r.value == old(s).fids[fid] && Live(old(s), r.value) && s == Counting(old(s), r.value, 1)
      ensures r.Some? ==> With(Holding(h, r.value).(young := h.young - {r.value}))
      ensures r.None? ==> s == old(s)
    {
      if fid !in s.fids {
        return None;
      }
      FidLives(s, h, fid);
      IncRef(s.fids[fid], h);
      return Some(s.fids[fid]);
    }

    /** Any earlier entry is dropped after the new one is in place. */
    method InsertFID(fid: Fid, r: RefId, ghost h: Hands)
      requires With(h) && Live(s, r) && h.loose == {}
      modifies this`s
      ensures With(h.(young := h.young - {r}))
      ensures OnlyCloses(old(s).(fids := old(s).fids[fid := r]), s)
    {
      hide Good, OnlyCloses;
      ghost var a, h' := s, h.(young := h.young - {r});
      var orig := if fid in s.fids then Some(s.fids[fid]) else None;
      IncRef(r, h);
      Inserted(a, h, fid, r, rank, depth);
      s := s.(fids := s.fids[fid := r]);
      if orig.Some? {
        ghost var b := s;
        DecRef(orig.value, Holding(h', orig.value));
        OnlyClosesTwice(a.(fids := a.fids[fid := r]), b, s);
        assert Without(Holding(h', orig.value), orig.value) == h';
      }
    }

    method DeleteFID(fid: Fid, ghost h: Hands) returns (ok: bool)
      requires With(h) && h.loose == {}
      modifies this`s
      ensures ok <==> fid in old(s).fids
      ensures With(h) && OnlyCloses(old(s).(fids := old(s).fids - {fid}), s)
    {
      hide Counted, Named, Placed, Ranked, OnlyCloses;
      if fid !in s.fids {
        assert s.fids - {fid} == s.fids;
        CountsClose(s, h, s);
        return false;
      }
      var r := s.fids[fid];
      FidLives(s, h, fid);
      TableKeeps(s, h, fid, s.fids - {fid}, Holding(h, r), rank, depth);
      s := s.(fids := s.fids - {fid});
      DecRef(r, Holding(h, r));
      assert Without(Holding(h, r), r).held == h.held;
      return true;
    }

    // ---- Deletion ----------------------------------------------------------

    method MarkDeleted(m: set<RefId>)
      requires forall r :: r in m ==> r < |s.refs|
      modifies this`s
      ensures s == old(s).(refs := Marking(old(s).refs, m))
    {
      var todo := m;
      while todo != {}
        invariant todo <= m
        invariant s == old(s).(refs := Marking(old(s).refs, m - todo))
        decreases |todo|
      {
        var r :| r in todo;
        s := s.(refs := s.refs[r := s.refs[r].(deleted := true)]);
        todo := todo - {r};
        assert s.refs == Marking(old(s).refs, m - todo);
      }
      assert m - {} == m;
    }

    /** Marks the references with a name in the node. */
    method MarkChildRefs(n: NodeId)
      requires n < |s.nodes| && AllMatched(s) && NamesInRange(s)
      modifies this`s
      ensures s == old(s).(refs := Marking(old(s).refs, old(s).nodes[n].childRefNames.Keys))
    {
      var pn := s.nodes[n];
      ghost var done: set<RefId> := {};
      var names := pn.childRefs.Keys;
      while names != {}
        invariant names <= pn.childRefs.Keys
        invariant s == old(s).(refs := Marking(old(s).refs, done))
        invariant done == set r | r in pn.childRefNames && pn.childRefNames[r] !in names
        decreases |names|
      {
        var name :| name in names;
        MarkDeleted(pn.RefsNamed(name));
        names := names - {name};
        MarkingTwice(old(s).refs, done, pn.RefsNamed(name));
        done := done + pn.RefsNamed(name);
      }
      assert done == pn.childRefNames.Keys;
    }

    /** Marks all references in the subtree of the node. */
    method NotifyDelete(n: NodeId)
      requires Ranked(s.nodes, rank) && n < |s.nodes| && AllMatched(s) && NamesInRange(s)
      modifies this`s
      ensures Ranked(s.nodes, rank) && s == old(s).(refs := Marking(old(s).refs, RefsBelow(s.nodes, rank, n)))
      decreases rank[n]
    {
      hide Ranked, RefsBelow, PathNode.Matched;
      var pn := s.nodes[n];
      MarkChildRefs(n);
      ghost var done: set<RefId> := pn.childRefNames.Keys;
      OwnRefsBelow(s.nodes, rank, n);
      var kids := pn.childNodes.Keys;
      while kids != {}
        invariant kids <= pn.childNodes.Keys
        invariant s == old(s).(refs := Marking(old(s).refs, done))
        invariant DoneBelow(s.nodes, rank, n, pn.childNodes.Keys - kids, done)
        decreases |kids|
      {
        var k :| k in kids;
        KidRank(s.nodes, rank, n, k);
        ghost var below := RefsBelow(s.nodes, rank, pn.childNodes[k]);
        NotifyDelete(pn.childNodes[k]);
        MarkingTwice(old(s).refs, done, below);
        MoreDoneBelow(s.nodes, rank, n, pn.childNodes.Keys - kids, done, k);
        kids := kids - {k};
        done := done + below;
        assert pn.childNodes.Keys - kids == (pn.childNodes.Keys - (kids + {k})) + {k};
      }
      AllDoneBelow(s.nodes, rank, n, done);
    }

    /** Removes the references with the name from the node and marks them. */
    method RemoveMarking(n: NodeId, name: string)
      requires n < |s.nodes| && s.nodes[n].Matched() && NamesInRange(s)
      modifies this`s
      ensures Unnamed(old(s), s, n, old(s).nodes[n].RefsNamed(name))
    {
      ghost var a := s;
      ghost var gone: set<RefId> := {};
      assert Marking(a.refs, {}) == a.refs;
      while s.nodes[n].RefsNamed(name) != {}
        invariant Unnamed(a, s, n, gone) && gone <= a.nodes[n].RefsNamed(name)
        decreases |s.nodes[n].RefsNamed(name)|
      {
        var r :| r in s.nodes[n].RefsNamed(name);
        UnnamedMore(a, s, n, name, gone, r);
        s := Unnaming(s, n, r);
        s := s.(refs := s.refs[r := s.refs[r].(deleted := true)]);
        gone := gone + {r};
      }
      assert gone == a.nodes[n].RefsNamed(name);
    }

    method MarkChildDeleted(n: NodeId, name: string, ghost h: Hands)
      requires With(h) && n < |s.nodes| && h.loose == {} && h.unplaced == {}
      modifies this`s
      ensures With(h) && NameDeleted(old(s), rank, n, name, s)
    {
      hide Counted, ClosedOnce, Named, Placed, Tidy, RefsBelow;
      ghost var a := s;
      NamedInRange(s, h);
      RemoveMarking(n, name);
      var orig := if name in s.nodes[n].childNodes then Some(s.nodes[n].childNodes[name]) else None;
      s := s.(nodes := s.nodes[n := s.nodes[n].DropPathNode(name)]);
      if orig.Some? {
        RefsBelowSame(a.nodes, rank, s.nodes, orig.value, n);
        NotifyDelete(orig.value);
        MarkingTwice(a.refs, a.nodes[n].RefsNamed(name), RefsBelow(a.nodes, rank, orig.value));
      }
      DeletionKeeps(a, h, rank, depth, n, name, s);
    }

    // ---- Renames -----------------------------------------------------------

    /** The reference loses its name and drops its parent. */
    method Detach(n: NodeId, r: RefId, ghost h: Hands)
      requires With(h) && h.loose == {} && n < |s.nodes| && r in s.nodes[n].childRefNames
      modifies this`s
      ensures old(s).nodes[n].Matched() && OnlyCloses(Unnaming(old(s), n, r), s)
      ensures With(h.(loose := {r})) && Live(s, r)
    {
      hide Counted, ClosedOnce, Placed, Ranked, OnlyCloses;
      UnlinkKeeps(s, h, n, r, rank, depth);
      var p := s.refs[r].parent.value;
      s := Unnaming(s, n, r);
      DecRef(p, Freed(h, r, p));
      assert Without(Freed(h, r, p), p) == h.(loose := {r});
    }

    /** The reference takes the target as its parent and gets the new name. */
    method Attach(r: RefId, target: RefId, new_: string, ghost h: Hands)
      requires With(h) && r in h.loose && Live(s, r) && h.held[target] > 0 && h.young == {}
      requires Deeper(s, depth, target, r) && !s.refs[target].deleted
      modifies this`s
      ensures Attaches(old(s), r, target, new_, s) && With(h.(loose := h.loose - {r}, unplaced := h.unplaced + {r}))
    {
      hide Counted, ClosedOnce, Named, Placed, Ranked;
      HeldLives(s, h, target);
      ReparentKeeps(s, h, r, target, rank, depth);
      var tn := s.refs[target].node;
      s := Reparenting(s, r, target);
      IncRef(target, h);
      ghost var h' := Holding(h, target).(young := h.young - {target});
      LinkKeeps(s, h', r, target, new_, h.unplaced + {r}, rank, depth);
      s := Naming(s, tn, r, new_);
      assert h.young - {target} == h.young;
      assert Given(h', r, target, h.unplaced + {r}) == h.(loose := h.loose - {r}, unplaced := h.unplaced + {r});
    }

    /** One turn of the loop over the references with the old name. */
    method MoveOne(n: NodeId, r: RefId, target: RefId, new_: string, ghost h: Hands, ghost a: State,
                   ghost moved: set<RefId>)
      requires With(h.(unplaced := moved)) && h.held[target] > 0 && h.loose == {} && h.young == {} && Named(a, h)
      requires n < |s.nodes| && r in s.nodes[n].childRefNames && Deeper(s, depth, target, r)
      requires MovingFrom(a, s, n, target, new_, moved) && r !in moved && !a.refs[target].deleted
      modifies this`s
      ensures With(h.(unplaced := moved + {r})) && MovingFrom(a, s, n, target, new_, moved + {r})
    {
      hide Good, OnlyCloses, Moving;
      MovingSame(a, s, n, target, new_, moved, r);
      NamedOnce(a, h, n, r);
      ghost var before := s;
      ghost var h1 := h.(unplaced := moved);
      Detach(n, r, h1);
      ghost var after := s;
      StillThere(before, n, r, s, target);
      Attach(r, target, new_, h1.(loose := {r}));
      MovingOneMore(a, before, after, n, r, target, new_, moved);
      assert h1.(loose := {r} - {r}, unplaced := moved + {r}) == h.(unplaced := moved + {r});
    }

    /** Moves all references with the old name. */
    method MoveAll(n: NodeId, old_: string, target: RefId, new_: string, ghost h: Hands)
      returns (ghost moved: set<RefId>)
      requires With(h) && h.held[target] > 0 && h.loose == {} && h.unplaced == {} && h.young == {}
      requires target < |s.refs| && !s.refs[target].deleted && s.refs[target].node < |s.nodes|
      requires AllDeeper(s, depth, n, old_, target) && (n == s.refs[target].node ==> old_ != new_)
      modifies this`s
      ensures With(h.(unplaced := moved)) && FullyMoved(old(s), s, n, old_, target, new_, moved)
    {
      hide Good, Moving;
      ghost var a := s;
      moved := {};
      NamedAndMatched(a, h, rank, depth);
      MovingNone(a, h, target, new_);
      while s.nodes[n].RefsNamed(old_) != {}
        invariant |s.nodes| == |a.nodes| && With(h.(unplaced := moved)) && MovingFrom(a, s, n, target, new_, moved)
        invariant moved <= a.nodes[n].RefsNamed(old_)
        decreases |a.nodes[n].RefsNamed(old_) - moved|
      {
        var r :| r in s.nodes[n].RefsNamed(old_);
        NamedAndMatched(s, h.(unplaced := moved), rank, depth);
        StillToMove(a, s, n, old_, target, new_, moved, r);
        MovingSame(a, s, n, target, new_, moved, r);
        MoveOne(n, r, target, new_, h, a, moved);
        moved := moved + {r};
        MovingSame(a, s, n, target, new_, moved, r);
      }
      NamedAndMatched(s, h.(unplaced := moved), rank, depth);
      AllMoved(a, s, n, old_, target, new_, moved);
    }

    /** The name of the node is moved to another name, in the target's node. */
    method RenameChildTo(n: NodeId, old_: string, target: RefId, new_: string, ghost h: Hands)
      requires With(h) && h.held[target] > 0 && h.loose == {} && h.unplaced == {} && h.young == {}
      requires MayMove(s, rank, n, old_, target, new_)
      modifies this
      ensures With(h) && Renamed(old(s), old(rank), n, old_, target, new_, s)
    {
      hide Counted, ClosedOnce, Named, Placed, Tidy, Moving, Below, Doomed, RenamedName;
      ghost var a0 := s;
      var tn := s.refs[target].node;
      MarkChildDeleted(tn, new_, h);
      ghost var a := s;
      rank, depth := ReadyToMove(a0, a, h, rank, depth, n, old_, target, new_);
      ghost var moved := MoveAll(n, old_, target, new_, h);
      MovingSame(a, s, n, target, new_, moved, target);
      MoveEnds(a, s, h, rank, depth, n, old_, target, new_, moved);
      RenameIsWhole(a0, old(rank), a, s, n, old_, target, new_, moved);
      s := s.(nodes := MovedNodes(s.nodes, n, old_, tn, new_));
    }

    // ---- New references ----------------------------------------------------

    /** A new child of a held reference, with no count yet. The parent's
        reference passes from the handler to the child. */
    method AddBelow(w: RefId, name: string, mode: Mode, open: bool, ghost h: Hands) returns (x: RefId)
      requires With(h) && h.held[w] > 0 && h.loose == {} && h.unplaced == {} && w < |s.refs| && !s.refs[w].deleted
      modifies this
      ensures x == |old(s).refs| && Grown(old(s), s) && Keeps(old(s), s) && BornBelow(s, w, name, mode, open, x)
      ensures CanBear(old(s), w) && s == Born(old(s), w, name, mode, open)
      ensures With(Without(h, w).(young := h.young + {x}))
    {
      hide Good, Grown;
      BornKeeps(s, h, w, name, mode, open, rank, depth);
      var n := s.refs[w].node;
      x := |s.refs|;
      rank, depth := WithNodeRank(s, n, name, rank), depth + [depth[w] + 1];
      var (s1, node) := WithNode(s, n, name);
      s := s1;
      s := Adding(s, FidRef(0, Some(w), node, mode, open, false, 0));
      s := Naming(s, n, x, name);
    }

    /** Another reference to the same file, which the handler holds. */
    method Clone(ref: RefId, ghost h: Hands) returns (x: RefId)
      requires With(h) && Live(s, ref) && h == NO_HANDS.(held := h.held)
      modifies this
      ensures x == |old(s).refs| && Grown(old(s), s) && Keeps(old(s), s) && CloneOf(old(s), ref, s, x) && Live(s, x)
      ensures With(Holding(h, x))
    {
      hide Good, Grown;
      x := |s.refs|;
      var parent := s.refs[ref].parent;
      var copy := FidRef(0, parent, s.refs[ref].node, s.refs[ref].mode, false, s.refs[ref].deleted, 0);
      CloneKeeps(s, h, ref, copy, rank, depth);
      ghost var a := s;
      if parent.None? {
        depth := depth + [0];
        s := Adding(s, copy);
      } else {
        depth := depth + [depth[parent.value] + 1];
        var n := s.refs[parent.value].node;
        s := Adding(s, copy);
        if !copy.deleted {
          s := Naming(s, n, x, s.nodes[n].childRefNames[ref]);
        }
        s := Counting(s, parent.value, 1);
      }
      ghost var b := s;
      IncRef(x, h.(young := {x}));
      CountsGrow(a, b, x);
      CloneCounted(a, ref, b, x);
      assert {x} - {x} == {};
      assert Holding(h.(young := {x}), x).(young := {}) == Holding(h, x);
    }

    /** One step of a walk: the hold on a reference passes to its new child. */
    method WalkOne(w: RefId, name: string, mode: Mode, ghost h: Hands) returns (y: RefId)
      requires With(Holding(h, w)) && h == NO_HANDS.(held := h.held) && Live(s, w) && !s.refs[w].deleted
      modifies this
      ensures y == |old(s).refs| && Grown(old(s), s) && Keeps(old(s), s) && BornBelow(s, w, name, mode, false, y)
      ensures With(Holding(h, y))
    {
      hide Good, Grown;
      ghost var a := s;
      y := AddBelow(w, name, mode, false, Holding(h, w));
      ghost var c := s;
      assert Without(Holding(h, w), w).(young := h.young + {y}) == h.(young := {y});
      IncRef(y, h.(young := {y}));
      assert Holding(h.(young := {y}), y).(young := {y} - {y}) == Holding(h, y);
      CountsGrow(a, c, y);
    }

    /** Drops the reference that a failing walk has come to. */
    method EndWalk(w: RefId, ghost h: Hands, ghost a: State)
      requires With(Holding(h, w)) && h.loose == {} && w < |s.refs| && Grown(a, s)
      modifies this`s
      ensures With(h) && Grown(a, s)
    {
      hide Good, Grown;
      ghost var b := s;
      InDepth(s, Holding(h, w), rank, depth);
      DecRef(w, Holding(h, w));
      WalkFails(a, b, s, depth, w);
      assert Without(Holding(h, w), w) == h;
    }

    method WalkNames(ref: RefId, names: seq<string>, answers: nat -> Option<Mode>, ghost h: Hands)
      returns (x: Option<RefId>)
      requires With(h) && Live(s, ref) && h == NO_HANDS.(held := h.held) && names != []
      modifies this
      ensures x.Some? <==>
                old(s).refs[ref].mode.Directory? && !old(s).refs[ref].deleted
                && (forall i :: 0 <= i < |names| ==> answers(i).Some?)
                && forall i :: 0 <= i < |names| - 1 ==> answers(i) == Some(Directory)
      ensures Grown(old(s), s) && With(if x.Some? then Holding(h, x.value) else h)
      ensures x.Some? ==> |old(s).refs| <= x.value < |s.refs| && Walked(s, ref, names, x.value)
      ensures x.Some? ==> EndIs(s, names, answers, x.value)
    {
      hide Good, Grown, Walked;
      ghost var a := s;
      GrownAlready(s, h, rank, depth);
      IncRef(ref, h);
      assert h.young - {ref} == h.young;
      assert Holding(h, ref).(young := h.young - {ref}) == Holding(h, ref);
      CountsGrow(a, a, ref);
      WalkBegins(a, ref, answers);
      var walkRef, i := ref, 0;
      while i < |names|
        invariant 0 <= i <= |names| && With(Holding(h, walkRef)) && Grown(a, s)
        invariant WalkedSoFar(a, s, ref, names[..i], answers, walkRef)
        invariant forall j :: 0 <= j < i ==> answers(j).Some?
        invariant forall j :: 0 <= j < i - 1 ==> answers(j) == Some(Directory)
      {
        if !s.refs[walkRef].mode.Directory? || s.refs[walkRef].deleted || answers(i).None? {
          EndWalk(walkRef, h, a);
          return None;
        }
        ghost var b := s;
        var y := WalkOne(walkRef, names[i], answers(i).value, h);
        WalkedOn(a, b, s, ref, names, i, answers, walkRef, y);
        walkRef, i := y, i + 1;
      }
      assert names[..|names|] == names;
      return Some(walkRef);
    }

    /** Walks one name at a time. Each new reference is the child of the one
        before, whose hold it takes over. The backend answers with an error or
        with the type of the file, and refuses to walk from a deleted one. */
    method DoWalk(ref: RefId, names: seq<string>, answers: nat -> Option<Mode>, ghost h: Hands)
      returns (x: Option<RefId>)
      requires With(h) && Live(s, ref) && h == NO_HANDS.(held := h.held)
      modifies this
      ensures x.Some? <==> WalkSucceeds(old(s), ref, names, answers)
      ensures x.None? ==> With(h) && Grown(old(s), s)
      ensures x.Some? ==> With(Holding(h, x.value)) && Grown(old(s), s) && |old(s).refs| <= x.value < |s.refs|
      ensures x.Some? ==> if names == [] then CloneOf(old(s), ref, s, x.value) else Walked(s, ref, names, x.value)
      ensures x.Some? ==> EndIs(s, names, answers, x.value)
    {
      hide Good, Grown, Walked, CloneOf;
      if exists i :: 0 <= i < |names| && !SafeName(names[i]) {
        GrownAlready(s, h, rank, depth);
        return None;
      }
      if s.refs[ref].open {
        GrownAlready(s, h, rank, depth);
        return None;
      }
      if names == [] {
        if answers(0).None? {
          GrownAlready(s, h, rank, depth);
          return None;
        }
        var y := Clone(ref, h);
        return Some(y);
      }
      x := WalkNames(ref, names, answers, h);
    }

    // ---- Handlers ----------------------------------------------------------

    method Tclunk(fid: Fid) returns (ok: bool)
      requires Valid()
      modifies this`s
      ensures Valid() && (ok <==> fid in old(s).fids)
      ensures OnlyCloses(old(s).(fids := old(s).fids - {fid}), s)
    {
      ok := DeleteFID(fid, NO_HANDS);
    }

    /** Gives back a reference that was looked up. */
    method Drop(r: RefId, ghost h: Hands)
      requires With(Holding(h, r)) && Live(s, r) && s.refs[r].count > 1 && h.loose == {}
      modifies this`s
      ensures With(h) && s == Counting(old(s), r, -1)
    {
      hide Good, OnlyCloses;
      InDepth(s, Holding(h, r), rank, depth);
      DecRef(r, Holding(h, r));
      assert Without(Holding(h, r), r) == h;
    }

    /** Puts a new reference under a FID and drops it and another one. */
    method Install(fid: Fid, x: RefId, ref: RefId)
      requires With(Holding(Holding(NO_HANDS, ref), x)) && x < |s.refs| && ref < |s.refs|
      modifies this`s
      ensures Valid() && OnlyCloses(old(s).(fids := old(s).fids[fid := x]), s) && Live(s, x)
    {
      hide Good, OnlyCloses;
      ghost var h := Holding(Holding(NO_HANDS, ref), x);
      ghost var a := s.(fids := s.fids[fid := x]);
      InDepth(s, h, rank, depth);
      GoodHeldLives(s, h, rank, depth, x);
      InsertFID(fid, x, h);
      assert h.(young := h.young - {x}) == h;
      ghost var b := s;
      ClosingSize(a, s);
      DecRef(x, h);
      assert Without(h, x) == Holding(NO_HANDS, ref);
      OnlyClosesTwice(a, b, s);
      ghost var c := s;
      ClosingSize(b, s);
      DecRef(ref, Holding(NO_HANDS, ref));
      assert Without(Holding(NO_HANDS, ref), ref) == NO_HANDS;
      OnlyClosesTwice(a, c, s);
      ClosingSize(a, s);
      GoodFidLives(s, NO_HANDS, rank, depth, fid);
    }

    method Twalk(fid: Fid, newFid: Fid, names: seq<string>, answers: nat -> Option<Mode>) returns (ok: bool)
      requires Valid()
      modifies this
      ensures Valid() && Grown(old(s).(fids := s.fids), s)
      ensures ok <==> fid in old(s).fids && old(s).fids[fid] < |old(s).refs|
                      && WalkSucceeds(old(s), old(s).fids[fid], names, answers)
      ensures !ok ==> s.fids == old(s).fids
      ensures ok ==> WalkInstalled(old(s), old(s).fids[fid], newFid, names, answers, s)
    {
      hide Good, Grown, OnlyCloses, Walked, CloneOf;
      ghost var a := s;
      ghost var h0 := NO_HANDS;
      GrownAlready(s, h0, rank, depth);
      var looked := LookupFID(fid, h0);
      if looked.None? {
        return false;
      }
      var ref := looked.value;
      ghost var h := Holding(NO_HANDS, ref);
      assert NO_HANDS.young - {ref} == {};
      assert Holding(NO_HANDS, ref).(young := {}) == h;
      ghost var b := s;
      CountsGrow(a, a, ref);
      var x := DoWalk(ref, names, answers, h);
      assert WalkSucceeds(b, ref, names, answers) <==> WalkSucceeds(a, ref, names, answers);
      GrownTwice(a, b, s);
      GrownSize(a, s);
      if x.None? {
        ghost var c := s;
        InDepth(s, h, rank, depth);
        DecRef(ref, h);
        WalkFails(a, c, s, depth, ref);
        assert Without(h, ref) == NO_HANDS;
        return false;
      }
      ghost var c := s;
      Install(newFid, x.value, ref);
      WalkEnds(a, b, c, s, rank, depth, ref, newFid, names, answers, x.value);
      return true;
    }

    /** A reference to the root, which the handler holds. */
    method AttachRoot(mode: Mode) returns (root: RefId)
      requires Valid()
      modifies this`s, this`depth
      ensures With(Holding(NO_HANDS, root)) && root == |old(s).refs| && Live(s, root) && Grown(old(s), s)
      ensures s.refs[root] == FidRef(1, None, 0, mode, false, false, 0)
    {
      hide Counted, ClosedOnce, Placed, Tidy, Ranked;
      root := |s.refs|;
      ghost var a := s;
      var ref := FidRef(0, None, 0, mode, false, false, 0);
      BearRoot(s, NO_HANDS, ref, rank, depth);
      AddingGrows(s, NO_HANDS, ref);
      depth := depth + [0];
      s := Adding(s, ref);
      ghost var b := s;
      IncRef(root, NO_HANDS.(young := {root}));
      CountsGrow(a, b, root);
      assert Holding(NO_HANDS.(young := {root}), root).(young := {root} - {root}) == Holding(NO_HANDS, root);
    }

    /** The backend attaches, or not, with a file of some type. No names stand
        for the root itself. */
    method Tattach(fid: Fid, names: seq<string>, attached: Option<Mode>, answers: nat -> Option<Mode>)
      returns (ok: bool, ghost root: RefId)
      requires Valid()
      modifies this
      ensures Valid() && Grown(old(s).(fids := s.fids), s)
      ensures ok <==> attached.Some? && (names == [] || RootWalks(attached.value, names, answers))
      ensures !ok ==> s.fids == old(s).fids
      ensures ok ==> Attached(old(s), fid, names, attached.value, answers, root, s)
    {
      hide Good, Grown, OnlyCloses, Walked, CloneOf;
      ghost var a := s;
      root := 0;
      GrownAlready(s, NO_HANDS, rank, depth);
      if attached.None? {
        return false, 0;
      }
      var r := AttachRoot(attached.value);
      root := r;
      ghost var h := Holding(NO_HANDS, r);
      ghost var b := s;
      if names == [] {
        InsertFID(fid, r, h);
        assert h.young - {r} == h.young;
        assert h.(young := h.young - {r}) == h;
        ghost var c := s;
        ClosingSize(b.(fids := b.fids[fid := r]), s);
        InDepth(s, h, rank, depth);
        DecRef(r, h);
        assert Without(h, r) == NO_HANDS;
        OnlyClosesTwice(b.(fids := b.fids[fid := r]), c, s);
        assert Walked(b, r, [], r) by { WalkedNowhere(b, r); }
        AttachEnds(a, b, s, rank, depth, fid, [], attached.value, answers, r, r);
        return true, r;
      }
      var x := DoWalk(r, names, answers, h);
      assert WalkSucceeds(b, r, names, answers) <==> RootWalks(attached.value, names, answers);
      ghost var c := s;
      GrownTwice(a, b, c);
      GrownSize(b, c);
      if x.None? {
        InDepth(s, h, rank, depth);
        DecRef(r, h);
        WalkFails(a, c, s, depth, r);
        GrownWithFids(a, s, a.fids);
        assert Without(h, r) == NO_HANDS;
        return false, r;
      }
      Install(fid, x.value, r);
      GrownSize(a, b);
      GrownRef(b, c, r);
      AttachEnds(a, c, s, rank, depth, fid, names, attached.value, answers, r, x.value);
      return true, r;
    }

    /** The FID moves on to the new file, which is open. */
    method Tlcreate(fid: Fid, name: string, ok: bool) returns (reply: Reply)
      requires Valid()
      modifies this
      ensures Valid() && Grown(old(s).(fids := s.fids), s)
      ensures reply.Done? <==> CanCreate(old(s), fid, name) && ok
      ensures !reply.Done? ==> s == old(s)
      ensures reply.Done? ==> fid in s.fids && s.fids == old(s).fids[fid := s.fids[fid]]
                              && |old(s).refs| <= s.fids[fid]
                              && BornBelow(s, old(s).fids[fid], name, Openable, true, s.fids[fid])
    {
      hide Good, Grown, OnlyCloses;
      GrownAlready(s, NO_HANDS, rank, depth);
      if !SafeName(name) {
        return Invalid;
      }
      ghost var a := s;
      var looked := LookupFID(fid, NO_HANDS);
      if looked.None? {
        return BadFid;
      }
      var ref := looked.value;
      ghost var h := Holding(NO_HANDS, ref);
      assert h.(young := NO_HANDS.young - {ref}) == h;
      LiveCounts(a, NO_HANDS, rank, depth, ref);
      CountsBack(a, ref);
      if s.refs[ref].deleted || !s.refs[ref].mode.Directory? || s.refs[ref].open {
        Drop(ref, NO_HANDS);
        return Invalid;
      }
      if !ok {
        Drop(ref, NO_HANDS);
        return Refused;
      }
      ghost var b := s;
      var x := AddBelow(ref, name, Openable, true, h);
      assert Without(h, ref).(young := h.young + {x}) == NO_HANDS.(young := {x});
      ghost var c := s;
      IncRef(ref, NO_HANDS.(young := {x}));
      assert {x} - {ref} == {x};
      ghost var d := s;
      InsertFID(fid, x, h.(young := {x}));
      assert h.(young := {x} - {x}) == h;
      ghost var e := s;
      ClosingSize(d.(fids := d.fids[fid := x]), s);
      InDepth(s, h, rank, depth);
      DecRef(ref, h);
      assert Without(h, ref) == NO_HANDS;
      OnlyClosesTwice(d.(fids := d.fids[fid := x]), e, s);
      CreateEnds(a, c, s, rank, depth, ref, fid, name, x);
      return Done;
    }

    /** Removes the file and clunks the FID, even if the removal fails. */
    method Tremove(fid: Fid, ok: bool) returns (reply: Reply)
      requires Valid()
      modifies this`s
      ensures Valid()
      ensures reply.BadFid? <==> fid !in old(s).fids
      ensures reply.BadFid? ==> s == old(s)
      ensures reply.Done? <==> ok && CanRemove(old(s), fid)
      ensures reply.Done? ==> FileRemoved(old(s), rank, fid, s)
      ensures reply.Invalid? || reply.Refused? ==> OnlyCloses(old(s).(fids := old(s).fids - {fid}), s)
    {
      hide Good, OnlyCloses, Unlinked;
      ghost var a := s;
      var looked := LookupFID(fid, NO_HANDS);
      if looked.None? {
        return BadFid;
      }
      var ref := looked.value;
      ghost var h := Holding(NO_HANDS, ref);
      assert h.(young := NO_HANDS.young - {ref}) == h;
      InDepth(s, h, rank, depth);
      ghost var b := s;
      if s.refs[ref].parent.None? || s.refs[ref].deleted {
        reply := Invalid;
      } else if !ok {
        reply := Refused;
      } else {
        LastingHasName(s, h, rank, depth, ref);
        MarkChildDeleted(ParentNode(s, ref), NameFor(s, ref), h);
        reply := Done;
      }
      ghost var c := s;
      var found := DeleteFID(fid, h);
      ghost var d := s;
      SameSize(a, b, c, d, fid, rank, ref, reply);
      DecRef(ref, h);
      assert Without(h, ref) == NO_HANDS;
      RemoveEnds(a, b, c, d, s, rank, depth, fid, ref, reply);
    }

    method Tunlinkat(dir: Fid, name: string, ok: bool) returns (reply: Reply)
      requires Valid()
      modifies this
      ensures Valid()
      ensures reply.Done? <==> ok && CanCreate(old(s), dir, name)
      ensures reply.Done? ==> NameUnlinked(old(s), old(rank), old(s).fids[dir], name, s)
      ensures reply.BadFid? || reply.Invalid? ==> s == old(s)
      ensures reply.Refused? <==> !ok && CanCreate(old(s), dir, name)
      ensures reply.Refused? ==> Grown(old(s), s)
    {
      hide Good, OnlyCloses, Unlinked, Grown, Doomed;
      if !SafeName(name) {
        return Invalid;
      }
      ghost var a := s;
      var looked := LookupFID(dir, NO_HANDS);
      if looked.None? {
        return BadFid;
      }
      var ref := looked.value;
      ghost var h := Holding(NO_HANDS, ref);
      assert h.(young := NO_HANDS.young - {ref}) == h;
      LiveCounts(a, NO_HANDS, rank, depth, ref);
      CountsBack(a, ref);
      if s.refs[ref].deleted || !s.refs[ref].mode.Directory? || s.refs[ref].open {
        Drop(ref, NO_HANDS);
        return Invalid;
      }
      var n := s.refs[ref].node;
      UnlinkReady(s, h, rank, depth, ref, name);
      ghost var rank0 := rank;
      rank := WithNodeRank(s, n, name, rank);
      s := WithNode(s, n, name).0;
      ghost var c := s;
      if !ok {
        Drop(ref, NO_HANDS);
        UnlinkFails(a, rank0, depth, ref, name);
        return Refused;
      }
      MarkChildDeleted(n, name, h);
      ghost var d := s;
      InDepth(s, h, rank, depth);
      DeletionSize(c, rank, n, name, d);
      DecRef(ref, h);
      assert Without(h, ref) == NO_HANDS;
      UnlinkEnds(a, d, s, rank0, depth, ref, name);
      return Done;
    }

    method LookupBoth(fid: Fid, dir: Fid) returns (found: bool, ref: RefId, target: RefId)
      requires Valid()
      modifies this`s
      ensures found <==> fid in old(s).fids && dir in old(s).fids
      ensures !found ==> Valid() && s == old(s)
      ensures found ==> ref == old(s).fids[fid] && target == old(s).fids[dir] && TookBoth(old(s), ref, target, s)
      ensures found ==> With(Holding(Holding(NO_HANDS, ref), target))
    {
      hide Good;
      ref, target := 0, 0;
      ghost var a := s;
      var first := LookupFID(fid, NO_HANDS);
      if first.None? {
        return false, 0, 0;
      }
      ref := first.value;
      ghost var h := Holding(NO_HANDS, ref);
      assert h.(young := NO_HANDS.young - {ref}) == h;
      LiveCounts(a, NO_HANDS, rank, depth, ref);
      CountsBack(a, ref);
      var second := LookupFID(dir, h);
      if second.None? {
        Drop(ref, NO_HANDS);
        return false, 0, 0;
      }
      target := second.value;
      assert h.young - {target} == h.young;
      assert Holding(h, target).(young := h.young - {target}) == Holding(h, target);
      LiveCounts(a, NO_HANDS, rank, depth, target);
      return true, ref, target;
    }

    method DropBoth(ref: RefId, target: RefId, ghost a: State)
      requires With(Holding(Holding(NO_HANDS, ref), target)) && TookBoth(a, ref, target, s)
      modifies this`s
      ensures Valid() && s == a
    {
      hide Good;
      Drop(target, Holding(NO_HANDS, ref));
      Drop(ref, NO_HANDS);
    }

    /** Drops both references after a rename. */
    method EndRename(ref: RefId, target: RefId)
      requires With(Holding(Holding(NO_HANDS, ref), target)) && ref < |s.refs| && target < |s.refs|
      modifies this`s
      ensures Valid() && OnlyCloses(old(s), s)
    {
      hide Good, OnlyCloses;
      ghost var h := Holding(NO_HANDS, ref);
      ghost var a := s;
      InDepth(s, Holding(h, target), rank, depth);
      DecRef(target, Holding(h, target));
      assert Without(Holding(h, target), target) == h;
      ghost var b := s;
      ClosingSize(a, b);
      DecRef(ref, h);
      assert Without(h, ref) == NO_HANDS;
      OnlyClosesTwice(a, b, s);
    }

    /** The backend may refuse, and does when a directory would move into itself. */
    method Trename(fid: Fid, dir: Fid, name: string, ok: bool) returns (reply: Reply)
      requires Valid()
      requires ok && CanRename(s, fid, dir, name) ==> MovesOut(s, rank, s.fids[fid], s.fids[dir])
      modifies this
      ensures Valid()
      ensures reply.Done? <==> CanRename(old(s), fid, dir, name) &&
                               (ok || SamePlace(old(s), old(s).fids[fid], old(s).fids[dir], name))
      ensures reply.Done? ==>
                if SamePlace(old(s), old(s).fids[fid], old(s).fids[dir], name) then s == old(s)
                else FileRenamed(old(s), old(rank), old(s).fids[fid], old(s).fids[dir], name, s)
      ensures !reply.Done? ==> s == old(s)
    {
      hide Good, OnlyCloses, Renamed, Below;
      if !SafeName(name) {
        return Invalid;
      }
      ghost var a := s;
      var found, ref, target := LookupBoth(fid, dir);
      if !found {
        return BadFid;
      }
      ghost var h := Holding(Holding(NO_HANDS, ref), target);
      if s.refs[ref].parent.None? || s.refs[ref].deleted || s.refs[target].deleted
         || !s.refs[target].mode.Directory? {
        DropBoth(ref, target, a);
        return Invalid;
      }
      // The server panics on a deleted parent of a file that is not deleted.
      ParentNotDeleted(s, h, rank, depth, ref);
      assert !s.refs[s.refs[ref].parent.value].deleted;
      LastingHasName(s, h, rank, depth, ref);
      var n, oldName := ParentNode(s, ref), NameFor(s, ref);
      if n == s.refs[target].node && oldName == name {
        DropBoth(ref, target, a);
        return Done;
      }
      if !ok {
        DropBoth(ref, target, a);
        return Refused;
      }
      MoveReady(a, s, h, rank, depth, n, oldName, target, name);
      ghost var b := s;
      RenameChildTo(n, oldName, target, name, h);
      ghost var c := s;
      RenameSize(b, old(rank), n, oldName, target, name, c);
      EndRename(ref, target);
      RenamedThenCloses(b, old(rank), n, oldName, target, name, c, s);
      RenamedFrom(a, b, old(rank), n, oldName, target, name, s);
      return Done;
    }

    method Trenameat(oldDir: Fid, oldName: string, newDir: Fid, newName: string, ok: bool) returns (reply: Reply)
      requires Valid()
      requires ok && CanRenameAt(s, oldDir, oldName, newDir, newName) ==>
                 MovesOutOf(s, rank, s.refs[s.fids[oldDir]].node, oldName, s.fids[newDir])
      modifies this
      ensures Valid()
      ensures reply.Done? <==> CanRenameAt(old(s), oldDir, oldName, newDir, newName) &&
                               (ok || SameEntry(old(s), oldDir, oldName, newDir, newName))
      ensures reply.Done? ==>
                if SameEntry(old(s), oldDir, oldName, newDir, newName) then s == old(s)
                else EntryRenamed(old(s), old(rank), old(s).fids[oldDir], oldName, old(s).fids[newDir], newName, s)
      ensures !reply.Done? ==> s == old(s)
    {
      hide Good, OnlyCloses, Renamed, Below;
      if !SafeName(oldName) || !SafeName(newName) {
        return Invalid;
      }
      ghost var a := s;
      var found, ref, target := LookupBoth(oldDir, newDir);
      if !found {
        return BadFid;
      }
      ghost var h := Holding(Holding(NO_HANDS, ref), target);
      if s.refs[ref].deleted || !s.refs[ref].mode.Directory? || s.refs[target].deleted
         || !s.refs[target].mode.Directory? || s.refs[ref].open {
        DropBoth(ref, target, a);
        return Invalid;
      }
      var n := s.refs[ref].node;
      if n == s.refs[target].node && oldName == newName {
        DropBoth(ref, target, a);
        return Done;
      }
      if !ok {
        DropBoth(ref, target, a);
        return Refused;
      }
      MoveReady(a, s, h, rank, depth, n, oldName, target, newName);
      ghost var b := s;
      RenameChildTo(n, oldName, target, newName, h);
      ghost var c := s;
      RenameSize(b, old(rank), n, oldName, target, newName, c);
      EndRename(ref, target);
      RenamedThenCloses(b, old(rank), n, oldName, target, newName, c, s);
      RenamedFrom(a, b, old(rank), n, oldName, target, newName, s);
      return Done;
    }

    method Tlopen(fid: Fid, readOnly: bool, truncate: bool, ok: bool) returns (reply: Reply)
      requires Valid()
      modifies this`s
      ensures Valid()
      ensures reply.Done? <==> ok && CanOpen(old(s), fid, readOnly, truncate)
      ensures s == if reply.Done? then Opening(old(s), old(s).fids[fid]) else old(s)
    {
      hide Good;
      ghost var a := s;
      var looked := LookupFID(fid, NO_HANDS);
      if looked.None? {
        return BadFid;
      }
      var ref := looked.value;
      assert Holding(NO_HANDS, ref).(young := NO_HANDS.young - {ref}) == Holding(NO_HANDS, ref);
      LiveCounts(a, NO_HANDS, rank, depth, ref);
      CountsBack(a, ref);
      reply := Invalid;
      if !s.refs[ref].deleted && !s.refs[ref].open && !s.refs[ref].mode.Other? {
        if !s.refs[ref].mode.Directory? || (readOnly && !truncate) {
          reply := if ok then Done else Refused;
        }
      }
      if reply.Done? {
        OpenKeeps(s, Holding(NO_HANDS, ref), ref, rank, depth);
        s := Opening(s, ref);
      }
      Drop(ref, NO_HANDS);
      assert reply.Done? ==> s == Opening(a, ref);
    }

    /** Drops all FIDs of a connection. */
    method Stop(conn: nat)
      requires Valid()
      modifies this`s
      ensures Valid() && OnlyCloses(old(s).(fids := OtherFids(old(s).fids, conn)), s)
    {
      hide Good, OnlyCloses;
      ghost var a := s;
      var todo := set f | f in s.fids && f.conn == conn;
      CountsCloseGood(s, NO_HANDS, rank, depth);
      while todo != {}
        invariant Valid() && OnlyCloses(a.(fids := s.fids), s)
        invariant forall f :: f in todo ==> f.conn == conn
        invariant forall f :: f in s.fids <==> f in a.fids && (f.conn == conn ==> f in todo)
        invariant forall f :: f in s.fids ==> s.fids[f] == a.fids[f]
        decreases |todo|
      {
        var f :| f in todo;
        ghost var b := s;
        var gone := DeleteFID(f, NO_HANDS);
        ClosingSize(b.(fids := b.fids - {f}), s);
        ClosesWithFids(a.(fids := b.fids), b, b.fids - {f});
        OnlyClosesTwice(a.(fids := b.fids - {f}), b.(fids := b.fids - {f}), s);
        todo := todo - {f};
      }
      assert s.fids == OtherFids(a.fids, conn);
    }

    /** One message. The reply says whether it succeeded. */
    method Handle(m: Request, renames: Renames) returns (ok: bool)
      requires Valid() && RefusesLoops(renames)
      modifies this
      ensures Valid() && ok == Succeeds(m, renames, old(s)) && Handled(m, renames, old(s), old(rank), s)
    {
      hide Good, RefusesLoops, MovesOut, MovesOutOf, OnlyCloses, Grown, Unlinked, Renamed, Walked, CloneOf;
      match m
      case Attach(fid, names, attached, answers) =>
        ghost var root;
        ok, root := Tattach(fid, names, attached, answers);
        assert !ok ==> old(s).(fids := s.fids) == old(s);
      case Walk(fid, newFid, names, answers) =>
        FidsInRange(s, rank, depth);
        ok := Twalk(fid, newFid, names, answers);
        assert !ok ==> old(s).(fids := s.fids) == old(s);
      case Clunk(fid) =>
        ok := Tclunk(fid);
      case Open(fid, readOnly, truncate, answer) =>
        var reply := Tlopen(fid, readOnly, truncate, answer);
        ok := reply.Done?;
      case Create(fid, name, answer) =>
        var reply := Tlcreate(fid, name, answer);
        ok := reply.Done?;
      case Remove(fid, answer) =>
        var reply := Tremove(fid, answer);
        ok := reply.Done?;
      case Unlink(fid, name, answer) =>
        var reply := Tunlinkat(fid, name, answer);
        ok := reply.Done?;
      case Rename(fid, dir, name) =>
        RenameAllowed(s, rank, depth, m, renames);
        var reply := Trename(fid, dir, name, renames(s, m));
        ok := reply.Done?;
      case RenameAt(fid, name, dir, newName) =>
        RenameAllowed(s, rank, depth, m, renames);
        var reply := Trenameat(fid, name, dir, newName, renames(s, m));
        ok := reply.Done?;
      case Hangup(conn) =>
        Stop(conn);
        ok := true;
    }

    ghost function Now(): Snapshot
      reads this
    {
      Snapshot(s, rank, depth)
    }

    /** Any messages, one after the other: each does what it says, and between any
        two of them the state is sound. */
    method Serve(messages: seq<Request>, renames: Renames) returns (replies: seq<bool>, ghost run: seq<Snapshot>)
      requires Valid() && RefusesLoops(renames)
      modifies this
      ensures Valid() && |replies| == |messages| && |run| == |messages| + 1
      ensures run[0] == old(Now()) && run[|messages|] == Now()
      ensures forall i :: 0 <= i < |run| ==> Sound(run[i])
      ensures forall i :: 0 <= i < |messages| ==> Step(messages[i], renames, run[i], replies[i], run[i + 1])
      ensures NamesSafe(old(s)) ==> forall i :: 0 <= i < |run| ==> StaysInside(run[i])
      ensures Treelike(old(s)) ==> forall i :: 0 <= i < |run| ==> Treelike(run[i].s)
    {
      hide Good, RefusesLoops, Handled, Succeeds, Sound, NamesSafe, Step, StaysInside, Treelike;
      SoundNow(s, rank, depth);
      if NamesSafe(s) { SoundStaysInside(Now()); }
      replies, run := [], [Now()];
      for i := 0 to |messages|
        invariant Valid() && |replies| == i && |run| == i + 1 && run[0] == old(Now()) && run[i] == Now()
        invariant forall j :: 0 <= j < |run| ==> Sound(run[j])
        invariant forall j :: 0 <= j < i ==> Step(messages[j], renames, run[j], replies[j], run[j + 1])
        invariant NamesSafe(old(s)) ==> NamesSafe(s) && forall j :: 0 <= j < |run| ==> StaysInside(run[j])
        invariant Treelike(old(s)) ==> Treelike(s) && forall j :: 0 <= j < |run| ==> Treelike(run[j].s)
      {
        ghost var x := Now();
        var ok := Handle(messages[i], renames);
        ghost var y := Now();
        SoundNow(s, rank, depth);
        assert Step(messages[i], renames, x, ok, y) by { StepOf(messages[i], renames, x, ok, y); }
        if NamesSafe(x.s) {
          MessageKeepsNamesSafe(messages[i], renames, x, ok, y);
          SoundStaysInside(y);
        }
        if Treelike(x.s) { MessageKeepsTree(messages[i], renames, x, ok, y); }
        replies, run := replies + [ok], run + [y];
      }
    }
  }
}
