/** The references of the 9P server: what is kept of counts, parents, names and
    deletion while a handler runs and between handlers. */
module FidState {
  import opened Words
  import opened PathNodes

  /** A FID of one connection. */
  datatype Fid = Fid(conn: nat, number: nat)

  datatype Mode = Directory | Openable | Other

  /** Closed counts the calls of the backend file's Close. */
  datatype FidRef = FidRef(count: int, parent: Option<RefId>, node: NodeId, mode: Mode, open: bool, deleted: bool,
                           closed: nat)

  datatype State = State(refs: seq<FidRef>, nodes: seq<PathNode>, fids: map<Fid, RefId>)

  /** What the running handler has in hand. Held: the references it owns. Loose:
      references that do not count at their parent for now. Unplaced: references
      without a place in the path tree for now. Young: new references whose count
      is still zero. */
  datatype Hands = Hands(held: multiset<RefId>, loose: set<RefId>, unplaced: set<RefId>, young: set<RefId>)

  const NO_HANDS := Hands(multiset{}, {}, {}, {})

  predicate Live(s: State, r: RefId) { r < |s.refs| && s.refs[r].closed == 0 }

  // ---- Counts --------------------------------------------------------------

  ghost predicate IsChild(s: State, h: Hands, c: RefId, r: RefId) {
    Live(s, c) && s.refs[c].parent == Some(r) && c !in h.loose
  }

  ghost function FidsOf(s: State, r: RefId): set<Fid> { set f | f in s.fids && s.fids[f] == r }

  ghost function ChildrenOf(s: State, h: Hands, r: RefId): set<RefId> {
    set c: nat | c < |s.refs| && IsChild(s, h, c, r)
  }

  /** The uses of a reference: FIDs, live children, and what the handler holds. */
  ghost function Uses(s: State, h: Hands, r: RefId): nat {
    |FidsOf(s, r)| + |ChildrenOf(s, h, r)| + h.held[r]
  }

  ghost predicate Counted(s: State, h: Hands) {
    forall r :: 0 <= r < |s.refs| ==> s.refs[r].count == Uses(s, h, r)
  }

  /** A file is closed once, and exactly when its count is back at zero. */
  ghost predicate ClosedOnce(s: State, h: Hands) {
    forall r :: 0 <= r < |s.refs| ==>
      && s.refs[r].closed <= 1
      && (s.refs[r].closed == 1 ==> s.refs[r].count == 0)
      && (s.refs[r].closed == 0 ==> s.refs[r].count > 0 || r in h.young)
  }

  // ---- Names and places ----------------------------------------------------

  ghost predicate InRange(s: State, h: Hands) {
    && |s.nodes| > 0
    && (forall r :: 0 <= r < |s.refs| ==> s.refs[r].node < |s.nodes|)
    && (forall r :: 0 <= r < |s.refs| && s.refs[r].parent.Some? ==> s.refs[r].parent.value < |s.refs|)
    && (forall f :: f in s.fids ==> s.fids[f] < |s.refs|)
    && (forall r :: r in h.held ==> r < |s.refs|)
  }

  ghost predicate AllMatched(s: State) { forall n :: 0 <= n < |s.nodes| ==> s.nodes[n].Matched() }

  ghost predicate Named(s: State, h: Hands) {
    forall n, r :: 0 <= n < |s.nodes| && r in s.nodes[n].childRefNames ==> NamedAt(s, h, n, r)
  }

  /** What has a name in a node is a live child of a reference to that node. */
  ghost predicate NamedAt(s: State, h: Hands, n: NodeId, r: RefId) {
    && Live(s, r) && r !in h.loose && s.refs[r].parent.Some?
    && s.refs[r].parent.value < |s.refs| && s.refs[s.refs[r].parent.value].node == n
  }

  ghost predicate Placed(s: State, h: Hands) {
    forall r :: 0 <= r < |s.refs| && Lasting(s, r) && r !in h.loose && r !in h.unplaced ==> PlacedAt(s, r)
  }

  /** A live file that is no root and not deleted. */
  predicate Lasting(s: State, r: RefId) {
    Live(s, r) && !s.refs[r].deleted && s.refs[r].parent.Some?
  }

  /** The reference has a name in its parent's node, and that name leads to its
      own node. */
  ghost predicate PlacedAt(s: State, r: RefId)
    requires r < |s.refs| && s.refs[r].parent.Some?
  {
    var p := s.refs[r].parent.value;
    && p < |s.refs| && s.refs[p].node < |s.nodes|
    && var pn := s.nodes[s.refs[p].node];
       r in pn.childRefNames && pn.childRefNames[r] in pn.childNodes
       && pn.childNodes[pn.childRefNames[r]] == s.refs[r].node
  }

  /** The path nodes form no cycle. */
  ghost predicate Ranked(nodes: seq<PathNode>, rank: seq<nat>) {
    && |rank| == |nodes|
    && forall n, name :: 0 <= n < |nodes| && name in nodes[n].childNodes ==>
         nodes[n].childNodes[name] < |nodes| && rank[nodes[n].childNodes[name]] < rank[n]
  }

  /** Below a deleted file everything is deleted, and no reference is its own
      ancestor. */
  ghost predicate Tidy(s: State, h: Hands, depth: seq<nat>) {
    && |depth| == |s.refs|
    && forall r :: 0 <= r < |s.refs| && Live(s, r) && s.refs[r].parent.Some? && r !in h.loose ==>
         var p := s.refs[r].parent.value;
         p < |s.refs| && depth[p] < depth[r] && (s.refs[p].deleted ==> s.refs[r].deleted)
  }

  ghost predicate Inv(s: State, h: Hands) {
    Counted(s, h) && ClosedOnce(s, h) && InRange(s, h) && AllMatched(s) && Named(s, h) && Placed(s, h)
  }

  ghost predicate Good(s: State, h: Hands, rank: seq<nat>, depth: seq<nat>) {
    Inv(s, h) && Ranked(s.nodes, rank) && Tidy(s, h, depth)
  }

  // ---- What follows --------------------------------------------------------

  /** The parent of a live reference is live. */
  lemma ParentLives(s: State, h: Hands, c: RefId)
    requires Inv(s, h) && Live(s, c) && c !in h.loose && s.refs[c].parent.Some?
    ensures Live(s, s.refs[c].parent.value)
  {
    var p := s.refs[c].parent.value;
    assert c in ChildrenOf(s, h, p);
  }

  lemma HeldLives(s: State, h: Hands, r: RefId)
    requires Inv(s, h) && r in h.held
    ensures Live(s, r)
  {
  }

  lemma FidLives(s: State, h: Hands, f: Fid)
    requires Inv(s, h) && f in s.fids
    ensures Live(s, s.fids[f])
  {
    assert f in FidsOf(s, s.fids[f]);
  }

  // ---- Counting lemmas -----------------------------------------------------

  function One(b: bool): nat { if b then 1 else 0 }

  lemma SizeWithout<T>(a: set<T>, x: T)
    ensures |a| == |a - {x}| + One(x in a)
  {
    if x in a {
      assert a == (a - {x}) + {x};
    } else {
      assert a == a - {x};
    }
  }

  lemma SizesDiffer<T>(a: set<T>, b: set<T>, x: T)
    requires forall y :: y != x ==> (y in a <==> y in b)
    ensures |b| + One(x in a) == |a| + One(x in b)
  {
    assert a - {x} == b - {x};
    SizeWithout(a, x);
    SizeWithout(b, x);
  }

  lemma FidsAfter(s: State, s': State, f: Fid, r: RefId)
    requires forall g :: g != f ==> (g in s.fids <==> g in s'.fids) && (g in s.fids ==> s.fids[g] == s'.fids[g])
    ensures |FidsOf(s', r)| + One(f in s.fids && s.fids[f] == r)
         == |FidsOf(s, r)| + One(f in s'.fids && s'.fids[f] == r)
  {
    SizesDiffer(FidsOf(s, r), FidsOf(s', r), f);
  }

  lemma ChildrenAfter(s: State, h: Hands, s': State, h': Hands, c: RefId, r: RefId)
    requires forall x: nat :: x != c ==> (IsChild(s, h, x, r) <==> IsChild(s', h', x, r))
    ensures |ChildrenOf(s', h', r)| + One(IsChild(s, h, c, r)) == |ChildrenOf(s, h, r)| + One(IsChild(s', h', c, r))
  {
    var a, b := ChildrenOf(s, h, r), ChildrenOf(s', h', r);
    assert forall x: nat :: x in a <==> IsChild(s, h, x, r);
    assert forall x: nat :: x in b <==> IsChild(s', h', x, r);
    SizesDiffer(a, b, c);
  }
}
