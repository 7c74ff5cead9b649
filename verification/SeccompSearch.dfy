/** The search tree's code: exactly what it computes for every call number, and
    when that is what the rule sets say. */
module SeccompSearch {
  import opened Words
  import opened Bpf
  import opened ProgramBuilders
  import opened LabelledCode
  import opened SeccompRules
  import opened SeccompCode
  import opened SeccompExec

  function Size(n: Tree): nat { if n.Nil? then 1 else 1 + Size(n.left) + Size(n.right) }

  function TotalSize(trees: seq<Tree>): nat {
    if trees == [] then 0 else Size(trees[0]) + TotalSize(trees[1..])
  }

  lemma ChildrenAreSmaller(l: Tree, v: u64, r: Tree, rest: seq<Tree>)
    ensures TotalSize([l, r] + rest) < TotalSize([Node(l, v, r)] + rest)
    ensures TotalSize([r] + rest) < TotalSize([Node(l, v, r)] + rest)
  {
    assert ([l, r] + rest)[1..] == [r] + rest;
    assert ([r] + rest)[1..] == rest;
    assert ([Node(l, v, r)] + rest)[1..] == rest;
  }

  /** What the code of a list of subtrees, laid out one after the other, returns
      when it is entered at its start with key in A. A call that is listed but
      matched by nothing gets the default action, unless its last rule set is a
      blanket one behind a vsyscall check: then the run falls through into the
      next subtree, with the high word of the instruction pointer as the key. */
  function Search(sets: seq<RuleSet>, trees: seq<Tree>, key: u32, d: SeccompData, defaultAction: u32): u32
    decreases TotalSize(trees)
  {
    if trees == [] then defaultAction
    else if trees[0].Nil? then Search(sets, trees[1..], key, d, defaultAction)
    else
      var Node(l, v, r) := trees[0];
      assert trees == [Node(l, v, r)] + trees[1..];
      ChildrenAreSmaller(l, v, r, trees[1..]);
      if key == Number(v) then
        match Decide(sets, v, d, 0)
        case Some(action) => action
        case None =>
          if Emitted(sets, 0, v) then Search(sets, [l, r] + trees[1..], Word(d, OFFSET_IP_HIGH), d, defaultAction)
          else defaultAction
      else if key > Number(v) then
        if r.Nil? then defaultAction else Search(sets, [r] + trees[1..], key, d, defaultAction)
      else
        if l.Nil? then defaultAction else Search(sets, [l, r] + trees[1..], key, d, defaultAction)
  }

  function TreesCode(sets: seq<RuleSet>, trees: seq<Tree>): Code {
    if trees == [] then [] else TreeCode(sets, trees[0], false) + TreesCode(sets, trees[1..])
  }

  /** The code that follows every subtree: the default action. */
  predicate DefaultAt(t: Code, e: nat, defaultAction: u32) {
    e + 1 < |t| && t[e] == Mark(DefaultAction) && t[e + 1] == RetK(defaultAction)
  }

  lemma DefaultRuns(t: Code, e: nat, defaultAction: u32, d: SeccompData, m: Machine)
    requires DefaultAt(t, e, defaultAction)
    ensures Go(t, e, d, m) == Some(defaultAction)
  {
    AtMark(t, e, d, m);
    AtRet(t, e + 1, defaultAction, d, m);
  }

  // ----- one node -----

  lemma AtTurn(t: Code, k: nat, c: u32, d: SeccompData, m: Machine)
    requires k + 2 < |t| && t[k] == Plain(Jump(JGT_K, c, 0, 1)) && !t[k + 1].Mark?
    ensures Go(t, k, d, m) == Go(t, if m.a > c then k + 1 else k + 2, d, m)
  {
    var i := Jump(JGT_K, c, 0, 1);
    TestIsCondition(JGT_K, c, m);
    ConditionalStep(i, In(d), m, Line(t, k));
    hide Step;
    assert Skip(t, k + 1, 0) == k + 1;
    assert Skip(t, k + 1, 1) == Skip(t, k + 2, 0) == k + 2;
  }

  /** The label of n is marked at position p. */
  predicate LabelAt(t: Code, n: Tree, p: nat) { p < |t| && t[p] == Mark(NodeLabel(n)) }

  lemma TurnRuns(t: Code, k: nat, n: Tree, pl: nat, pr: nat, d: SeccompData, m: Machine)
    requires n.Node? && Unique(t) && At(t, k, TurnCode(n))
    requires LabelAt(t, n.left, pl) && LabelAt(t, n.right, pr)
    requires var c := k + |TurnCode(n)|; c < pl && c < pr && t[c] == Mark(CheckArgs(n.value))
    ensures Go(t, k, d, m) == Go(t, if m.a == Number(n.value) then k + |TurnCode(n)|
                                    else if m.a > Number(n.value) then pr else pl, d, m)
  {
    var f := TurnCode(n);
    assert t[k + 0] == f[0] && t[k + 1] == f[1];
    var v := Number(n.value);
    hide Go, Number;
    AtTrue(t, k, JEQ_K, v, CheckArgs(n.value), k + |f|, d, m);
    if n.left.Nil? && n.right.Nil? {
      FindMark(t, 0, DefaultAction, pl);
      FindMark(t, 0, DefaultAction, pr);
      hide Unique;
      AtDirect(t, k + 1, DefaultAction, pl, d, m);
    } else {
      assert t[k + 2] == f[2] && t[k + 3] == f[3];
      hide Unique;
      AtTurn(t, k + 1, v, d, m);
      AtDirect(t, k + 2, NodeLabel(n.right), pr, d, m);
      AtDirect(t, k + 3, NodeLabel(n.left), pl, d, m);
    }
  }

  /** The rule lists a node's code is built from raise no error. */
  ghost predicate Clean(sets: seq<RuleSet>, v: u64) {
    (forall i :: 0 <= i < |sets| ==> KnownSet(sets[i], v)) && Reachable(sets, 0, v)
  }

  lemma ChecksRun(t: Code, k: nat, sets: seq<RuleSet>, v: u64, e: nat, defaultAction: u32, d: SeccompData, m: Machine)
    requires Unique(t) && At(t, k, ChecksCode(sets, v)) && Clean(sets, v)
    requires DefaultAt(t, e, defaultAction) && k + |ChecksCode(sets, v)| <= e
    ensures var r := Decide(sets, v, d, 0); var n := k + |ChecksCode(sets, v)|;
            Go(t, k, d, m) == if r.Some? then r
                              else if Emitted(sets, 0, v) then Go(t, n, d, m.(a := Word(d, OFFSET_IP_HIGH)))
                              else Some(defaultAction)
  {
    hide Go, SetsCode, Decide, Emitted, Unique, Known, KnownSet, Reachable, Word;
    var mark, f := [Mark(CheckArgs(v))], SetsCode(sets, 0, v);
    var tail := if Emitted(sets, 0, v) then [] else [Direct(DefaultAction)];
    AtSplit(t, k, mark + f, tail);
    AtSplit(t, k, mark, f);
    assert t[k + 0] == mark[0];
    AtMark(t, k, d, m);
    var a := SetsRun(t, k + 1, sets, 0, v, d, m);
    var n := k + 1 + |f|;
    if !Emitted(sets, 0, v) {
      assert t[n + 0] == tail[0];
      AtDirect(t, n, DefaultAction, e, d, m.(a := a));
      DefaultRuns(t, e, defaultAction, d, m.(a := a));
    }
  }

  // ----- the tree -----

  ghost predicate AllClean(sets: seq<RuleSet>, n: Tree) {
    n.Node? ==> Clean(sets, n.value) && AllClean(sets, n.left) && AllClean(sets, n.right)
  }

  ghost predicate TreesClean(sets: seq<RuleSet>, trees: seq<Tree>) {
    forall i :: 0 <= i < |trees| ==> AllClean(sets, trees[i])
  }

  lemma ChecksStart(t: Code, k: nat, sets: seq<RuleSet>, v: u64)
    requires At(t, k, ChecksCode(sets, v))
    ensures k < k + |ChecksCode(sets, v)| <= |t| && t[k] == Mark(CheckArgs(v))
  {
    var g := ChecksCode(sets, v);
    assert t[k + 0] == g[0];
  }

  /** A node's body followed by the rest of its subtrees. */
  lemma BodyRuns(t: Code, k: nat, sets: seq<RuleSet>, n: Tree, pl: nat, pr: nat, e: nat, defaultAction: u32,
                 d: SeccompData, m: Machine)
    requires n.Node? && Unique(t) && At(t, k, BodyCode(sets, n)) && Clean(sets, n.value)
    requires LabelAt(t, n.left, pl) && LabelAt(t, n.right, pr) && DefaultAt(t, e, defaultAction)
    requires var next := k + |BodyCode(sets, n)|; next <= pl && next <= pr && next <= e
    ensures var r := Decide(sets, n.value, d, 0); var next := k + |BodyCode(sets, n)|;
            Go(t, k, d, m) ==
              if m.a == Number(n.value) then
                if r.Some? then r
                else if Emitted(sets, 0, n.value) then Go(t, next, d, m.(a := Word(d, OFFSET_IP_HIGH)))
                else Some(defaultAction)
              else Go(t, if m.a > Number(n.value) then pr else pl, d, m)
  {
    hide Go, TurnCode, ChecksCode, Decide, Emitted, Unique, Clean, At, Word, Number;
    var f, g := TurnCode(n), ChecksCode(sets, n.value);
    AtSplit(t, k, f, g);
    ChecksStart(t, k + |f|, sets, n.value);
    TurnRuns(t, k, n, pl, pr, d, m);
    ChecksRun(t, k + |f|, sets, n.value, e, defaultAction, d, m);
  }

  /** Where a subtree's label stands: at the start of its code, or at the default
      action when it is empty. */
  function Entry(n: Tree, k: nat, e: nat): nat { if n.Nil? then e else k }

  lemma EntryAt(t: Code, k: nat, sets: seq<RuleSet>, n: Tree, e: nat, defaultAction: u32)
    requires At(t, k, TreeCode(sets, n, false)) && DefaultAt(t, e, defaultAction)
    ensures LabelAt(t, n, Entry(n, k, e))
  {
    if n.Node? {
      var f := TreeCode(sets, n, false);
      assert f[0] == Mark(Index(n.value)) && t[k + 0] == f[0];
    }
  }

  /** Where the parts of a node's code, and of what follows it, stand. */
  lemma NodeLayout(t: Code, k: nat, sets: seq<RuleSet>, n: Tree, rest: seq<Tree>, e: nat, defaultAction: u32)
    requires n.Node? && At(t, k, BodyCode(sets, n) + TreesCode(sets, [n.left, n.right] + rest))
    requires e == k + |BodyCode(sets, n) + TreesCode(sets, [n.left, n.right] + rest)| && DefaultAt(t, e, defaultAction)
    ensures var kl := k + |BodyCode(sets, n)|; var kr := kl + |TreeCode(sets, n.left, false)|;
            && At(t, k, BodyCode(sets, n))
            && At(t, kl, TreesCode(sets, [n.left, n.right] + rest))
            && At(t, kr, TreesCode(sets, [n.right] + rest))
            && kl + |TreesCode(sets, [n.left, n.right] + rest)| == e == kr + |TreesCode(sets, [n.right] + rest)|
            && LabelAt(t, n.left, Entry(n.left, kl, e)) && LabelAt(t, n.right, Entry(n.right, kr, e))
  {
    hide BodyCode, TreeCode, At, LabelAt, Entry;
    var f, below := BodyCode(sets, n), [n.left, n.right] + rest;
    var kl := k + |f|;
    var kr := kl + |TreeCode(sets, n.left, false)|;
    AtSplit(t, k, f, TreesCode(sets, below));
    assert below[1..] == [n.right] + rest && below[0] == n.left;
    AtSplit(t, kl, TreeCode(sets, n.left, false), TreesCode(sets, [n.right] + rest));
    assert ([n.right] + rest)[1..] == rest && ([n.right] + rest)[0] == n.right;
    AtSplit(t, kr, TreeCode(sets, n.right, false), TreesCode(sets, rest));
    EntryAt(t, kl, sets, n.left, e, defaultAction);
    EntryAt(t, kr, sets, n.right, e, defaultAction);
  }

  /** The body of a node and what follows it, entered with its key in A. */
  lemma {:induction false} NodeRuns(t: Code, k: nat, sets: seq<RuleSet>, n: Tree, rest: seq<Tree>, defaultAction: u32,
                                    d: SeccompData, m: Machine)
    requires n.Node? && Unique(t) && AllClean(sets, n) && TreesClean(sets, rest)
    requires At(t, k, BodyCode(sets, n) + TreesCode(sets, [n.left, n.right] + rest))
    requires DefaultAt(t, k + |BodyCode(sets, n) + TreesCode(sets, [n.left, n.right] + rest)|, defaultAction)
    ensures Go(t, k, d, m) == Some(Search(sets, [n] + rest, m.a, d, defaultAction))
    decreases TotalSize([n] + rest), 0
  {
    hide Go, BodyCode, TreeCode, TreesCode, Decide, Emitted, Unique, Clean, At, Word, Number;
    var below, last := [n.left, n.right] + rest, [n.right] + rest;
    var e := k + |BodyCode(sets, n) + TreesCode(sets, below)|;
    var kl := k + |BodyCode(sets, n)|;
    var kr := kl + |TreeCode(sets, n.left, false)|;
    NodeLayout(t, k, sets, n, rest, e, defaultAction);
    ChildrenAreSmaller(n.left, n.value, n.right, rest);
    assert TreesClean(sets, below) && TreesClean(sets, last);
    assert ([n] + rest)[1..] == rest && ([n] + rest)[0] == n;
    BodyRuns(t, k, sets, n, Entry(n.left, kl, e), Entry(n.right, kr, e), e, defaultAction, d, m);
    TreesRun(t, kl, sets, below, defaultAction, d, m);
    TreesRun(t, kl, sets, below, defaultAction, d, m.(a := Word(d, OFFSET_IP_HIGH)));
    TreesRun(t, kr, sets, last, defaultAction, d, m);
    DefaultRuns(t, e, defaultAction, d, m);
  }

  /** The code of a list of subtrees computes Search. */
  lemma {:induction false} TreesRun(t: Code, k: nat, sets: seq<RuleSet>, trees: seq<Tree>, defaultAction: u32,
                                    d: SeccompData, m: Machine)
    requires Unique(t) && At(t, k, TreesCode(sets, trees)) && TreesClean(sets, trees)
    requires DefaultAt(t, k + |TreesCode(sets, trees)|, defaultAction)
    ensures Go(t, k, d, m) == Some(Search(sets, trees, m.a, d, defaultAction))
    decreases TotalSize(trees), 1
  {
    if trees == [] {
      DefaultRuns(t, k, defaultAction, d, m);
    } else if trees[0].Nil? {
      assert TreesCode(sets, trees) == TreesCode(sets, trees[1..]);
      TreesRun(t, k, sets, trees[1..], defaultAction, d, m);
    } else {
      var n, rest := trees[0], trees[1..];
      assert trees == [n] + rest;
      var mark := [Mark(Index(n.value))];
      var g := BodyCode(sets, n) + TreesCode(sets, [n.left, n.right] + rest);
      TreesCodeUnfolds(sets, n, rest);
      AtSplit(t, k, mark, g);
      assert t[k + 0] == mark[0];
      hide Go, BodyCode, TreeCode, At;
      AtMark(t, k, d, m);
      NodeRuns(t, k + 1, sets, n, rest, defaultAction, d, m);
    }
  }

  lemma TreesCodeUnfolds(sets: seq<RuleSet>, n: Tree, rest: seq<Tree>)
    requires n.Node?
    ensures TreesCode(sets, [n] + rest)
         == [Mark(Index(n.value))] + (BodyCode(sets, n) + TreesCode(sets, [n.left, n.right] + rest))
  {
    hide BodyCode;
    assert ([n] + rest)[1..] == rest;
    assert ([n.left, n.right] + rest)[1..] == [n.right] + rest;
    assert ([n.right] + rest)[1..] == rest;
  }
}
