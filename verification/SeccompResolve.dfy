/** When the labels of the emitted code can be resolved, told from the rule sets
    alone: whether BuildProgram succeeds. */
module SeccompResolve {
  import opened Words
  import opened Bpf
  import opened ProgramBuilders
  import opened LabelledCode
  import opened SeccompRules
  import opened SeccompCode
  import opened SeccompExec
  import opened SeccompLabels
  import opened SeccompFilter

  // ----- how many instructions the rules take -----

  /** The instructions that check one entry. */
  function EntryLines(arg: ArgRule): nat {
    match arg
    case NoRule => 0
    case MatchAny => 0
    case EqualTo(_) => 4
    case NotEqual(_) => 4
    case GreaterThan(_) => 5
    case GreaterThanOrEqual(_) => 5
    case LessThan(_) => 5
    case LessThanOrEqual(_) => 5
    case MaskedEqual(_, _) => 6
    case Unknown => 0
  }

  /** Entries i and up. */
  function EntriesLines(r: Rule, i: nat): nat
    requires i <= RULE_SIZE
    decreases RULE_SIZE - i
  {
    if i == RULE_SIZE then 0 else EntryLines(r[i]) + EntriesLines(r, i + 1)
  }

  /** Rules j and up, each with its return. */
  function RulesLines(rules: seq<Rule>, j: nat): nat
    requires j <= |rules|
    decreases |rules| - j
  {
    if j == |rules| then 0 else EntriesLines(rules[j], 0) + 1 + RulesLines(rules, j + 1)
  }

  /** The jump over a call's rules, made when the vsyscall check fails, fits. */
  predicate Short(rs: RuleSet, sysno: u64) {
    rs.vsyscall && sysno in rs.rules ==> RulesLines(rs.rules[sysno], 0) <= LABEL_TARGET
  }

  predicate ShortCall(sets: seq<RuleSet>, j: nat, sysno: u64) {
    forall i :: j <= i < |sets| ==> Short(sets[i], sysno)
  }

  ghost predicate ShortSets(sets: seq<RuleSet>) {
    forall x :: x in Syscalls(sets) ==> ShortCall(sets, 0, x)
  }

  // ----- references and marks -----

  function Lines(f: Code): nat { Line(f, |f|) }

  lemma {:induction false} LineConcat(f: Code, g: Code, k: nat)
    requires k <= |f| + |g|
    ensures Line(f + g, k) == if k <= |f| then Line(f, k) else Lines(f) + Line(g, k - |f|)
  {
    if k > 0 {
      LineConcat(f, g, k - 1);
      assert (f + g)[k - 1] == if k <= |f| then f[k - 1] else g[k - 1 - |f|];
    }
  }

  lemma LinesConcat(f: Code, g: Code)
    ensures Lines(f + g) == Lines(f) + Lines(g)
  {
    LineConcat(f, g, |f| + |g|);
  }

  ghost predicate Marks(f: Code, k: nat, l: Label) { exists m :: k <= m < |f| && f[m] == Mark(l) }

  /** A reference leads to a later mark, or is one of those still open. */
  ghost predicate BoundRef(f: Code, k: nat, p: (Label, JmpType), direct: set<Label>, test: set<Label>) {
    p.0 in (if p.1 == JDirect then direct else test) || Marks(f, k, p.0)
  }

  ghost predicate Bound(f: Code, direct: set<Label>, test: set<Label>) {
    forall k, p :: 0 <= k < |f| && p in Refs(f[k]) ==> BoundRef(f, k, p, direct, test)
  }

  lemma BoundConcat(f: Code, g: Code, direct: set<Label>, test: set<Label>, direct2: set<Label>, test2: set<Label>)
    requires Bound(f, direct, test) && Bound(g, direct2, test2)
    requires forall l :: l in direct ==> l in direct2 || Marks(g, 0, l)
    requires forall l :: l in test ==> l in test2 || Marks(g, 0, l)
    ensures Bound(f + g, direct2, test2)
  {
    var h := f + g;
    forall k, p | 0 <= k < |h| && p in Refs(h[k]) ensures BoundRef(h, k, p, direct2, test2) {
      if k < |f| {
        assert BoundRef(f, k, p, direct, test);
        if Marks(f, k, p.0) {
          var m :| k <= m < |f| && f[m] == Mark(p.0);
          assert h[m] == f[m];
        } else if Marks(g, 0, p.0) {
          var m :| 0 <= m < |g| && g[m] == Mark(p.0);
          assert h[|f| + m] == g[m];
        }
      } else {
        assert BoundRef(g, k - |f|, p, direct2, test2);
        if Marks(g, k - |f|, p.0) {
          var m :| k - |f| <= m < |g| && g[m] == Mark(p.0);
          assert h[|f| + m] == g[m];
        }
      }
    }
  }

  /** Two fragments without open references of their own. */
  lemma BoundJoin(f: Code, g: Code)
    requires Bound(f, {}, {}) && Bound(g, {}, {})
    ensures Bound(f + g, {}, {})
  {
    hide Bound;
    BoundConcat(f, g, {}, {}, {}, {});
  }

  /** The item is a conditional jump to l. */
  predicate Tests(item: Item<Label>, l: Label) { (l, JTrue) in Refs(item) || (l, JFalse) in Refs(item) }

  ghost predicate NearPair(f: Code, k: nat, m: nat)
    requires k < m < |f|
  {
    f[m].Mark? && Tests(f[k], f[m].l) ==> Line(f, m) - Line(f, k) - 1 <= LABEL_TARGET
  }

  /** Every conditional jump reaches its label. */
  ghost predicate Near(f: Code) { forall k, m :: 0 <= k < m < |f| ==> NearPair(f, k, m) }

  lemma NearParts(f: Code, g: Code)
    requires Near(f + g)
    ensures Near(f) && Near(g)
  {
    var h := f + g;
    forall k, m | 0 <= k < m < |f| ensures NearPair(f, k, m) {
      assert h[k] == f[k] && h[m] == f[m] && NearPair(h, k, m);
      LineConcat(f, g, k);
      LineConcat(f, g, m);
    }
    forall k, m | 0 <= k < m < |g| ensures NearPair(g, k, m) {
      var k', m' := |f| + k, |f| + m;
      assert h[k'] == g[k] && h[m'] == g[m] && NearPair(h, k', m');
      LineConcat(f, g, k');
      LineConcat(f, g, m');
    }
  }

  lemma NearConcat(f: Code, g: Code, direct: set<Label>)
    requires Near(f) && Near(g) && Bound(f, direct, {}) && Unique(f + g)
    ensures Near(f + g)
  {
    var h := f + g;
    forall k, m | 0 <= k < m < |h| ensures NearPair(h, k, m) {
      LineConcat(f, g, k);
      LineConcat(f, g, m);
      if m < |f| {
        assert h[k] == f[k] && h[m] == f[m] && NearPair(f, k, m);
      } else if k >= |f| {
        assert h[k] == g[k - |f|] && h[m] == g[m - |f|] && NearPair(g, k - |f|, m - |f|);
      } else if h[m].Mark? && Tests(f[k], h[m].l) {
        NotMarkedTwice(f, g, k, m, direct);
      }
    }
  }

  lemma NotMarkedTwice(f: Code, g: Code, k: nat, m: nat, direct: set<Label>)
    requires Bound(f, direct, {}) && Unique(f + g) && k < |f| <= m < |f + g| && (f + g)[m].Mark?
    ensures !Tests(f[k], (f + g)[m].l)
  {
    var l := (f + g)[m].l;
    forall i | k <= i < |f| ensures f[i] != Mark(l) { assert (f + g)[i] == f[i]; }
    var p, q := (l, JTrue), (l, JFalse);
    assert !BoundRef(f, k, p, direct, {}) && !BoundRef(f, k, q, direct, {});
  }

  lemma NearIff(f: Code, g: Code, direct: set<Label>)
    requires Bound(f, direct, {}) && Unique(f + g)
    ensures Near(f + g) <==> Near(f) && Near(g)
  {
    hide Near, Bound, Unique;
    if Near(f + g) { NearParts(f, g); }
    if Near(f) && Near(g) { NearConcat(f, g, direct); }
  }

  /** No jump inside a short fragment is too long. */
  lemma ShortIsNear(f: Code)
    requires Lines(f) <= LABEL_TARGET + 1
    ensures Near(f)
  {
    forall k, m | 0 <= k < m < |f| ensures NearPair(f, k, m) { LineMonotone(f, m, |f|); }
  }

  /** A fragment without references. */
  lemma NoRefs(f: Code)
    requires forall k :: 0 <= k < |f| ==> f[k].Plain? || f[k].Mark?
    ensures Bound(f, {}, {}) && Near(f)
  {
    forall k, m | 0 <= k < m < |f| ensures NearPair(f, k, m) { assert Refs(f[k]) == []; }
  }

  // ----- rules -----

  lemma ArgBound(arg: ArgRule, i: nat, set_: nat, sysno: u64, rule: nat)
    requires i < RULE_SIZE
    ensures Bound(ArgCode(arg, i, set_, sysno, rule), {}, {RuleViolation(set_, sysno, rule)})
    ensures Lines(ArgCode(arg, i, set_, sysno, rule)) == EntryLines(arg)
  {
    hide Load, Mask, LowOffset, HighOffset;
    ArgLines(arg, i, set_, sysno, rule);
    var f, bad := ArgCode(arg, i, set_, sysno, rule), RuleViolation(set_, sysno, rule);
    if f != [] && f[|f| - 1].Mark? { assert Marks(f, |f| - 1, f[|f| - 1].l); }
    forall k, p | 0 <= k < |f| && p in Refs(f[k]) ensures BoundRef(f, k, p, {}, {bad}) {
      ArgRef(arg, i, set_, sysno, rule, k, p);
    }
  }

  lemma ArgRef(arg: ArgRule, i: nat, set_: nat, sysno: u64, rule: nat, k: nat, p: (Label, JmpType))
    requires i < RULE_SIZE
    requires var f := ArgCode(arg, i, set_, sysno, rule); k < |f| && p in Refs(f[k])
    ensures p.1 != JDirect
    ensures var f := ArgCode(arg, i, set_, sysno, rule);
            p.0 == RuleViolation(set_, sysno, rule) || f[|f| - 1] == Mark(p.0)
  {
  }

  lemma ArgLines(arg: ArgRule, i: nat, set_: nat, sysno: u64, rule: nat)
    requires i < RULE_SIZE
    ensures Lines(ArgCode(arg, i, set_, sysno, rule)) == EntryLines(arg)
  {
    var f := ArgCode(arg, i, set_, sysno, rule);
    var n := |f|;
    if n > 0 {
      assert Line(f, 1) == 1 && Line(f, 2) == 2 && Line(f, 3) == 3 && Line(f, 4) == 4;
      assert n >= 5 ==> Line(f, 5) == if f[4].Mark? then 4 else 5;
    }
  }

  lemma {:induction false} ArgsBound(r: Rule, i: nat, set_: nat, sysno: u64, rule: nat)
    requires i <= RULE_SIZE
    ensures var f := ArgsCode(r, i, set_, sysno, rule);
            && Bound(f, {}, {RuleViolation(set_, sysno, rule)}) && Lines(f) == EntriesLines(r, i) <= 6 * (RULE_SIZE - i)
            && (!Labelled(r, i) ==> f == [])
    decreases RULE_SIZE - i
  {
    hide ArgCode, Bound, Lines;
    var bad := RuleViolation(set_, sysno, rule);
    if i < RULE_SIZE {
      ArgBound(r[i], i, set_, sysno, rule);
      ArgsBound(r, i + 1, set_, sysno, rule);
      if Trivial(r[i]) { TrivialCode(r[i], i, set_, sysno, rule); }
      BoundConcat(ArgCode(r[i], i, set_, sysno, rule), ArgsCode(r, i + 1, set_, sysno, rule), {}, {bad}, {}, {bad});
      LinesConcat(ArgCode(r[i], i, set_, sysno, rule), ArgsCode(r, i + 1, set_, sysno, rule));
    } else {
      EmptyFragment({}, {bad});
    }
  }

  lemma EmptyFragment(direct: set<Label>, test: set<Label>)
    ensures Bound([], direct, test) && Lines([]) == 0 && Near([])
  {
  }

  lemma RuleBound(r: Rule, action: u32, set_: nat, sysno: u64, rule: nat)
    ensures var f := RuleCode(r, action, set_, sysno, rule);
            Bound(f, {}, {}) && Near(f) && Lines(f) == EntriesLines(r, 0) + 1
  {
    hide ArgsCode, Labelled, Bound, Near, RetK;
    var bad := RuleViolation(set_, sysno, rule);
    var f, ret, tail := ArgsCode(r, 0, set_, sysno, rule), [RetK(action)], if Labelled(r, 0) then [Mark(bad)] else [];
    ArgsBound(r, 0, set_, sysno, rule);
    OneLine(action);
    NoRefs(tail);
    BoundConcat(ret, tail, {}, {}, {}, {});
    if Labelled(r, 0) {
      assert (ret + tail)[1] == Mark(bad);
      assert Marks(ret + tail, 0, bad);
      BoundConcat(f, ret + tail, {}, {bad}, {}, {});
    } else {
      EmptyFragment({}, {});
      BoundConcat(f, ret + tail, {}, {}, {}, {});
    }
    assert f + (ret + tail) == f + ret + tail;
    assert Lines(tail) == 0;
    LinesConcat(f, ret);
    LinesConcat(f + ret, tail);
    ShortIsNear(f + ret + tail);
  }

  lemma OneLine(action: u32)
    ensures Lines([RetK(action)]) == 1 && Bound([RetK(action)], {}, {}) && Near([RetK(action)])
  {
    NoRefs([RetK(action)]);
    assert Line([RetK(action)], 0) == 0;
  }

  lemma {:induction false} RulesBound(rules: seq<Rule>, j: nat, action: u32, set_: nat, sysno: u64)
    requires j <= |rules|
    ensures var f := RulesCode(rules, j, action, set_, sysno);
            Bound(f, {}, {}) && Near(f) && Lines(f) == RulesLines(rules, j)
    decreases |rules| - j
  {
    hide RuleCode, Bound, Near, Lines, Unique;
    if j < |rules| {
      var f, g := RuleCode(rules[j], action, set_, sysno, j), RulesCode(rules, j + 1, action, set_, sysno);
      RuleBound(rules[j], action, set_, sysno, j);
      RulesBound(rules, j + 1, action, set_, sysno);
      RulesMarks(rules, j, action, set_, sysno);
      BoundJoin(f, g);
      NearConcat(f, g, {});
      LinesConcat(f, g);
    } else {
      EmptyFragment({}, {});
    }
  }

  /** The body of one rule set for one call. */
  lemma MatchersBound(rs: RuleSet, set_: nat, sysno: u64)
    requires sysno in rs.rules
    ensures var f := MatchersCode(rs, set_, sysno);
            && Bound(f, {}, {}) && Near(f)
            && Lines(f) == if rs.rules[sysno] == [] then 1 else RulesLines(rs.rules[sysno], 0)
  {
    hide Bound, Near, Lines, RulesCode;
    RulesBound(rs.rules[sysno], 0, rs.action, set_, sysno);
    OneLine(rs.action);
  }

  /** The vsyscall check around a body. */
  lemma GuardNear(test: Code, f: Code, l: Label)
    requires |test| == 2 && test[0].Plain? && test[1] == False(JSET_K, TWO_31, 0, l)
    requires Bound(f, {}, {}) && Near(f) && Unique(test + f + [Mark(l)])
    ensures Bound(test + f + [Mark(l)], {}, {}) && (Near(test + f + [Mark(l)]) <==> Lines(f) <= LABEL_TARGET)
  {
    var g, h := f + [Mark(l)], test + f + [Mark(l)];
    assert h == test + g;
    assert Unique(g) by { hide Bound, Near, Lines; UniqueTail(test, g); }
    assert Line(test, 1) == 1 && Lines(test) == 2;
    LineConcat(test, g, 1);
    LineConcat(test, g, 2 + |f|);
    LineConcat(f, [Mark(l)], |f|);
    var m := 2 + |f|;
    assert Line(h, m) - Line(h, 1) - 1 == Lines(f);
    assert h[m] == Mark(l) && h[1] == test[1];
    NoRefs([Mark(l)]);
    BoundJoin(f, [Mark(l)]);
    NearConcat(f, [Mark(l)], {});
    assert g[|f|] == Mark(l);
    assert Bound(test, {}, {l});
    BoundConcat(test, g, {}, {l}, {}, {});
    if Near(h) {
      assert NearPair(h, 1, m);
    }
    if Lines(f) <= LABEL_TARGET {
      forall k, i | 0 <= k < i < |h| ensures NearPair(h, k, i) { GuardPair(test, f, l, k, i); }
    }
  }

  lemma UniqueTail(f: Code, g: Code)
    requires Unique(f + g)
    ensures Unique(g)
  {
    forall i, j | 0 <= i < j < |g| && g[i].Mark? ensures g[i] != g[j] {
      assert (f + g)[|f| + i] == g[i] && (f + g)[|f| + j] == g[j];
    }
  }

  lemma GuardPair(test: Code, f: Code, l: Label, k: nat, i: nat)
    requires |test| == 2 && test[0].Plain? && test[1] == False(JSET_K, TWO_31, 0, l)
    requires var h := test + f + [Mark(l)]; Unique(h) && k < i < |h|
    requires Near(f + [Mark(l)]) && Lines(f) <= LABEL_TARGET
    ensures NearPair(test + f + [Mark(l)], k, i)
  {
    hide Near, Bound;
    var g, h := f + [Mark(l)], test + f + [Mark(l)];
    var m := 2 + |f|;
    assert h == test + g && h[m] == Mark(l);
    LineConcat(test, g, k);
    LineConcat(test, g, i);
    if k >= 2 {
      assert NearPair(g, k - 2, i - 2) by { NearAt(g, k - 2, i - 2); }
      assert h[k] == g[k - 2] && h[i] == g[i - 2];
    } else if h[i].Mark? && Tests(h[k], h[i].l) {
      assert k == 1 && h[i] == h[m];
      assert i == m;
      LineConcat(f, [Mark(l)], |f|);
      assert Line(test, 1) == 1;
    }
  }

  lemma NearAt(f: Code, k: nat, m: nat)
    requires Near(f) && k < m < |f|
    ensures NearPair(f, k, m)
  {
  }

  lemma SetBound(rs: RuleSet, set_: nat, sysno: u64)
    ensures var f := SetCode(rs, set_, sysno);
            Bound(f, {}, {}) && (Near(f) <==> Short(rs, sysno))
  {
    hide Bound, Near, Lines, MatchersCode, Unique, RulesLines, Load;
    if sysno in rs.rules {
      var l := VsyscallViolation(set_, sysno);
      var test, f := [Load(OFFSET_IP_HIGH), False(JSET_K, TWO_31, 0, l)], MatchersCode(rs, set_, sysno);
      MatchersBound(rs, set_, sysno);
      SetMarks(rs, set_, sysno);
      LoadIsPlain(OFFSET_IP_HIGH);
      if rs.vsyscall { GuardNear(test, f, l); }
      if rs.rules[sysno] == [] { NoRulesNoLines(); }
    } else {
      EmptyFragment({}, {});
    }
  }

  lemma LoadIsPlain(off: u32)
    ensures Load(off).Plain?
  {
  }

  lemma NoRulesNoLines()
    ensures RulesLines([], 0) == 0
  {
  }

  lemma {:induction false} SetsBound(sets: seq<RuleSet>, j: nat, sysno: u64)
    requires j <= |sets|
    ensures var f := SetsCode(sets, j, sysno);
            Bound(f, {}, {}) && (Near(f) <==> ShortCall(sets, j, sysno))
    decreases |sets| - j
  {
    hide Bound, Near, SetCode, Unique, Short;
    if j < |sets| {
      var f, g := SetCode(sets[j], j, sysno), SetsCode(sets, j + 1, sysno);
      SetBound(sets[j], j, sysno);
      SetsBound(sets, j + 1, sysno);
      SetsMarks(sets, j, sysno);
      BoundJoin(f, g);
      NearIff(f, g, {});
    } else {
      EmptyFragment({}, {});
    }
  }

  // ----- nodes -----

  /** The labels a node's turn leaves open. */
  function Exits(n: Tree): set<Label>
    requires n.Node?
  {
    {DefaultAction, NodeLabel(n.left), NodeLabel(n.right)}
  }

  lemma TurnBound(n: Tree)
    requires n.Node?
    ensures Bound(TurnCode(n), Exits(n), {CheckArgs(n.value)}) && Lines(TurnCode(n)) <= 4
  {
    var f := TurnCode(n);
    assert Line(f, 0) == 0;
    forall k, p | 0 <= k < |f| && p in Refs(f[k]) ensures BoundRef(f, k, p, Exits(n), {CheckArgs(n.value)}) {}
  }

  /** A node's turn with the label its jump for a found call goes to. */
  lemma TurnMarkBound(n: Tree)
    requires n.Node?
    ensures var f := TurnCode(n) + [Mark(CheckArgs(n.value))]; Bound(f, Exits(n), {}) && Near(f)
  {
    hide TurnCode, Bound, Near, Exits;
    var mark := [Mark(CheckArgs(n.value))];
    TurnBound(n);
    NoRefs(mark);
    LinesConcat(TurnCode(n), mark);
    assert Lines(mark) <= 1;
    ShortIsNear(TurnCode(n) + mark);
    assert mark[0] == Mark(CheckArgs(n.value));
    BoundMore(mark, {}, {}, Exits(n), {});
    BoundConcat(TurnCode(n), mark, Exits(n), {CheckArgs(n.value)}, Exits(n), {});
  }

  lemma BoundMore(f: Code, direct: set<Label>, test: set<Label>, direct2: set<Label>, test2: set<Label>)
    requires Bound(f, direct, test) && direct <= direct2 && test <= test2
    ensures Bound(f, direct2, test2)
  {
    forall k, p | 0 <= k < |f| && p in Refs(f[k]) ensures BoundRef(f, k, p, direct2, test2) {
      assert BoundRef(f, k, p, direct, test);
    }
  }

  lemma DefaultTail(emitted: bool)
    ensures var f: Code := if emitted then [] else [Direct(DefaultAction)]; Bound(f, {DefaultAction}, {}) && Near(f)
  {
    var f: Code := if emitted then [] else [Direct(DefaultAction)];
    forall k, p | 0 <= k < |f| && p in Refs(f[k]) ensures BoundRef(f, k, p, {DefaultAction}, {}) {}
  }

  /** The checks of a node's call, after their label. */
  lemma ChecksBound(sets: seq<RuleSet>, v: u64)
    ensures var g := SetsCode(sets, 0, v) + (if Emitted(sets, 0, v) then [] else [Direct(DefaultAction)]);
            (Unique(g) ==> (Near(g) <==> ShortCall(sets, 0, v))) && Bound(g, {DefaultAction}, {})
  {
    hide Bound, Near, SetsCode, Unique, ShortCall, Emitted;
    var f, tail := SetsCode(sets, 0, v), if Emitted(sets, 0, v) then [] else [Direct(DefaultAction)];
    SetsBound(sets, 0, v);
    DefaultTail(Emitted(sets, 0, v));
    BoundConcat(f, tail, {}, {}, {DefaultAction}, {});
    if Unique(f + tail) { NearIff(f, tail, {}); }
  }

  lemma BodyBound(sets: seq<RuleSet>, n: Tree)
    requires n.Node?
    ensures var f := BodyCode(sets, n); Bound(f, Exits(n), {}) && (Near(f) <==> ShortCall(sets, 0, n.value))
  {
    hide Bound, Near, SetsCode, TurnCode, Unique, ShortCall, Emitted;
    var v := n.value;
    var mark, tail := [Mark(CheckArgs(v))], if Emitted(sets, 0, v) then [] else [Direct(DefaultAction)];
    var turn, checks := TurnCode(n) + mark, SetsCode(sets, 0, v) + tail;
    assert turn + checks == BodyCode(sets, n);
    TurnMarkBound(n);
    ChecksBound(sets, v);
    BoundMore(checks, {DefaultAction}, {}, Exits(n), {});
    BoundConcat(turn, checks, Exits(n), {}, Exits(n), {});
    NodeMarks(sets, n);
    UniqueTail(turn, checks);
    NearIff(turn, checks, Exits(n));
  }

  // ----- the tree -----

  ghost predicate ShortTree(sets: seq<RuleSet>, n: Tree) {
    forall v :: v in Values(n) ==> ShortCall(sets, 0, v)
  }

  lemma {:induction false} TreeBound(sets: seq<RuleSet>, n: Tree, root: bool)
    requires Bst(n)
    ensures var f := TreeCode(sets, n, root);
            && Bound(f, {DefaultAction}, {}) && (Near(f) <==> ShortTree(sets, n))
            && (n.Node? && !root ==> Marks(f, 0, Index(n.value)))
  {
    hide Bound, Near, BodyCode, Unique, ShortCall, Exits;
    if n.Node? {
      var mark := if root then [] else [Mark(Index(n.value))];
      var f, l, r := BodyCode(sets, n), TreeCode(sets, n.left, false), TreeCode(sets, n.right, false);
      TreeBound(sets, n.left, false);
      TreeBound(sets, n.right, false);
      BodyBound(sets, n);
      NoRefs(mark);
      TreeMarks(sets, n, root);
      Subtrees(mark, f, l, r, n);
      if !root { assert (mark + f + l + r)[0] == Mark(Index(n.value)); }
    } else {
      EmptyFragment({DefaultAction}, {});
    }
  }

  lemma Subtrees(mark: Code, f: Code, l: Code, r: Code, n: Tree)
    requires n.Node? && Bound(mark, {}, {}) && Near(mark) && Bound(f, Exits(n), {}) && Unique(mark + f + l + r)
    requires Bound(l, {DefaultAction}, {}) && Bound(r, {DefaultAction}, {})
    requires n.left.Node? ==> Marks(l, 0, Index(n.left.value))
    requires n.right.Node? ==> Marks(r, 0, Index(n.right.value))
    ensures Bound(mark + f + l + r, {DefaultAction}, {})
    ensures Near(mark + f + l + r) <==> Near(f) && Near(l) && Near(r)
  {
    hide Bound, Near, Unique;
    assert mark + f + l + r == mark + (f + (l + r));
    BoundConcat(l, r, {DefaultAction}, {}, {DefaultAction}, {});
    if n.left.Node? { MarksLeft(l, r, Index(n.left.value)); }
    if n.right.Node? { MarksRight(l, r, Index(n.right.value)); }
    BoundConcat(f, l + r, Exits(n), {}, {DefaultAction}, {});
    BoundConcat(mark, f + (l + r), {}, {}, {DefaultAction}, {});
    UniqueTail(mark, f + (l + r));
    UniqueTail(f, l + r);
    NearIff(mark, f + (l + r), {});
    NearIff(f, l + r, Exits(n));
    NearIff(l, r, {DefaultAction});
  }

  lemma MarksLeft(f: Code, g: Code, l: Label)
    requires Marks(f, 0, l)
    ensures Marks(f + g, 0, l)
  {
    var m :| 0 <= m < |f| && f[m] == Mark(l);
    assert (f + g)[m] == f[m];
  }

  lemma MarksRight(f: Code, g: Code, l: Label)
    requires Marks(g, 0, l)
    ensures Marks(f + g, 0, l)
  {
    var m :| 0 <= m < |g| && g[m] == Mark(l);
    assert (f + g)[|f| + m] == g[m];
  }

  // ----- the program -----

  lemma ProgramBound(sets: seq<RuleSet>, s: seq<u64>, arch: u32, defaultAction: u32, badArchAction: u32)
    requires StrictlySorted(s)
    ensures var t := ProgramCode(sets, s, arch, defaultAction, badArchAction);
            && Bound(t, {}, {}) && (Near(t) <==> sets == [] || forall x :: x in s ==> ShortCall(sets, 0, x))
  {
    hide Bound, Near, Unique, ShortCall, CreateBST, TreeCode, Values, StrictlySorted, Load, RetK;
    var f, end := ArchCode(arch, badArchAction), [Mark(DefaultAction), RetK(defaultAction)];
    ArchIsPlain(arch, badArchAction);
    NoRefs(f);
    assert RetK(defaultAction).Plain? by { OneReturn(defaultAction); }
    NoRefs(end);
    assert end[0] == Mark(DefaultAction);
    ProgramMarks(sets, s, arch, defaultAction, badArchAction);
    var g := IndexCode(sets, s);
    IndexBound(sets, s);
    assert f + g + end == f + (g + end);
    BoundConcat(g, end, {DefaultAction}, {}, {}, {});
    BoundJoin(f, g + end);
    UniqueTail(f, g + end);
    NearIff(f, g + end, {});
    NearIff(g, end, {DefaultAction});
  }

  lemma OneReturn(action: u32)
    ensures RetK(action).Plain?
  {
  }

  lemma ArchIsPlain(arch: u32, badArchAction: u32)
    ensures var f := ArchCode(arch, badArchAction); forall k :: 0 <= k < |f| ==> f[k].Plain?
  {
  }

  lemma IndexBound(sets: seq<RuleSet>, s: seq<u64>)
    requires StrictlySorted(s)
    ensures var g := IndexCode(sets, s);
            && Bound(g, {DefaultAction}, {})
            && (Near(g) <==> sets == [] || forall x :: x in s ==> ShortCall(sets, 0, x))
  {
    hide Bound, Near, Unique, ShortCall, CreateBST, TreeCode, Values, StrictlySorted, Load;
    if sets != [] && s != [] {
      var n := CreateBST(s);
      BSTValues(s);
      TreeBound(sets, n, true);
      LoadIsPlain(OFFSET_NR);
      NoRefs([Load(OFFSET_NR)]);
      IndexMarks(sets, s);
      BoundConcat([Load(OFFSET_NR)], TreeCode(sets, n, true), {}, {}, {DefaultAction}, {});
      NearIff([Load(OFFSET_NR)], TreeCode(sets, n, true), {});
    } else {
      EmptyFragment({DefaultAction}, {});
    }
  }

  /** Every unconditional jump reaches its label. */
  ghost predicate DirectsFit(t: Code) {
    forall k, m :: 0 <= k < m < |t| && t[m].Mark? && t[k] == Direct(t[m].l) ==>
      Line(t, m) - Line(t, k) - 1 <= LABEL_DIRECT_TARGET
  }

  /** The one mark of a label. */
  lemma TheMark(t: Code, m: nat, l: Label)
    requires Unique(t) && m < |t| && t[m] == Mark(l)
    ensures FirstMark(t, l, |t|) == m
  {
    var i := FirstMark(t, l, |t|);
    assert i <= m;
  }

  lemma RefResolves(t: Code, k: nat, p: (Label, JmpType))
    requires Unique(t) && Bound(t, {}, {}) && t != [] && !t[|t| - 1].Mark? && k < |t| && p in Refs(t[k])
    ensures exists m :: k < m < |t| && t[m] == Mark(p.0)
    ensures forall m :: k < m < |t| && t[m] == Mark(p.0) ==>
              (RefOk(t, k, p.0, p.1) <==>
               Line(t, m) - Line(t, k) - 1 <= (if p.1 == JDirect then LABEL_DIRECT_TARGET else LABEL_TARGET))
  {
    assert BoundRef(t, k, p, {}, {});
    var m :| k <= m < |t| && t[m] == Mark(p.0);
    assert m != k;
    forall m | k < m < |t| && t[m] == Mark(p.0)
      ensures RefOk(t, k, p.0, p.1) <==>
                Line(t, m) - Line(t, k) - 1 <= (if p.1 == JDirect then LABEL_DIRECT_TARGET else LABEL_TARGET)
    {
      TheMark(t, m, p.0);
      assert !t[k].Mark?;
      LineMonotone(t, k, m);
      LineMonotone(t, m, |t| - 1);
    }
  }

  /** Labels can be resolved exactly when all jumps are short enough. */
  lemma ResolvableIff(t: Code)
    requires Unique(t) && Bound(t, {}, {}) && t != [] && !t[|t| - 1].Mark?
    ensures Resolvable(t) <==> Near(t) && DirectsFit(t)
  {
    hide Bound, Unique, RefOk, Line, FirstMark;
    if Resolvable(t) {
      forall k, m | 0 <= k < m < |t| ensures NearPair(t, k, m) {
        if t[m].Mark? && Tests(t[k], t[m].l) {
          var p := if (t[m].l, JTrue) in Refs(t[k]) then (t[m].l, JTrue) else (t[m].l, JFalse);
          assert t[m] == Mark(p.0);
          RefResolves(t, k, p);
        }
      }
      forall k, m | 0 <= k < m < |t| && t[m].Mark? && t[k] == Direct(t[m].l)
        ensures Line(t, m) - Line(t, k) - 1 <= LABEL_DIRECT_TARGET
      {
        var p := (t[m].l, JDirect);
        assert p == Refs(t[k])[0] && t[m] == Mark(p.0);
        RefResolves(t, k, p);
      }
    }
    if Near(t) && DirectsFit(t) {
      forall k, p | 0 <= k < |t| && p in Refs(t[k]) ensures RefOk(t, k, p.0, p.1) {
        RefResolves(t, k, p);
        var m :| k < m < |t| && t[m] == Mark(p.0);
        assert NearPair(t, k, m);
        DirectRef(t[k], p);
      }
    }
  }

  lemma DirectRef(item: Item<Label>, p: (Label, JmpType))
    requires p in Refs(item)
    ensures if p.1 == JDirect then item == Direct(p.0) else Tests(item, p.0)
  {
  }

  /** Resolution of a filter fails exactly when a vsyscall rule set has too many
      rules for a call, or an unconditional jump is longer than 2^32 - 1. */
  lemma ProgramResolves(sets: seq<RuleSet>, s: seq<u64>, arch: u32, defaultAction: u32, badArchAction: u32)
    requires Lists(s, Syscalls(sets))
    ensures var t := ProgramCode(sets, s, arch, defaultAction, badArchAction);
            Resolvable(t) <==> ShortSets(sets) && DirectsFit(t)
  {
    hide Bound, Near, Unique, Resolvable, DirectsFit, ShortCall, Syscalls, IndexCode;
    var t := ProgramCode(sets, s, arch, defaultAction, badArchAction);
    ProgramBound(sets, s, arch, defaultAction, badArchAction);
    ProgramMarks(sets, s, arch, defaultAction, badArchAction);
    assert t[|t| - 1] == RetK(defaultAction);
    OneReturn(defaultAction);
    ResolvableIff(t);
    if sets == [] { NoSyscalls(); }
  }

  lemma NoSyscalls()
    ensures Syscalls([]) == {}
  {
    forall x: u64 ensures x !in Syscalls([]) { InSyscalls([], x); }
  }

  /** In a program of at most 2^32 instructions no unconditional jump is too long. */
  lemma SmallProgram(t: Code)
    requires Lines(t) <= TWO_32
    ensures DirectsFit(t)
  {
    forall k, m | 0 <= k < m < |t| && t[m].Mark? && t[k] == Direct(t[m].l)
      ensures Line(t, m) - Line(t, k) - 1 <= LABEL_DIRECT_TARGET
    {
      LineMonotone(t, m, |t|);
    }
  }

  /** When BuildProgram succeeds: every entry has a known type, no rule set is
      shadowed, every vsyscall rule set takes at most 255 instructions for each of
      its calls, and every direct jump fits 32 bits, as it does unless the filter
      has more than 2^32 instructions. */
  lemma BuildsIff(r: Option<seq<Insn>>, sets: seq<RuleSet>, s: seq<u64>, arch: u32, defaultAction: u32,
                  badArchAction: u32)
    requires Lists(s, Syscalls(sets)) && Built(r, sets, s, arch, defaultAction, badArchAction)
    ensures var t := ProgramCode(sets, s, arch, defaultAction, badArchAction);
            && (r.Some? <==> CleanSets(sets) && ShortSets(sets) && DirectsFit(t))
            && (Lines(t) <= TWO_32 ==> DirectsFit(t))
  {
    hide CleanSets, ShortSets, Resolvable, Assembled, DirectsFit, Lists, ProgramCode, Lines;
    ProgramResolves(sets, s, arch, defaultAction, badArchAction);
    var t := ProgramCode(sets, s, arch, defaultAction, badArchAction);
    if Lines(t) <= TWO_32 { SmallProgram(t); }
  }
}
