/** The rule compiler: the loops that drive the program builder. */
module SeccompBuild {
  import opened Words
  import opened Bpf
  import opened ProgramBuilders
  import opened LabelledCode
  import opened SeccompRules
  import opened SeccompCode
  import opened SeccompExec
  import opened SeccompSearch
  import opened SeccompLabels

  type Builder = ProgramBuilder<Label>

  /** A mark that a unique extension of the calls adds is not among them. */
  lemma FreshMark(calls: Code, l: Label, rest: Code)
    requires Unique(calls + ([Mark(l)] + rest))
    ensures Mark(l) !in calls
  {
    var t := calls + ([Mark(l)] + rest);
    forall i | 0 <= i < |calls| ensures calls[i] != Mark(l) {
      assert t[i] == calls[i] && t[|calls|] == Mark(l);
    }
  }

  method AddEqual(p: Builder, v: u64, i: nat, bad: Label)
    requires p.Valid() && i < RULE_SIZE
    modifies p
    ensures p.Valid()
    ensures p.calls == old(p.calls) +
              [Load(LowOffset(i)), False(JEQ_K, Low(v), 0, bad), Load(HighOffset(i)), False(JEQ_K, High(v), 0, bad)]
  {
    hide Labels, ProgramBuilders.Code;
    p.AddStmt(LD | ABS | W, LowOffset(i));
    p.AddJumpFalseLabel(JEQ_K, Low(v), 0, bad);
    p.AddStmt(LD | ABS | W, HighOffset(i));
    p.AddJumpFalseLabel(JEQ_K, High(v), 0, bad);
  }

  method AddNotEqual(p: Builder, v: u64, i: nat, good: Label, bad: Label)
    requires p.Valid() && i < RULE_SIZE
    modifies p
    ensures p.Valid()
    ensures p.calls == old(p.calls) +
              [Load(LowOffset(i)), False(JEQ_K, Low(v), 0, good),
               Load(HighOffset(i)), True(JEQ_K, High(v), bad, 0), Mark(good)]
  {
    hide Labels, ProgramBuilders.Code;
    p.AddStmt(LD | ABS | W, LowOffset(i));
    p.AddJumpFalseLabel(JEQ_K, Low(v), 0, good);
    p.AddStmt(LD | ABS | W, HighOffset(i));
    p.AddJumpTrueLabel(JEQ_K, High(v), bad, 0);
    var _ := p.AddLabel(good);
  }

  method AddMasked(p: Builder, mask: u64, v: u64, i: nat, bad: Label)
    requires p.Valid() && i < RULE_SIZE
    modifies p
    ensures p.Valid()
    ensures p.calls == old(p.calls) +
              [Load(LowOffset(i)), Mask(Low(mask)), False(JEQ_K, Low(v), 0, bad),
               Load(HighOffset(i)), Mask(High(mask)), False(JEQ_K, High(v), 0, bad)]
  {
    hide Labels, ProgramBuilders.Code;
    p.AddStmt(LD | ABS | W, LowOffset(i));
    p.AddStmt(ALU | AND_OP | SRC_K, Low(mask));
    p.AddJumpFalseLabel(JEQ_K, Low(v), 0, bad);
    p.AddStmt(LD | ABS | W, HighOffset(i));
    p.AddStmt(ALU | AND_OP | SRC_K, High(mask));
    p.AddJumpFalseLabel(JEQ_K, High(v), 0, bad);
  }

  method AddGreater(p: Builder, v: u64, op: bv16, i: nat, good: Label, bad: Label)
    requires p.Valid() && i < RULE_SIZE
    modifies p
    ensures p.Valid()
    ensures p.calls == old(p.calls) +
              [Load(HighOffset(i)), False(JGE_K, High(v), 0, bad), False(JEQ_K, High(v), 0, good),
               Load(LowOffset(i)), False(op, Low(v), 0, bad), Mark(good)]
  {
    hide Labels, ProgramBuilders.Code;
    p.AddStmt(LD | ABS | W, HighOffset(i));
    p.AddJumpFalseLabel(JGE_K, High(v), 0, bad);
    p.AddJumpFalseLabel(JEQ_K, High(v), 0, good);
    p.AddStmt(LD | ABS | W, LowOffset(i));
    p.AddJumpFalseLabel(op, Low(v), 0, bad);
    var _ := p.AddLabel(good);
  }

  method AddLess(p: Builder, v: u64, op: bv16, i: nat, good: Label, bad: Label)
    requires p.Valid() && i < RULE_SIZE
    modifies p
    ensures p.Valid()
    ensures p.calls == old(p.calls) +
              [Load(HighOffset(i)), True(JGT_K, High(v), bad, 0), False(JEQ_K, High(v), 0, good),
               Load(LowOffset(i)), True(op, Low(v), bad, 0), Mark(good)]
  {
    hide Labels, ProgramBuilders.Code;
    p.AddStmt(LD | ABS | W, HighOffset(i));
    p.AddJumpTrueLabel(JGT_K, High(v), bad, 0);
    p.AddJumpFalseLabel(JEQ_K, High(v), 0, good);
    p.AddStmt(LD | ABS | W, LowOffset(i));
    p.AddJumpTrueLabel(op, Low(v), bad, 0);
    var _ := p.AddLabel(good);
  }

  /** Emit the check of one entry. The results of setting the labels inside it
      are not looked at. */
  method AddArgCheck(p: Builder, arg: ArgRule, i: nat, set_: nat, sysno: u64, rule: nat)
    requires p.Valid() && i < RULE_SIZE && !Trivial(arg) && !arg.Unknown?
    modifies p
    ensures p.Valid() && p.calls == old(p.calls) + ArgCode(arg, i, set_, sysno, rule)
  {
    hide Labels, ProgramBuilders.Code;
    var bad := RuleViolation(set_, sysno, rule);
    match arg
    case EqualTo(v) => AddEqual(p, v, i, bad);
    case NotEqual(v) => AddNotEqual(p, v, i, RuleLabel(set_, sysno, rule, Ne, i), bad);
    case GreaterThan(v) => AddGreater(p, v, JGT_K, i, RuleLabel(set_, sysno, rule, Gt, i), bad);
    case GreaterThanOrEqual(v) => AddGreater(p, v, JGE_K, i, RuleLabel(set_, sysno, rule, Ge, i), bad);
    case LessThan(v) => AddLess(p, v, JGE_K, i, RuleLabel(set_, sysno, rule, Lt, i), bad);
    case LessThanOrEqual(v) => AddLess(p, v, JGT_K, i, RuleLabel(set_, sysno, rule, Le, i), bad);
    case MaskedEqual(mask, v) => AddMasked(p, mask, v, i, bad);
  }

  /** Emit the checks of a rule's entries. Fails on an entry of an unknown type. */
  method AddArgChecks(p: Builder, r: Rule, set_: nat, sysno: u64, rule: nat) returns (ok: bool, labelled: bool)
    requires p.Valid()
    modifies p
    ensures p.Valid() && (ok <==> Known(r))
    ensures ok ==> labelled == Labelled(r, 0) && p.calls == old(p.calls) + ArgsCode(r, 0, set_, sysno, rule)
  {
    hide Labels, ProgramBuilders.Code, ArgCode, ArgsCode, Labelled;
    labelled := false;
    var i := 0;
    while i < RULE_SIZE
      invariant 0 <= i <= RULE_SIZE && p.Valid()
      invariant old(p.calls) + ArgsCode(r, 0, set_, sysno, rule) == p.calls + ArgsCode(r, i, set_, sysno, rule)
      invariant Labelled(r, 0) == (labelled || Labelled(r, i))
      invariant forall j :: 0 <= j < i ==> !r[j].Unknown?
    {
      if r[i].Unknown? {
        return false, labelled;
      }
      ghost var before := p.calls;
      NextEntry(r, i, set_, sysno, rule);
      if !Trivial(r[i]) {
        AddArgCheck(p, r[i], i, set_, sysno, rule);
        labelled := true;
      } else {
        TrivialCode(r[i], i, set_, sysno, rule);
      }
      Reassociate(before, ArgCode(r[i], i, set_, sysno, rule), ArgsCode(r, i + 1, set_, sysno, rule), p.calls);
      i := i + 1;
    }
    NoMoreEntries(r, set_, sysno, rule);
    ok := true;
  }

  lemma NextEntry(r: Rule, i: nat, set_: nat, sysno: u64, rule: nat)
    requires i < RULE_SIZE
    ensures ArgsCode(r, i, set_, sysno, rule)
         == ArgCode(r[i], i, set_, sysno, rule) + ArgsCode(r, i + 1, set_, sysno, rule)
    ensures Labelled(r, i) == (!Trivial(r[i]) || Labelled(r, i + 1))
  {
    hide ArgCode;
  }

  lemma NoMoreEntries(r: Rule, set_: nat, sysno: u64, rule: nat)
    ensures ArgsCode(r, RULE_SIZE, set_, sysno, rule) == [] && !Labelled(r, RULE_SIZE)
  {
  }

  lemma Reassociate(before: Code, f: Code, g: Code, after: Code)
    requires after == before + f
    ensures before + (f + g) == after + g
  {
  }

  /** Emit one rule. */
  method AddRuleCheck(p: Builder, r: Rule, action: u32, set_: nat, sysno: u64, rule: nat) returns (ok: bool)
    requires p.Valid() && Unique(p.calls + RuleCode(r, action, set_, sysno, rule))
    modifies p
    ensures p.Valid() && (ok <==> Known(r))
    ensures ok ==> p.calls == old(p.calls) + RuleCode(r, action, set_, sysno, rule)
  {
    hide Labels, ProgramBuilders.Code, ArgsCode, Unique, Labelled, Known;
    ghost var start := p.calls;
    var labelled;
    ok, labelled := AddArgChecks(p, r, set_, sysno, rule);
    if !ok {
      return;
    }
    p.AddStmt(RET | SRC_K, action);
    if labelled {
      ghost var l := RuleViolation(set_, sysno, rule);
      assert start + RuleCode(r, action, set_, sysno, rule) == p.calls + ([Mark(l)] + []);
      FreshMark(p.calls, l, []);
      var isSet := p.AddLabel(RuleViolation(set_, sysno, rule));
      assert isSet;
    }
    assert p.calls == start + RuleCode(r, action, set_, sysno, rule);
  }

  lemma UniquePrefix(f: Code, g: Code)
    requires Unique(f + g)
    ensures Unique(f)
  {
    forall i, j | 0 <= i < j < |f| && f[i].Mark? ensures f[i] != f[j] {
      assert (f + g)[i] == f[i] && (f + g)[j] == f[j];
    }
  }

  /** Emit the rules of one list. Fails when a rule has an entry of an unknown
      type. */
  method AddSyscallArgsCheck(p: Builder, rules: seq<Rule>, action: u32, set_: nat, sysno: u64) returns (ok: bool)
    requires p.Valid() && Unique(p.calls + RulesCode(rules, 0, action, set_, sysno))
    modifies p
    ensures p.Valid() && (ok <==> forall i :: 0 <= i < |rules| ==> Known(rules[i]))
    ensures ok ==> p.calls == old(p.calls) + RulesCode(rules, 0, action, set_, sysno)
  {
    hide Labels, ProgramBuilders.Code, RuleCode, Unique, Known;
    var j := 0;
    while j < |rules|
      invariant 0 <= j <= |rules| && p.Valid()
      invariant old(p.calls) + RulesCode(rules, 0, action, set_, sysno)
             == p.calls + RulesCode(rules, j, action, set_, sysno)
      invariant forall i :: 0 <= i < j ==> Known(rules[i])
    {
      ghost var before, f := p.calls, RuleCode(rules[j], action, set_, sysno, j);
      ghost var g := RulesCode(rules, j + 1, action, set_, sysno);
      Reassociate(before, f, g, before + f);
      UniquePrefix(before + f, g);
      ok := AddRuleCheck(p, rules[j], action, set_, sysno, j);
      if !ok {
        return;
      }
      j := j + 1;
    }
    ok := true;
  }

  /** Emit one rule set's matchers for one call. */
  method AddMatchers(p: Builder, rs: RuleSet, set_: nat, sysno: u64) returns (ok: bool)
    requires p.Valid() && sysno in rs.rules && Unique(p.calls + SetCode(rs, set_, sysno))
    modifies p
    ensures p.Valid() && (ok <==> KnownSet(rs, sysno))
    ensures ok ==> p.calls == old(p.calls) + SetCode(rs, set_, sysno)
  {
    hide Labels, ProgramBuilders.Code, RulesCode, Unique, Known;
    ghost var start, f := p.calls, MatchersCode(rs, set_, sysno);
    ghost var l := VsyscallViolation(set_, sysno);
    ghost var tail := if rs.vsyscall then [Mark(l)] else [];
    if rs.vsyscall {
      p.AddStmt(LD | ABS | W, OFFSET_IP_HIGH);
      p.AddJumpFalseLabel(JSET_K, TWO_31, 0, VsyscallViolation(set_, sysno));
    }
    assert start + SetCode(rs, set_, sysno) == p.calls + f + tail;
    UniquePrefix(p.calls + f, tail);
    ghost var mid := p.calls;
    if rs.rules[sysno] == [] {
      p.AddStmt(RET | SRC_K, rs.action);
      ok := true;
    } else {
      ok := AddSyscallArgsCheck(p, rs.rules[sysno], rs.action, set_, sysno);
      if !ok {
        return;
      }
    }
    assert p.calls == mid + f;
    if rs.vsyscall {
      assert p.calls + ([Mark(l)] + []) == start + SetCode(rs, set_, sysno);
      FreshMark(p.calls, l, []);
      var isSet := p.AddLabel(VsyscallViolation(set_, sysno));
      assert isSet;
    }
  }

  /** Reachable, with the pairs of rule sets it compares spelled out. */
  lemma {:induction false} ReachableIff(sets: seq<RuleSet>, j: nat, sysno: u64)
    requires j <= |sets|
    ensures Reachable(sets, j, sysno) <==>
            forall i, k :: j <= i < k < |sets| && Blanket(sets[i], sysno) ==> sysno !in sets[k].rules
    decreases |sets| - j
  {
    if j < |sets| { ReachableIff(sets, j + 1, sysno); }
  }

  lemma {:induction false} EmittedIff(sets: seq<RuleSet>, j: nat, sysno: u64)
    requires j <= |sets|
    ensures Emitted(sets, j, sysno) <==> exists i :: j <= i < |sets| && Blanket(sets[i], sysno)
    decreases |sets| - j
  {
    if j < |sets| { EmittedIff(sets, j + 1, sysno); }
  }

  /** Emit every rule set's matchers for one call. Fails when a rule set after a
      blanket one lists the call, since it could never apply. */
  method AddSets(p: Builder, sets: seq<RuleSet>, sysno: u64) returns (ok: bool, emitted: bool)
    requires p.Valid() && Unique(p.calls + SetsCode(sets, 0, sysno))
    modifies p
    ensures p.Valid() && (ok <==> Clean(sets, sysno))
    ensures ok ==> emitted == Emitted(sets, 0, sysno) && p.calls == old(p.calls) + SetsCode(sets, 0, sysno)
  {
    hide Labels, ProgramBuilders.Code, SetCode, Unique, KnownSet;
    ReachableIff(sets, 0, sysno);
    EmittedIff(sets, 0, sysno);
    hide Reachable, Emitted;
    emitted := false;
    var j := 0;
    while j < |sets|
      invariant 0 <= j <= |sets| && p.Valid()
      invariant old(p.calls) + SetsCode(sets, 0, sysno) == p.calls + SetsCode(sets, j, sysno)
      invariant forall i :: 0 <= i < j ==> KnownSet(sets[i], sysno)
      invariant forall i, k :: 0 <= i < k < j && Blanket(sets[i], sysno) ==> sysno !in sets[k].rules
      invariant emitted <==> exists i :: 0 <= i < j && Blanket(sets[i], sysno)
    {
      ghost var before, f, g := p.calls, SetCode(sets[j], j, sysno), SetsCode(sets, j + 1, sysno);
      Reassociate(before, f, g, before + f);
      if sysno in sets[j].rules {
        if emitted {
          return false, emitted;
        }
        UniquePrefix(before + f, g);
        ok := AddMatchers(p, sets[j], j, sysno);
        if !ok {
          return;
        }
        if sets[j].rules[sysno] == [] {
          emitted := true;
        }
      } else {
        SkippedSet(sets[j], j, sysno);
      }
      j := j + 1;
    }
    ok := true;
  }

  lemma SkippedSet(rs: RuleSet, set_: nat, sysno: u64)
    requires sysno !in rs.rules
    ensures SetCode(rs, set_, sysno) == [] && KnownSet(rs, sysno)
  {
  }

  /** Emit one node's turn: compare the call number, branch left or right. */
  method AddTurn(p: Builder, n: Tree)
    requires p.Valid() && n.Node?
    modifies p
    ensures p.Valid() && p.calls == old(p.calls) + TurnCode(n)
  {
    hide Labels, ProgramBuilders.Code;
    var sysno := n.value;
    p.AddJumpTrueLabel(JEQ_K, Number(sysno), CheckArgs(sysno), 0);
    if n.left.Nil? && n.right.Nil? {
      p.AddDirectJumpLabel(DefaultAction);
    } else {
      p.AddJump(JGT_K, Number(sysno), 0, 1);
      p.AddDirectJumpLabel(NodeLabel(n.right));
      p.AddDirectJumpLabel(NodeLabel(n.left));
    }
  }

  /** A node's label and body. */
  function NodeCode(sets: seq<RuleSet>, n: Tree, root: bool): Code
    requires n.Node?
  {
    (if root then [] else [Mark(Index(n.value))]) + BodyCode(sets, n)
  }

  method PlaceMark(p: Builder, l: Label, ghost rest: Code)
    requires p.Valid() && Unique(p.calls + ([Mark(l)] + rest))
    modifies p
    ensures p.Valid() && p.calls == old(p.calls) + [Mark(l)]
    ensures Unique(p.calls + rest)
  {
    FreshMark(p.calls, l, rest);
    ghost var before := p.calls;
    var isSet := p.AddLabel(l);
    assert isSet;
    assert before + ([Mark(l)] + rest) == p.calls + rest;
  }

  /** Emit one node of the search tree. */
  method BuildBSTProgram(p: Builder, n: Tree, root: bool, sets: seq<RuleSet>) returns (ok: bool)
    requires p.Valid() && n.Node? && Unique(p.calls + NodeCode(sets, n, root))
    modifies p
    ensures p.Valid() && (ok <==> Clean(sets, n.value))
    ensures ok ==> p.calls == old(p.calls) + NodeCode(sets, n, root)
  {
    hide Labels, ProgramBuilders.Code, SetsCode, Unique, Clean, Emitted, TurnCode;
    ghost var start, v := p.calls, n.value;
    ghost var f := SetsCode(sets, 0, v);
    ghost var tail := if Emitted(sets, 0, v) then [] else [Direct(DefaultAction)];
    if !root {
      assert start + NodeCode(sets, n, root) == start + ([Mark(Index(v))] + BodyCode(sets, n));
      PlaceMark(p, Index(n.value), BodyCode(sets, n));
    }
    assert start + NodeCode(sets, n, root) == p.calls + TurnCode(n) + ([Mark(CheckArgs(v))] + (f + tail));
    AddTurn(p, n);
    PlaceMark(p, CheckArgs(n.value), f + tail);
    assert p.calls + (f + tail) == p.calls + f + tail;
    UniquePrefix(p.calls + f, tail);
    var emitted;
    ok, emitted := AddSets(p, sets, n.value);
    if ok && !emitted {
      p.AddDirectJumpLabel(DefaultAction);
    }
  }

  /** Emit a subtree in preorder. */
  method Traverse(p: Builder, n: Tree, root: bool, sets: seq<RuleSet>) returns (ok: bool)
    requires p.Valid() && Unique(p.calls + TreeCode(sets, n, root))
    modifies p
    ensures p.Valid() && (ok <==> AllClean(sets, n))
    ensures ok ==> p.calls == old(p.calls) + TreeCode(sets, n, root)
    decreases n
  {
    hide Labels, ProgramBuilders.Code, BodyCode, Unique, Clean;
    if n.Nil? {
      return true;
    }
    ghost var start, f := p.calls, NodeCode(sets, n, root);
    ghost var l, r := TreeCode(sets, n.left, false), TreeCode(sets, n.right, false);
    assert start + TreeCode(sets, n, root) == start + f + l + r;
    UniquePrefix(start + f + l, r);
    UniquePrefix(start + f, l);
    ok := BuildBSTProgram(p, n, root, sets);
    if ok {
      ok := Traverse(p, n.left, false, sets);
    }
    if ok {
      ok := Traverse(p, n.right, false, sets);
    }
  }
}
