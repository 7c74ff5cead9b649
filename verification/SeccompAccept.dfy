/** The validator accepts every built filter that is not too long. */
module SeccompAccept {
  import opened Words
  import opened Bpf
  import opened ProgramBuilders
  import opened LabelledCode
  import opened SeccompRules
  import opened SeccompCode
  import opened SeccompExec
  import opened SeccompSearch
  import opened SeccompLabels
  import opened SeccompFilter

  predicate PlainJump(item: Item<Label>) { item.Plain? && IsTest(item.insn.op) }

  /** The items the compiler emits. */
  predicate Emittable(item: Item<Label>) {
    match item
    case Plain(i) =>
      || i.op == LD | ABS | W || i.op == ALU | AND_OP | SRC_K || i.op == RET | SRC_K
      || (IsTest(i.op) && i.jt <= 1 && i.jf <= 1)
    case Direct(_) => true
    case True(op, _, _, jf) => IsTest(op) && jf == 0
    case False(op, _, jt, _) => IsTest(op) && jt == 0
    case Both(_, _, _, _) => false
    case Mark(_) => true
  }

  /** A fragment of such items, in which two instructions follow each jump with
      fixed offsets. */
  ghost predicate Sound(f: Code) {
    && (forall j :: 0 <= j < |f| ==> Emittable(f[j]))
    && (forall j :: 0 <= j < |f| && PlainJump(f[j]) ==> j + 2 < |f| && !f[j + 1].Mark? && !f[j + 2].Mark?)
  }

  lemma SoundConcat(f: Code, g: Code)
    requires Sound(f) && Sound(g)
    ensures Sound(f + g)
  {
    var h := f + g;
    forall j | 0 <= j < |h| && PlainJump(h[j]) ensures j + 2 < |h| && !h[j + 1].Mark? && !h[j + 2].Mark? {
      if j < |f| {
        assert PlainJump(f[j]) && h[j + 1] == f[j + 1] && h[j + 2] == f[j + 2];
      } else {
        var i := j - |f|;
        assert PlainJump(g[i]) && h[j + 1] == g[i + 1] && h[j + 2] == g[i + 2];
      }
    }
  }

  /** The items argument checks are made of. */
  lemma CheckItems()
    ensures forall k :: Emittable(Load(k)) && !PlainJump(Load(k))
    ensures forall k :: Emittable(Mask(k)) && !PlainJump(Mask(k))
    ensures forall l: Label :: Emittable(Mark(l))
    ensures forall op, k, l :: (op == JEQ_K || op == JGE_K || op == JGT_K) ==>
              Emittable(False(op, k, 0, l)) && Emittable(True(op, k, l, 0))
  {
  }

  lemma SoundArg(arg: ArgRule, i: nat, set_: nat, sysno: u64, rule: nat)
    requires i < RULE_SIZE
    ensures Sound(ArgCode(arg, i, set_, sysno, rule))
  {
    hide IsTest, Load, Mask, LowOffset, HighOffset, Low, High, Emittable;
    CheckItems();
  }

  lemma {:induction false} SoundArgs(r: Rule, i: nat, set_: nat, sysno: u64, rule: nat)
    requires i <= RULE_SIZE
    ensures Sound(ArgsCode(r, i, set_, sysno, rule))
    decreases RULE_SIZE - i
  {
    if i < RULE_SIZE {
      SoundArgs(r, i + 1, set_, sysno, rule);
      SoundArg(r[i], i, set_, sysno, rule);
      hide Sound, ArgCode;
      SoundConcat(ArgCode(r[i], i, set_, sysno, rule), ArgsCode(r, i + 1, set_, sysno, rule));
    }
  }

  lemma SoundRule(r: Rule, action: u32, set_: nat, sysno: u64, rule: nat)
    ensures Sound(RuleCode(r, action, set_, sysno, rule))
  {
    var tail := if Labelled(r, 0) then [Mark(RuleViolation(set_, sysno, rule))] else [];
    assert Sound([RetK(action)]) && Sound(tail);
    hide Sound, ArgsCode, Labelled;
    SoundArgs(r, 0, set_, sysno, rule);
    SoundConcat(ArgsCode(r, 0, set_, sysno, rule), [RetK(action)]);
    SoundConcat(ArgsCode(r, 0, set_, sysno, rule) + [RetK(action)], tail);
  }

  lemma {:induction false} SoundRules(rules: seq<Rule>, j: nat, action: u32, set_: nat, sysno: u64)
    requires j <= |rules|
    ensures Sound(RulesCode(rules, j, action, set_, sysno))
    decreases |rules| - j
  {
    if j < |rules| {
      hide Sound, RuleCode;
      SoundRule(rules[j], action, set_, sysno, j);
      SoundRules(rules, j + 1, action, set_, sysno);
      SoundConcat(RuleCode(rules[j], action, set_, sysno, j), RulesCode(rules, j + 1, action, set_, sysno));
    }
  }

  lemma SoundSet(rs: RuleSet, set_: nat, sysno: u64)
    ensures Sound(SetCode(rs, set_, sysno))
  {
    if sysno in rs.rules {
      var l := VsyscallViolation(set_, sysno);
      var test, f := [Load(OFFSET_IP_HIGH), False(JSET_K, TWO_31, 0, l)], MatchersCode(rs, set_, sysno);
      assert Sound(test) && Sound([Mark(l)]) && Sound([RetK(rs.action)]);
      hide Sound, RulesCode;
      SoundRules(rs.rules[sysno], 0, rs.action, set_, sysno);
      assert Sound(f);
      SoundConcat(test, f);
      SoundConcat(test + f, [Mark(l)]);
    }
  }

  lemma {:induction false} SoundSets(sets: seq<RuleSet>, j: nat, sysno: u64)
    requires j <= |sets|
    ensures Sound(SetsCode(sets, j, sysno))
    decreases |sets| - j
  {
    if j < |sets| {
      hide Sound, SetCode;
      SoundSet(sets[j], j, sysno);
      SoundSets(sets, j + 1, sysno);
      SoundConcat(SetCode(sets[j], j, sysno), SetsCode(sets, j + 1, sysno));
    }
  }

  lemma SoundTurn(n: Tree)
    requires n.Node?
    ensures Sound(TurnCode(n))
  {
  }

  lemma SoundBody(sets: seq<RuleSet>, n: Tree)
    requires n.Node?
    ensures Sound(BodyCode(sets, n))
  {
    var v := n.value;
    var turn, mark, f := TurnCode(n), [Mark(CheckArgs(v))], SetsCode(sets, 0, v);
    var tail := if Emitted(sets, 0, v) then [] else [Direct(DefaultAction)];
    assert Sound(mark) && Sound(tail) by { hide TurnCode, SetsCode, Emitted; }
    hide Sound, SetsCode, TurnCode, Emitted;
    SoundTurn(n);
    SoundSets(sets, 0, v);
    SoundConcat(mark, f);
    SoundConcat(mark + f, tail);
    SoundConcat(turn, mark + f + tail);
  }

  lemma {:induction false} SoundTree(sets: seq<RuleSet>, n: Tree, root: bool)
    ensures Sound(TreeCode(sets, n, root))
  {
    if n.Node? {
      var mark := if root then [] else [Mark(Index(n.value))];
      assert Sound(mark);
      hide Sound, BodyCode;
      SoundTree(sets, n.left, false);
      SoundTree(sets, n.right, false);
      SoundBody(sets, n);
      SoundConcat(mark, BodyCode(sets, n));
      SoundConcat(mark + BodyCode(sets, n), TreeCode(sets, n.left, false));
      SoundConcat(mark + BodyCode(sets, n) + TreeCode(sets, n.left, false), TreeCode(sets, n.right, false));
    }
  }

  /** The instruction of an emitted item is valid where it stands. */
  lemma ValidInsn(t: Code, p: seq<Insn>, k: nat)
    requires Resolvable(t) && Assembled(p, t) && k < |t| && !t[k].Mark? && Emittable(t[k])
    requires !t[k].Plain? || PlainJump(t[k]) ==> Line(t, k) + 1 < |p|
    requires PlainJump(t[k]) ==> Line(t, k) + 2 < |p|
    ensures Line(t, k) < |p| && CheckInsn(p[Line(t, k)], Line(t, k), |p|) == None
  {
    hide Resolvable, Assembled, Line, FirstMark;
    FieldsResolved(t, p, k);
  }

  /** The shape of a whole program: sound items, ending in a return that nothing
      but a mark precedes, the only jump in the prologue aside. */
  ghost predicate Shaped(t: Code) {
    && |t| >= 5
    && (forall j :: 0 <= j < |t| ==> Emittable(t[j]))
    && (forall j :: 0 <= j < |t| && PlainJump(t[j]) ==> j == 1 || (j + 3 < |t| && !t[j + 1].Mark? && !t[j + 2].Mark?))
    && !t[0].Mark? && !t[1].Mark? && !t[2].Mark?
    && t[|t| - 1].Plain? && t[|t| - 1].insn.op == RET | SRC_K
  }

  lemma SoundIndex(sets: seq<RuleSet>, s: seq<u64>)
    ensures Sound(IndexCode(sets, s))
  {
    if sets != [] && s != [] {
      assert Sound([Load(OFFSET_NR)]);
      hide Sound, CreateBST, TreeCode;
      SoundTree(sets, CreateBST(s), true);
      SoundConcat([Load(OFFSET_NR)], TreeCode(sets, CreateBST(s), true));
    }
  }

  lemma ShapeAround(f: Code, g: Code, h: Code)
    requires |f| == 3 && Emittable(f[0]) && Emittable(f[1]) && Emittable(f[2])
    requires !f[0].Mark? && !f[1].Mark? && !f[2].Mark? && !PlainJump(f[0]) && !PlainJump(f[2])
    requires Sound(g)
    requires |h| == 2 && Emittable(h[0]) && Emittable(h[1]) && !PlainJump(h[0]) && !PlainJump(h[1])
    requires h[1].Plain? && h[1].insn.op == RET | SRC_K
    ensures Shaped(f + g + h)
  {
    var t := f + g + h;
    hide Emittable, PlainJump;
    forall j | 0 <= j < |t| ensures Emittable(t[j]) {}
    forall j | 0 <= j < |t| && PlainJump(t[j]) && j != 1 ensures j + 3 < |t| && !t[j + 1].Mark? && !t[j + 2].Mark? {
      assert t[j] == g[j - 3] && PlainJump(g[j - 3]);
      assert t[j + 1] == g[j - 3 + 1] && t[j + 2] == g[j - 3 + 2];
    }
  }

  lemma ProgramShape(sets: seq<RuleSet>, s: seq<u64>, arch: u32, defaultAction: u32, badArchAction: u32)
    ensures Shaped(ProgramCode(sets, s, arch, defaultAction, badArchAction))
  {
    hide IndexCode, Sound, Shaped;
    SoundIndex(sets, s);
    ShapeAround(ArchCode(arch, badArchAction), IndexCode(sets, s), [Mark(DefaultAction), RetK(defaultAction)]);
  }

  lemma ThreeLines(t: Code, k: nat)
    requires k + 3 < |t| && !t[k].Mark? && !t[k + 1].Mark? && !t[k + 2].Mark?
    ensures Line(t, k) + 3 <= Line(t, |t|)
  {
    LineMonotone(t, k + 3, |t|);
    assert Line(t, k + 1) == Line(t, k) + 1;
    assert Line(t, k + 2) == Line(t, k) + 2;
  }

  /** Enough instructions follow each jump of a shaped program. */
  lemma RoomAfter(t: Code, k: nat)
    requires Shaped(t) && k < |t| && !t[k].Mark?
    ensures !t[k].Plain? || PlainJump(t[k]) ==> Line(t, k) + 1 < Line(t, |t|)
    ensures PlainJump(t[k]) ==> Line(t, k) + 2 < Line(t, |t|)
  {
    var last := |t| - 1;
    var jump := PlainJump(t[k]);
    assert k == last ==> t[k].Plain? && !jump;
    assert t[last].Plain?;
    assert !t[1].Mark? && !t[2].Mark?;
    assert jump && k != 1 ==> k + 3 < |t| && !t[k + 1].Mark? && !t[k + 2].Mark?;
    hide Shaped, PlainJump;
    if jump && k != 1 {
      ThreeLines(t, k);
    } else if k == 1 {
      assert Line(t, 2) == Line(t, 1) + 1;
      assert Line(t, 3) == Line(t, 2) + 1;
      hide Line;
      LineMonotone(t, 3, last);
      LineMonotone(t, last, |t|);
    } else if k < last {
      hide Line;
      LineMonotone(t, k, last);
      LineMonotone(t, last, |t|);
    }
  }

  lemma LastLine(t: Code, p: seq<Insn>)
    requires Shaped(t) && Resolvable(t) && Assembled(p, t)
    ensures |p| > 0 && EndsInReturn(p)
  {
    var last := |t| - 1;
    assert t[last].Plain? && t[last].insn.op == RET | SRC_K;
    assert |p| == Line(t, |t|) == Line(t, last) + 1;
    hide Shaped, Resolvable, Assembled, Line, FirstMark;
    FieldsResolved(t, p, last);
  }

  lemma ValidLine(t: Code, p: seq<Insn>, pc: nat)
    requires Shaped(t) && Resolvable(t) && Assembled(p, t) && pc < |p|
    ensures CheckInsn(p[pc], pc, |p|) == None
  {
    assert |p| == Line(t, |t|);
    hide CheckInsn, Line, Resolvable, Assembled;
    var k := CallOfLine(t, |t|, pc);
    assert Emittable(t[k]);
    hide Shaped, Emittable, PlainJump;
    RoomAfter(t, k);
    ValidInsn(t, p, k);
  }

  lemma ShapedAccepted(t: Code, p: seq<Insn>)
    requires Shaped(t) && Resolvable(t) && Assembled(p, t)
    ensures Accepted(p) <==> |p| <= MAX_INSTRUCTIONS
  {
    hide Shaped, Resolvable, Assembled, CheckInsn, EndsInReturn;
    LastLine(t, p);
    forall pc | 0 <= pc < |p| ensures CheckInsn(p[pc], pc, |p|) == None { ValidLine(t, p, pc); }
  }

  /** Every built filter passes the validator, length aside. */
  lemma FilterAccepted(p: seq<Insn>, sets: seq<RuleSet>, s: seq<u64>, arch: u32, defaultAction: u32, badArchAction: u32)
    requires Built(Some(p), sets, s, arch, defaultAction, badArchAction)
    ensures Accepted(p) <==> |p| <= MAX_INSTRUCTIONS
  {
    var t := ProgramCode(sets, s, arch, defaultAction, badArchAction);
    hide ProgramCode;
    ProgramShape(sets, s, arch, defaultAction, badArchAction);
    ShapedAccepted(t, p);
  }
}
