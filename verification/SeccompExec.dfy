/** What the emitted code does when it runs. */
module SeccompExec {
  import opened Words
  import opened Bpf
  import opened ProgramBuilders
  import opened LabelledCode
  import opened SeccompRules
  import opened SeccompCode

  function In(d: SeccompData): Input { InputBytes(d, LittleEndian) }

  /** The run of t from position k on data d. */
  function Go(t: Code, k: nat, d: SeccompData, m: Machine): Option<u32>
    requires k <= |t|
  {
    var r := RunLabelled(t, k, In(d), m);
    if r.Return? then Some(r.value) else None
  }

  /** Fragment f stands in t at position k. */
  ghost predicate At(t: Code, k: nat, f: Code) {
    && k + |f| <= |t|
    && forall j :: 0 <= j < |f| ==> t[k + j] == f[j]
  }

  /** No label is marked twice. */
  ghost predicate Unique(t: Code) {
    forall i, j :: 0 <= i < j < |t| && t[i].Mark? ==> t[i] != t[j]
  }

  lemma AtItem(t: Code, k: nat, f: Code, i: nat)
    requires At(t, k, f) && i < |f|
    ensures k + |f| <= |t| && t[k + i] == f[i]
  {
  }

  lemma AtSplit(t: Code, k: nat, f: Code, g: Code)
    requires At(t, k, f + g)
    ensures At(t, k, f) && At(t, k + |f|, g)
  {
    forall j | 0 <= j < |f| ensures t[k + j] == f[j] {
      assert t[k + j] == (f + g)[j];
    }
    forall j | 0 <= j < |g| ensures t[k + |f| + j] == g[j] {
      assert t[k + (|f| + j)] == (f + g)[|f| + j];
    }
  }

  lemma FindMark(t: Code, k: nat, l: Label, b: nat)
    requires Unique(t) && k <= b < |t| && t[b] == Mark(l)
    ensures Find(t, k, l) == b
  {
    var f := Find(t, k, l);
    assert f <= b;
  }

  // ----- single steps -----

  lemma AtLoad(t: Code, k: nat, off: u32, d: SeccompData, m: Machine)
    requires k < |t| && t[k] == Load(off) && off + 4 <= DATA_SIZE
    ensures Go(t, k, d, m) == Go(t, k + 1, d, m.(a := Word(d, off)))
  {
    LoadStep(off, d, m, Line(t, k));
    assert Skip(t, k + 1, 0) == k + 1;
  }

  lemma LoadStep(off: u32, d: SeccompData, m: Machine, pc: nat)
    requires off + 4 <= DATA_SIZE
    ensures Step(Stmt(LD | ABS | W, off), In(d), m, pc) == Next(m.(a := Word(d, off)), 0)
  {
  }

  lemma AtMask(t: Code, k: nat, c: u32, d: SeccompData, m: Machine)
    requires k < |t| && t[k] == Mask(c)
    ensures Go(t, k, d, m) == Go(t, k + 1, d, m.(a := And32(m.a, c)))
  {
    MaskStep(c, d, m, Line(t, k));
    assert Skip(t, k + 1, 0) == k + 1;
  }

  lemma MaskStep(c: u32, d: SeccompData, m: Machine, pc: nat)
    ensures Step(Stmt(ALU | AND_OP | SRC_K, c), In(d), m, pc) == Next(m.(a := And32(m.a, c)), 0)
  {
  }

  lemma AtRet(t: Code, k: nat, action: u32, d: SeccompData, m: Machine)
    requires k < |t| && t[k] == RetK(action)
    ensures Go(t, k, d, m) == Some(action)
  {
  }

  lemma AtMark(t: Code, k: nat, d: SeccompData, m: Machine)
    requires k < |t| && t[k].Mark?
    ensures Go(t, k, d, m) == Go(t, k + 1, d, m)
  {
  }

  lemma AtDirect(t: Code, k: nat, l: Label, b: nat, d: SeccompData, m: Machine)
    requires Unique(t) && k < b < |t| && t[k] == Direct(l) && t[b] == Mark(l)
    ensures Go(t, k, d, m) == Go(t, b, d, m)
  {
    FindMark(t, k + 1, l, b);
  }

  predicate IsTest(op: bv16) { op == JEQ_K || op == JGT_K || op == JGE_K || op == JSET_K }

  /** The comparison of A with a constant that a jump makes. */
  predicate Test(op: bv16, a: u32, c: u32)
    requires IsTest(op)
  {
    if op == JEQ_K then a == c else if op == JGT_K then a > c else if op == JGE_K then a >= c else And32(a, c) != 0
  }

  lemma TestIsCondition(op: bv16, c: u32, m: Machine)
    requires IsTest(op)
    ensures IsConditional(op) && (Condition(op, c, m) <==> Test(op, m.a, c))
  {
  }

  lemma AtFalse(t: Code, k: nat, op: bv16, c: u32, l: Label, b: nat, d: SeccompData, m: Machine)
    requires IsTest(op) && Unique(t) && k < b < |t| && t[k] == False(op, c, 0, l) && t[b] == Mark(l)
    ensures Go(t, k, d, m) == Go(t, if Test(op, m.a, c) then k + 1 else b, d, m)
  {
    hide IsConditional, Condition, Test, IsTest;
    TestIsCondition(op, c, m);
    FindMark(t, k + 1, l, b);
    assert Skip(t, k + 1, 0) == k + 1;
  }

  lemma AtTrue(t: Code, k: nat, op: bv16, c: u32, l: Label, b: nat, d: SeccompData, m: Machine)
    requires IsTest(op) && Unique(t) && k < b < |t| && t[k] == True(op, c, l, 0) && t[b] == Mark(l)
    ensures Go(t, k, d, m) == Go(t, if Test(op, m.a, c) then b else k + 1, d, m)
  {
    hide IsConditional, Condition, Test, IsTest;
    TestIsCondition(op, c, m);
    FindMark(t, k + 1, l, b);
    assert Skip(t, k + 1, 0) == k + 1;
  }

  // ----- one entry -----

  lemma OperandParts(d: SeccompData, i: nat)
    requires i < RULE_SIZE
    ensures Word(d, LowOffset(i)) == Low(Operand(d, i))
    ensures Word(d, HighOffset(i)) == High(Operand(d, i))
  {
    DoubleWordParts(d, LowOffset(i));
  }

  /** Unsigned 64-bit order from the order of the halves. */
  lemma OrderSplits(x: u64, v: u64)
    ensures x == v <==> High(x) == High(v) && Low(x) == Low(v)
    ensures x > v <==> High(x) > High(v) || (High(x) == High(v) && Low(x) > Low(v))
  {
  }

  /** A check's outcome: on a match the run goes on after the fragment, else at
      the rule's end b; only register A changes. */
  ghost predicate Branches(t: Code, k: nat, n: nat, b: nat, ok: bool, d: SeccompData, m: Machine, a: u32)
    requires k + n <= |t| && b <= |t|
  {
    Go(t, k, d, m) == Go(t, if ok then k + n else b, d, m.(a := a))
  }

  lemma EqualRuns(t: Code, k: nat, v: u64, i: nat, bad: Label, b: nat, d: SeccompData, m: Machine) returns (a: u32)
    requires i < RULE_SIZE && Unique(t) && k + 4 <= b < |t| && t[b] == Mark(bad)
    requires t[k] == Load(LowOffset(i)) && t[k + 1] == False(JEQ_K, Low(v), 0, bad)
    requires t[k + 2] == Load(HighOffset(i)) && t[k + 3] == False(JEQ_K, High(v), 0, bad)
    ensures Branches(t, k, 4, b, Operand(d, i) == v, d, m, a)
  {
    hide Go;
    OperandParts(d, i);
    OrderSplits(Operand(d, i), v);
    var x := Operand(d, i);
    hide Operand, Word, High, Low, Unique;
    AtLoad(t, k, LowOffset(i), d, m);
    AtFalse(t, k + 1, JEQ_K, Low(v), bad, b, d, m.(a := Low(x)));
    AtLoad(t, k + 2, HighOffset(i), d, m.(a := Low(x)));
    AtFalse(t, k + 3, JEQ_K, High(v), bad, b, d, m.(a := High(x)));
    a := if Low(x) == Low(v) then High(x) else Low(x);
  }

  lemma NotEqualRuns(t: Code, k: nat, v: u64, i: nat, good: Label, bad: Label, b: nat, d: SeccompData, m: Machine)
    returns (a: u32)
    requires i < RULE_SIZE && Unique(t) && k + 5 <= b < |t| && t[b] == Mark(bad)
    requires t[k] == Load(LowOffset(i)) && t[k + 1] == False(JEQ_K, Low(v), 0, good)
    requires t[k + 2] == Load(HighOffset(i)) && t[k + 3] == True(JEQ_K, High(v), bad, 0)
    requires t[k + 4] == Mark(good)
    ensures Branches(t, k, 5, b, Operand(d, i) != v, d, m, a)
  {
    hide Go;
    OperandParts(d, i);
    OrderSplits(Operand(d, i), v);
    var x := Operand(d, i);
    hide Operand, Word, High, Low, Unique;
    AtLoad(t, k, LowOffset(i), d, m);
    AtFalse(t, k + 1, JEQ_K, Low(v), good, k + 4, d, m.(a := Low(x)));
    AtLoad(t, k + 2, HighOffset(i), d, m.(a := Low(x)));
    AtTrue(t, k + 3, JEQ_K, High(v), bad, b, d, m.(a := High(x)));
    a := if Low(x) == Low(v) then High(x) else Low(x);
    AtMark(t, k + 4, d, m.(a := a));
  }

  /** GreaterThan and GreaterThanOrEqual, which differ in the low comparison. */
  lemma GreaterRuns(t: Code, k: nat, v: u64, op: bv16, i: nat, good: Label, bad: Label, b: nat, d: SeccompData,
                    m: Machine)
    returns (a: u32)
    requires op == JGT_K || op == JGE_K
    requires i < RULE_SIZE && Unique(t) && k + 6 <= b < |t| && t[b] == Mark(bad)
    requires t[k] == Load(HighOffset(i)) && t[k + 1] == False(JGE_K, High(v), 0, bad)
    requires t[k + 2] == False(JEQ_K, High(v), 0, good) && t[k + 3] == Load(LowOffset(i))
    requires t[k + 4] == False(op, Low(v), 0, bad) && t[k + 5] == Mark(good)
    ensures Branches(t, k, 6, b, if op == JGT_K then Operand(d, i) > v else Operand(d, i) >= v, d, m, a)
  {
    hide Go;
    OperandParts(d, i);
    OrderSplits(Operand(d, i), v);
    var x := Operand(d, i);
    hide Operand, Word, High, Low, Unique;
    var mh := m.(a := High(x));
    AtLoad(t, k, HighOffset(i), d, m);
    AtFalse(t, k + 1, JGE_K, High(v), bad, b, d, mh);
    AtFalse(t, k + 2, JEQ_K, High(v), good, k + 5, d, mh);
    AtLoad(t, k + 3, LowOffset(i), d, mh);
    AtFalse(t, k + 4, op, Low(v), bad, b, d, m.(a := Low(x)));
    a := if High(x) == High(v) then Low(x) else High(x);
    AtMark(t, k + 5, d, m.(a := a));
  }

  /** LessThan and LessThanOrEqual, which differ in the low comparison. */
  lemma LessRuns(t: Code, k: nat, v: u64, op: bv16, i: nat, good: Label, bad: Label, b: nat, d: SeccompData, m: Machine)
    returns (a: u32)
    requires op == JGT_K || op == JGE_K
    requires i < RULE_SIZE && Unique(t) && k + 6 <= b < |t| && t[b] == Mark(bad)
    requires t[k] == Load(HighOffset(i)) && t[k + 1] == True(JGT_K, High(v), bad, 0)
    requires t[k + 2] == False(JEQ_K, High(v), 0, good) && t[k + 3] == Load(LowOffset(i))
    requires t[k + 4] == True(op, Low(v), bad, 0) && t[k + 5] == Mark(good)
    ensures Branches(t, k, 6, b, if op == JGE_K then Operand(d, i) < v else Operand(d, i) <= v, d, m, a)
  {
    hide Go;
    OperandParts(d, i);
    OrderSplits(Operand(d, i), v);
    var x := Operand(d, i);
    hide Operand, Word, High, Low, Unique;
    var mh := m.(a := High(x));
    AtLoad(t, k, HighOffset(i), d, m);
    AtTrue(t, k + 1, JGT_K, High(v), bad, b, d, mh);
    AtFalse(t, k + 2, JEQ_K, High(v), good, k + 5, d, mh);
    AtLoad(t, k + 3, LowOffset(i), d, mh);
    AtTrue(t, k + 4, op, Low(v), bad, b, d, m.(a := Low(x)));
    a := if High(x) == High(v) then Low(x) else High(x);
    AtMark(t, k + 5, d, m.(a := a));
  }

  lemma MaskedRuns(t: Code, k: nat, mask: u64, v: u64, i: nat, bad: Label, b: nat, d: SeccompData, m: Machine)
    returns (a: u32)
    requires i < RULE_SIZE && Unique(t) && k + 6 <= b < |t| && t[b] == Mark(bad)
    requires t[k] == Load(LowOffset(i)) && t[k + 1] == Mask(Low(mask)) && t[k + 2] == False(JEQ_K, Low(v), 0, bad)
    requires t[k + 3] == Load(HighOffset(i)) && t[k + 4] == Mask(High(mask))
    requires t[k + 5] == False(JEQ_K, High(v), 0, bad)
    ensures Branches(t, k, 6, b, And(Operand(d, i), mask) == v, d, m, a)
  {
    hide Go, And, And32;
    OperandParts(d, i);
    MaskedEqualSplits(Operand(d, i), mask, v);
    var x := Operand(d, i);
    hide Operand, Word, High, Low, Unique;
    var ml, mh := And32(Low(x), Low(mask)), And32(High(x), High(mask));
    AtLoad(t, k, LowOffset(i), d, m);
    AtMask(t, k + 1, Low(mask), d, m.(a := Low(x)));
    AtFalse(t, k + 2, JEQ_K, Low(v), bad, b, d, m.(a := ml));
    AtLoad(t, k + 3, HighOffset(i), d, m.(a := ml));
    AtMask(t, k + 4, High(mask), d, m.(a := High(x)));
    AtFalse(t, k + 5, JEQ_K, High(v), bad, b, d, m.(a := mh));
    a := if ml == Low(v) then mh else ml;
  }

  /** The check of any known entry. */
  lemma ArgRuns(t: Code, k: nat, arg: ArgRule, i: nat, set_: nat, sysno: u64, rule: nat, b: nat, d: SeccompData,
                m: Machine)
    returns (a: u32)
    requires i < RULE_SIZE && Unique(t) && At(t, k, ArgCode(arg, i, set_, sysno, rule)) && !arg.Unknown? && b <= |t|
    requires !Trivial(arg) ==>
               k + |ArgCode(arg, i, set_, sysno, rule)| <= b < |t| && t[b] == Mark(RuleViolation(set_, sysno, rule))
    ensures Branches(t, k, |ArgCode(arg, i, set_, sysno, rule)|, b, ArgMatches(arg, Operand(d, i)), d, m, a)
  {
    var bad := RuleViolation(set_, sysno, rule);
    var f := ArgCode(arg, i, set_, sysno, rule);
    if Trivial(arg) {
      a := m.a;
      assert m.(a := a) == m;
      return;
    }
    assert t[k + 0] == f[0] && t[k + 1] == f[1] && t[k + 2] == f[2] && t[k + 3] == f[3];
    assert |f| > 4 ==> t[k + 4] == f[4];
    assert |f| > 5 ==> t[k + 5] == f[5];
    hide Operand, Unique, At;
    match arg
    case EqualTo(v) => a := EqualRuns(t, k, v, i, bad, b, d, m);
    case NotEqual(v) => a := NotEqualRuns(t, k, v, i, RuleLabel(set_, sysno, rule, Ne, i), bad, b, d, m);
    case GreaterThan(v) => a := GreaterRuns(t, k, v, JGT_K, i, RuleLabel(set_, sysno, rule, Gt, i), bad, b, d, m);
    case GreaterThanOrEqual(v) =>
      a := GreaterRuns(t, k, v, JGE_K, i, RuleLabel(set_, sysno, rule, Ge, i), bad, b, d, m);
    case LessThan(v) => a := LessRuns(t, k, v, JGE_K, i, RuleLabel(set_, sysno, rule, Lt, i), bad, b, d, m);
    case LessThanOrEqual(v) => a := LessRuns(t, k, v, JGT_K, i, RuleLabel(set_, sysno, rule, Le, i), bad, b, d, m);
    case MaskedEqual(mask, v) => a := MaskedRuns(t, k, mask, v, i, bad, b, d, m);
  }

  // ----- rules -----

  predicate Known(r: Rule) { forall i :: 0 <= i < RULE_SIZE ==> !r[i].Unknown? }

  /** Entries i and up all match. */
  predicate ArgsMatch(r: Rule, i: nat, d: SeccompData)
    requires i <= RULE_SIZE
    decreases RULE_SIZE - i
  {
    i == RULE_SIZE || (ArgMatches(r[i], Operand(d, i)) && ArgsMatch(r, i + 1, d))
  }

  lemma {:induction false} ArgsMatchIff(r: Rule, i: nat, d: SeccompData)
    requires i <= RULE_SIZE
    ensures ArgsMatch(r, i, d) <==> forall j :: i <= j < RULE_SIZE ==> ArgMatches(r[j], Operand(d, j))
    decreases RULE_SIZE - i
  {
    if i < RULE_SIZE { ArgsMatchIff(r, i + 1, d); }
  }

  lemma {:induction false} ArgsRun(t: Code, k: nat, r: Rule, i: nat, set_: nat, sysno: u64, rule: nat, b: nat,
                                   d: SeccompData, m: Machine)
    returns (a: u32)
    requires i <= RULE_SIZE && Unique(t) && At(t, k, ArgsCode(r, i, set_, sysno, rule)) && Known(r) && b <= |t|
    requires Labelled(r, i) ==>
               k + |ArgsCode(r, i, set_, sysno, rule)| <= b < |t| && t[b] == Mark(RuleViolation(set_, sysno, rule))
    ensures Branches(t, k, |ArgsCode(r, i, set_, sysno, rule)|, b, ArgsMatch(r, i, d), d, m, a)
    decreases RULE_SIZE - i
  {
    hide Operand, Unique, ArgMatches, Go, ArgCode;
    if i == RULE_SIZE {
      a := m.a;
      assert m.(a := a) == m;
    } else {
      var f := ArgCode(r[i], i, set_, sysno, rule);
      AtSplit(t, k, f, ArgsCode(r, i + 1, set_, sysno, rule));
      hide At;
      var a' := ArgRuns(t, k, r[i], i, set_, sysno, rule, b, d, m);
      a := ArgsRun(t, k + |f|, r, i + 1, set_, sysno, rule, b, d, m.(a := a'));
      if !ArgMatches(r[i], Operand(d, i)) { a := a'; }
    }
  }

  lemma RuleParts(t: Code, k: nat, r: Rule, action: u32, set_: nat, sysno: u64, rule: nat)
    requires At(t, k, RuleCode(r, action, set_, sysno, rule))
    ensures var f := ArgsCode(r, 0, set_, sysno, rule);
            && At(t, k, f) && k + |f| < |t| && t[k + |f|] == RetK(action)
            && k + |RuleCode(r, action, set_, sysno, rule)| == k + |f| + (if Labelled(r, 0) then 2 else 1) <= |t|
            && (Labelled(r, 0) ==> t[k + |f| + 1] == Mark(RuleViolation(set_, sysno, rule)))
  {
    hide ArgsCode, Labelled, At;
    var f := ArgsCode(r, 0, set_, sysno, rule);
    var tail := if Labelled(r, 0) then [Mark(RuleViolation(set_, sysno, rule))] else [];
    AtSplit(t, k, f + [RetK(action)], tail);
    AtSplit(t, k, f, [RetK(action)]);
    AtItem(t, k + |f|, [RetK(action)], 0);
    if Labelled(r, 0) { AtItem(t, k + |f + [RetK(action)]|, tail, 0); }
  }

  /** One rule returns its action exactly when it matches, and falls through
      otherwise. */
  lemma RuleRuns(t: Code, k: nat, r: Rule, action: u32, set_: nat, sysno: u64, rule: nat, d: SeccompData, m: Machine)
    returns (a: u32)
    requires Unique(t) && At(t, k, RuleCode(r, action, set_, sysno, rule)) && Known(r)
    ensures Go(t, k, d, m) == if RuleMatches(r, d) then Some(action)
                              else Go(t, k + |RuleCode(r, action, set_, sysno, rule)|, d, m.(a := a))
  {
    hide Operand, Unique, ArgMatches, Go, ArgsCode, At, Known, RuleCode, Labelled, ArgsMatch;
    RuleParts(t, k, r, action, set_, sysno, rule);
    ArgsMatchIff(r, 0, d);
    hide RuleMatches;
    var n := k + |ArgsCode(r, 0, set_, sysno, rule)|;
    a := ArgsRun(t, k, r, 0, set_, sysno, rule, n + 1, d, m);
    if ArgsMatch(r, 0, d) {
      AtRet(t, n, action, d, m.(a := a));
    } else {
      if !Labelled(r, 0) { UnlabelledMatches(r, 0, d); assert false; }
      AtMark(t, n + 1, d, m.(a := a));
    }
  }

  lemma {:induction false} UnlabelledMatches(r: Rule, i: nat, d: SeccompData)
    requires i <= RULE_SIZE && !Labelled(r, i)
    ensures ArgsMatch(r, i, d)
    decreases RULE_SIZE - i
  {
    if i < RULE_SIZE { UnlabelledMatches(r, i + 1, d); }
  }

  predicate RulesMatchFrom(rules: seq<Rule>, j: nat, d: SeccompData)
    requires j <= |rules|
    decreases |rules| - j
  {
    j < |rules| && (RuleMatches(rules[j], d) || RulesMatchFrom(rules, j + 1, d))
  }

  lemma {:induction false} RulesMatchFromIff(rules: seq<Rule>, j: nat, d: SeccompData)
    requires j <= |rules|
    ensures RulesMatchFrom(rules, j, d) <==> exists i :: j <= i < |rules| && RuleMatches(rules[i], d)
    decreases |rules| - j
  {
    hide RuleMatches;
    if j < |rules| { RulesMatchFromIff(rules, j + 1, d); }
  }

  lemma {:induction false} RulesRun(t: Code, k: nat, rules: seq<Rule>, j: nat, action: u32, set_: nat, sysno: u64,
                                    d: SeccompData, m: Machine)
    returns (a: u32)
    requires j <= |rules| && Unique(t) && At(t, k, RulesCode(rules, j, action, set_, sysno))
    requires forall i :: 0 <= i < |rules| ==> Known(rules[i])
    ensures Go(t, k, d, m) == if RulesMatchFrom(rules, j, d) then Some(action)
                              else Go(t, k + |RulesCode(rules, j, action, set_, sysno)|, d, m.(a := a))
    decreases |rules| - j
  {
    hide RuleMatches, RuleCode, Unique, Go, Known;
    if j == |rules| {
      a := m.a;
      assert m.(a := a) == m;
    } else {
      var f := RuleCode(rules[j], action, set_, sysno, j);
      AtSplit(t, k, f, RulesCode(rules, j + 1, action, set_, sysno));
      hide At;
      var a' := RuleRuns(t, k, rules[j], action, set_, sysno, j, d, m);
      a := RulesRun(t, k + |f|, rules, j + 1, action, set_, sysno, d, m.(a := a'));
    }
  }

  // ----- rule sets -----

  predicate KnownSet(rs: RuleSet, sysno: u64) {
    sysno in rs.rules ==> forall i :: 0 <= i < |rs.rules[sysno]| ==> Known(rs.rules[sysno][i])
  }

  lemma MatchersRun(t: Code, k: nat, rs: RuleSet, set_: nat, sysno: u64, d: SeccompData, m: Machine)
    returns (a: u32)
    requires Unique(t) && sysno in rs.rules && At(t, k, MatchersCode(rs, set_, sysno)) && KnownSet(rs, sysno)
    ensures Go(t, k, d, m) == if RulesMatch(rs.rules[sysno], d) then Some(rs.action)
                              else Go(t, k + |MatchersCode(rs, set_, sysno)|, d, m.(a := a))
  {
    hide Unique, Go, Known, RuleMatches;
    var rules := rs.rules[sysno];
    if rules == [] {
      assert t[k + 0] == [RetK(rs.action)][0];
      AtRet(t, k, rs.action, d, m);
      a := m.a;
    } else {
      a := RulesRun(t, k, rules, 0, rs.action, set_, sysno, d, m);
      RulesMatchFromIff(rules, 0, d);
    }
  }

  lemma VsyscallBit(d: SeccompData)
    ensures FromVsyscall(d) <==> Test(JSET_K, Word(d, OFFSET_IP_HIGH), TWO_31)
  {
    DoubleWordParts(d, OFFSET_IP_LOW);
    TopBit(Word(d, OFFSET_IP_HIGH));
    hide And32;
    assert Test(JSET_K, Word(d, OFFSET_IP_HIGH), TWO_31) <==> And32(Word(d, OFFSET_IP_HIGH), TWO_31) != 0;
  }

  /** One rule set returns its action exactly when it matches the call. A
      blanket set that does not match leaves the high word of the instruction
      pointer in A. */
  lemma SetRuns(t: Code, k: nat, rs: RuleSet, set_: nat, sysno: u64, d: SeccompData, m: Machine)
    returns (a: u32)
    requires Unique(t) && At(t, k, SetCode(rs, set_, sysno)) && KnownSet(rs, sysno)
    ensures Go(t, k, d, m) == if SetMatches(rs, sysno, d) then Some(rs.action)
                              else Go(t, k + |SetCode(rs, set_, sysno)|, d, m.(a := a))
    ensures Blanket(rs, sysno) && !SetMatches(rs, sysno, d) ==> a == Word(d, OFFSET_IP_HIGH)
    ensures sysno !in rs.rules ==> a == m.a
  {
    hide Unique, Go, RulesMatch, KnownSet, MatchersCode, FromVsyscall, Test, Word;
    if sysno !in rs.rules {
      a := m.a;
      assert m.(a := a) == m;
    } else if !rs.vsyscall {
      a := MatchersRun(t, k, rs, set_, sysno, d, m);
      BlanketMatches(rs, sysno, d);
    } else {
      var f := MatchersCode(rs, set_, sysno);
      var l := VsyscallViolation(set_, sysno);
      var test := [Load(OFFSET_IP_HIGH), False(JSET_K, TWO_31, 0, l)];
      AtSplit(t, k, test + f, [Mark(l)]);
      AtSplit(t, k, test, f);
      assert t[k + 0] == test[0] && t[k + 1] == test[1];
      var b := k + 2 + |f|;
      assert t[b + 0] == [Mark(l)][0];
      hide At;
      var hi := Word(d, OFFSET_IP_HIGH);
      AtLoad(t, k, OFFSET_IP_HIGH, d, m);
      AtFalse(t, k + 1, JSET_K, TWO_31, l, b, d, m.(a := hi));
      VsyscallBit(d);
      if FromVsyscall(d) {
        a := MatchersRun(t, k + 2, rs, set_, sysno, d, m.(a := hi));
        BlanketMatches(rs, sysno, d);
      } else {
        a := hi;
      }
      AtMark(t, b, d, m.(a := a));
    }
  }

  lemma BlanketMatches(rs: RuleSet, sysno: u64, d: SeccompData)
    ensures Blanket(rs, sysno) ==> RulesMatch(rs.rules[sysno], d)
  {
  }

  /** No rule set after a blanket one lists the call. */
  predicate Reachable(sets: seq<RuleSet>, j: nat, sysno: u64)
    requires j <= |sets|
    decreases |sets| - j
  {
    j < |sets| ==>
      && (Blanket(sets[j], sysno) ==> forall i :: j < i < |sets| ==> sysno !in sets[i].rules)
      && Reachable(sets, j + 1, sysno)
  }

  lemma {:induction false} SetsRun(t: Code, k: nat, sets: seq<RuleSet>, j: nat, sysno: u64, d: SeccompData, m: Machine)
    returns (a: u32)
    requires j <= |sets| && Unique(t) && At(t, k, SetsCode(sets, j, sysno))
    requires forall i :: 0 <= i < |sets| ==> KnownSet(sets[i], sysno)
    requires Reachable(sets, j, sysno)
    ensures var r := Decide(sets, sysno, d, j);
            Go(t, k, d, m) == if r.Some? then r else Go(t, k + |SetsCode(sets, j, sysno)|, d, m.(a := a))
    ensures Emitted(sets, j, sysno) && Decide(sets, sysno, d, j).None? ==> a == Word(d, OFFSET_IP_HIGH)
    ensures (forall i :: j <= i < |sets| ==> sysno !in sets[i].rules) && Decide(sets, sysno, d, j).None? ==> a == m.a
    decreases |sets| - j
  {
    hide Unique, Go, SetMatches, KnownSet, SetCode, Word, Known;
    if j == |sets| {
      a := m.a;
      assert m.(a := a) == m;
    } else {
      var f := SetCode(sets[j], j, sysno);
      AtSplit(t, k, f, SetsCode(sets, j + 1, sysno));
      hide At;
      var a' := SetRuns(t, k, sets[j], j, sysno, d, m);
      a := SetsRun(t, k + |f|, sets, j + 1, sysno, d, m.(a := a'));
      NotEmittedAfterBlanket(sets, j, sysno);
    }
  }

  lemma {:induction false} NotEmitted(sets: seq<RuleSet>, j: nat, sysno: u64)
    requires j <= |sets| && forall i :: j <= i < |sets| ==> sysno !in sets[i].rules
    ensures !Emitted(sets, j, sysno)
    decreases |sets| - j
  {
    if j < |sets| { NotEmitted(sets, j + 1, sysno); }
  }

  lemma NotEmittedAfterBlanket(sets: seq<RuleSet>, j: nat, sysno: u64)
    requires j < |sets| && Reachable(sets, j, sysno)
    ensures Blanket(sets[j], sysno) ==> !Emitted(sets, j + 1, sysno)
  {
    if Blanket(sets[j], sysno) { NotEmitted(sets, j + 1, sysno); }
  }
}
