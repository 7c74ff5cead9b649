/** The meaning of labelled code, and the correctness of label resolution: the
    resolved program runs as the labelled code it came from. */
module LabelledCode {
  import opened Words
  import opened Bpf
  import opened ProgramBuilders

  /** The first mark of l at or after position k, or the end. */
  function Find<L(==)>(t: seq<Item<L>>, k: nat, l: L): (r: nat)
    requires k <= |t|
    ensures k <= r <= |t| && (r < |t| ==> t[r] == Mark(l))
    ensures forall i :: k <= i < r ==> t[i] != Mark(l)
    decreases |t| - k
  {
    if k == |t| || t[k] == Mark(l) then k else Find(t, k + 1, l)
  }

  /** The position n instructions after position k, or the end. */
  function Skip<L>(t: seq<Item<L>>, k: nat, n: nat): (r: nat)
    requires k <= |t|
    ensures k <= r <= |t|
    decreases |t| - k
  {
    if n == 0 || k == |t| then k
    else Skip(t, k + 1, if t[k].Mark? then n else n - 1)
  }

  /** A jump whose targets are labels. */
  predicate LabelJump<L>(item: Item<L>) {
    item.Direct? || ((item.True? || item.False? || item.Both?) && IsConditional(item.op))
  }

  /** Where labelled code goes on after the jump at position k: at the next mark
      of the label, or past as many instructions as a fixed target says. */
  function JumpTo<L(==)>(t: seq<Item<L>>, k: nat, m: Machine): (r: nat)
    requires k < |t| && LabelJump(t[k])
    ensures k < r <= |t|
  {
    match t[k]
    case Direct(l) => Find(t, k + 1, l)
    case True(op, c, l, jf) => if Condition(op, c, m) then Find(t, k + 1, l) else Skip(t, k + 1, jf)
    case False(op, c, jt, l) => if Condition(op, c, m) then Skip(t, k + 1, jt) else Find(t, k + 1, l)
    case Both(op, c, lt, lf) => Find(t, k + 1, if Condition(op, c, m) then lt else lf)
  }

  /** The run of labelled code from position k. A labelled jump with an operation
      that is no conditional jump ignores its labels. */
  function RunLabelled<L(==)>(t: seq<Item<L>>, k: nat, input: Input, m: Machine): Result
    requires k <= |t|
    decreases |t| - k
  {
    if k == |t| then Failure(InvalidEndOfProgram, Line(t, k))
    else if t[k].Mark? then RunLabelled(t, k + 1, input, m)
    else if LabelJump(t[k]) then RunLabelled(t, JumpTo(t, k, m), input, m)
    else
      match Step(Placeholder(t[k]), input, m, Line(t, k))
      case Stop(r) => r
      case Next(m', off) => RunLabelled(t, Skip(t, k + 1, off), input, m')
  }

  lemma {:induction false} SkipLine<L>(t: seq<Item<L>>, k: nat, n: nat)
    requires k <= |t|
    ensures Skip(t, k, n) < |t| ==> Line(t, Skip(t, k, n)) == Line(t, k) + n
    ensures Skip(t, k, n) == |t| ==> Line(t, |t|) <= Line(t, k) + n
    decreases |t| - k
  {
    if n > 0 && k < |t| {
      SkipLine(t, k + 1, if t[k].Mark? then n else n - 1);
    }
  }

  /** A resolvable reference's jump lands on the line of its label's mark. */
  lemma FindLine<L>(t: seq<Item<L>>, k: nat, p: (L, JmpType))
    requires Resolvable(t) && k < |t| && p in Refs(t[k])
    ensures Find(t, k + 1, p.0) == FirstMark(t, p.0, |t|) < |t|
    ensures Line(t, Find(t, k + 1, p.0)) == Line(t, k) + 1 + Offset(t, k, p.0)
    ensures 0 <= Offset(t, k, p.0) <= (if p.1 == JDirect then LABEL_DIRECT_TARGET else LABEL_TARGET)
  {
    assert RefOk(t, k, p.0, p.1);
    var mark := FirstMark(t, p.0, |t|);
    if mark <= k { LineMonotone(t, mark, k); }
    assert t[mark] == Mark(p.0);
  }

  /** The program's instruction for a non-mark call, with its labels resolved. */
  lemma InsnAt<L>(t: seq<Item<L>>, p: seq<Insn>, k: nat)
    requires Assembled(p, t) && k < |t| && !t[k].Mark?
    ensures Line(t, k) < |p| && p[Line(t, k)] == Fill(t, k, SourcesOn(Line(t, k)))
  {
    var i := Fill(t, k, SourcesOn(Line(t, k)));
  }

  lemma ConditionalStep(i: Insn, input: Input, m: Machine, pc: nat)
    requires IsConditional(i.op)
    ensures Step(i, input, m, pc) == Next(m, if Condition(i.op, i.k, m) then i.jt else i.jf)
  {
  }

  lemma DirectStep(k: u32, input: Input, m: Machine, pc: nat)
    ensures Step(Jump(JMP | JA, k, 0, 0), input, m, pc) == Next(m, k)
  {
  }

  lemma RefIsOk<L>(t: seq<Item<L>>, k: nat, j: nat)
    requires Resolvable(t) && k < |t| && j < |Refs(t[k])|
    ensures RefOk(t, k, Refs(t[k])[j].0, Refs(t[k])[j].1)
  {
  }

  lemma ProgramLength<L>(t: seq<Item<L>>, p: seq<Insn>)
    requires Assembled(p, t)
    ensures |p| == Line(t, |t|)
  {
  }

  /** Each label field holds the distance to its label, which lies ahead and
      inside the program; every other field is as it was added. */
  lemma FieldsResolved<L>(t: seq<Item<L>>, p: seq<Insn>, k: nat)
    requires Resolvable(t) && Assembled(p, t) && k < |t| && !t[k].Mark?
    ensures Line(t, k) < |p|
    ensures var i, i0, s := p[Line(t, k)], Placeholder(t[k]), Line(t, k);
            match t[k]
            case Plain(insn) => i == insn
            case Direct(l) =>
              var to := Line(t, FirstMark(t, l, |t|)); s < to < |p| && i == i0.(k := i.k) && i.k == to - s - 1
            case True(_, _, l, _) =>
              var to := Line(t, FirstMark(t, l, |t|)); s < to < |p| && i == i0.(jt := i.jt) && i.jt == to - s - 1
            case False(_, _, _, l) =>
              var to := Line(t, FirstMark(t, l, |t|)); s < to < |p| && i == i0.(jf := i.jf) && i.jf == to - s - 1
            case Both(_, _, lt, lf) =>
              var to, to' := Line(t, FirstMark(t, lt, |t|)), Line(t, FirstMark(t, lf, |t|));
              && s < to < |p| && s < to' < |p|
              && i == i0.(jt := i.jt, jf := i.jf) && i.jt == to - s - 1 && i.jf == to' - s - 1
  {
    hide Resolvable, Assembled, FirstMark, Line;
    InsnAt(t, p, k);
    ProgramLength(t, p);
    match t[k]
    case Plain(_) =>
    case Direct(_) => RefIsOk(t, k, 0);
    case True(_, _, _, _) => RefIsOk(t, k, 0);
    case False(_, _, _, _) => RefIsOk(t, k, 0);
    case Both(_, _, _, _) => RefIsOk(t, k, 0); RefIsOk(t, k, 1);
  }

  /** The step of the resolved jump at position k goes to position to. */
  ghost predicate GoesTo<L>(t: seq<Item<L>>, p: seq<Insn>, k: nat, input: Input, m: Machine, to: nat)
    requires k < |t| && to <= |t|
  {
    && Line(t, k) < |p|
    && var o := Step(p[Line(t, k)], input, m, Line(t, k));
       && o.Next? && o.m == m
       && (if to < |t| then Line(t, k) + 1 + o.off == Line(t, to) else Line(t, k) + 1 + o.off >= |p|)
  }

  lemma DirectResolved<L>(t: seq<Item<L>>, p: seq<Insn>, k: nat, input: Input, m: Machine)
    requires Resolvable(t) && Assembled(p, t) && k < |t| && t[k].Direct?
    ensures GoesTo(t, p, k, input, m, JumpTo(t, k, m))
  {
    hide Step, Resolvable, Assembled, Find, FirstMark, Line;
    InsnAt(t, p, k);
    assert Refs(t[k])[0] == (t[k].l, JDirect);
    FindLine(t, k, Refs(t[k])[0]);
    DirectStep(Offset(t, k, t[k].l), input, m, Line(t, k));
  }

  lemma TrueResolved<L>(t: seq<Item<L>>, p: seq<Insn>, k: nat, input: Input, m: Machine)
    requires Resolvable(t) && Assembled(p, t) && k < |t| && t[k].True? && IsConditional(t[k].op)
    ensures GoesTo(t, p, k, input, m, JumpTo(t, k, m))
  {
    hide Step, IsConditional, Condition, Fill, RefOk;
    FieldsResolved(t, p, k);
    assert Refs(t[k])[0] == (t[k].l, JTrue);
    FindLine(t, k, Refs(t[k])[0]);
    SkipLine(t, k + 1, t[k].jf);
    hide Resolvable, Assembled, Line, Find, Skip, Refs, Offset;
    ConditionalStep(p[Line(t, k)], input, m, Line(t, k));
  }

  lemma FalseResolved<L>(t: seq<Item<L>>, p: seq<Insn>, k: nat, input: Input, m: Machine)
    requires Resolvable(t) && Assembled(p, t) && k < |t| && t[k].False? && IsConditional(t[k].op)
    ensures GoesTo(t, p, k, input, m, JumpTo(t, k, m))
  {
    hide Step, IsConditional, Condition, Fill, RefOk;
    FieldsResolved(t, p, k);
    assert Refs(t[k])[0] == (t[k].l, JFalse);
    FindLine(t, k, Refs(t[k])[0]);
    SkipLine(t, k + 1, t[k].jt);
    hide Resolvable, Assembled, Line, Find, Skip, Refs, Offset;
    ConditionalStep(p[Line(t, k)], input, m, Line(t, k));
  }

  lemma BothResolved<L>(t: seq<Item<L>>, p: seq<Insn>, k: nat, input: Input, m: Machine)
    requires Resolvable(t) && Assembled(p, t) && k < |t| && t[k].Both? && IsConditional(t[k].op)
    ensures GoesTo(t, p, k, input, m, JumpTo(t, k, m))
  {
    hide Step, IsConditional, Condition, Resolvable, Assembled, Find, FirstMark, Line;
    InsnAt(t, p, k);
    var refs := Refs(t[k]);
    assert refs[0] == (t[k].lt, JTrue) && refs[1] == (t[k].lf, JFalse);
    FindLine(t, k, refs[0]);
    FindLine(t, k, refs[1]);
    ConditionalStep(p[Line(t, k)], input, m, Line(t, k));
  }

  /** A resolved jump goes where the labelled one goes. */
  lemma JumpResolved<L>(t: seq<Item<L>>, p: seq<Insn>, k: nat, input: Input, m: Machine)
    requires Resolvable(t) && Assembled(p, t) && k < |t| && LabelJump(t[k])
    ensures GoesTo(t, p, k, input, m, JumpTo(t, k, m))
  {
    hide Step, IsConditional, Condition, JumpTo, GoesTo;
    match t[k]
    case Direct(_) => DirectResolved(t, p, k, input, m);
    case True(_, _, _, _) => TrueResolved(t, p, k, input, m);
    case False(_, _, _, _) => FalseResolved(t, p, k, input, m);
    case Both(_, _, _, _) => BothResolved(t, p, k, input, m);
  }

  /** Only conditional jumps look at the fields that labels are resolved into. */
  lemma StepIgnoresTargets(i: Insn, j: Insn, input: Input, m: Machine, pc: nat)
    requires i.op == j.op && i.k == j.k && !IsConditional(i.op)
    ensures Step(i, input, m, pc) == Step(j, input, m, pc)
  {
  }

  /** The resolved program does at the line of any other instruction what the
      labelled code does. */
  lemma PlainResolved<L>(t: seq<Item<L>>, p: seq<Insn>, k: nat, input: Input, m: Machine)
    requires Assembled(p, t) && k < |t| && !t[k].Mark? && !LabelJump(t[k])
    ensures Line(t, k) < |p|
    ensures Step(p[Line(t, k)], input, m, Line(t, k)) == Step(Placeholder(t[k]), input, m, Line(t, k))
  {
    hide Step, IsConditional, Assembled;
    InsnAt(t, p, k);
    if !t[k].Plain? { StepIgnoresTargets(p[Line(t, k)], Placeholder(t[k]), input, m, Line(t, k)); }
  }

  /** Two runs end alike. Off the end of the program, the lines may differ: the
      labelled code does not say how far past the end a jump goes. */
  predicate SameEnd(a: Result, b: Result) {
    a == b || (a.Failure? && b.Failure? && a.code == b.code == InvalidEndOfProgram)
  }

  /** Label resolution preserves meaning: the resolved program, from the line of
      any position, ends as the labelled code does from there. */
  lemma {:induction false} ResolutionCorrect<L>(t: seq<Item<L>>, p: seq<Insn>, k: nat, input: Input, m: Machine)
    requires Resolvable(t) && Assembled(p, t) && k <= |t|
    ensures SameEnd(Run(p, input, Line(t, k), m), RunLabelled(t, k, input, m))
    decreases |t| - k
  {
    hide Step, IsConditional, Condition, JumpTo, LabelJump;
    if k == |t| {
      ProgramLength(t, p);
    } else if t[k].Mark? {
      ResolutionCorrect(t, p, k + 1, input, m);
    } else if LabelJump(t[k]) {
      var to := JumpTo(t, k, m);
      JumpResolved(t, p, k, input, m);
      ResolutionCorrect(t, p, to, input, m);
    } else {
      PlainResolved(t, p, k, input, m);
      match Step(Placeholder(t[k]), input, m, Line(t, k))
      case Stop(r) =>
      case Next(m', off) =>
        SkipLine(t, k + 1, off);
        ResolutionCorrect(t, p, Skip(t, k + 1, off), input, m');
    }
  }

  /** The whole program, from its first line. */
  lemma ResolvedProgram<L>(t: seq<Item<L>>, p: seq<Insn>, input: Input, m: Machine)
    requires Resolvable(t) && Assembled(p, t)
    ensures SameEnd(Run(p, input, 0, m), RunLabelled(t, 0, input, m))
  {
    hide Resolvable, Assembled, RunLabelled, Step;
    ResolutionCorrect(t, p, 0, input, m);
    assert Line(t, 0) == 0;
  }

  lemma {:induction false} CallOfLine<L>(t: seq<Item<L>>, n: nat, line: nat) returns (k: nat)
    requires n <= |t| && line < Line(t, n)
    ensures k < n && !t[k].Mark? && Line(t, k) == line
  {
    if line < Line(t, n - 1) { k := CallOfLine(t, n - 1, line); } else { k := n - 1; }
  }

  ghost predicate AssembledAt<L>(p: seq<Insn>, t: seq<Item<L>>, k: nat)
    requires k < |t| && !t[k].Mark?
  {
    Line(t, k) < |p| && p[Line(t, k)] == Fill(t, k, SourcesOn(Line(t, k)))
  }

  lemma {:induction false} AssembledPrefix<L>(t: seq<Item<L>>, n: nat) returns (p: seq<Insn>)
    requires n <= |t|
    ensures |p| == Line(t, n)
    ensures forall k :: 0 <= k < n && !t[k].Mark? ==> AssembledAt(p, t, k)
  {
    hide Fill, SourcesOn, Line, AssembledAt;
    if n == 0 {
      p := [];
      NoLines(t);
    } else {
      var q := AssembledPrefix(t, n - 1);
      LineStep(t, n);
      p := if t[n - 1].Mark? then q else q + [Fill(t, n - 1, SourcesOn(Line(t, n - 1)))];
      forall k | 0 <= k < n && !t[k].Mark? ensures AssembledAt(p, t, k) {
        if k < n - 1 { AssembledMore(q, p, t, k); } else { AssembledLast(p, t, k); }
      }
    }
  }

  lemma NoLines<L>(t: seq<Item<L>>)
    ensures Line(t, 0) == 0
  {
  }

  lemma LineStep<L>(t: seq<Item<L>>, n: nat)
    requires 0 < n <= |t|
    ensures Line(t, n) == Line(t, n - 1) + if t[n - 1].Mark? then 0 else 1
  {
  }

  lemma AssembledMore<L>(q: seq<Insn>, p: seq<Insn>, t: seq<Item<L>>, k: nat)
    requires k < |t| && !t[k].Mark? && AssembledAt(q, t, k) && q <= p
    ensures AssembledAt(p, t, k)
  {
  }

  lemma AssembledLast<L>(p: seq<Insn>, t: seq<Item<L>>, k: nat)
    requires k < |t| && !t[k].Mark? && |p| == Line(t, k) + 1 && p[Line(t, k)] == Fill(t, k, SourcesOn(Line(t, k)))
    ensures AssembledAt(p, t, k)
  {
  }

  /** There is a resolved program. */
  lemma AssembledExists<L>(t: seq<Item<L>>) returns (p: seq<Insn>)
    ensures Assembled(p, t)
  {
    hide Fill, SourcesOn, Line;
    p := AssembledPrefix(t, |t|);
    forall k | 0 <= k < |t| && !t[k].Mark?
      ensures Line(t, k) < |p| && p[Line(t, k)] == Fill(t, k, SourcesOn(Line(t, k)))
    {
      assert AssembledAt(p, t, k);
    }
  }

  /** The resolved program is determined by the calls alone, so the order in
      which the labels are resolved does not matter. */
  lemma ResolutionIsUnique<L>(t: seq<Item<L>>, p: seq<Insn>, q: seq<Insn>)
    requires Assembled(p, t) && Assembled(q, t)
    ensures p == q
  {
    forall line | 0 <= line < |p| ensures p[line] == q[line] {
      var k := CallOfLine(t, |t|, line);
      InsnAt(t, p, k);
      InsnAt(t, q, k);
    }
  }
}
