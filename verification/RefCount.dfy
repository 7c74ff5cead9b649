/** The packed reference count: real references in the low half of a 64-bit word,
    speculative ones of TryIncRef in the high half. Any number of threads hold,
    take, hand over and drop references. One step is one atomic add. */
module RefCount {

  const TWO_32: int := 0x1_0000_0000
  const TWO_63: int := 0x8000_0000_0000_0000
  const SPECULATIVE_REF := TWO_32

  /** Converting: TryIncRef saw a live object and has still to turn its
      speculative reference into a real one. Failing: it saw a dead one and has
      still to take the speculative reference back. */
  datatype Pc = Idle | Converting | Failing

  datatype Op = IncRef | TryIncRef | DecRef | Give(to: nat)

  /** Held counts each thread's references; destroyed the destructor's calls. */
  datatype State = State(count: int, held: seq<nat>, t: seq<Pc>, destroyed: nat, panicked: bool)

  /** 64-bit two's complement. */
  function Wrap64(x: int): int { (x + TWO_63) % (2 * TWO_63) - TWO_63 }

  /** The conversion to int32 is zero. */
  predicate LowHalfIsZero(x: int) { x % TWO_32 == 0 }

  /** What the panics of IncRef and DecRef look at, after their adds. */
  predicate IncPanics(v: int) { v <= 1 }

  predicate DecPanics(v: int) { v < 0 }

  /** One step of thread i. A thread uses IncRef, DecRef and Give only on a
      reference it holds. */
  function Next(s: State, i: nat, op: Op): State
    requires i < |s.t| == |s.held|
  {
    match s.t[i]
    case Converting =>
      s.(count := Wrap64(s.count - SPECULATIVE_REF + 1), held := s.held[i := s.held[i] + 1], t := s.t[i := Idle])
    case Failing =>
      s.(count := Wrap64(s.count - SPECULATIVE_REF), t := s.t[i := Idle])
    case Idle =>
      match op
      case TryIncRef =>
        var v := Wrap64(s.count + SPECULATIVE_REF);
        s.(count := v, t := s.t[i := if LowHalfIsZero(v) then Failing else Converting])
      case IncRef =>
        if s.held[i] == 0 then s
        else
          var v := Wrap64(s.count + 1);
          s.(count := v, held := s.held[i := s.held[i] + 1], panicked := s.panicked || IncPanics(v))
      case DecRef =>
        if s.held[i] == 0 then s
        else
          var v := Wrap64(s.count - 1);
          s.(count := v, held := s.held[i := s.held[i] - 1], panicked := s.panicked || DecPanics(v),
             destroyed := if v == 0 then s.destroyed + 1 else s.destroyed)
      case Give(j) =>
        if s.held[i] == 0 || j >= |s.held| || j == i then s
        else s.(held := s.held[i := s.held[i] - 1][j := s.held[j] + 1])
  }

  /** The creator holds the only reference. */
  predicate Initial(s: State) {
    && 0 < |s.t| == |s.held| && s.count == 1 && s.destroyed == 0 && !s.panicked
    && s.held[0] == 1 && (forall i :: 1 <= i < |s.held| ==> s.held[i] == 0)
    && (forall i :: 0 <= i < |s.t| ==> s.t[i].Idle?)
  }

  function Total(held: seq<nat>): nat { if held == [] then 0 else held[0] + Total(held[1..]) }

  function Speculative(t: seq<Pc>): nat { if t == [] then 0 else (if t[0].Idle? then 0 else 1) + Speculative(t[1..]) }

  lemma {:induction false} TotalUpdate(held: seq<nat>, i: nat, x: nat)
    requires i < |held|
    ensures Total(held[i := x]) + held[i] == Total(held) + x
    ensures held[i] <= Total(held)
  {
    if i == 0 { assert held[i := x][1..] == held[1..]; }
    else {
      assert held[i := x][1..] == held[1..][i - 1 := x];
      TotalUpdate(held[1..], i - 1, x);
    }
  }

  lemma {:induction false} SpeculativeUpdate(t: seq<Pc>, i: nat, pc: Pc)
    requires i < |t|
    ensures Speculative(t[i := pc]) + (if t[i].Idle? then 0 else 1) == Speculative(t) + (if pc.Idle? then 0 else 1)
    ensures !t[i].Idle? ==> Speculative(t) > 0
    ensures Speculative(t[i := pc]) <= |t|
  {
    SpeculativeBound(t[i := pc]);
    if i == 0 { assert t[i := pc][1..] == t[1..]; }
    else {
      assert t[i := pc][1..] == t[1..][i - 1 := pc];
      SpeculativeUpdate(t[1..], i - 1, pc);
    }
  }

  lemma {:induction false} SpeculativeBound(t: seq<Pc>)
    ensures Speculative(t) <= |t|
  {
    if t != [] { SpeculativeBound(t[1..]); }
  }

  // ----- the invariant -----

  /** What keeps the halves apart: fewer than 2^32 references and fewer than
      2^31 - 1 threads. */
  predicate InBounds(s: State) { Total(s.held) < TWO_32 && |s.t| < 0x7fff_ffff }

  ghost predicate Inv(s: State) {
    && |s.t| == |s.held|
    && s.count == TWO_32 * Speculative(s.t) + Total(s.held)
    && !s.panicked && s.destroyed <= 1
    && (s.destroyed == 1 ==> Total(s.held) == 0 && forall i :: 0 <= i < |s.t| ==> !s.t[i].Converting?)
  }

  lemma WrapSmall(x: int)
    requires -TWO_63 <= x < TWO_63
    ensures Wrap64(x) == x
  {
  }

  /** The low half alone says whether a reference is held. */
  lemma LowHalf(spec: nat, total: nat)
    requires total < TWO_32
    ensures LowHalfIsZero(TWO_32 * spec + total) <==> total == 0
  {
    assert (TWO_32 * spec + total) % TWO_32 == total by {
      assert (total + TWO_32 * spec) / TWO_32 == spec;
    }
  }

  /** How many references a step adds. */
  function Change(s: State, i: nat, op: Op): int
    requires i < |s.t| == |s.held|
  {
    if s.t[i].Converting? then 1
    else if s.t[i].Idle? && s.held[i] > 0 && op.IncRef? then 1
    else if s.t[i].Idle? && s.held[i] > 0 && op.DecRef? then -1
    else 0
  }

  /** The adds stay within 64 bits, the count is what is held, and what is held
      changes as the operation says. */
  lemma CountIsExact(s: State, i: nat, op: Op)
    requires Inv(s) && InBounds(s) && i < |s.t|
    ensures var u := Next(s, i, op); u.count == TWO_32 * Speculative(u.t) + Total(u.held) && |u.t| == |u.held| == |s.t|
    ensures Total(Next(s, i, op).held) == Total(s.held) + Change(s, i, op)
  {
    hide Wrap64, LowHalfIsZero, Total, Speculative;
    var u := Next(s, i, op);
    SpeculativeBound(s.t);
    SpeculativeUpdate(s.t, i, u.t[i]);
    TotalUpdate(s.held, i, u.held[i]);
    assert u.t == s.t[i := u.t[i]];
    if s.t[i].Idle? && op.Give? && u != s {
      TotalUpdate(s.held[i := s.held[i] - 1], op.to, s.held[op.to] + 1);
    } else {
      assert u.held == s.held[i := u.held[i]];
      WrapSmall(s.count + 1);
      WrapSmall(s.count - 1);
      WrapSmall(s.count + SPECULATIVE_REF);
      WrapSmall(s.count - SPECULATIVE_REF);
      WrapSmall(s.count - SPECULATIVE_REF + 1);
    }
  }

  /** An IncRef or a DecRef by someone who holds no reference would panic exactly if nobody
      holds one and no TryIncRef is between its adds. */
  lemma PanicsExactly(s: State)
    requires Inv(s) && InBounds(s)
    ensures IncPanics(Wrap64(s.count + 1)) <==> Total(s.held) == 0 && Speculative(s.t) == 0
    ensures DecPanics(Wrap64(s.count - 1)) <==> Total(s.held) == 0 && Speculative(s.t) == 0
  {
    hide Total, Speculative, Wrap64;
    SpeculativeBound(s.t);
    WrapSmall(s.count + 1);
    WrapSmall(s.count - 1);
  }

  /** TryIncRef succeeds exactly if a reference is held when it makes its first add:
      it then has one more reference after its second add, and otherwise none. */
  lemma TryIncRefIff(s: State, i: nat, op: Op)
    requires Inv(s) && InBounds(s) && i < |s.t| && s.t[i].Idle?
    ensures var u := Next(s, i, TryIncRef);
            && |u.t| == |u.held| == |s.t| && u.held == s.held && !u.t[i].Idle?
            && var v := Next(u, i, op);
               v.t[i].Idle? && v.held == s.held[i := s.held[i] + if Total(s.held) > 0 then 1 else 0]
  {
    hide Wrap64, LowHalfIsZero, Total, Speculative;
    SpeculativeBound(s.t);
    WrapSmall(s.count + SPECULATIVE_REF);
    LowHalf(Speculative(s.t) + 1, Total(s.held));
    assert s.held[i := s.held[i]] == s.held;
  }

  lemma StepKeeps(s: State, i: nat, op: Op)
    requires Inv(s) && InBounds(s) && i < |s.t|
    ensures Inv(Next(s, i, op))
  {
    CountIsExact(s, i, op);
    DestroysExactly(s, i, op);
    TotalUpdate(s.held, i, Next(s, i, op).held[i]);
    hide Wrap64, LowHalfIsZero;
    if Total(s.held) == 0 { Dead(s, i, op); }
    if Next(s, i, op).destroyed > s.destroyed {
      forall j | 0 <= j < |s.t| ensures s.t[j].Idle? { SpeculativeUpdate(s.t, j, Idle); }
    }
  }

  /** A step destroys exactly when it drops the last reference while no TryIncRef
      is between its two adds. */
  lemma DestroysExactly(s: State, i: nat, op: Op)
    requires Inv(s) && InBounds(s) && i < |s.t|
    ensures var u := Next(s, i, op);
            u.destroyed == s.destroyed +
              if Total(s.held) > 0 && Total(u.held) == 0 && Speculative(s.t) == 0 then 1 else 0
  {
    CountIsExact(s, i, op);
    SpeculativeBound(s.t);
    TotalUpdate(s.held, i, Next(s, i, op).held[i]);
  }

  /** With no reference held, the next TryIncRef fails, and nobody else can act. */
  lemma Dead(s: State, i: nat, op: Op)
    requires Inv(s) && InBounds(s) && i < |s.t| && Total(s.held) == 0
    ensures var u := Next(s, i, op);
            !s.t[i].Converting? ==> Total(u.held) == 0 && !u.t[i].Converting? && u.destroyed == s.destroyed
  {
    TotalUpdate(s.held, i, 0);
    SpeculativeBound(s.t);
    LowHalf(Speculative(s.t) + 1, 0);
  }

  // ----- all runs -----

  datatype Step = Step(i: nat, op: Op)

  function After(s: State, steps: seq<Step>): State
    decreases |steps|
  {
    if steps == [] then s
    else
      var last := steps[|steps| - 1];
      var u := After(s, steps[..|steps| - 1]);
      if last.i < |u.t| == |u.held| then Next(u, last.i, last.op) else u
  }

  ghost predicate RunInBounds(s: State, steps: seq<Step>) {
    forall n :: 0 <= n <= |steps| ==> InBounds(After(s, steps[..n]))
  }

  lemma {:induction false} InitialTotal(held: seq<nat>)
    requires forall i :: 0 <= i < |held| ==> held[i] == 0
    ensures Total(held) == 0
  {
    if held != [] { InitialTotal(held[1..]); }
  }

  lemma {:induction false} InitialSpeculative(t: seq<Pc>)
    requires forall i :: 0 <= i < |t| ==> t[i].Idle?
    ensures Speculative(t) == 0
  {
    if t != [] { InitialSpeculative(t[1..]); }
  }

  lemma {:induction false} RunKeeps(s: State, steps: seq<Step>)
    requires Initial(s) && RunInBounds(s, steps)
    ensures Inv(After(s, steps))
    decreases |steps|
  {
    if steps == [] {
      InitialTotal(s.held[1..]);
      InitialSpeculative(s.t);
    } else {
      var n := |steps| - 1;
      var u := After(s, steps[..n]);
      RunPrefix(s, steps, n);
      RunKeeps(s, steps[..n]);
      hide Inv, Next, InBounds, RunInBounds;
      if steps[n].i < |u.t| == |u.held| { StepKeeps(u, steps[n].i, steps[n].op); }
    }
  }

  /** Safety: the destructor runs at most once, and only when no reference is held
      and no TryIncRef will still return true; nothing panics. */
  lemma DestroyedOnlyWhenDead(s: State, steps: seq<Step>)
    requires Initial(s) && RunInBounds(s, steps)
    ensures var u := After(s, steps);
            && !u.panicked && u.destroyed <= 1
            && (u.destroyed == 1 ==> Total(u.held) == 0 && forall i :: 0 <= i < |u.t| ==> !u.t[i].Converting?)
  {
    RunKeeps(s, steps);
  }

  lemma {:induction false} DestroyedStays(s: State, steps: seq<Step>, n: nat)
    requires n <= |steps|
    ensures After(s, steps[..n]).destroyed <= After(s, steps).destroyed
    decreases |steps|
  {
    if n < |steps| {
      var m := |steps| - 1;
      assert steps[..m][..n] == steps[..n];
      DestroyedStays(s, steps[..m], n);
    } else {
      assert steps[..n] == steps;
    }
  }

  /** After the destructor has run, no TryIncRef returns true, and no thread ever
      holds a reference, however the run goes on. */
  lemma NoReferenceAfterDestroy(s: State, steps: seq<Step>, n: nat)
    requires Initial(s) && RunInBounds(s, steps) && n <= |steps| && After(s, steps[..n]).destroyed == 1
    ensures var u := After(s, steps);
            u.destroyed == 1 && Total(u.held) == 0 && forall i :: 0 <= i < |u.t| ==> !u.t[i].Converting?
  {
    hide After, RunInBounds, Initial;
    DestroyedStays(s, steps, n);
    RunKeeps(s, steps);
  }

  // ----- a dead object that is never destroyed -----

  /** The run: thread 1 speculates, thread 0 drops the last reference, thread 2
      speculates and will fail, thread 1 converts and drops again, thread 2 takes
      its speculative reference back. */
  const LEAKING_RUN: seq<Step> :=
    [Step(1, TryIncRef), Step(0, DecRef), Step(2, TryIncRef), Step(1, TryIncRef), Step(1, DecRef), Step(2, TryIncRef)]

  const THREE_THREADS: State := State(1, [1, 0, 0], [Idle, Idle, Idle], 0, false)

  function Leaked(): State { State(0, [0, 0, 0], [Idle, Idle, Idle], 0, false) }

  /** "Destroyed when the last reference goes" fails: DecRef also sees the
      speculative reference of a TryIncRef that will return false. */
  lemma LastReferenceCanLeak()
    ensures Initial(THREE_THREADS) && After(THREE_THREADS, LEAKING_RUN) == Leaked()
  {
    var r := LEAKING_RUN;
    var s1 := State(TWO_32 + 1, [1, 0, 0], [Idle, Converting, Idle], 0, false);
    var s2 := State(TWO_32, [0, 0, 0], [Idle, Converting, Idle], 0, false);
    var s3 := State(2 * TWO_32, [0, 0, 0], [Idle, Converting, Failing], 0, false);
    var s4 := State(TWO_32 + 1, [0, 1, 0], [Idle, Idle, Failing], 0, false);
    var s5 := State(TWO_32, [0, 0, 0], [Idle, Idle, Failing], 0, false);
    assert r[..0] == [];
    assert After(THREE_THREADS, r[..1]) == s1 by { assert r[..1][..0] == []; assert r[..1][0] == Step(1, TryIncRef); }
    assert After(THREE_THREADS, r[..2]) == s2 by { assert r[..2][..1] == r[..1]; }
    assert After(THREE_THREADS, r[..3]) == s3 by { assert r[..3][..2] == r[..2]; }
    assert After(THREE_THREADS, r[..4]) == s4 by { assert r[..4][..3] == r[..3]; }
    assert After(THREE_THREADS, r[..5]) == s5 by { assert r[..5][..4] == r[..4]; }
    assert After(THREE_THREADS, r[..6]) == Leaked() by { assert r[..6][..5] == r[..5]; }
    assert r[..6] == r;
  }

  /** No reference is held, and no TryIncRef will still return one. */
  ghost predicate Gone(s: State) { Total(s.held) == 0 && forall j :: 0 <= j < |s.t| ==> !s.t[j].Converting? }

  ghost predicate SomeFailing(s: State) { exists j :: 0 <= j < |s.t| && s.t[j].Failing? }

  /** An object that is gone stays so, destroyed or not. */
  lemma GoneStays(s: State, i: nat, op: Op)
    requires Inv(s) && InBounds(s) && i < |s.t| && Gone(s)
    ensures Gone(Next(s, i, op)) && Next(s, i, op).destroyed == s.destroyed
  {
    Dead(s, i, op);
  }

  lemma {:induction false} NoSpeculation(t: seq<Pc>)
    ensures Speculative(t) == 0 <==> forall j :: 0 <= j < |t| ==> t[j].Idle?
  {
    if t != [] { NoSpeculation(t[1..]); }
  }

  /** The step that makes an object go destroys it, exactly unless some TryIncRef
      is about to fail. */
  lemma GoesExactly(s: State, i: nat, op: Op)
    requires Inv(s) && InBounds(s) && i < |s.t| && !Gone(s) && Gone(Next(s, i, op))
    ensures Next(s, i, op).destroyed == if SomeFailing(s) then 0 else 1
  {
    hide Wrap64, LowHalfIsZero, Total, Speculative;
    OnlyDropsGo(s, i, op);
    DestroysExactly(s, i, op);
    NoSpeculation(s.t);
    GoneTotal(s, i, op);
    NotYetDestroyed(s);
  }

  /** Only a DecRef makes an object go. */
  lemma OnlyDropsGo(s: State, i: nat, op: Op)
    requires |s.t| == |s.held| && i < |s.t| && Gone(Next(s, i, op))
    ensures Gone(s) || (s.t[i].Idle? && op.DecRef? && s.held[i] > 0)
  {
    hide Wrap64, LowHalfIsZero, Total;
    var u := Next(s, i, op);
    TotalUpdate(s.held, i, u.held[i]);
    if s.t[i].Idle? && op.Give? && u != s {
      TotalUpdate(s.held, i, s.held[i] - 1);
      TotalUpdate(s.held[i := s.held[i] - 1], op.to, s.held[op.to] + 1);
    }
    if !(s.t[i].Idle? && op.DecRef? && s.held[i] > 0) && !s.t[i].Converting? {
      forall j | 0 <= j < |s.t| ensures !s.t[j].Converting? { assert j != i ==> u.t[j] == s.t[j]; }
    }
  }

  lemma GoneTotal(s: State, i: nat, op: Op)
    requires |s.t| == |s.held| && i < |s.t| && s.t[i].Idle? && op.DecRef? && s.held[i] > 0
    ensures Total(s.held) > 0
  {
    TotalUpdate(s.held, i, 0);
  }

  lemma NotYetDestroyed(s: State)
    requires Inv(s) && !Gone(s)
    ensures s.destroyed == 0
  {
  }

  /** In every run, from the moment an object goes: whether it is ever destroyed
      depends only on whether a TryIncRef was about to fail at that moment. */
  lemma {:induction false} LeaksExactly(s: State, steps: seq<Step>, n: nat)
    requires Initial(s) && RunInBounds(s, steps) && n < |steps|
    requires !Gone(After(s, steps[..n])) && Gone(After(s, steps[..n + 1]))
    ensures Gone(After(s, steps)) && After(s, steps).destroyed == if SomeFailing(After(s, steps[..n])) then 0 else 1
    decreases |steps|
  {
    hide Gone, SomeFailing, Inv, Next, InBounds;
    var m := |steps| - 1;
    var u := After(s, steps[..m]);
    RunPrefix(s, steps, m);
    RunKeeps(s, steps[..m]);
    var last := steps[m];
    if n == m {
      assert steps[..n + 1] == steps;
      GoesExactly(u, last.i, last.op);
    } else {
      assert steps[..m][..n] == steps[..n] && steps[..m][..n + 1] == steps[..n + 1];
      LeaksExactly(s, steps[..m], n);
      if last.i < |u.t| == |u.held| { GoneStays(u, last.i, last.op); }
    }
  }

  lemma RunPrefix(s: State, steps: seq<Step>, m: nat)
    requires RunInBounds(s, steps) && m <= |steps|
    ensures RunInBounds(s, steps[..m]) && InBounds(After(s, steps[..m]))
  {
    hide After, InBounds;
    forall j | 0 <= j <= m ensures InBounds(After(s, steps[..m][..j])) { assert steps[..m][..j] == steps[..j]; }
  }
}
