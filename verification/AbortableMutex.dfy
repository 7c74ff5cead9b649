/** The abortable mutex: any number of threads lock, abort and unlock. One step is
    one atomic operation on the counter or on the one-slot channel. */
module AbortableMutex {

  /** Where a thread is. Trying and Swapping are the two halves of a retry in
      Lock, Waiting its select, Sending the select in Unlock. */
  datatype Pc = Idle | Trying | Swapping | Waiting | Holding | Sending

  /** What a thread does where it has a choice: go on, or abort a wait. */
  datatype Choice = Proceed | Abort

  datatype State = State(v: int, token: bool, t: seq<Pc>)

  function Set(s: State, i: nat, pc: Pc): State
    requires i < |s.t|
  {
    s.(t := s.t[i := pc])
  }

  /** One step of thread i; a thread that cannot move stays. */
  function Next(s: State, i: nat, c: Choice): State
    requires i < |s.t|
  {
    match s.t[i]
    case Idle => Set(s, i, if s.v - 1 == 0 then Holding else Trying).(v := s.v - 1)
    case Trying => Set(s, i, if s.v >= 0 then Swapping else Waiting)
    case Swapping => Set(s, i, if s.v == 1 then Holding else Waiting).(v := -1)
    case Waiting =>
      if c.Abort? then Set(s, i, Idle)
      else if s.token then Set(s, i, Trying).(token := false)
      else s
    case Holding => Set(s, i, if s.v == 0 then Idle else Sending).(v := 1)
    case Sending => Set(s, i, Idle).(token := true)
  }

  predicate Initial(s: State) {
    s.v == 1 && !s.token && forall i :: 0 <= i < |s.t| ==> s.t[i].Idle?
  }

  datatype Step = Step(i: nat, c: Choice)

  function After(s: State, steps: seq<Step>): State
    decreases |steps|
  {
    if steps == [] then s
    else
      var last := steps[|steps| - 1];
      var u := After(s, steps[..|steps| - 1]);
      if last.i < |u.t| then Next(u, last.i, last.c) else u
  }

  // ----- safety -----

  ghost predicate SomeIn(s: State, pc: Pc) { exists i :: 0 <= i < |s.t| && s.t[i] == pc }

  /** The counter is 1 exactly when the lock is free, at most one thread holds
      it, and a waiting thread is never forgotten: the counter shows it to the
      holder, or a token is there or on its way, or someone retries. */
  ghost predicate Inv(s: State) {
    && s.v <= 1
    && (s.v == 1 <==> !SomeIn(s, Holding))
    && (forall i, j :: 0 <= i < j < |s.t| ==> !(s.t[i].Holding? && s.t[j].Holding?))
    && (SomeIn(s, Waiting) ==> s.v < 0 || s.token || SomeIn(s, Sending) || SomeIn(s, Trying) || SomeIn(s, Swapping))
  }

  lemma SomeInAfter(s: State, i: nat, u: State, pc: Pc)
    requires i < |s.t| == |u.t| && u.t == s.t[i := u.t[i]]
    ensures s.t[i] != pc && SomeIn(s, pc) ==> SomeIn(u, pc)
    ensures u.t[i] != pc && SomeIn(u, pc) ==> SomeIn(s, pc)
    ensures u.t[i] == pc ==> SomeIn(u, pc)
  {
    if s.t[i] != pc && SomeIn(s, pc) {
      var j :| 0 <= j < |s.t| && s.t[j] == pc;
      assert u.t[j] == pc;
    }
    if u.t[i] != pc && SomeIn(u, pc) {
      var j :| 0 <= j < |u.t| && u.t[j] == pc;
      assert s.t[j] == pc;
    }
  }

  lemma StepKeeps(s: State, i: nat, c: Choice)
    requires Inv(s) && i < |s.t|
    ensures Inv(Next(s, i, c))
  {
    var u := Next(s, i, c);
    if u != s {
      SomeInAfter(s, i, u, Holding);
      SomeInAfter(s, i, u, Waiting);
      SomeInAfter(s, i, u, Sending);
      SomeInAfter(s, i, u, Trying);
      SomeInAfter(s, i, u, Swapping);
      assert s.t[i].Holding? ==> SomeIn(s, Holding);
      assert s.t[i].Holding? ==> forall j :: 0 <= j < |u.t| ==> !u.t[j].Holding?;
    }
  }

  lemma {:induction false} RunKeeps(s: State, steps: seq<Step>)
    requires Initial(s)
    ensures Inv(After(s, steps))
    decreases |steps|
  {
    if steps != [] {
      var last := steps[|steps| - 1];
      RunKeeps(s, steps[..|steps| - 1]);
      var u := After(s, steps[..|steps| - 1]);
      hide Inv, Next;
      if last.i < |u.t| { StepKeeps(u, last.i, last.c); }
    }
  }

  /** Mutual exclusion. */
  lemma AtMostOneHolder(s: State, steps: seq<Step>)
    requires Initial(s)
    ensures var u := After(s, steps);
            && (forall i, j :: 0 <= i < j < |u.t| ==> !(u.t[i].Holding? && u.t[j].Holding?))
            && (u.v == 1 <==> forall i :: 0 <= i < |u.t| ==> !u.t[i].Holding?)
  {
    RunKeeps(s, steps);
    var u := After(s, steps);
    if u.v != 1 { assert SomeIn(u, Holding); }
    else { forall i | 0 <= i < |u.t| ensures !u.t[i].Holding? { assert !SomeIn(u, Holding); } }
  }

  /** No lost wakeup. */
  lemma WaiterIsRemembered(s: State, steps: seq<Step>, i: nat)
    requires Initial(s) && i < |After(s, steps).t| && After(s, steps).t[i].Waiting?
    ensures var u := After(s, steps);
            || (u.v < 0 && SomeIn(u, Holding)) || u.token
            || SomeIn(u, Sending) || SomeIn(u, Trying) || SomeIn(u, Swapping)
  {
    RunKeeps(s, steps);
    assert SomeIn(After(s, steps), Waiting);
  }

  // ----- progress -----

  /** Steps that finish what is under way: no new Lock, no abort, no Unlock. */
  predicate Settles(s: State, i: nat)
    requires i < |s.t|
  {
    s.t[i].Trying? || s.t[i].Swapping? || s.t[i].Sending? || (s.t[i].Waiting? && s.token)
  }

  function Weight(pc: Pc): nat { if pc.Trying? then 2 else if pc.Swapping? then 1 else if pc.Sending? then 4 else 0 }

  function Weights(t: seq<Pc>): nat { if t == [] then 0 else Weight(t[0]) + Weights(t[1..]) }

  /** How many settling steps are left, at most. */
  function Work(s: State): nat { Weights(s.t) + if s.token then 3 else 0 }

  lemma {:induction false} WeightsUpdate(t: seq<Pc>, i: nat, pc: Pc)
    requires i < |t|
    ensures Weights(t[i := pc]) + Weight(t[i]) == Weights(t) + Weight(pc)
    decreases |t|
  {
    if i > 0 {
      assert t[i := pc][1..] == t[1..][i - 1 := pc];
      WeightsUpdate(t[1..], i - 1, pc);
    } else {
      assert t[i := pc][1..] == t[1..];
    }
  }

  /** Settling comes to an end. */
  lemma SettlingEnds(s: State, i: nat)
    requires i < |s.t| && Settles(s, i)
    ensures Work(Next(s, i, Proceed)) < Work(s)
  {
    WeightsUpdate(s.t, i, Next(s, i, Proceed).t[i]);
  }

  /** The threads of a schedule take settling steps, one after the other. */
  predicate Schedulable(s: State, schedule: seq<nat>)
    decreases |schedule|
  {
    schedule == [] ||
    (schedule[0] < |s.t| && Settles(s, schedule[0]) && Schedulable(Next(s, schedule[0], Proceed), schedule[1..]))
  }

  function Settled(s: State, schedule: seq<nat>): State
    requires Schedulable(s, schedule)
    decreases |schedule|
  {
    if schedule == [] then s else Settled(Next(s, schedule[0], Proceed), schedule[1..])
  }

  /** However the threads are scheduled, settling takes a bounded number of steps. */
  lemma {:induction false} SettlingIsBounded(s: State, schedule: seq<nat>)
    requires Schedulable(s, schedule)
    ensures |schedule| + Work(Settled(s, schedule)) <= Work(s)
    decreases |schedule|
  {
    if schedule != [] {
      SettlingEnds(s, schedule[0]);
      hide Work, Next;
      SettlingIsBounded(Next(s, schedule[0], Proceed), schedule[1..]);
    }
  }

  /** Nothing is under way. */
  ghost predicate Quiescent(s: State) { forall i :: 0 <= i < |s.t| ==> !Settles(s, i) }

  /** From every state some schedule leaves nothing under way. */
  lemma {:induction false} SomeScheduleSettles(s: State) returns (schedule: seq<nat>)
    requires Inv(s)
    ensures Schedulable(s, schedule) && Quiescent(Settled(s, schedule)) && Inv(Settled(s, schedule))
    decreases Work(s)
  {
    if Quiescent(s) {
      schedule := [];
    } else {
      var i: nat :| i < |s.t| && Settles(s, i);
      SettlingEnds(s, i);
      StepKeeps(s, i, Proceed);
      hide Inv, Next, Work;
      var rest := SomeScheduleSettles(Next(s, i, Proceed));
      schedule := [i] + rest;
      assert schedule[1..] == rest;
    }
  }

  /** No thread is left waiting for a free lock: once nothing is under way, a
      waiting thread means that another one holds the lock. */
  lemma NobodyWaitsForAFreeLock(s: State, steps: seq<Step>)
    requires Initial(s) && Quiescent(After(s, steps)) && SomeIn(After(s, steps), Waiting)
    ensures SomeIn(After(s, steps), Holding) && After(s, steps).v < 0
  {
    RunKeeps(s, steps);
    var u := After(s, steps);
    var i :| 0 <= i < |u.t| && u.t[i].Waiting?;
    assert !Settles(u, i);
    if pc :| pc in {Sending, Trying, Swapping} && SomeIn(u, pc) {
      var j :| 0 <= j < |u.t| && u.t[j] == pc;
      assert !Settles(u, j);
    }
  }

  // ----- what Lock and Unlock do -----

  /** Thread i alone makes n steps. */
  function Alone(s: State, i: nat, c: Choice, n: nat): State
    requires i < |s.t|
    decreases n
  {
    if n == 0 then s else Alone(Next(s, i, c), i, c, n - 1)
  }

  predicate InLock(pc: Pc) { pc.Trying? || pc.Swapping? || pc.Waiting? }

  /** A Lock that is aborted returns at once: from every state its thread has returned
      after at most three steps of its own, with the lock exactly if it was still to
      try and the lock was free. */
  lemma AbortIsPrompt(u: State, i: nat) returns (n: nat)
    requires i < |u.t| && InLock(u.t[i])
    ensures n <= 3 && |Alone(u, i, Abort, n).t| == |u.t|
    ensures Alone(u, i, Abort, n).t[i] == if u.v == 1 && !u.t[i].Waiting? then Holding else Idle
  {
    n := if u.t[i].Waiting? then 1 else if u.t[i].Trying? && u.v < 0 then 2
      else if u.t[i].Trying? then (if u.v == 1 then 2 else 3) else if u.v == 1 then 1 else 2;
    var a := Next(u, i, Abort);
    var b := Next(a, i, Abort);
    var c := Next(b, i, Abort);
    assert Alone(a, i, Abort, 0) == a && Alone(b, i, Abort, 0) == b && Alone(c, i, Abort, 0) == c;
    assert Alone(a, i, Abort, 1) == b && Alone(b, i, Abort, 1) == c && Alone(a, i, Abort, 2) == c;
  }

  /** A lock that is free is had by the next thread that asks for it. */
  lemma FreeLockIsTaken(s: State, steps: seq<Step>, i: nat, c: Choice)
    requires Initial(s)
    requires var u := After(s, steps); i < |u.t| && u.t[i].Idle? && forall j :: 0 <= j < |u.t| ==> !u.t[j].Holding?
    ensures var u := After(s, steps); Next(u, i, c).t == u.t[i := Holding]
  {
    AtMostOneHolder(s, steps);
  }

  /** Unlock makes the lock free with its first step, and returns with the next one at
      the latest. If a thread was waiting, a token is left for it, unless another
      thread has the lock again or is about to try. */
  lemma UnlockFrees(s: State, steps: seq<Step>, i: nat, c: Choice)
    requires Initial(s)
    requires var u := After(s, steps); i < |u.t| && u.t[i].Holding?
    ensures var u := After(s, steps);
            var a, b := Next(u, i, c), Next(Next(u, i, c), i, c);
            && (forall j :: 0 <= j < |a.t| ==> !a.t[j].Holding?) && a.v == 1
            && (a.t[i].Idle? || b.t[i].Idle?) && (SomeIn(a, Waiting) && !a.t[i].Idle? ==> b.token)
            && (SomeIn(a, Waiting) && a.t[i].Idle? ==> a.token || SomeIn(a, Sending) || SomeIn(a, Trying)
                                                       || SomeIn(a, Swapping))
  {
    RunKeeps(s, steps);
    var u := After(s, steps);
    StepKeeps(u, i, c);
    var a := Next(u, i, c);
    forall j | 0 <= j < |a.t| ensures !a.t[j].Holding? { assert j != i ==> a.t[j] == u.t[j]; }
  }
}
