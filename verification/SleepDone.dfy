/** What Sleeper.Done promises, in every run: that it ends, that the sleeper has
    nothing more to do with its wakers, and what a waker may still do. */
module SleepDone {
  import opened Sleep

  /** A sleeper that parks in Done is woken: what it waits for is on its way. */
  lemma DoneIsWoken(s: State, steps: seq<Step>) returns (i: nat, n: nat)
    requires Initial(s)
    requires var u := After(s, steps); |u.t| > 0 && u.t[0].Parked? && u.finishing
    ensures var u := After(s, steps);
            0 < i < |u.t| && n <= 8 && |Alone(u, i, n).t| > 0 && Alone(u, i, n).t[0] == NextLoad(true)
  {
    RunKeeps(s, steps);
    var u := After(s, steps);
    var w :| w in u.pending;
    hide Core;
    i, n := ParkedIsWoken(s, steps, w);
  }

  /** Done waits for a waker only while it is queued or about to be, and each one
      that it takes from the queue is one it waits for. */
  lemma DoneProgresses(s: State, steps: seq<Step>, call: Call)
    requires Initial(s)
    requires var u := After(s, steps); |u.t| > 0 && u.t[0].Pop? && u.finishing
    ensures var u := After(s, steps);
            && Next(u, 0, call).pending < u.pending
            && forall w :: w in u.pending ==> w in QueueAfter(s, steps).q || Held(u, w)
  {
    RunKeeps(s, steps);
    var u, k := After(s, steps), QueueAfter(s, steps);
    assert Knows(u, 0, u.t[0]);
    assert k.q[k.a] in k.q && Links(u.next, k, k.a);
  }

  // ----- when Done has returned -----

  /** Done has returned, and no waker was added since. */
  ghost predicate Resting(u: State) { |u.t| > 0 && u.t[0].Idle? && u.all == [] }

  /** When Done has returned, no waker is associated with the sleeper or queued, no
      thread has one to enqueue or wakes the sleeper, and nobody waits. Left over
      are threads that pushed their waker and have still to look at waitingG. */
  lemma DoneIsDone(s: State, steps: seq<Step>)
    requires Initial(s)
    ensures var u := After(s, steps);
            |u.t| > 0 && (Resting(u) ==>
              && u.waiting.NoG? && QueueAfter(s, steps).q == [] && u.shared.Null? && u.local.Null?
              && (forall w :: 0 <= w < |u.links| ==> !u.links[w].Sleeper?)
              && (forall i :: 0 <= i < |u.t| ==> Enqueues(u.t[i]) ==> u.t[i].EnqCheck? || u.t[i].EnqSwap?))
  {
    RunKeeps(s, steps);
    var u, k := After(s, steps), QueueAfter(s, steps);
    assert k.q != [] ==> k.q[0] in k.q && k.q[0] in u.added;
    if Resting(u) {
      assert u.added == {};
      forall i | 0 <= i < |u.t| && Enqueues(u.t[i])
        ensures u.t[i].EnqCheck? || u.t[i].EnqSwap?
      {
        assert InHand(u.t[i]).Null?;
        assert u.t[i].EnqReady? ==> Readying(u);
      }
    }
  }

  lemma {:induction false} AfterConcat(s: State, a: seq<Step>, b: seq<Step>)
    ensures After(s, a + b) == After(After(s, a), b)
    decreases |b|
  {
    if b == [] {
      assert a + b == a;
    } else {
      var b0 := b[..|b| - 1];
      assert (a + b)[..|a + b| - 1] == a + b0;
      AfterConcat(s, a, b0);
    }
  }

  /** While the sleeper rests, whatever the other threads do, they touch neither its
      lists nor waitingG nor its thread. */
  lemma {:induction false} RestingIsUntouched(s: State, steps: seq<Step>, more: seq<Step>)
    requires Initial(s) && Resting(After(s, steps)) && (forall n :: 0 <= n < |more| ==> more[n].i > 0)
    ensures var u, v := After(s, steps), After(s, steps + more);
            && Resting(v) && v.waiting == u.waiting == NoG
            && v.shared == u.shared == Null && v.local == u.local == Null && v.t[0] == u.t[0]
    decreases |more|
  {
    DoneIsDone(s, steps);
    if more == [] {
      assert steps + more == steps;
    } else {
      var more0, last := more[..|more| - 1], more[|more| - 1];
      RestingIsUntouched(s, steps, more0);
      assert (steps + more)[..|steps + more| - 1] == steps + more0;
      DoneIsDone(s, steps + more0);
      RunKeeps(s, steps + more0);
      var v := After(s, steps + more0);
      if last.i < |v.t| {
        OthersRest(v, QueueAfter(s, steps + more0), last.i, last.call);
      }
    }
  }

  lemma OthersRest(v: State, k: Queue, i: nat, call: Call)
    requires Inv(v, k) && Resting(v) && 0 < i < |v.t| && v.waiting.NoG? && v.shared.Null? && v.local.Null?
    requires Enqueues(v.t[i]) ==> v.t[i].EnqCheck? || v.t[i].EnqSwap?
    ensures var w := Next(v, i, call);
            |w.t| == |v.t| && w.t[0] == v.t[0] && w.all == v.all && w.waiting.NoG? && w.shared.Null? && w.local.Null?
  {
    assert Knows(v, i, v.t[i]);
    hide Core, Registered;
  }

  // ----- what is left over -----

  /** A thread that pushed a waker before Done returned and has still to look at
      waitingG. */
  predicate PastPush(pc: Pc) { pc.EnqCheck? || pc.EnqSwap? }

  ghost predicate Leftover(u: State) { exists i :: 0 < i < |u.t| && PastPush(u.t[i]) }

  /** In these steps the thread pushes no waker. */
  ghost predicate PushesNone(u: State, i: nat, more: seq<Step>) {
    forall n :: 0 <= n < |more| && more[n].i == i ==> !PushesAt(u, i, more[..n])
  }

  ghost predicate PushesAt(u: State, i: nat, more: seq<Step>) {
    i < |After(u, more).t| && After(u, more).t[i].EnqCas?
  }

  /** After these steps a Fetch or Done waits, or is about to, and the thread's next
      step takes waitingG from it, though the thread pushed nothing for it. */
  ghost predicate TakesG(u: State, i: nat, more: seq<Step>) {
    && 0 < i < |After(u, more).t| && PushesNone(u, i, more)
    && !After(u, more).waiting.NoG? && Next(After(u, more), i, Clear(0)).waiting.NoG?
  }

  /** A thread gets past a push only by a push. */
  lemma {:induction false} PastPushBefore(u: State, i: nat, more: seq<Step>)
    requires 0 < i < |After(u, more).t| && PushesNone(u, i, more) && PastPush(After(u, more).t[i])
    ensures i < |u.t| && PastPush(u.t[i])
    decreases |more|
  {
    if more != [] {
      var more0, last := more[..|more| - 1], more[|more| - 1];
      var v := After(u, more0);
      assert last.i == i ==> !PushesAt(u, i, more0);
      assert forall n :: 0 <= n < |more0| ==> more0[..n] == more[..n];
      if last.i < |v.t| {
        StepPastPush(v, last.i, last.call, i);
      }
      PastPushBefore(u, i, more0);
    }
  }

  lemma StepPastPush(v: State, j: nat, call: Call, i: nat)
    requires j < |v.t| && 0 < i < |Next(v, j, call).t| && PastPush(Next(v, j, call).t[i])
    requires j == i ==> !v.t[i].EnqCas?
    ensures i < |v.t| && PastPush(v.t[i])
  {
    hide Next;
    if OnSleeper(v.t[j]) {
      SleeperStep(v, j, call);
    } else if v.t[j].Idle? {
      StartStep(v, j, call);
    } else {
      WakerStep(v, j, call);
    }
  }

  /** A step moves its own thread, and perhaps wakes thread 0. Its thread gets past a
      push only by a push. */
  ghost predicate OneMoves(v: State, j: nat, w: State)
    requires j < |v.t|
  {
    && |w.t| == |v.t| && (forall i :: 0 < i < |v.t| && i != j ==> w.t[i] == v.t[i])
    && (PastPush(w.t[j]) ==> PastPush(v.t[j]) || v.t[j].EnqCas?)
  }

  lemma StartStep(v: State, j: nat, call: Call)
    requires j < |v.t| && v.t[j].Idle?
    ensures OneMoves(v, j, Next(v, j, call))
  {
    assert Next(v, j, call) == Start(v, j, call);
    hide Next;
    match call
    case _ =>
  }

  lemma SleeperStep(v: State, j: nat, call: Call)
    requires j < |v.t| && OnSleeper(v.t[j])
    ensures OneMoves(v, j, Next(v, j, call))
  {
    hide Next;
    if v.t[j].Pop? {
      PopStep(v, j, call);
    } else if v.t[j].DoneLoad? || v.t[j].DoneCas? {
      DoneStep(v, j, call);
    } else if v.t[j].AddLoad? || v.t[j].AddCas? || v.t[j].Reassociate? {
      AddStep(v, j, call);
    } else {
      NextStep(v, j, call);
    }
  }

  lemma PopStep(v: State, j: nat, call: Call)
    requires j < |v.t| && v.t[j].Pop?
    ensures OneMoves(v, j, Next(v, j, call))
  {
    var block := v.t[j].block;
    assert Next(v, j, call) == DoPop(v, j, block);
    hide Next;
  }

  lemma DoneStep(v: State, j: nat, call: Call)
    requires j < |v.t| && (v.t[j].DoneLoad? || v.t[j].DoneCas?)
    ensures OneMoves(v, j, Next(v, j, call))
  {
    var rest := v.t[j].rest;
    assert Next(v, j, call) == if v.t[j].DoneLoad? then DoDoneLoad(v, j, rest) else DoDoneCas(v, j, rest);
    hide Next;
  }

  lemma AddStep(v: State, j: nat, call: Call)
    requires j < |v.t| && (v.t[j].AddLoad? || v.t[j].AddCas? || v.t[j].Reassociate?)
    ensures OneMoves(v, j, Next(v, j, call))
  {
  }

  lemma NextStep(v: State, j: nat, call: Call)
    requires j < |v.t| && OnSleeper(v.t[j]) && !v.t[j].Pop? && !v.t[j].DoneLoad? && !v.t[j].DoneCas?
    requires !v.t[j].AddLoad? && !v.t[j].AddCas? && !v.t[j].Reassociate?
    ensures OneMoves(v, j, Next(v, j, call))
  {
  }

  lemma WakerStep(v: State, j: nat, call: Call)
    requires j < |v.t| && !OnSleeper(v.t[j]) && !v.t[j].Idle?
    ensures OneMoves(v, j, Next(v, j, call))
  {
    match v.t[j]
    case _ =>
  }

  /** Thread i makes n steps; if it is idle it makes the call. */
  function Times(i: nat, call: Call, n: nat): seq<Step> { seq(n, _ => Step(i, call)) }

  /** A Fetch that blocks finds nothing and prepares to sleep. */
  lemma FetchPrepares(u: State)
    requires Resting(u) && u.shared.Null? && u.local.Null?
    ensures After(u, Times(0, Fetch(true), 4)) == Set(u, 0, Recheck).(waiting := PreparingG)
  {
    hide After, Next;
    var c := Fetch(true);
    FetchStarts(u);
    FetchLooks(Set(u, 0, NextStart(true)), c);
    FetchGivesUp(Set(u, 0, NextLoad(true)), c);
    AfterTimes(u, 0, c, 0, u);
    AfterTimes(u, 0, c, 1, Set(u, 0, NextStart(true)));
    assert Set(Set(u, 0, NextStart(true)), 0, NextLoad(true)) == Set(u, 0, NextLoad(true));
    AfterTimes(u, 0, c, 2, Set(u, 0, NextLoad(true)));
    assert Set(Set(u, 0, NextLoad(true)), 0, Prepare) == Set(u, 0, Prepare);
    AfterTimes(u, 0, c, 3, Set(u, 0, Prepare));
    FetchStores(Set(u, 0, Prepare), c);
    assert Set(Set(u, 0, Prepare), 0, Recheck) == Set(u, 0, Recheck);
    AfterTimes(u, 0, c, 4, Set(u, 0, Recheck).(waiting := PreparingG));
  }

  lemma FetchStarts(u: State)
    requires |u.t| > 0 && u.t[0].Idle?
    ensures Next(u, 0, Fetch(true)) == Set(u, 0, NextStart(true))
  {
  }

  lemma FetchLooks(u: State, c: Call)
    requires |u.t| > 0 && u.t[0] == NextStart(true) && u.local.Null?
    ensures Next(u, 0, c) == Set(u, 0, NextLoad(true))
  {
  }

  lemma FetchGivesUp(u: State, c: Call)
    requires |u.t| > 0 && u.t[0] == NextLoad(true) && u.shared.Null?
    ensures Next(u, 0, c) == Set(u, 0, Prepare)
  {
  }

  lemma FetchStores(u: State, c: Call)
    requires |u.t| > 0 && u.t[0] == Prepare
    ensures Next(u, 0, c) == Set(u, 0, Recheck).(waiting := PreparingG)
  {
  }

  /** One step more. */
  lemma AfterTimes(u: State, i: nat, call: Call, n: nat, v: State)
    requires n == 0 ==> v == u
    requires n > 0 ==> i < |After(u, Times(i, call, n - 1)).t| && v == Next(After(u, Times(i, call, n - 1)), i, call)
    ensures After(u, Times(i, call, n)) == v
  {
    if n > 0 {
      assert Times(i, call, n)[..n - 1] == Times(i, call, n - 1);
    }
  }

  lemma LeftoverTakes(u: State, i: nat) returns (more: seq<Step>)
    requires Resting(u) && u.shared.Null? && u.local.Null? && 0 < i < |u.t| && PastPush(u.t[i])
    ensures TakesG(u, i, more)
  {
    var fetch := Times(0, Fetch(true), 4);
    FetchPrepares(u);
    assert forall n :: 0 <= n < |fetch| ==> fetch[n].i != i;
    var v := After(u, fetch);
    if u.t[i].EnqSwap? {
      more := fetch;
    } else {
      more := fetch + [Step(i, Clear(0))];
      assert more[..|more| - 1] == fetch;
    }
  }

  lemma TakerIsPastPush(v: State, k: Queue, i: nat)
    requires Inv(v, k) && 0 < i < |v.t| && !v.waiting.NoG? && Next(v, i, Clear(0)).waiting.NoG?
    ensures v.t[i].EnqSwap?
  {
    assert Knows(v, i, v.t[i]);
    hide Core, Registered;
  }

  /** The comment on Done, that the wakers do no more work towards waking this
      sleeper, fails in exactly this case: after Done a waiting Fetch or Done can
      lose waitingG to a thread that pushed nothing for it if and only if some
      thread is past its push when Done returns. */
  lemma LosesGIff(s: State, steps: seq<Step>)
    requires Initial(s) && Resting(After(s, steps))
    ensures (exists i, more :: TakesG(After(s, steps), i, more)) <==> Leftover(After(s, steps))
  {
    var u := After(s, steps);
    DoneIsDone(s, steps);
    if i, more :| TakesG(u, i, more) {
      AfterConcat(s, steps, more);
      RunKeeps(s, steps + more);
      TakerIsPastPush(After(u, more), QueueAfter(s, steps + more), i);
      PastPushBefore(u, i, more);
    }
    if Leftover(u) {
      var i :| 0 < i < |u.t| && PastPush(u.t[i]);
      var more := LeftoverTakes(u, i);
    }
  }

  // ----- a run in which something is left over -----

  const TWO_THREADS: State :=
    State([NoSleeper], [Null], Null, Null, NoG, {}, [], {}, false, [], [Idle, Idle])

  /** Thread 0 adds the waker; thread 1 asserts it up to its push; thread 0 is done
      with the sleeper. */
  const DONE_RUN: seq<Step> :=
    Times(0, AddWaker(0), 3) + Times(1, Assert(0), 6)
    + Times(0, Done, 3) + Times(0, Done, 3) + Times(0, Done, 3)

  /** The waker is added. */
  lemma AddedRun()
    ensures After(TWO_THREADS, Times(0, AddWaker(0), 3))
         == TWO_THREADS.(links := [Sleeper], added := {0}, all := [0])
  {
    hide After;
    var c, u := AddWaker(0), TWO_THREADS;
    AfterTimes(u, 0, c, 0, u);
    AfterTimes(u, 0, c, 1, u.(all := [0], t := [AddLoad(0), Idle]));
    AfterTimes(u, 0, c, 2, u.(all := [0], t := [AddCas(0, NoSleeper), Idle]));
    AfterTimes(u, 0, c, 3, u.(links := [Sleeper], added := {0}, all := [0]));
  }

  const PUSHED: State :=
    State([Asserted], [Null], To(0), Null, NoG, {0}, [0], {}, false, [], [Idle, EnqCheck])

  /** The waker is pushed. */
  lemma PushedRun(u: State)
    requires u == TWO_THREADS.(links := [Sleeper], added := {0}, all := [0])
    ensures After(u, Times(1, Assert(0), 6)) == PUSHED
  {
    hide After;
    var c := Assert(0);
    var v1 := u.(t := [Idle, AssertLoad(0)]);
    var v2 := u.(t := [Idle, AssertSwap(0)]);
    var v3 := u.(links := [Asserted], t := [Idle, EnqLoad(0)]);
    var v4 := v3.(t := [Idle, EnqStore(0, Null)]);
    var v5 := v3.(t := [Idle, EnqCas(0, Null)]);
    AfterTimes(u, 1, c, 0, u);
    AfterTimes(u, 1, c, 1, v1);
    AfterTimes(u, 1, c, 2, v2);
    AfterTimes(u, 1, c, 3, v3);
    AfterTimes(u, 1, c, 4, v4);
    AfterTimes(u, 1, c, 5, v5);
    AfterTimes(u, 1, c, 6, PUSHED);
  }

  const WAITING: State := PUSHED.(t := [NextStart(true), EnqCheck], pending := {0}, finishing := true)

  /** Done finds the waker asserted and has to wait for it. */
  lemma WaitingRun()
    ensures After(PUSHED, Times(0, Done, 3)) == WAITING
  {
    hide After;
    var c, u := Done, PUSHED;
    var v1 := u.(t := [DoneLoad([0]), EnqCheck]);
    var v2 := u.(t := [DoneLoad([]), EnqCheck], pending := {0});
    assert [0][1..] == [] && {} + {0} == {0};
    AfterTimes(u, 0, c, 0, u);
    AfterTimes(u, 0, c, 1, v1);
    assert Next(v1, 0, c) == v2;
    AfterTimes(u, 0, c, 2, v2);
    AfterTimes(u, 0, c, 3, WAITING);
  }

  const PULLED: State := WAITING.(t := [Reverse(To(0), true), EnqCheck], shared := Null)

  /** It takes the shared list. */
  lemma PulledRun()
    ensures After(WAITING, Times(0, Done, 3)) == PULLED
  {
    hide After;
    var c, u := Done, WAITING;
    AfterTimes(u, 0, c, 0, u);
    AfterTimes(u, 0, c, 1, u.(t := [NextLoad(true), EnqCheck]));
    AfterTimes(u, 0, c, 2, u.(t := [Pull(true), EnqCheck]));
    AfterTimes(u, 0, c, 3, PULLED);
  }

  const DONE: State := PUSHED.(shared := Null, added := {}, all := [])

  lemma LastIsTaken()
    ensures Next(PULLED.(t := [Pop(true), EnqCheck], local := To(0)), 0, Done) == DONE
  {
    assert {0} - {0} == {};
  }

  /** It takes the waker from the list and returns. */
  lemma TakenRun()
    ensures After(PULLED, Times(0, Done, 3)) == DONE
  {
    hide After;
    var c, u := Done, PULLED;
    AfterTimes(u, 0, c, 0, u);
    AfterTimes(u, 0, c, 1, u.(t := [Reverse(Null, true), EnqCheck], local := To(0)));
    AfterTimes(u, 0, c, 2, u.(t := [Pop(true), EnqCheck], local := To(0)));
    LastIsTaken();
    hide Next;
    AfterTimes(u, 0, c, 3, DONE);
  }

  /** Done returns while a thread is past its push, and a later Fetch loses waitingG
      to it. */
  lemma LosesGRun() returns (more: seq<Step>)
    ensures Initial(TWO_THREADS) && Resting(After(TWO_THREADS, DONE_RUN))
    ensures After(TWO_THREADS, DONE_RUN).t == [Idle, EnqCheck] && TakesG(After(TWO_THREADS, DONE_RUN), 1, more)
  {
    var add, push := Times(0, AddWaker(0), 3), Times(1, Assert(0), 6);
    AddedRun();
    PushedRun(After(TWO_THREADS, add));
    AfterConcat(TWO_THREADS, add, push);
    var done := Times(0, Done, 3);
    WaitingRun();
    AfterConcat(TWO_THREADS, add + push, done);
    PulledRun();
    AfterConcat(TWO_THREADS, add + push + done, done);
    TakenRun();
    AfterConcat(TWO_THREADS, add + push + done + done, done);
    more := LeftoverTakes(After(TWO_THREADS, DONE_RUN), 1);
  }
}
