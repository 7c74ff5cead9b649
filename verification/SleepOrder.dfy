/** The order of wakeups: wakers are taken from the sleeper in the order in which
    they were pushed, and Fetch returns some of them, in that order. */
module SleepOrder {
  import opened Sleep

  /** The wakers pushed to the shared list, oldest first. */
  function Pushes(s: State, steps: seq<Step>): seq<nat>
    decreases |steps|
  {
    if steps == [] then [] else
    var last, before := steps[|steps| - 1], steps[..|steps| - 1];
    var u := After(s, before);
    if last.i < |u.t| && u.t[last.i].EnqCas? && u.shared == u.t[last.i].v then Pushes(s, before) + [u.t[last.i].w]
    else Pushes(s, before)
  }

  /** The wakers that nextWaker took from the local list, oldest first. */
  function Taken(s: State, steps: seq<Step>): seq<nat>
    decreases |steps|
  {
    if steps == [] then [] else
    var last, before := steps[|steps| - 1], steps[..|steps| - 1];
    var u := After(s, before);
    if last.i < |u.t| && u.t[last.i].Pop? && u.local.To? then Taken(s, before) + [u.local.w] else Taken(s, before)
  }

  /** First in, first out: in every run what was pushed is what was taken, followed
      by what is queued. */
  lemma {:induction false} FirstPushedFirstTaken(s: State, steps: seq<Step>)
    requires Initial(s)
    ensures Pushes(s, steps) == Taken(s, steps) + QueueAfter(s, steps).q
    decreases |steps|
  {
    if steps != [] {
      hide Inv, Next, NextQueue;
      var last, before := steps[|steps| - 1], steps[..|steps| - 1];
      FirstPushedFirstTaken(s, before);
      RunKeeps(s, before);
      var u, k := After(s, before), QueueAfter(s, before);
      if last.i < |u.t| {
        StepInOrder(u, k, last.i, last.call);
        var q := NextQueue(u, k, last.i).q;
        if u.t[last.i].Pop? {
          Shifted(Taken(s, before), u.local.w, q);
        } else if u.t[last.i].EnqCas? && u.shared == u.t[last.i].v {
          Appended(Taken(s, before), k.q, u.t[last.i].w);
        }
      }
    }
  }

  lemma Shifted(t: seq<nat>, x: nat, q: seq<nat>)
    ensures t + ([x] + q) == (t + [x]) + q
  {
  }

  lemma Appended(t: seq<nat>, q: seq<nat>, x: nat)
    ensures (t + q) + [x] == t + (q + [x])
  {
  }

  /** A step pushes at the end of the queue, or takes its head. */
  lemma StepInOrder(u: State, k: Queue, i: nat, call: Call)
    requires Inv(u, k) && i < |u.t|
    ensures var q := NextQueue(u, k, i).q;
            if u.t[i].EnqCas? && u.shared == u.t[i].v then q == k.q + [u.t[i].w]
            else if u.t[i].Pop? then u.local.To? && k.q == [u.local.w] + q
            else q == k.q
  {
    hide Inv, Next, NextQueue;
    StepKeeps(u, k, i, call);
    if u.t[i].Pop? {
      TakesTheHead(u, k, i);
      assert k.q == [k.q[0]] + k.q[1..];
    }
  }

  /** What a step at Pop takes is the head of the queue. */
  lemma TakesTheHead(u: State, k: Queue, i: nat)
    requires Inv(u, k) && i < |u.t| && u.t[i].Pop?
    ensures |k.q| > 0 && u.local == To(k.q[0])
  {
    PopMoves(u, k, i, u.t[i].block);
  }

  // ----- what Fetch returns -----

  /** The first sequence is the second with some elements left out. */
  ghost predicate Sub(a: seq<nat>, b: seq<nat>)
    decreases |b|
  {
    if a == [] then true
    else if b == [] then false
    else if a[|a| - 1] == b[|b| - 1] then Sub(a[..|a| - 1], b[..|b| - 1])
    else Sub(a, b[..|b| - 1])
  }

  lemma {:induction false} SubLess(a: seq<nat>, b: seq<nat>)
    requires Sub(a, b) && a != []
    ensures Sub(a[..|a| - 1], b)
    decreases |b|, 1
  {
    var a0, b0 := a[..|a| - 1], b[..|b| - 1];
    if a[|a| - 1] == b[|b| - 1] {
      SubMore(a0, b0, b[|b| - 1]);
      assert b0 + [b[|b| - 1]] == b;
    } else {
      SubLess(a, b0);
      SubMore(a0, b0, b[|b| - 1]);
      assert b0 + [b[|b| - 1]] == b;
    }
  }

  lemma {:induction false} SubMore(a: seq<nat>, b: seq<nat>, x: nat)
    requires Sub(a, b)
    ensures Sub(a, b + [x])
    decreases |b| + 1, 0
  {
    assert (b + [x])[..|b|] == b;
    if a != [] && a[|a| - 1] == x {
      SubLess(a, b);
    }
  }

  lemma SubBoth(a: seq<nat>, b: seq<nat>, x: nat)
    requires Sub(a, b)
    ensures Sub(a + [x], b + [x])
  {
    assert (a + [x])[..|a|] == a && (b + [x])[..|b|] == b;
  }

  /** Fetch may have taken one more waker, which it has still to look at. */
  ghost predicate Ordered(u: State, taken: seq<nat>) {
    && |u.t| > 0
    && if u.t[0].Reassociate? then
         taken != [] && taken[|taken| - 1] == u.t[0].w && Sub(u.fetched, taken[..|taken| - 1])
       else
         Sub(u.fetched, taken)
  }

  /** Only Pop and Reassociate concern what is fetched. */
  ghost predicate SameOrder(u: State, i: nat, v: State)
    requires i < |u.t|
  {
    && |v.t| == |u.t| && v.fetched == u.fetched && (i != 0 && u.t[0].Reassociate? ==> v.t[0] == u.t[0])
    && (i == 0 || !u.t[0].Reassociate? ==> !v.t[0].Reassociate?)
  }

  lemma OtherSteps(u: State, i: nat, call: Call)
    requires i < |u.t| && Knows(u, i, u.t[i]) && !u.t[i].Pop? && !u.t[i].Reassociate?
    ensures SameOrder(u, i, Next(u, i, call))
  {
    if OnSleeper(u.t[i]) {
      SleeperSteps(u, i, call);
    } else {
      WakerSteps(u, i, call);
    }
  }

  lemma SleeperSteps(u: State, i: nat, call: Call)
    requires i < |u.t| && !u.t[i].Pop? && !u.t[i].Reassociate? && OnSleeper(u.t[i]) && Knows(u, i, u.t[i])
    ensures SameOrder(u, i, Next(u, i, call))
  {
  }

  lemma WakerSteps(u: State, i: nat, call: Call)
    requires i < |u.t| && !OnSleeper(u.t[i]) && Knows(u, i, u.t[i])
    ensures SameOrder(u, i, Next(u, i, call))
  {
  }

  /** In every run Fetch has returned some of the wakers that were taken, in the
      order in which they were pushed. */
  lemma {:induction false} FetchedInOrder(s: State, steps: seq<Step>)
    requires Initial(s)
    ensures Ordered(After(s, steps), Taken(s, steps))
    decreases |steps|
  {
    if steps != [] {
      var last, before := steps[|steps| - 1], steps[..|steps| - 1];
      FetchedInOrder(s, before);
      RunKeeps(s, before);
      hide Inv, Next, Ordered;
      var u := After(s, before);
      if last.i < |u.t| {
        StepFetches(u, QueueAfter(s, before), last.i, last.call, Taken(s, before));
      }
    }
  }

  lemma StepFetches(u: State, k: Queue, i: nat, call: Call, taken: seq<nat>)
    requires Inv(u, k) && i < |u.t| && Ordered(u, taken)
    ensures Ordered(Next(u, i, call), if u.t[i].Pop? && u.local.To? then taken + [u.local.w] else taken)
  {
    assert Knows(u, i, u.t[i]);
    hide Core, Registered, Next;
    if u.t[i].Pop? {
      TakesTheHead(u, k, i);
      PopInOrder(u, k, call, taken);
    } else if u.t[i].Reassociate? {
      ReassociateInOrder(u, k, call, taken);
    } else {
      OtherSteps(u, i, call);
    }
  }

  lemma PopInOrder(u: State, k: Queue, call: Call, taken: seq<nat>)
    requires Inv(u, k) && u.t[0].Pop? && Ordered(u, taken) && u.local.To?
    ensures Ordered(Next(u, 0, call), taken + [u.local.w])
  {
    PopMoves(u, k, 0, u.t[0].block);
    assert Next(u, 0, call) == DoPop(u, 0, u.t[0].block);
    hide Core, Registered, Next, Sub;
    assert (taken + [u.local.w])[..|taken|] == taken;
    SubMore(u.fetched, taken, u.local.w);
  }

  lemma ReassociateInOrder(u: State, k: Queue, call: Call, taken: seq<nat>)
    requires Inv(u, k) && u.t[0].Reassociate? && Ordered(u, taken)
    ensures Ordered(Next(u, 0, call), taken)
  {
    var w := u.t[0].w;
    assert InHand(u.t[0]) == To(w) && w < |u.links|;
    assert Next(u, 0, call) == DoReassociate(u, 0, w, u.t[0].block);
    hide Core, Registered, Next, Sub;
    SubLast(u.fetched, taken);
  }

  lemma SubLast(a: seq<nat>, b: seq<nat>)
    requires b != [] && Sub(a, b[..|b| - 1])
    ensures Sub(a, b) && Sub(a + [b[|b| - 1]], b)
  {
    hide Sub;
    var b0, x := b[..|b| - 1], b[|b| - 1];
    assert b0 + [x] == b;
    SubMore(a, b0, x);
    SubBoth(a, b0, x);
  }
}
