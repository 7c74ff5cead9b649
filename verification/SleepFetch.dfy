/** What Fetch returns: in every run the wakers that are raised when it looks at
    them, and from every state, run alone, the first raised waker of the queue. */
module SleepFetch {
  import opened Sleep

  // ----- the history of a waker -----

  /** What the calls do to wakers: Assert raises one, Clear lowers one, and Fetch
      takes one from the queue and lowers it. */
  datatype Signal = Raise(w: nat) | Lower(w: nat) | Take(w: nat)

  /** What thread i does on the way from u to v. Assert and Clear may return at once,
      where they need not change anything. */
  function SignalOf(u: State, i: nat, v: State): seq<Signal>
    requires i < |u.t| && i < |v.t|
  {
    match u.t[i]
    case AssertLoad(w) => if v.t[i].Idle? then [Raise(w)] else []
    case AssertSwap(w) => [Raise(w)]
    case ClearLoad(w) => if v.t[i].Idle? then [Lower(w)] else []
    case ClearCas(w) => [Lower(w)]
    case Reassociate(w, _) => [Take(w)]
    case _ => []
  }

  function Signals(s: State, steps: seq<Step>): seq<Signal>
    decreases |steps|
  {
    if steps == [] then [] else
    var last, before := steps[|steps| - 1], steps[..|steps| - 1];
    var u, v := After(s, before), After(s, steps);
    Signals(s, before) + if last.i < |u.t| && last.i < |v.t| then SignalOf(u, last.i, v) else []
  }

  /** The latest signal on w is an Assert. At first those of the given set are
      raised. */
  predicate Raised(first: set<nat>, h: seq<Signal>, w: nat)
    decreases |h|
  {
    if h == [] then w in first
    else if h[|h| - 1].w == w then h[|h| - 1].Raise?
    else Raised(first, h[..|h| - 1], w)
  }

  /** The wakers that are raised when Fetch takes them, oldest first. */
  function Returned(first: set<nat>, h: seq<Signal>): seq<nat>
    decreases |h|
  {
    if h == [] then [] else
    var last, before := h[|h| - 1], h[..|h| - 1];
    if last.Take? && Raised(first, before, last.w) then Returned(first, before) + [last.w] else Returned(first, before)
  }

  function AssertedIn(links: seq<Link>): set<nat> { set w | 0 <= w < |links| && links[w].Asserted? }

  /** The links say which wakers are raised, and what was fetched is what was raised. */
  ghost predicate Recorded(first: set<nat>, h: seq<Signal>, u: State) {
    && (forall w :: 0 <= w < |u.links| ==> (u.links[w].Asserted? <==> Raised(first, h, w)))
    && u.fetched == Returned(first, h)
  }

  /** In every run a waker is asserted if and only if the last Assert, Clear or Fetch
      of it is an Assert, and Fetch has returned exactly the wakers that were
      asserted as it took them. */
  lemma {:induction false} FetchedWereRaised(s: State, steps: seq<Step>)
    requires Initial(s)
    ensures Recorded(AssertedIn(s.links), Signals(s, steps), After(s, steps))
    decreases |steps|
  {
    if steps != [] {
      hide Inv, Next, Recorded, Initial;
      var last, before := steps[|steps| - 1], steps[..|steps| - 1];
      FetchedWereRaised(s, before);
      RunKeeps(s, before);
      var u := After(s, before);
      assert Signals(s, before) + [] == Signals(s, before);
      if last.i < |u.t| {
        StepRecords(AssertedIn(s.links), Signals(s, before), u, QueueAfter(s, before), last.i, last.call);
      }
    }
  }

  /** What one step does to links and fetched. */
  ghost predicate Effect(u: State, i: nat, v: State)
    requires i < |u.t|
  {
    && |v.t| == |u.t| && |v.links| == |u.links|
    && match u.t[i]
       case AssertLoad(w) => Same(u, v) && (v.t[i].Idle? ==> w < |u.links| && u.links[w].Asserted?)
       case AssertSwap(w) => w < |u.links| && v.links == u.links[w := Asserted] && v.fetched == u.fetched
       case ClearLoad(w) => Same(u, v) && (v.t[i].Idle? ==> w < |u.links| && !u.links[w].Asserted?)
       case ClearCas(w) => Lowers(u, w, v) && v.fetched == u.fetched
       case Reassociate(w, _) =>
         Lowers(u, w, v) && w < |u.links|
         && v.fetched == (if u.links[w].Asserted? then u.fetched + [w] else u.fetched)
       case _ => Same(u, v)
  }

  ghost predicate Same(u: State, v: State) {
    |v.links| == |u.links| && v.fetched == u.fetched
    && forall w :: 0 <= w < |u.links| ==> (v.links[w].Asserted? <==> u.links[w].Asserted?)
  }

  ghost predicate Lowers(u: State, x: nat, v: State) {
    |v.links| == |u.links|
    && forall w :: 0 <= w < |u.links| ==> (v.links[w].Asserted? <==> w != x && u.links[w].Asserted?)
  }

  lemma StepHasEffect(u: State, k: Queue, i: nat, call: Call)
    requires Inv(u, k) && i < |u.t|
    ensures Effect(u, i, Next(u, i, call))
  {
    assert Knows(u, i, u.t[i]);
    assert InHand(u.t[i]).To? ==> InHand(u.t[i]).w < |u.links|;
    hide Inv;
    if OnSleeper(u.t[i]) {
      SleeperEffect(u, i, call);
    } else {
      WakerEffect(u, i, call);
    }
  }

  lemma SleeperEffect(u: State, i: nat, call: Call)
    requires i < |u.t| && Knows(u, i, u.t[i]) && OnSleeper(u.t[i])
    requires InHand(u.t[i]).To? ==> InHand(u.t[i]).w < |u.links|
    ensures Effect(u, i, Next(u, i, call))
  {
  }

  lemma WakerEffect(u: State, i: nat, call: Call)
    requires i < |u.t| && Knows(u, i, u.t[i]) && !OnSleeper(u.t[i])
    ensures Effect(u, i, Next(u, i, call))
  {
  }

  lemma StepRecords(first: set<nat>, h: seq<Signal>, u: State, k: Queue, i: nat, call: Call)
    requires Inv(u, k) && i < |u.t| && Recorded(first, h, u)
    ensures var v := Next(u, i, call);
            i < |v.t| && Recorded(first, h + SignalOf(u, i, v), v)
  {
    hide Inv, Next, Raised, Returned;
    StepHasEffect(u, k, i, call);
    var v := Next(u, i, call);
    var e := SignalOf(u, i, v);
    if e == [] {
      assert h + e == h;
    } else {
      assert e == [e[0]];
      OneMore(first, h, e[0]);
    }
  }

  lemma OneMore(first: set<nat>, h: seq<Signal>, e: Signal)
    ensures Raised(first, h + [e], e.w) == e.Raise?
    ensures forall w :: w != e.w ==> Raised(first, h + [e], w) == Raised(first, h, w)
    ensures Returned(first, h + [e])
         == if e.Take? && Raised(first, h, e.w) then Returned(first, h) + [e.w] else Returned(first, h)
  {
    assert (h + [e])[..|h|] == h;
  }

  // ----- one Fetch -----

  lemma {:induction false} AloneMore(u: State, m: nat, n: nat)
    requires 0 < |u.t|
    ensures |Alone(u, 0, m).t| == |u.t| && Alone(u, 0, m + n) == Alone(Alone(u, 0, m), 0, n)
    decreases m
  {
    hide Next;
    if m > 0 {
      ThreadsStay(u);
      AloneMore(Next(u, 0, Clear(0)), m - 1, n);
    }
  }

  lemma ThreadsStay(u: State)
    requires 0 < |u.t|
    ensures |Next(u, 0, Clear(0)).t| == |u.t|
  {
    hide Next;
    if OnSleeper(u.t[0]) { SleeperStays(u); } else { WakerStays(u); }
  }

  lemma SleeperStays(u: State)
    requires 0 < |u.t| && OnSleeper(u.t[0])
    ensures |Next(u, 0, Clear(0)).t| == |u.t|
  {
  }

  lemma WakerStays(u: State)
    requires 0 < |u.t| && !OnSleeper(u.t[0])
    ensures |Next(u, 0, Clear(0)).t| == |u.t|
  {
  }

  /** A step of thread 0, with the queue. */
  lemma OneStep(u: State, k: Queue)
    requires Inv(u, k)
    ensures |u.t| > 0 && Alone(u, 0, 1) == Next(u, 0, Clear(0)) && Inv(Alone(u, 0, 1), NextQueue(u, k, 0))
  {
    assert |u.t| > 0;
    ThreadsStay(u);
    hide Inv, Next;
    var v := Next(u, 0, Clear(0));
    assert Alone(v, 0, 0) == v;
    StepKeeps(u, k, 0, Clear(0));
  }

  /** V is u but for where the lists and thread 0 are. */
  ghost predicate OnlyLists(u: State, v: State) {
    v.links == u.links && v.fetched == u.fetched && v.finishing == u.finishing && |v.t| == |u.t|
  }

  /** Reversing the list that was pulled takes a step for each waker, and one more. */
  lemma {:induction false} Reverses(u: State, k: Queue) returns (m: Queue)
    requires Inv(u, k) && u.t[0].Reverse?
    ensures |u.t| > 0 && |Alone(u, 0, k.a + 1).t| > 0
    ensures var v := Alone(u, 0, k.a + 1);
            v.t[0] == Pop(u.t[0].block) && OnlyLists(u, v) && Inv(v, m) && m.q == k.q && m.b == k.b
    decreases k.a
  {
    ReverseStep(u, k);
    OneStep(u, k);
    hide Inv, Alone, Next, NextQueue;
    var v := Alone(u, 0, 1);
    m := NextQueue(u, k, 0);
    if k.a > 0 {
      var m2 := m;
      m := Reverses(v, m2);
      AloneMore(u, 1, k.a);
    }
  }

  lemma ReverseStep(u: State, k: Queue)
    requires Inv(u, k) && u.t[0].Reverse?
    ensures var v, m := Next(u, 0, Clear(0)), NextQueue(u, k, 0);
            && OnlyLists(u, v) && m.q == k.q && m.b == k.b
            && (if k.a > 0 then v.t[0].Reverse? && v.t[0].block == u.t[0].block && m.a == k.a - 1
                else v.t[0] == Pop(u.t[0].block))
  {
    assert Links(u.next, k, if k.a > 0 then k.a - 1 else 0) || |k.q| == 0;
  }

  /** How many steps Fetch takes at most with this queue. */
  function FetchBound(k: Queue): int { 3 * |k.q| + (if k.b < |k.q| then |k.q| - k.b + 3 else 0) + 5 }

  /** From its start to the taking of a waker, if one is queued. */
  lemma Refills(u: State, k: Queue) returns (n: nat, m: Queue)
    requires Inv(u, k) && |u.t| > 0 && u.t[0].NextStart? && k.q != []
    ensures |Alone(u, 0, n).t| > 0
    ensures var v := Alone(u, 0, n);
            v.t[0] == Pop(u.t[0].block) && OnlyLists(u, v) && Inv(v, m) && m.q == k.q
    ensures m.b > 0 && n + 2 + FetchBound(Queue(m.q[1..], 0, m.b - 1)) <= FetchBound(k)
  {
    StartStep(u, k);
    OneStep(u, k);
    hide Inv, Alone, Next;
    var v := Alone(u, 0, 1);
    n, m := 1, k;
    if k.b == 0 {
      m := Pulls(v, k);
      AloneMore(u, 1, |k.q| + 3);
      n := |k.q| + 4;
    }
  }

  /** The shared list is pulled and reversed. */
  lemma Pulls(u: State, k: Queue) returns (m: Queue)
    requires Inv(u, k) && |u.t| > 0 && u.t[0].NextLoad? && k.q != []
    ensures |Alone(u, 0, |k.q| + 3).t| > 0
    ensures var v := Alone(u, 0, |k.q| + 3);
            v.t[0] == Pop(u.t[0].block) && OnlyLists(u, v) && Inv(v, m) && m.q == k.q && m.b == |m.q|
  {
    LoadStep(u, k);
    OneStep(u, k);
    hide Inv, Alone, Next;
    var v := Alone(u, 0, 1);
    PullStep(v, k);
    OneStep(v, k);
    AloneMore(u, 1, 1);
    var v2, k2 := Alone(v, 0, 1), Queue(k.q, |k.q|, |k.q|);
    m := Reverses(v2, k2);
    AloneMore(u, 2, |k.q| + 1);
  }

  lemma StartStep(u: State, k: Queue)
    requires Inv(u, k) && u.t[0].NextStart?
    ensures var v := Next(u, 0, Clear(0));
            && NextQueue(u, k, 0) == k && OnlyLists(u, v) && v.local == u.local && v.shared == u.shared
            && v.waiting == u.waiting && k.a == 0 && (u.local.Null? <==> k.b == 0)
            && v.t[0] == if k.b == 0 then NextLoad(u.t[0].block) else Pop(u.t[0].block)
  {
  }

  lemma LoadStep(u: State, k: Queue)
    requires Inv(u, k) && u.t[0].NextLoad?
    ensures var v, block := Next(u, 0, Clear(0)), u.t[0].block;
            && NextQueue(u, k, 0) == k && OnlyLists(u, v) && v.local == u.local && v.shared == u.shared
            && k.a == k.b == 0
            && v.t[0] == if k.q != [] then Pull(block) else if block then Prepare else Idle
  {
    assert Knows(u, 0, u.t[0]);
  }

  lemma PullStep(u: State, k: Queue)
    requires Inv(u, k) && u.t[0].Pull?
    ensures var v := Next(u, 0, Clear(0));
            && NextQueue(u, k, 0) == Queue(k.q, |k.q|, |k.q|) && OnlyLists(u, v)
            && v.t[0].Reverse? && v.t[0].block == u.t[0].block
  {
  }

  /** Taking a waker, and looking at it. */
  lemma TakesOne(u: State, k: Queue) returns (m: Queue)
    requires Inv(u, k) && u.t[0].Pop? && !u.finishing
    ensures |k.q| > 0 && k.q[0] < |u.links| && |u.t| > 0 && |Alone(u, 0, 2).t| > 0
    ensures var v, w := Alone(u, 0, 2), k.q[0];
            && Inv(v, m) && m.q == k.q[1..] && k.b > 0 && m == Queue(k.q[1..], 0, k.b - 1) && !v.finishing
            && v.links == u.links[w := Sleeper] && |v.t| == |u.t|
            && if u.links[w].Asserted? then v.t[0] == Idle && v.fetched == u.fetched + [w]
               else v.t[0] == NextStart(u.t[0].block) && v.fetched == u.fetched
  {
    PopStep(u, k);
    OneStep(u, k);
    m := NextQueue(u, k, 0);
    var v := Alone(u, 0, 1);
    ReassociateStep(v, m);
    OneStep(v, m);
    AloneMore(u, 1, 1);
  }

  lemma PopStep(u: State, k: Queue)
    requires Inv(u, k) && u.t[0].Pop? && !u.finishing
    ensures |k.q| > 0 && k.b > 0 && k.q[0] < |u.links|
    ensures var v := Next(u, 0, Clear(0));
            && OnlyLists(u, v) && v.t[0] == Reassociate(k.q[0], u.t[0].block)
            && NextQueue(u, k, 0) == Queue(k.q[1..], 0, k.b - 1)
  {
    PopMoves(u, k, 0, u.t[0].block);
    assert Knows(u, 0, u.t[0]);
    assert k.q[0] in k.q;
  }

  lemma ReassociateStep(u: State, k: Queue)
    requires Inv(u, k) && u.t[0].Reassociate?
    ensures u.t[0].w < |u.links| && NextQueue(u, k, 0) == k
    ensures var v, w := Next(u, 0, Clear(0)), u.t[0].w;
            && v.links == u.links[w := Sleeper] && v.finishing == u.finishing && |v.t| == |u.t|
            && if u.links[w].Asserted? then v.t[0] == Idle && v.fetched == u.fetched + [w]
               else v.t[0] == NextStart(u.t[0].block) && v.fetched == u.fetched
  {
    assert InHand(u.t[0]) == To(u.t[0].w);
  }

  /** With an empty queue Fetch parks or returns. */
  lemma FindsNothing(u: State, k: Queue) returns (n: nat)
    requires Inv(u, k) && u.t[0].NextStart? && k.q == []
    ensures |u.t| > 0 && |Alone(u, 0, n).t| > 0 && n <= 5
    ensures var v := Alone(u, 0, n);
            v.t[0] == (if u.t[0].block then Parked else Idle) && v.links == u.links && v.fetched == u.fetched
  {
    StartStep(u, k);
    OneStep(u, k);
    var v := Alone(u, 0, 1);
    LoadStep(v, k);
    OneStep(v, k);
    AloneMore(u, 1, 1);
    n := 2;
    if u.t[0].block {
      var v2 := Alone(v, 0, 1);
      Parks(v2, k);
      AloneMore(u, 2, 3);
      n := 5;
    }
  }

  lemma Parks(u: State, k: Queue)
    requires Inv(u, k) && u.t[0].Prepare? && k.q == []
    ensures |u.t| > 0 && |Alone(u, 0, 3).t| > 0
    ensures var v := Alone(u, 0, 3); v.t[0] == Parked && v.links == u.links && v.fetched == u.fetched
  {
    var a := Next(u, 0, Clear(0));
    assert a.t[0].Recheck? && a.waiting.PreparingG? && a.shared.Null?;
    var b := Next(a, 0, Clear(0));
    assert b.t[0].Commit? && b.waiting.PreparingG?;
    var c := Next(b, 0, Clear(0));
    assert c.t[0].Parked?;
    assert Alone(c, 0, 0) == c && Alone(b, 0, 1) == c && Alone(a, 0, 2) == c;
  }

  /** The first asserted waker of a queue. */
  ghost predicate IsFirst(links: seq<Link>, q: seq<nat>, j: nat) {
    && j <= |q| && (forall x :: 0 <= x < |q| ==> q[x] < |links|)
    && (forall x :: 0 <= x < j ==> !links[q[x]].Asserted?) && (j < |q| ==> links[q[j]].Asserted?)
  }

  /** What a Fetch that runs alone comes to: the first asserted waker of the queue is
      returned, and only a blocking Fetch that finds none parks. The wakers up to it
      are the sleeper's again, and no other waker changes. */
  ghost predicate FetchedAlone(u: State, block: bool, q: seq<nat>, j: nat, v: State) {
    && |v.t| > 0 && v.t[0] == (if j < |q| || !block then Idle else Parked)
    && v.fetched == (if j < |q| then u.fetched + [q[j]] else u.fetched)
    && |v.links| == |u.links|
    && forall w :: 0 <= w < |u.links| ==> v.links[w] == if LookedAt(q, j, w) then Sleeper else u.links[w]
  }

  /** Waker w is among the first of the queue, up to number j. */
  ghost predicate LookedAt(q: seq<nat>, j: nat, w: nat) { exists x :: 0 <= x < |q| && x <= j && q[x] == w }

  lemma {:induction false} FetchFrom(u: State, k: Queue) returns (n: nat, j: nat)
    requires Inv(u, k) && |u.t| > 0 && u.t[0].NextStart? && !u.finishing
    ensures n <= FetchBound(k) && IsFirst(u.links, k.q, j)
    ensures FetchedAlone(u, u.t[0].block, k.q, j, Alone(u, 0, n))
    decreases |k.q|
  {
    hide Inv, Alone, IsFirst, FetchedAlone, Distinct, FetchBound;
    QueueInRange(u, k);
    if k.q == [] {
      n := FindsNothing(u, k);
      j := 0;
      NothingFetched(u, k, Alone(u, 0, n));
    } else {
      var m, m2, v;
      n, m, m2, v := TakesNext(u, k);
      if u.links[k.q[0]].Asserted? {
        j := 0;
        FirstFetched(u, u.t[0].block, k.q, v);
        BoundPositive(m2);
      } else {
        var n2, j2 := FetchFrom(v, m2);
        AloneMore(u, n, n2);
        PassedOver(u, v, u.t[0].block, k.q, j2, Alone(v, 0, n2));
        n, j := n + n2, j2 + 1;
      }
    }
  }

  lemma BoundPositive(k: Queue)
    ensures FetchBound(k) >= 0
  {
  }

  /** The steps in which the first waker of the queue is taken and looked at. */
  lemma TakesNext(u: State, k: Queue) returns (n: nat, m: Queue, m2: Queue, v: State)
    requires Inv(u, k) && |u.t| > 0 && u.t[0].NextStart? && !u.finishing && k.q != []
    ensures v == Alone(u, 0, n) && |v.t| == |u.t| && k.q[0] < |u.links|
    ensures Inv(v, m2) && m2.q == k.q[1..] && n + FetchBound(m2) <= FetchBound(k) && !v.finishing
    ensures v.links == u.links[k.q[0] := Sleeper]
    ensures if u.links[k.q[0]].Asserted? then v.t[0] == Idle && v.fetched == u.fetched + [k.q[0]]
            else v.t[0] == NextStart(u.t[0].block) && v.fetched == u.fetched
  {
    hide Inv, Alone, FetchBound;
    n, m := Refills(u, k);
    var a := Alone(u, 0, n);
    m2 := TakesOne(a, m);
    AloneMore(u, n, 2);
    n, v := n + 2, Alone(a, 0, 2);
  }

  lemma NothingFetched(u: State, k: Queue, v: State)
    requires k.q == [] && |u.t| > 0 && u.t[0].NextStart? && |v.t| > 0
    requires v.t[0] == (if u.t[0].block then Parked else Idle) && v.links == u.links && v.fetched == u.fetched
    ensures IsFirst(u.links, k.q, 0) && FetchedAlone(u, u.t[0].block, k.q, 0, v) && 5 <= FetchBound(k)
  {
  }

  lemma FirstFetched(u: State, block: bool, q: seq<nat>, v: State)
    requires q != [] && (forall x :: 0 <= x < |q| ==> q[x] < |u.links|) && u.links[q[0]].Asserted?
    requires v.links == u.links[q[0] := Sleeper] && v.fetched == u.fetched + [q[0]] && |v.t| > 0 && v.t[0] == Idle
    ensures IsFirst(u.links, q, 0) && FetchedAlone(u, block, q, 0, v)
  {
    assert LookedAt(q, 0, q[0]);
  }

  lemma QueueInRange(u: State, k: Queue)
    requires Inv(u, k)
    ensures Distinct(k.q) && forall x :: 0 <= x < |k.q| ==> k.q[x] < |u.links|
  {
    forall x | 0 <= x < |k.q| ensures k.q[x] < |u.links| { assert k.q[x] in k.q; }
  }

  /** A waker that was not asserted is passed over. */
  lemma PassedOver(u: State, v: State, block: bool, q: seq<nat>, j: nat, z: State)
    requires q != [] && Distinct(q) && (forall x :: 0 <= x < |q| ==> q[x] < |u.links|) && !u.links[q[0]].Asserted?
    requires v.links == u.links[q[0] := Sleeper] && v.fetched == u.fetched
    requires IsFirst(v.links, q[1..], j) && FetchedAlone(v, block, q[1..], j, z)
    ensures IsFirst(u.links, q, j + 1) && FetchedAlone(u, block, q, j + 1, z)
  {
    hide LookedAt;
    var r := q[1..];
    assert forall x :: 0 < x < |q| ==> r[x - 1] == q[x] && q[x] != q[0];
    forall x | 0 <= x < j + 1 ensures !u.links[q[x]].Asserted? { if x > 0 { assert r[x - 1] == q[x]; } }
    forall w | 0 <= w < |u.links| ensures z.links[w] == if LookedAt(q, j + 1, w) then Sleeper else u.links[w] {
      LookedAtNext(q, j, w);
    }
  }

  lemma LookedAtNext(q: seq<nat>, j: nat, w: nat)
    requires q != []
    ensures LookedAt(q, j + 1, w) <==> w == q[0] || LookedAt(q[1..], j, w)
  {
    var r := q[1..];
    if x :| 0 <= x < |r| && x <= j && r[x] == w { assert q[x + 1] == w; }
    if x :| 0 <= x < |q| && x <= j + 1 && q[x] == w { assert x > 0 ==> r[x - 1] == w; }
    if w == q[0] { assert q[0] == w; }
  }

  /** In every run, from the start of a Fetch on, the sleeper's thread alone comes to
      its end: it returns the first asserted waker of the queue, or parks if there
      is none and it blocks. */
  lemma FetchAlone(s: State, steps: seq<Step>) returns (n: nat, j: nat)
    requires Initial(s)
    requires var u := After(s, steps); |u.t| > 0 && u.t[0].NextStart? && !u.finishing
    ensures var u, q := After(s, steps), QueueAfter(s, steps).q;
            && n <= 4 * |q| + 8 && IsFirst(u.links, q, j)
            && FetchedAlone(u, u.t[0].block, q, j, Alone(u, 0, n))
  {
    RunKeeps(s, steps);
    var u, k := After(s, steps), QueueAfter(s, steps);
    assert k.b <= |k.q|;
    n, j := FetchFrom(u, k);
    assert FetchBound(k) <= 4 * |k.q| + 8;
  }

  // ----- Fetch from wherever it is -----

  predicate InFetch(pc: Pc) {
    || pc.NextStart? || pc.NextLoad? || pc.Prepare? || pc.Recheck? || pc.Unprepare? || pc.Commit? || pc.Pull?
    || pc.Reverse? || pc.Pop? || pc.Reassociate?
  }

  predicate Ended(u: State) { |u.t| > 0 && (u.t[0].Idle? || u.t[0].Parked?) }

  /** From wherever a Fetch is, its thread alone ends it or parks. */
  lemma FetchEnds(u: State, k: Queue) returns (n: nat)
    requires Inv(u, k) && |u.t| > 0 && InFetch(u.t[0]) && !u.finishing
    ensures n <= 5 * |k.q| + 20 && Ended(Alone(u, 0, n))
  {
    hide Inv, Alone;
    match u.t[0]
    case NextStart(_) => n := StartEnds(u, k);
    case NextLoad(_) => n := LoadEnds(u, k);
    case Prepare => n := PrepareEnds(u, k);
    case Recheck => n := RecheckEnds(u, k);
    case Unprepare => n := UnprepareEnds(u, k);
    case Commit => n := CommitEnds(u, k);
    case Pull(_) => n := PullEnds(u, k);
    case Reverse(_, _) => n := ReverseEnds(u, k);
    case Pop(_) => n := PopEnds(u, k);
    case Reassociate(_, _) => n := ReassociateEnds(u, k);
  }

  lemma QueueShape(u: State, k: Queue)
    requires Inv(u, k)
    ensures k.a <= k.b <= |k.q|
  {
  }

  lemma StartEnds(u: State, k: Queue) returns (n: nat)
    requires Inv(u, k) && |u.t| > 0 && u.t[0].NextStart? && !u.finishing
    ensures n <= 4 * |k.q| + 8 && Ended(Alone(u, 0, n))
  {
    hide Inv, Alone, IsFirst;
    QueueShape(u, k);
    var j;
    n, j := FetchFrom(u, k);
    assert FetchBound(k) <= 4 * |k.q| + 8;
  }

  lemma ReassociateEnds(u: State, k: Queue) returns (n: nat)
    requires Inv(u, k) && |u.t| > 0 && u.t[0].Reassociate? && !u.finishing
    ensures n <= 4 * |k.q| + 9 && Ended(Alone(u, 0, n))
  {
    hide Inv, Alone;
    ReassociateStep(u, k);
    OneStep(u, k);
    var v := Alone(u, 0, 1);
    n := 1;
    if v.t[0].NextStart? {
      var more := StartEnds(v, k);
      AloneMore(u, 1, more);
      n := 1 + more;
    }
  }

  lemma PopEnds(u: State, k: Queue) returns (n: nat)
    requires Inv(u, k) && |u.t| > 0 && u.t[0].Pop? && !u.finishing
    ensures n <= 4 * |k.q| + 10 && Ended(Alone(u, 0, n))
  {
    hide Inv, Alone;
    var m := TakesOne(u, k);
    var v := Alone(u, 0, 2);
    n := 2;
    if v.t[0].NextStart? {
      var more := StartEnds(v, m);
      AloneMore(u, 2, more);
      n := 2 + more;
    }
  }

  lemma ReverseEnds(u: State, k: Queue) returns (n: nat)
    requires Inv(u, k) && |u.t| > 0 && u.t[0].Reverse? && !u.finishing
    ensures n <= 5 * |k.q| + 11 && Ended(Alone(u, 0, n))
  {
    hide Inv, Alone;
    QueueShape(u, k);
    var m := Reverses(u, k);
    var v := Alone(u, 0, k.a + 1);
    var more := PopEnds(v, m);
    AloneMore(u, k.a + 1, more);
    n := k.a + 1 + more;
  }

  lemma PullEnds(u: State, k: Queue) returns (n: nat)
    requires Inv(u, k) && |u.t| > 0 && u.t[0].Pull? && !u.finishing
    ensures n <= 5 * |k.q| + 12 && Ended(Alone(u, 0, n))
  {
    hide Inv, Alone;
    PullStep(u, k);
    OneStep(u, k);
    var v, m := Alone(u, 0, 1), Queue(k.q, |k.q|, |k.q|);
    var more := ReverseEnds(v, m);
    AloneMore(u, 1, more);
    n := 1 + more;
  }

  lemma UnprepareEnds(u: State, k: Queue) returns (n: nat)
    requires Inv(u, k) && |u.t| > 0 && u.t[0].Unprepare? && !u.finishing
    ensures n <= 5 * |k.q| + 13 && Ended(Alone(u, 0, n))
  {
    hide Inv, Alone;
    UnprepareStep(u, k);
    OneStep(u, k);
    var v := Alone(u, 0, 1);
    var more := PullEnds(v, k);
    AloneMore(u, 1, more);
    n := 1 + more;
  }

  lemma UnprepareStep(u: State, k: Queue)
    requires Inv(u, k) && |u.t| > 0 && u.t[0].Unprepare?
    ensures NextQueue(u, k, 0) == k && OnlyLists(u, Next(u, 0, Clear(0))) && Next(u, 0, Clear(0)).t[0] == Pull(true)
  {
  }

  lemma LoadEnds(u: State, k: Queue) returns (n: nat)
    requires Inv(u, k) && |u.t| > 0 && u.t[0].NextLoad? && !u.finishing
    ensures n <= 5 * |k.q| + 13 && Ended(Alone(u, 0, n))
  {
    hide Inv, Alone;
    LoadStep(u, k);
    OneStep(u, k);
    var v := Alone(u, 0, 1);
    n := 1;
    if k.q != [] {
      var more := PullEnds(v, k);
      AloneMore(u, 1, more);
      n := 1 + more;
    } else if u.t[0].block {
      Parks(v, k);
      AloneMore(u, 1, 3);
      n := 4;
    }
  }

  lemma CommitEnds(u: State, k: Queue) returns (n: nat)
    requires Inv(u, k) && |u.t| > 0 && u.t[0].Commit? && !u.finishing
    ensures n <= 5 * |k.q| + 14 && Ended(Alone(u, 0, n))
  {
    hide Inv, Alone;
    CommitStep(u, k);
    OneStep(u, k);
    var v := Alone(u, 0, 1);
    n := 1;
    if v.t[0].NextLoad? {
      var more := LoadEnds(v, k);
      AloneMore(u, 1, more);
      n := 1 + more;
    }
  }

  lemma CommitStep(u: State, k: Queue)
    requires Inv(u, k) && |u.t| > 0 && u.t[0].Commit?
    ensures var v := Next(u, 0, Clear(0));
            NextQueue(u, k, 0) == k && OnlyLists(u, v) && (v.t[0] == Parked || v.t[0] == NextLoad(true))
  {
  }

  lemma RecheckEnds(u: State, k: Queue) returns (n: nat)
    requires Inv(u, k) && |u.t| > 0 && u.t[0].Recheck? && !u.finishing
    ensures n <= 5 * |k.q| + 15 && Ended(Alone(u, 0, n))
  {
    hide Inv, Alone;
    RecheckStep(u, k);
    OneStep(u, k);
    var v := Alone(u, 0, 1);
    var more;
    if v.t[0].Unprepare? { more := UnprepareEnds(v, k); } else { more := CommitEnds(v, k); }
    AloneMore(u, 1, more);
    n := 1 + more;
  }

  lemma RecheckStep(u: State, k: Queue)
    requires Inv(u, k) && |u.t| > 0 && u.t[0].Recheck?
    ensures var v := Next(u, 0, Clear(0));
            NextQueue(u, k, 0) == k && OnlyLists(u, v) && (v.t[0] == Unprepare || v.t[0] == Commit)
  {
  }

  lemma PrepareEnds(u: State, k: Queue) returns (n: nat)
    requires Inv(u, k) && |u.t| > 0 && u.t[0].Prepare? && !u.finishing
    ensures n <= 5 * |k.q| + 16 && Ended(Alone(u, 0, n))
  {
    hide Inv, Alone;
    PrepareStep(u, k);
    OneStep(u, k);
    var v := Alone(u, 0, 1);
    var more := RecheckEnds(v, k);
    AloneMore(u, 1, more);
    n := 1 + more;
  }

  lemma PrepareStep(u: State, k: Queue)
    requires Inv(u, k) && |u.t| > 0 && u.t[0].Prepare?
    ensures var v := Next(u, 0, Clear(0)); NextQueue(u, k, 0) == k && OnlyLists(u, v) && v.t[0] == Recheck
  {
  }

  // ----- Assert and Clear -----

  /** The steps of a thread that starts a call and runs alone. */
  function Calls(u: State, i: nat, call: Call, n: nat): State
    requires i < |u.t|
    decreases n
  {
    if n == 0 then u
    else
      var v := Next(u, i, call);
      if i < |v.t| then Calls(v, i, call, n - 1) else v
  }

  /** Clear returns after at most three steps, and the waker is then not asserted. No other
      waker changes. */
  lemma ClearLowers(u: State, i: nat, w: nat) returns (n: nat)
    requires i < |u.t| && u.t[i].Idle? && w < |u.links|
    ensures n <= 3
    ensures var v := Calls(u, i, Clear(w), n);
            && v.t == u.t && v.links == u.links[w := if u.links[w].Asserted? then NoSleeper else u.links[w]]
  {
    var c := Clear(w);
    var a := Next(u, i, c);
    assert a.t == u.t[i := ClearLoad(w)] && a.links == u.links;
    var b := Next(a, i, c);
    assert Calls(b, i, c, 0) == b && Calls(a, i, c, 1) == b;
    n := 2;
    if u.links[w].Asserted? {
      assert b.t == u.t[i := ClearCas(w)];
      var d := Next(b, i, c);
      assert Calls(d, i, c, 0) == d && Calls(b, i, c, 1) == d && Calls(a, i, c, 2) == d;
      assert d.t == u.t;
      n := 3;
    } else {
      assert b.t == u.t && u.links[w := u.links[w]] == u.links;
    }
  }

  /** Assert makes the waker asserted with its third step at the latest. */
  lemma AssertRaises(u: State, i: nat, w: nat)
    requires i < |u.t| && u.t[i].Idle? && w < |u.links|
    ensures var v := Calls(u, i, Assert(w), if u.links[w].Asserted? then 2 else 3);
            && v.links == u.links[w := Asserted]
            && v.t == u.t[i := if u.links[w].Sleeper? then EnqLoad(w) else Idle]
  {
    var c := Assert(w);
    var a := Next(u, i, c);
    assert a.t == u.t[i := AssertLoad(w)] && a.links == u.links;
    var b := Next(a, i, c);
    var d := Next(b, i, c);
    assert Calls(b, i, c, 0) == b && Calls(a, i, c, 1) == b;
    assert i < |d.t| ==> Calls(d, i, c, 0) == d && Calls(b, i, c, 1) == d && Calls(a, i, c, 2) == d;
    if u.links[w].Asserted? {
      assert b.t == u.t && u.links[w := Asserted] == u.links;
    } else {
      assert b.t == u.t[i := AssertSwap(w)];
    }
  }
}
