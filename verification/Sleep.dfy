/** The sleeper and its wakers: any number of threads assert and clear wakers
    while one thread, thread 0, adds wakers to a sleeper, fetches from it and is
    done with it. One step is one atomic access to shared memory. */
module Sleep {

  datatype Ptr = Null | To(w: nat)

  /** A waker's link: nil, the asserted sentinel, or the sleeper. */
  datatype Link = NoSleeper | Asserted | Sleeper

  datatype Waiting = NoG | PreparingG | SleepingG

  datatype Call = Assert(w: nat) | Clear(w: nat) | AddWaker(w: nat) | Fetch(block: bool) | Done

  /** Where a thread is: the access it makes next. */
  datatype Pc =
    | Idle
    | AssertLoad(w: nat) | AssertSwap(w: nat)
    | ClearLoad(w: nat) | ClearCas(w: nat)
    | EnqLoad(w: nat) | EnqStore(w: nat, v: Ptr) | EnqCas(w: nat, v: Ptr) | EnqCheck | EnqSwap | EnqReady
    | AddLoad(w: nat) | AddCas(w: nat, p: Link)
    | NextStart(block: bool) | NextLoad(block: bool)
    | Prepare | Recheck | Unprepare | Commit | Parked
    | Pull(block: bool) | Reverse(v: Ptr, block: bool) | Pop(block: bool) | Reassociate(w: nat, block: bool)
    | DoneLoad(rest: seq<nat>) | DoneCas(rest: seq<nat>)

  /** Wakers are numbered; links and next are their fields. All is the list of all
      wakers given to the sleeper, and added are those that the sleeper has still
      to do with. Pending are the wakers that Done waits for, while it is
      finishing. Fetched lists what Fetch returned, oldest first. */
  datatype State = State(links: seq<Link>, next: seq<Ptr>, shared: Ptr, local: Ptr, waiting: Waiting,
                         added: set<nat>, all: seq<nat>, pending: set<nat>, finishing: bool, fetched: seq<nat>,
                         t: seq<Pc>)

  predicate WellFormed(s: State) { |s.next| == |s.links| && |s.t| > 0 }

  function Set(s: State, i: nat, pc: Pc): State
    requires i < |s.t|
  {
    s.(t := s.t[i := pc])
  }

  /** A call is started. Only thread 0 uses the sleeper, and it adds a waker once. */
  function Start(s: State, i: nat, call: Call): State
    requires i < |s.t|
  {
    match call
    case Assert(w) => if w < |s.links| then Set(s, i, AssertLoad(w)) else s
    case Clear(w) => if w < |s.links| then Set(s, i, ClearLoad(w)) else s
    case AddWaker(w) =>
      if i == 0 && w < |s.links| && w !in s.added then Set(s, i, AddLoad(w)).(all := [w] + s.all) else s
    case Fetch(block) => if i == 0 then Set(s, i, NextStart(block)) else s
    case Done => if i == 0 then Set(s, i, DoneLoad(s.all)) else s
  }

  // ----- Waker.Assert and Waker.Clear -----

  function DoAssertLoad(s: State, i: nat, w: nat): State
    requires i < |s.t|
  {
    if w < |s.links| && s.links[w].Asserted? then Set(s, i, Idle) else Set(s, i, AssertSwap(w))
  }

  function DoAssertSwap(s: State, i: nat, w: nat): State
    requires i < |s.t|
  {
    if w >= |s.links| then s
    else Set(s, i, if s.links[w].Sleeper? then EnqLoad(w) else Idle).(links := s.links[w := Asserted])
  }

  function DoClearLoad(s: State, i: nat, w: nat): State
    requires i < |s.t|
  {
    if w < |s.links| && !s.links[w].Asserted? then Set(s, i, Idle) else Set(s, i, ClearCas(w))
  }

  function DoClearCas(s: State, i: nat, w: nat): State
    requires i < |s.t|
  {
    if w < |s.links| && s.links[w].Asserted? then Set(s, i, Idle).(links := s.links[w := NoSleeper])
      else Set(s, i, Idle)
  }

  // ----- Sleeper.enqueueAssertedWaker -----

  function DoEnqStore(s: State, i: nat, w: nat, v: Ptr): State
    requires i < |s.t|
  {
    if w >= |s.next| then s else Set(s, i, EnqCas(w, v)).(next := s.next[w := v])
  }

  function DoEnqCas(s: State, i: nat, w: nat, v: Ptr): State
    requires i < |s.t|
  {
    if s.shared == v then Set(s, i, EnqCheck).(shared := To(w)) else Set(s, i, EnqLoad(w))
  }

  function DoEnqCheck(s: State, i: nat): State
    requires i < |s.t|
  {
    Set(s, i, if s.waiting.NoG? then Idle else EnqSwap)
  }

  function DoEnqSwap(s: State, i: nat): State
    requires i < |s.t|
  {
    Set(s, i, if s.waiting.SleepingG? then EnqReady else Idle).(waiting := NoG)
  }

  /** Goready: the sleeper's thread is runnable again. */
  function DoEnqReady(s: State, i: nat): State
    requires i < |s.t|
  {
    var u := if s.t[0].Parked? then Set(s, 0, NextLoad(true)) else s;
    if i == 0 then u else Set(u, i, Idle)
  }

  // ----- Sleeper.AddWaker -----

  function DoAddLoad(s: State, i: nat, w: nat): State
    requires i < |s.t|
  {
    if w >= |s.links| then s
    else if s.links[w].Asserted? then Set(s, i, EnqLoad(w)).(added := s.added + {w})
    else Set(s, i, AddCas(w, s.links[w]))
  }

  function DoAddCas(s: State, i: nat, w: nat, p: Link): State
    requires i < |s.t|
  {
    if w < |s.links| && s.links[w] == p
    then Set(s, i, Idle).(links := s.links[w := Sleeper], added := s.added + {w})
    else Set(s, i, AddLoad(w))
  }

  // ----- Sleeper.nextWaker and Sleeper.Fetch -----

  function DoNextLoad(s: State, i: nat, block: bool): State
    requires i < |s.t|
  {
    Set(s, i, if s.shared.To? then Pull(block) else if block then Prepare else Idle)
  }

  function DoRecheck(s: State, i: nat): State
    requires i < |s.t|
  {
    Set(s, i, if s.shared.To? then Unprepare else Commit)
  }

  /** Gopark with commitSleep. */
  function DoCommit(s: State, i: nat): State
    requires i < |s.t|
  {
    if s.waiting.PreparingG? then Set(s, i, Parked).(waiting := SleepingG) else Set(s, i, NextLoad(true))
  }

  function DoReverse(s: State, i: nat, v: Ptr, block: bool): State
    requires i < |s.t|
  {
    if v.Null? then Set(s, i, Pop(block))
    else if v.w >= |s.next| then s
    else Set(s, i, Reverse(s.next[v.w], block)).(next := s.next[v.w := s.local], local := v)
  }

  /** Fetch takes the waker; Done waits for it no longer, and perhaps for none. */
  function DoPop(s: State, i: nat, block: bool): State
    requires i < |s.t|
  {
    if s.local.Null? || s.local.w >= |s.next| then s
    else if s.finishing then
      var w := s.local.w;
      var left := s.pending - {w};
      var u := s.(local := s.next[w], added := s.added - {w}, pending := left);
      if left == {} then Set(u, i, Idle).(all := [], finishing := false) else Set(u, i, NextStart(true))
    else Set(s, i, Reassociate(s.local.w, block)).(local := s.next[s.local.w])
  }

  function DoReassociate(s: State, i: nat, w: nat, block: bool): State
    requires i < |s.t|
  {
    if w >= |s.links| then s
    else if s.links[w].Asserted? then Set(s, i, Idle).(links := s.links[w := Sleeper], fetched := s.fetched + [w])
    else Set(s, i, NextStart(block)).(links := s.links[w := Sleeper])
  }

  // ----- Sleeper.Done -----

  /** A waker that is not associated has to be waited for. */
  function DoDoneLoad(s: State, i: nat, rest: seq<nat>): State
    requires i < |s.t|
  {
    if rest == [] then
      if s.pending == {} then Set(s, i, Idle).(all := []) else Set(s, i, NextStart(true)).(finishing := true)
    else if rest[0] >= |s.links| then s
    else if s.links[rest[0]].Sleeper? then Set(s, i, DoneCas(rest))
    else Set(s, i, DoneLoad(rest[1..])).(pending := s.pending + {rest[0]})
  }

  function DoDoneCas(s: State, i: nat, rest: seq<nat>): State
    requires i < |s.t|
  {
    if rest == [] || rest[0] >= |s.links| then s
    else if s.links[rest[0]].Sleeper?
    then Set(s, i, DoneLoad(rest[1..])).(links := s.links[rest[0] := NoSleeper], added := s.added - {rest[0]})
    else Set(s, i, DoneLoad(rest))
  }

  /** One step of thread i. An idle thread starts the call; a parked one stays. */
  function Next(s: State, i: nat, call: Call): State
    requires i < |s.t|
  {
    match s.t[i]
    case Idle => Start(s, i, call)
    case AssertLoad(w) => DoAssertLoad(s, i, w)
    case AssertSwap(w) => DoAssertSwap(s, i, w)
    case ClearLoad(w) => DoClearLoad(s, i, w)
    case ClearCas(w) => DoClearCas(s, i, w)
    case EnqLoad(w) => Set(s, i, EnqStore(w, s.shared))
    case EnqStore(w, v) => DoEnqStore(s, i, w, v)
    case EnqCas(w, v) => DoEnqCas(s, i, w, v)
    case EnqCheck => DoEnqCheck(s, i)
    case EnqSwap => DoEnqSwap(s, i)
    case EnqReady => DoEnqReady(s, i)
    case AddLoad(w) => DoAddLoad(s, i, w)
    case AddCas(w, p) => DoAddCas(s, i, w, p)
    case NextStart(block) => Set(s, i, if s.local.Null? then NextLoad(block) else Pop(block))
    case NextLoad(block) => DoNextLoad(s, i, block)
    case Prepare => Set(s, i, Recheck).(waiting := PreparingG)
    case Recheck => DoRecheck(s, i)
    case Unprepare => Set(s, i, Pull(true)).(waiting := NoG)
    case Commit => DoCommit(s, i)
    case Parked => s
    case Pull(block) => Set(s, i, Reverse(s.shared, block)).(shared := Null)
    case Reverse(v, block) => DoReverse(s, i, v, block)
    case Pop(block) => DoPop(s, i, block)
    case Reassociate(w, block) => DoReassociate(s, i, w, block)
    case DoneLoad(rest) => DoDoneLoad(s, i, rest)
    case DoneCas(rest) => DoDoneCas(s, i, rest)
  }

  // ----- the invariant -----

  /** The waker a thread has in hand: neither in a list nor with the sleeper. */
  function InHand(pc: Pc): Ptr {
    match pc
    case EnqLoad(w) => To(w)
    case EnqStore(w, _) => To(w)
    case EnqCas(w, _) => To(w)
    case Reassociate(w, _) => To(w)
    case _ => Null
  }

  /** The rest of the list that nextWaker has still to reverse. */
  function Rest(pc: Pc): Ptr { if pc.Reverse? then pc.v else Null }

  /** The queue of enqueued wakers, oldest first, in three parts: the first a are
      still to be reversed, those up to b are in the local list, the others in
      the shared list. The first and the last part are linked backwards. */
  datatype Queue = Queue(q: seq<nat>, a: nat, b: nat)

  function Succ(k: Queue, j: nat): Ptr
    requires j < |k.q|
  {
    if j < k.a then (if j == 0 then Null else To(k.q[j - 1]))
    else if j < k.b then (if j + 1 < k.b && j + 1 < |k.q| then To(k.q[j + 1]) else Null)
    else (if j == k.b || j == 0 then Null else To(k.q[j - 1]))
  }

  predicate Links(next: seq<Ptr>, k: Queue, j: nat)
    requires j < |k.q|
  {
    k.q[j] < |next| && next[k.q[j]] == Succ(k, j)
  }

  ghost predicate Lists(s: State, k: Queue) {
    && k.a <= k.b <= |k.q|
    && (forall i, j :: 0 <= i < j < |k.q| ==> k.q[i] != k.q[j])
    && (forall j :: 0 <= j < |k.q| ==> Links(s.next, k, j))
    && s.shared == (if k.b < |k.q| then To(k.q[|k.q| - 1]) else Null)
    && s.local == (if k.a < k.b then To(k.q[k.a]) else Null)
    && |s.t| > 0 && Rest(s.t[0]) == (if k.a > 0 then To(k.q[k.a - 1]) else Null)
  }

  /** Every waker has one place: unknown to the sleeper, associated with it,
      in the hand of one thread, or once in the queue. */
  ghost predicate Places(s: State, k: Queue) {
    && (forall w :: w in k.q ==> w < |s.links| && w in s.added && !s.links[w].Sleeper?)
    && (forall i :: 0 <= i < |s.t| && InHand(s.t[i]).To? ==>
          var w := InHand(s.t[i]).w; w < |s.links| && w in s.added && !s.links[w].Sleeper? && w !in k.q)
    && (forall i, j :: 0 <= i < j < |s.t| && InHand(s.t[i]).To? ==> InHand(s.t[i]) != InHand(s.t[j]))
    && (forall w :: 0 <= w < |s.links| && s.links[w].Sleeper? ==> w in s.added)
    && (forall w :: w in s.added ==> w < |s.links| && (s.links[w].Sleeper? || w in k.q || Held(s, w)))
  }

  ghost predicate Held(s: State, w: nat) { exists i :: 0 <= i < |s.t| && InHand(s.t[i]) == To(w) }

  /** What a thread knows at pc. */
  predicate Knows(s: State, i: nat, pc: Pc) {
    match pc
    case EnqCas(w, v) => w < |s.next| && s.next[w] == v
    case AssertLoad(w) => w < |s.links|
    case AssertSwap(w) => w < |s.links|
    case AddLoad(w) => i == 0 && w < |s.links| && w !in s.added
    case AddCas(w, p) => i == 0 && w < |s.links| && w !in s.added && !p.Asserted?
    case NextLoad(_) => i == 0 && s.local.Null?
    case Prepare => i == 0 && s.local.Null?
    case Recheck => i == 0 && s.local.Null?
    case Commit => i == 0 && s.local.Null?
    case Parked => i == 0 && s.local.Null?
    case Unprepare => i == 0 && s.local.Null? && s.shared.To?
    case Pull(_) => i == 0 && s.local.Null? && s.shared.To?
    case Pop(_) => i == 0 && s.local.To?
    case Reverse(v, _) => i == 0 && (v.Null? ==> s.local.To?)
    case NextStart(_) => i == 0
    case Reassociate(_, _) => i == 0
    case DoneLoad(_) => i == 0
    case DoneCas(_) => i == 0
    case _ => true
  }

  ghost predicate Threads(s: State) { forall i :: 0 <= i < |s.t| ==> Knows(s, i, s.t[i]) }

  /** A thread that has pushed a waker and has not yet looked for a sleeping G. */
  ghost predicate Pushed(s: State) { exists i :: 0 <= i < |s.t| && (s.t[i].EnqCheck? || s.t[i].EnqSwap?) }

  ghost predicate Readying(s: State) { exists i :: 0 <= i < |s.t| && s.t[i].EnqReady? }

  ghost predicate Wakes(s: State) {
    && |s.t| > 0
    && (s.waiting.PreparingG? ==> s.t[0].Recheck? || s.t[0].Unprepare? || s.t[0].Commit?)
    && (s.waiting.SleepingG? ==> s.t[0].Parked?)
    && (s.t[0].Parked? && s.waiting.NoG? <==> Readying(s))
    && (forall i, j :: 0 <= i < j < |s.t| ==> !(s.t[i].EnqReady? && s.t[j].EnqReady?))
    && (s.t[0].Commit? && s.waiting.PreparingG? && s.shared.To? ==> Pushed(s))
    && (s.t[0].Parked? && s.waiting.SleepingG? && s.shared.To? ==> Pushed(s))
  }

  ghost predicate Core(s: State, k: Queue) {
    WellFormed(s) && Lists(s, k) && Places(s, k) && Threads(s) && Wakes(s)
  }

  ghost predicate Distinct(l: seq<nat>) { forall i, j :: 0 <= i < j < |l| ==> l[i] != l[j] }

  ghost function AsSet(l: seq<nat>): set<nat> { set w | w in l }

  ghost predicate NoneLinked(s: State, ws: set<nat>) {
    forall w :: w in ws ==> w < |s.links| && !s.links[w].Sleeper?
  }

  predicate InNextWaker(pc: Pc) {
    || pc == NextStart(true) || pc == NextLoad(true) || pc.Prepare? || pc.Recheck? || pc.Unprepare? || pc.Commit?
    || pc.Parked? || pc == Pull(true) || (pc.Reverse? && pc.block) || pc == Pop(true)
  }

  /** The list of all wakers, and the wakers Done has still to deal with or to wait
      for, are those the sleeper has to do with. */
  ghost predicate Registered(s: State) {
    && |s.t| > 0
    && if s.t[0].DoneLoad? || s.t[0].DoneCas? then
         && !s.finishing && NoneLinked(s, s.pending) && Distinct(s.t[0].rest) && AsSet(s.t[0].rest) !! s.pending
         && s.added == AsSet(s.t[0].rest) + s.pending && (s.t[0].DoneCas? ==> s.t[0].rest != [])
       else if s.finishing then
         InNextWaker(s.t[0]) && NoneLinked(s, s.pending) && s.added == s.pending != {}
       else
         && s.pending == {} && Distinct(s.all)
         && if s.t[0].AddLoad? || s.t[0].AddCas? then
              s.all != [] && s.all[0] == s.t[0].w && s.added == AsSet(s.all[1..])
            else
              s.added == AsSet(s.all)
  }

  ghost predicate Inv(s: State, k: Queue) { Core(s, k) && Registered(s) }

  // ----- every step keeps it -----

  /** Only thread i moves. */
  ghost predicate Moved(s: State, i: nat, s2: State) {
    i < |s.t| == |s2.t| && s2.t == s.t[i := s2.t[i]] && |s2.links| == |s.links| && |s2.next| == |s.next|
  }

  lemma MoveKeepsPlaces(s: State, k: Queue, i: nat, s2: State)
    requires Places(s, k) && Moved(s, i, s2) && s2.links == s.links && s2.added == s.added
    requires InHand(s2.t[i]) == InHand(s.t[i])
    ensures Places(s2, k)
  {
    forall w | w in s2.added ensures s2.links[w].Sleeper? || w in k.q || Held(s2, w) {
      if Held(s, w) {
        var j :| 0 <= j < |s.t| && InHand(s.t[j]) == To(w);
        assert InHand(s2.t[j]) == To(w);
      }
    }
  }

  predicate Preparing(pc: Pc) { pc.Recheck? || pc.Unprepare? || pc.Commit? || pc.Parked? }

  lemma MoveKeepsWakes(s: State, i: nat, s2: State)
    requires Wakes(s) && Moved(s, i, s2) && s2.waiting == s.waiting
    requires !s.t[i].EnqReady? && !s2.t[i].EnqReady?
    requires s.t[i].EnqCheck? || s.t[i].EnqSwap? ==> s2.t[i].EnqSwap?
    requires i == 0 ==> !Preparing(s.t[i]) && !Preparing(s2.t[i])
    requires s2.shared.To? ==> s.shared.To? || s2.t[i].EnqCheck?
    ensures Wakes(s2)
  {
    if Pushed(s) {
      var j :| 0 <= j < |s.t| && (s.t[j].EnqCheck? || s.t[j].EnqSwap?);
      assert s2.t[j].EnqCheck? || s2.t[j].EnqSwap?;
    }
    if s2.t[i].EnqCheck? { assert Pushed(s2); }
    if Readying(s) {
      var j :| 0 <= j < |s.t| && s.t[j].EnqReady?;
      assert s2.t[j].EnqReady?;
    }
    if Readying(s2) {
      var j :| 0 <= j < |s2.t| && s2.t[j].EnqReady?;
      assert s.t[j].EnqReady?;
    }
  }

  lemma KnowsStill(s: State, j: nat, s2: State, pc: Pc)
    requires Knows(s, j, pc) && |s2.links| == |s.links| && |s2.next| == |s.next|
    requires pc.EnqCas? ==> s2.next[pc.w] == s.next[pc.w]
    requires j == 0 ==> s2.added == s.added && s2.local == s.local && (s.shared.To? ==> s2.shared.To?)
    ensures Knows(s2, j, pc)
  {
  }

  /** What the other threads know survives a step of thread i. */
  lemma MoveKeepsThreads(s: State, k: Queue, i: nat, s2: State)
    requires Threads(s) && Places(s, k) && Moved(s, i, s2)
    requires s2.next == s.next || (InHand(s.t[i]).To? && InHand(s.t[i]).w < |s.next|
                                   && s2.next == s.next[InHand(s.t[i]).w := s2.next[InHand(s.t[i]).w]])
    requires i != 0 ==> s2.added == s.added && s2.local == s.local && (s.shared.To? ==> s2.shared.To?)
    requires Knows(s2, i, s2.t[i])
    ensures Threads(s2)
  {
    forall j | 0 <= j < |s2.t| ensures Knows(s2, j, s2.t[j]) {
      if j != i {
        assert Knows(s, j, s.t[j]);
        assert s.t[j].EnqCas? ==> s2.next[s.t[j].w] == s.next[s.t[j].w] by {
          if s.t[j].EnqCas? { assert InHand(s.t[j]) == To(s.t[j].w) && InHand(s.t[i]) != InHand(s.t[j]); }
        }
        KnowsStill(s, j, s2, s.t[j]);
      }
    }
  }

  lemma MoveKeepsLists(s: State, k: Queue, i: nat, s2: State)
    requires Lists(s, k) && Moved(s, i, s2) && s2.next == s.next && s2.shared == s.shared && s2.local == s.local
    requires i == 0 ==> Rest(s2.t[0]) == Rest(s.t[0])
    ensures Lists(s2, k)
  {
  }

  /** Steps that change only where thread i is, and neither its hand nor the
      state of a sleep. */
  lemma MoveKeeps(s: State, k: Queue, i: nat, pc: Pc)
    requires Core(s, k) && i < |s.t| && InHand(pc) == InHand(s.t[i]) && Rest(pc) == Rest(s.t[i])
    requires !s.t[i].EnqReady? && !pc.EnqReady?
    requires s.t[i].EnqCheck? || s.t[i].EnqSwap? ==> pc.EnqSwap?
    requires i == 0 ==> !Preparing(s.t[i]) && !Preparing(pc)
    requires Knows(s, i, pc)
    ensures Core(Set(s, i, pc), k)
  {
    var s2 := Set(s, i, pc);
    assert Moved(s, i, s2);
    assert Knows(s2, i, pc);
    hide Places, Wakes, Threads, Lists, Knows, Moved;
    MoveKeepsPlaces(s, k, i, s2);
    MoveKeepsThreads(s, k, i, s2);
    MoveKeepsLists(s, k, i, s2);
    MoveKeepsWakes(s, i, s2);
  }

  /** The lists of Done and what was fetched are no part of it. */
  lemma CoreSame(s: State, k: Queue, s2: State)
    requires Core(s, k)
    requires s2 == s.(all := s2.all, pending := s2.pending, finishing := s2.finishing, fetched := s2.fetched)
    ensures Core(s2, k)
  {
    assert forall i :: 0 <= i < |s.t| && Knows(s, i, s.t[i]) ==> Knows(s2, i, s2.t[i]);
    assert forall w :: Held(s, w) ==> Held(s2, w);
    assert Pushed(s) == Pushed(s2) && Readying(s) == Readying(s2);
  }

  lemma StartKeeps(s: State, k: Queue, i: nat, call: Call)
    requires Core(s, k) && i < |s.t| && s.t[i].Idle?
    ensures Core(Start(s, i, call), k)
  {
    var s2 := Start(s, i, call);
    if s2 != s {
      MoveKeeps(s, k, i, s2.t[i]);
      CoreSame(Set(s, i, s2.t[i]), k, s2);
    }
  }

  // Assert and Clear.

  /** A link changes from one value other than the sleeper to another. */
  lemma RelinkKeepsPlaces(s: State, k: Queue, i: nat, s2: State, w: nat, l: Link)
    requires Places(s, k) && Moved(s, i, s2) && s2.added == s.added && InHand(s2.t[i]) == InHand(s.t[i])
    requires w < |s.links| && !s.links[w].Sleeper? && !l.Sleeper? && s2.links == s.links[w := l]
    ensures Places(s2, k)
  {
    forall x | x in s2.added ensures s2.links[x].Sleeper? || x in k.q || Held(s2, x) {
      if Held(s, x) {
        var j :| 0 <= j < |s.t| && InHand(s.t[j]) == To(x);
        assert InHand(s2.t[j]) == To(x);
      }
    }
  }

  /** A waker of the sleeper is taken in hand. */
  lemma RaiseKeepsPlaces(s: State, k: Queue, i: nat, s2: State, w: nat)
    requires Places(s, k) && Moved(s, i, s2) && s2.added == s.added && InHand(s.t[i]).Null? && InHand(s2.t[i]) == To(w)
    requires w < |s.links| && s.links[w].Sleeper? && s2.links == s.links[w := Asserted]
    ensures Places(s2, k)
  {
    assert Held(s2, w) by { assert InHand(s2.t[i]) == To(w); }
    forall x | x in s2.added ensures s2.links[x].Sleeper? || x in k.q || Held(s2, x) {
      if Held(s, x) {
        var j :| 0 <= j < |s.t| && InHand(s.t[j]) == To(x);
        assert InHand(s2.t[j]) == To(x);
      }
    }
  }

  lemma AssertSwapKeeps(s: State, k: Queue, i: nat, w: nat)
    requires Core(s, k) && i < |s.t| && s.t[i] == AssertSwap(w)
    ensures Core(DoAssertSwap(s, i, w), k)
  {
    assert Knows(s, i, s.t[i]);
    var s2 := DoAssertSwap(s, i, w);
    assert Moved(s, i, s2) && Knows(s2, i, s2.t[i]);
    hide Places, Wakes, Threads, Lists, Knows, Moved;
    if s.links[w].Sleeper? { RaiseKeepsPlaces(s, k, i, s2, w); } else { RelinkKeepsPlaces(s, k, i, s2, w, Asserted); }
    MoveKeepsThreads(s, k, i, s2);
    MoveKeepsLists(s, k, i, s2);
    MoveKeepsWakes(s, i, s2);
  }

  lemma ClearCasKeeps(s: State, k: Queue, i: nat, w: nat)
    requires Core(s, k) && i < |s.t| && s.t[i] == ClearCas(w)
    ensures Core(DoClearCas(s, i, w), k)
  {
    var s2 := DoClearCas(s, i, w);
    if w < |s.links| && s.links[w].Asserted? {
      assert Moved(s, i, s2) && Knows(s2, i, s2.t[i]);
      hide Places, Wakes, Threads, Lists, Knows, Moved;
      RelinkKeepsPlaces(s, k, i, s2, w, NoSleeper);
      MoveKeepsThreads(s, k, i, s2);
      MoveKeepsLists(s, k, i, s2);
      MoveKeepsWakes(s, i, s2);
    } else {
      hide Core;
      MoveKeeps(s, k, i, Idle);
    }
  }

  // enqueueAssertedWaker.

  lemma EnqStoreKeeps(s: State, k: Queue, i: nat, w: nat, v: Ptr)
    requires Core(s, k) && i < |s.t| && s.t[i] == EnqStore(w, v)
    ensures Core(DoEnqStore(s, i, w, v), k)
  {
    var s2 := DoEnqStore(s, i, w, v);
    assert InHand(s.t[i]) == To(w) && w !in k.q && w < |s.next|;
    assert Moved(s, i, s2) && Knows(s2, i, s2.t[i]);
    hide Places, Wakes, Threads, Knows;
    assert Lists(s2, k) by {
      forall j | 0 <= j < |k.q| ensures Links(s2.next, k, j) { assert Links(s.next, k, j) && k.q[j] in k.q; }
    }
    hide Lists, Moved;
    MoveKeepsPlaces(s, k, i, s2);
    MoveKeepsThreads(s, k, i, s2);
    MoveKeepsWakes(s, i, s2);
  }

  /** A push moves a waker from the hand to the end of the queue. */
  lemma PushKeepsPlaces(s: State, k: Queue, i: nat, s2: State, w: nat)
    requires Places(s, k) && Moved(s, i, s2) && s2.added == s.added && s2.links == s.links
    requires InHand(s.t[i]) == To(w) && InHand(s2.t[i]).Null?
    ensures Places(s2, k.(q := k.q + [w]))
  {
    forall x | x in s2.added ensures s2.links[x].Sleeper? || x in k.q + [w] || Held(s2, x) {
      if Held(s, x) && x != w {
        var j :| 0 <= j < |s.t| && InHand(s.t[j]) == To(x);
        assert InHand(s2.t[j]) == To(x);
      }
    }
  }

  lemma PushKeepsLists(s: State, k: Queue, i: nat, s2: State, w: nat)
    requires Lists(s, k) && Moved(s, i, s2) && s2.next == s.next && s2.local == s.local
    requires w < |s.next| && w !in k.q && s.next[w] == s.shared && s2.shared == To(w)
    requires i == 0 ==> Rest(s2.t[0]) == Rest(s.t[0])
    ensures Lists(s2, k.(q := k.q + [w]))
  {
    var k2 := k.(q := k.q + [w]);
    forall j | 0 <= j < |k2.q| ensures Links(s2.next, k2, j) {
      if j < |k.q| { assert Links(s.next, k, j); }
    }
  }

  lemma EnqCasKeeps(s: State, k: Queue, i: nat, w: nat, v: Ptr)
    requires Core(s, k) && i < |s.t| && s.t[i] == EnqCas(w, v)
    ensures s.shared == v ==> Core(DoEnqCas(s, i, w, v), k.(q := k.q + [w]))
    ensures s.shared != v ==> Core(DoEnqCas(s, i, w, v), k)
  {
    var s2 := DoEnqCas(s, i, w, v);
    assert Knows(s, i, s.t[i]);
    if s.shared == v {
      assert InHand(s.t[i]) == To(w) && w !in k.q;
      assert Moved(s, i, s2) && Knows(s2, i, s2.t[i]);
      hide Places, Wakes, Threads, Lists, Knows, Moved;
      PushKeepsPlaces(s, k, i, s2, w);
      PushKeepsLists(s, k, i, s2, w);
      MoveKeepsThreads(s, k, i, s2);
      MoveKeepsWakes(s, i, s2);
    } else {
      hide Core;
      MoveKeeps(s, k, i, EnqLoad(w));
    }
  }

  /** The parts of the invariant that a step on waitingG cannot touch. */
  lemma WaitingKeeps(s: State, k: Queue, i: nat, s2: State)
    requires Core(s, k) && Moved(s, i, s2) && s2.links == s.links && s2.added == s.added && s2.next == s.next
    requires s2.shared == s.shared && s2.local == s.local
    requires InHand(s2.t[i]) == InHand(s.t[i]) && Rest(s2.t[i]) == Rest(s.t[i]) && Knows(s2, i, s2.t[i])
    requires Wakes(s2)
    ensures Core(s2, k)
  {
    assert WellFormed(s2);
    hide Places, Wakes, Threads, Lists, Knows, Moved;
    MoveKeepsPlaces(s, k, i, s2);
    MoveKeepsThreads(s, k, i, s2);
    MoveKeepsLists(s, k, i, s2);
  }

  lemma EnqCheckKeeps(s: State, k: Queue, i: nat)
    requires Core(s, k) && i < |s.t| && s.t[i].EnqCheck?
    ensures Core(DoEnqCheck(s, i), k)
  {
    var s2 := DoEnqCheck(s, i);
    if s.waiting.NoG? {
      assert Wakes(s2) by {
        if Readying(s) { var j :| 0 <= j < |s.t| && s.t[j].EnqReady?; assert s2.t[j].EnqReady?; }
        if Readying(s2) { var j :| 0 <= j < |s2.t| && s2.t[j].EnqReady?; assert s.t[j].EnqReady?; }
      }
      WaitingKeeps(s, k, i, s2);
    } else {
      hide Core;
      MoveKeeps(s, k, i, EnqSwap);
    }
  }

  lemma EnqSwapWakes(s: State, i: nat)
    requires Wakes(s) && i < |s.t| && s.t[i].EnqSwap?
    ensures Wakes(DoEnqSwap(s, i))
  {
    var s2 := DoEnqSwap(s, i);
    if s.waiting.SleepingG? {
      assert !Readying(s);
      assert s2.t[i].EnqReady? && Readying(s2);
    } else {
      if Readying(s) { var j :| 0 <= j < |s.t| && s.t[j].EnqReady?; assert s2.t[j].EnqReady?; }
      if Readying(s2) { var j :| 0 <= j < |s2.t| && s2.t[j].EnqReady?; assert s.t[j].EnqReady?; }
    }
  }

  lemma EnqSwapKeeps(s: State, k: Queue, i: nat)
    requires Core(s, k) && i < |s.t| && s.t[i].EnqSwap?
    ensures Core(DoEnqSwap(s, i), k)
  {
    EnqSwapWakes(s, i);
    hide Wakes;
    WaitingKeeps(s, k, i, DoEnqSwap(s, i));
  }

  /** Goready finds the sleeper parked. */
  lemma EnqReadyKeeps(s: State, k: Queue, i: nat)
    requires Core(s, k) && i < |s.t| && s.t[i].EnqReady?
    ensures Core(DoEnqReady(s, i), k)
  {
    assert Readying(s) && s.t[0].Parked? && i != 0;
    assert Knows(s, 0, s.t[0]);
    var s1 := Set(s, 0, NextLoad(true));
    var s2 := DoEnqReady(s, i);
    assert s2 == Set(s1, i, Idle);
    assert Wakes(s2) by {
      forall j | 0 <= j < |s2.t| ensures !s2.t[j].EnqReady? {}
    }
    assert Moved(s, 0, s1) && Moved(s1, i, s2) && Knows(s1, 0, s1.t[0]) && Knows(s2, i, s2.t[i]);
    hide Places, Wakes, Threads, Lists, Knows, Moved;
    MoveKeepsPlaces(s, k, 0, s1);
    MoveKeepsThreads(s, k, 0, s1);
    MoveKeepsLists(s, k, 0, s1);
    MoveKeepsPlaces(s1, k, i, s2);
    MoveKeepsThreads(s1, k, i, s2);
    MoveKeepsLists(s1, k, i, s2);
  }

  // AddWaker.

  lemma AddKeepsPlaces(s: State, k: Queue, i: nat, s2: State, w: nat)
    requires Places(s, k) && Moved(s, i, s2) && InHand(s.t[i]).Null?
    requires w < |s.links| && w !in s.added && s2.added == s.added + {w}
    requires || (s2.links == s.links && InHand(s2.t[i]) == To(w))
             || (s2.links == s.links[w := Sleeper] && InHand(s2.t[i]).Null?)
    ensures Places(s2, k)
  {
    if InHand(s2.t[i]).To? { assert Held(s2, w) by { assert InHand(s2.t[i]) == To(w); } }
    forall x | x in s2.added ensures s2.links[x].Sleeper? || x in k.q || Held(s2, x) {
      if Held(s, x) {
        var j :| 0 <= j < |s.t| && InHand(s.t[j]) == To(x);
        assert InHand(s2.t[j]) == To(x);
      }
    }
  }

  lemma AddKeeps(s: State, k: Queue, i: nat, s2: State, w: nat)
    requires Core(s, k) && Moved(s, i, s2) && i == 0 && InHand(s.t[i]).Null?
    requires Rest(s.t[i]).Null? && Rest(s2.t[i]).Null?
    requires w < |s.links| && w !in s.added && s2.added == s.added + {w}
    requires || (s2.links == s.links && InHand(s2.t[i]) == To(w))
             || (s2.links == s.links[w := Sleeper] && InHand(s2.t[i]).Null?)
    requires s2.next == s.next && s2.shared == s.shared && s2.local == s.local && s2.waiting == s.waiting
    requires (s.t[i].AddLoad? || s.t[i].AddCas?) && (s2.t[i].EnqLoad? || s2.t[i].Idle?)
    ensures Core(s2, k)
  {
    assert WellFormed(s2) && Knows(s2, i, s2.t[i]);
    assert !Preparing(s.t[i]) && !Preparing(s2.t[i]);
    hide Places, Wakes, Threads, Lists, Knows, Moved;
    AddKeepsPlaces(s, k, i, s2, w);
    MoveKeepsThreads(s, k, i, s2);
    MoveKeepsLists(s, k, i, s2);
    MoveKeepsWakes(s, i, s2);
  }

  lemma AddLoadKeeps(s: State, k: Queue, i: nat, w: nat)
    requires Core(s, k) && i < |s.t| && s.t[i] == AddLoad(w)
    ensures Core(DoAddLoad(s, i, w), k)
  {
    assert Knows(s, i, s.t[i]);
    var s2 := DoAddLoad(s, i, w);
    assert Moved(s, i, s2);
    hide Core;
    if s.links[w].Asserted? { AddKeeps(s, k, i, s2, w); } else { MoveKeeps(s, k, i, AddCas(w, s.links[w])); }
  }

  lemma AddCasKeeps(s: State, k: Queue, i: nat, w: nat, p: Link)
    requires Core(s, k) && i < |s.t| && s.t[i] == AddCas(w, p)
    ensures Core(DoAddCas(s, i, w, p), k)
  {
    assert Knows(s, i, s.t[i]);
    var s2 := DoAddCas(s, i, w, p);
    assert Moved(s, i, s2);
    hide Core;
    if s.links[w] == p { AddKeeps(s, k, i, s2, w); } else { MoveKeeps(s, k, i, AddLoad(w)); }
  }

  // nextWaker and Fetch.

  lemma PrepareKeeps(s: State, k: Queue, i: nat)
    requires Core(s, k) && i < |s.t| && s.t[i].Prepare?
    ensures Core(Set(s, i, Recheck).(waiting := PreparingG), k)
  {
    assert Knows(s, i, s.t[i]);
    var s2 := Set(s, i, Recheck).(waiting := PreparingG);
    assert Wakes(s2) by {
      assert !Readying(s);
      forall j | 0 <= j < |s2.t| ensures !s2.t[j].EnqReady? {}
    }
    hide Wakes;
    WaitingKeeps(s, k, i, s2);
  }

  lemma RecheckKeeps(s: State, k: Queue, i: nat)
    requires Core(s, k) && i < |s.t| && s.t[i].Recheck?
    ensures Core(DoRecheck(s, i), k)
  {
    assert Knows(s, i, s.t[i]);
    var s2 := DoRecheck(s, i);
    assert Wakes(s2) by {
      assert !Readying(s);
      forall j | 0 <= j < |s2.t| ensures !s2.t[j].EnqReady? {}
    }
    hide Wakes;
    WaitingKeeps(s, k, i, s2);
  }

  lemma UnprepareKeeps(s: State, k: Queue, i: nat)
    requires Core(s, k) && i < |s.t| && s.t[i].Unprepare?
    ensures Core(Set(s, i, Pull(true)).(waiting := NoG), k)
  {
    assert Knows(s, i, s.t[i]);
    var s2 := Set(s, i, Pull(true)).(waiting := NoG);
    assert Wakes(s2) by {
      assert !Readying(s);
      forall j | 0 <= j < |s2.t| ensures !s2.t[j].EnqReady? {}
    }
    hide Wakes;
    WaitingKeeps(s, k, i, s2);
  }

  lemma CommitKeeps(s: State, k: Queue, i: nat)
    requires Core(s, k) && i < |s.t| && s.t[i].Commit?
    ensures Core(DoCommit(s, i), k)
  {
    assert Knows(s, i, s.t[i]);
    var s2 := DoCommit(s, i);
    assert Wakes(s2) by {
      assert !Readying(s);
      forall j | 0 <= j < |s2.t| ensures !s2.t[j].EnqReady? {}
      if Pushed(s) {
        var j :| 0 <= j < |s.t| && (s.t[j].EnqCheck? || s.t[j].EnqSwap?);
        assert s2.t[j].EnqCheck? || s2.t[j].EnqSwap?;
      }
    }
    hide Wakes;
    WaitingKeeps(s, k, i, s2);
  }

  /** The whole shared list becomes the part to reverse. */
  lemma PullKeeps(s: State, k: Queue, i: nat, block: bool)
    requires Core(s, k) && i < |s.t| && s.t[i] == Pull(block)
    ensures Core(Set(s, i, Reverse(s.shared, block)).(shared := Null), Queue(k.q, |k.q|, |k.q|))
  {
    assert Knows(s, i, s.t[i]);
    var s2, k2 := Set(s, i, Reverse(s.shared, block)).(shared := Null), Queue(k.q, |k.q|, |k.q|);
    assert k.a == k.b == 0 < |k.q|;
    assert Lists(s2, k2) by {
      forall j | 0 <= j < |k.q| ensures Links(s2.next, k2, j) { assert Links(s.next, k, j); }
    }
    assert Moved(s, i, s2) && Knows(s2, i, s2.t[i]);
    assert !Preparing(s.t[i]) && !Preparing(s2.t[i]);
    hide Wakes, Threads, Lists, Knows, Moved;
    MoveKeepsPlaces(s, k, i, s2);
    assert Places(s2, k2);
    hide Places;
    MoveKeepsThreads(s, k, i, s2);
    MoveKeepsWakes(s, i, s2);
  }

  /** One waker moves from the part to reverse to the front of the local list. */
  lemma ReverseKeeps(s: State, k: Queue, i: nat, v: Ptr, block: bool)
    requires Core(s, k) && i < |s.t| && s.t[i] == Reverse(v, block) && v.To?
    ensures k.a > 0 && Core(DoReverse(s, i, v, block), k.(a := k.a - 1))
  {
    assert Knows(s, i, s.t[i]);
    assert k.a > 0 && v.w == k.q[k.a - 1] && Links(s.next, k, k.a - 1);
    var s2, k2 := DoReverse(s, i, v, block), k.(a := k.a - 1);
    assert Lists(s2, k2) by {
      forall j | 0 <= j < |k.q| ensures Links(s2.next, k2, j) { assert Links(s.next, k, j); }
    }
    assert Moved(s, i, s2) && Knows(s2, i, s2.t[i]);
    assert !Preparing(s.t[i]) && !Preparing(s2.t[i]);
    hide Wakes, Lists, Moved;
    MoveKeepsPlaces(s, k, i, s2);
    assert Places(s2, k2);
    ReverseKeepsThreads(s, k, i, s2, v.w);
    hide Places, Threads, Knows;
    MoveKeepsWakes(s, i, s2);
  }

  lemma ReverseKeepsThreads(s: State, k: Queue, i: nat, s2: State, w: nat)
    requires Threads(s) && Places(s, k) && Moved(s, i, s2) && i == 0 && w in k.q && w < |s.next|
    requires s2.next == s.next[w := s2.next[w]] && Knows(s2, i, s2.t[i])
    ensures Threads(s2)
  {
    forall j | 0 <= j < |s2.t| ensures Knows(s2, j, s2.t[j]) {
      if j != i {
        assert Knows(s, j, s.t[j]);
        if s.t[j].EnqCas? { assert InHand(s.t[j]) == To(s.t[j].w); }
        KnowsStill(s, j, s2, s.t[j]);
      }
    }
  }

  /** The oldest waker is taken from the queue. */
  lemma PopKeepsPlaces(s: State, k: Queue, i: nat, s2: State)
    requires Places(s, k) && Moved(s, i, s2) && s2.added == s.added && s2.links == s.links
    requires |k.q| > 0 && (forall i, j :: 0 <= i < j < |k.q| ==> k.q[i] != k.q[j])
    requires InHand(s.t[i]).Null? && InHand(s2.t[i]) == To(k.q[0])
    ensures Places(s2, Queue(k.q[1..], 0, 0))
  {
    var w, q := k.q[0], k.q[1..];
    HeadIsGone(k.q);
    assert forall j :: 0 <= j < |s.t| && j != i ==> InHand(s2.t[j]) == InHand(s.t[j]);
    assert forall x :: x in q ==> x in k.q && x < |s2.links| && x in s2.added && !s2.links[x].Sleeper?;
    forall j | 0 <= j < |s2.t| && InHand(s2.t[j]).To?
      ensures var x := InHand(s2.t[j]).w; x < |s2.links| && x in s2.added && !s2.links[x].Sleeper? && x !in q
    {
      if j != i {
        assert InHand(s.t[j]).To?;
      }
    }
    forall a, b | 0 <= a < b < |s2.t| && InHand(s2.t[a]).To?
      ensures InHand(s2.t[a]) != InHand(s2.t[b])
    {
      assert w in k.q;
      assert a != i ==> InHand(s.t[a]).To?;
      assert b != i && InHand(s.t[b]).To? ==> InHand(s.t[b]).w !in k.q;
    }
    assert Held(s2, w) by { assert InHand(s2.t[i]) == To(w); }
    forall x | x in s2.added
      ensures x < |s2.links| && (s2.links[x].Sleeper? || x in q || Held(s2, x))
    {
      if Held(s, x) {
        var j :| 0 <= j < |s.t| && InHand(s.t[j]) == To(x);
        assert InHand(s2.t[j]) == To(x);
      }
    }
  }

  lemma HeadIsGone(q: seq<nat>)
    requires |q| > 0 && (forall i, j :: 0 <= i < j < |q| ==> q[i] != q[j])
    ensures q == [q[0]] + q[1..] && q[0] !in q[1..] && forall x :: x in q <==> x == q[0] || x in q[1..]
  {
    forall j | 0 <= j < |q[1..]| ensures q[1..][j] != q[0] { assert q[1..][j] == q[j + 1]; }
  }

  lemma PopKeepsLists(s: State, k: Queue, i: nat, s2: State)
    requires Lists(s, k) && Moved(s, i, s2) && i == 0 && Rest(s2.t[0]).Null? && k.a == 0 < k.b
    requires k.q[0] < |s.next| && s2.next == s.next && s2.shared == s.shared && s2.local == s.next[k.q[0]]
    ensures Lists(s2, Queue(k.q[1..], 0, k.b - 1))
  {
    var k2 := Queue(k.q[1..], 0, k.b - 1);
    assert Links(s.next, k, 0);
    forall j | 0 <= j < |k2.q| ensures Links(s2.next, k2, j) { assert Links(s.next, k, j + 1); }
  }

  /** The oldest waker is taken from the queue by Done: the sleeper has no more to
      do with it. */
  lemma DropKeepsPlaces(s: State, k: Queue, i: nat, s2: State)
    requires Places(s, k) && Moved(s, i, s2) && s2.links == s.links
    requires |k.q| > 0 && (forall i, j :: 0 <= i < j < |k.q| ==> k.q[i] != k.q[j])
    requires s2.added == s.added - {k.q[0]} && InHand(s.t[i]).Null? && InHand(s2.t[i]).Null?
    ensures Places(s2, Queue(k.q[1..], 0, 0))
  {
    var w, q := k.q[0], k.q[1..];
    HeadIsGone(k.q);
    assert !s.links[w].Sleeper?;
    assert forall j :: 0 <= j < |s.t| ==> InHand(s2.t[j]) == InHand(s.t[j]);
    forall x | x in q
      ensures x < |s2.links| && x in s2.added && !s2.links[x].Sleeper?
    {
      assert x in k.q;
    }
    forall j | 0 <= j < |s2.t| && InHand(s2.t[j]).To?
      ensures var x := InHand(s2.t[j]).w; x < |s2.links| && x in s2.added && !s2.links[x].Sleeper? && x !in q
    {
      assert InHand(s.t[j]).To?;
    }
    forall x | x in s2.added
      ensures x < |s2.links| && (s2.links[x].Sleeper? || x in q || Held(s2, x))
    {
      if Held(s, x) {
        var j :| 0 <= j < |s.t| && InHand(s.t[j]) == To(x);
        assert InHand(s2.t[j]) == To(x);
      }
    }
  }

  lemma PopKeeps(s: State, k: Queue, i: nat, block: bool)
    requires Core(s, k) && i < |s.t| && s.t[i] == Pop(block)
    ensures k.a == 0 < k.b <= |k.q| && Core(DoPop(s, i, block), Queue(k.q[1..], 0, k.b - 1))
  {
    var s2 := DoPop(s, i, block);
    PopMoves(s, k, i, block);
    PopPlaces(s, k, i, block);
    hide Places, Wakes, Threads, Knows, Moved, DoPop;
    PopKeepsLists(s, k, i, s2);
    hide Lists;
    MoveKeepsThreads(s, k, i, s2);
    MoveKeepsWakes(s, i, s2);
  }

  /** The step takes the oldest waker, which is the local list's first. */
  lemma PopMoves(s: State, k: Queue, i: nat, block: bool)
    requires Core(s, k) && i < |s.t| && s.t[i] == Pop(block)
    ensures i == 0 && k.a == 0 < k.b <= |k.q| && s.local == To(k.q[0]) && k.q[0] < |s.next|
    ensures var s2 := DoPop(s, i, block);
            && Moved(s, i, s2) && Knows(s2, i, s2.t[i]) && !Preparing(s2.t[i]) && Rest(s2.t[i]).Null?
            && !s2.t[i].EnqCheck? && !s2.t[i].EnqReady? && WellFormed(s2)
            && s2.next == s.next && s2.shared == s.shared && s2.local == s.next[k.q[0]] && s2.waiting == s.waiting
  {
    assert Knows(s, i, s.t[i]);
    assert k.a == 0 < k.b && Links(s.next, k, 0);
    hide Places, Wakes, Threads;
  }

  lemma PopPlaces(s: State, k: Queue, i: nat, block: bool)
    requires Core(s, k) && i < |s.t| && s.t[i] == Pop(block)
    ensures k.b > 0 && |k.q| > 0 && Places(DoPop(s, i, block), Queue(k.q[1..], 0, k.b - 1))
  {
    PopMoves(s, k, i, block);
    var s2 := DoPop(s, i, block);
    if s.finishing {
      DropKeepsPlaces(s, k, i, s2);
    } else {
      PopKeepsPlaces(s, k, i, s2);
    }
  }

  /** A waker goes from the hand back to the sleeper. */
  lemma ReassociateKeepsPlaces(s: State, k: Queue, i: nat, s2: State, w: nat)
    requires Places(s, k) && Moved(s, i, s2) && s2.added == s.added
    requires InHand(s.t[i]) == To(w) && InHand(s2.t[i]).Null? && w < |s.links| && s2.links == s.links[w := Sleeper]
    ensures Places(s2, k)
  {
    forall x | x in s2.added ensures s2.links[x].Sleeper? || x in k.q || Held(s2, x) {
      if Held(s, x) && x != w {
        var j :| 0 <= j < |s.t| && InHand(s.t[j]) == To(x);
        assert InHand(s2.t[j]) == To(x);
      }
    }
  }

  lemma ReassociateKeeps(s: State, k: Queue, i: nat, w: nat, block: bool)
    requires Core(s, k) && i < |s.t| && s.t[i] == Reassociate(w, block)
    ensures Core(DoReassociate(s, i, w, block), k)
  {
    assert Knows(s, i, s.t[i]);
    assert InHand(s.t[i]) == To(w);
    var s2 := DoReassociate(s, i, w, block);
    assert Moved(s, i, s2) && Knows(s2, i, s2.t[i]);
    assert !Preparing(s.t[i]) && !Preparing(s2.t[i]);
    ReassociateKeepsPlaces(s, k, i, s2, w);
    hide Places, Wakes, Threads, Lists, Knows, Moved;
    MoveKeepsThreads(s, k, i, s2);
    MoveKeepsLists(s, k, i, s2);
    MoveKeepsWakes(s, i, s2);
  }

  // Done.

  lemma DoneLoadKeeps(s: State, k: Queue, i: nat, rest: seq<nat>)
    requires Core(s, k) && i < |s.t| && s.t[i] == DoneLoad(rest)
    ensures Core(DoDoneLoad(s, i, rest), k)
  {
    var s2 := DoDoneLoad(s, i, rest);
    assert Knows(s, i, s.t[i]);
    if s2 != s {
      MoveKeeps(s, k, i, s2.t[i]);
      CoreSame(Set(s, i, s2.t[i]), k, s2);
    }
  }

  /** An associated waker is let go. */
  lemma DissociateKeepsPlaces(s: State, k: Queue, i: nat, s2: State, w: nat)
    requires Places(s, k) && Moved(s, i, s2) && InHand(s.t[i]).Null? && InHand(s2.t[i]).Null?
    requires w < |s.links| && s.links[w].Sleeper? && s2.links == s.links[w := NoSleeper] && s2.added == s.added - {w}
    ensures Places(s2, k)
  {
    forall x | x in s2.added ensures s2.links[x].Sleeper? || x in k.q || Held(s2, x) {
      if Held(s, x) {
        var j :| 0 <= j < |s.t| && InHand(s.t[j]) == To(x);
        assert InHand(s2.t[j]) == To(x);
      }
    }
  }

  lemma DoneCasKeeps(s: State, k: Queue, i: nat, rest: seq<nat>)
    requires Core(s, k) && i < |s.t| && s.t[i] == DoneCas(rest)
    ensures Core(DoDoneCas(s, i, rest), k)
  {
    var s2 := DoDoneCas(s, i, rest);
    assert Knows(s, i, s.t[i]);
    if rest != [] && rest[0] < |s.links| {
      if s.links[rest[0]].Sleeper? {
        assert Moved(s, i, s2) && Knows(s2, i, s2.t[i]);
        assert !Preparing(s.t[i]) && !Preparing(s2.t[i]);
        DissociateKeepsPlaces(s, k, i, s2, rest[0]);
        hide Places, Wakes, Threads, Lists, Knows, Moved;
        MoveKeepsThreads(s, k, i, s2);
        MoveKeepsLists(s, k, i, s2);
        MoveKeepsWakes(s, i, s2);
      } else {
        hide Core;
        MoveKeeps(s, k, i, DoneLoad(rest));
      }
    }
  }

  // ----- what Done has to deal with -----

  /** Other threads neither associate wakers nor touch the sleeper's lists. */
  lemma OthersKeepRegistered(s: State, k: Queue, i: nat, call: Call)
    requires Core(s, k) && Registered(s) && 0 < i < |s.t|
    ensures Registered(Next(s, i, call))
  {
    assert Knows(s, i, s.t[i]);
    hide Core, Knows, Next;
    OthersLeave(s, i, call);
    var s2 := Next(s, i, call);
    assert NoneLinked(s, s.pending) ==> NoneLinked(s2, s.pending);
  }

  ghost predicate Leaves(s: State, s2: State) {
    && s2.all == s.all && s2.pending == s.pending && s2.finishing == s.finishing && s2.added == s.added
    && |s2.links| == |s.links| && (forall w :: 0 <= w < |s.links| && s2.links[w].Sleeper? ==> s.links[w].Sleeper?)
    && |s2.t| == |s.t| > 0 && (s2.t[0] == s.t[0] || (s.t[0].Parked? && s2.t[0] == NextLoad(true)))
  }

  lemma OthersLeave(s: State, i: nat, call: Call)
    requires 0 < i < |s.t| && Knows(s, i, s.t[i])
    ensures Leaves(s, Next(s, i, call))
  {
  }

  lemma FirstOf(l: seq<nat>)
    requires l != [] && Distinct(l)
    ensures AsSet(l) == AsSet(l[1..]) + {l[0]} && l[0] !in AsSet(l[1..]) && Distinct(l[1..])
  {
    assert l == [l[0]] + l[1..];
  }

  lemma DoneLoadKeepsRegistered(s: State, call: Call)
    requires Registered(s) && s.t[0].DoneLoad? && (forall w :: w in s.added ==> w < |s.links|)
    ensures Registered(Next(s, 0, call))
  {
    if s.t[0].rest != [] {
      FirstOf(s.t[0].rest);
    }
  }

  lemma DoneCasKeepsRegistered(s: State, call: Call)
    requires Registered(s) && s.t[0].DoneCas? && (forall w :: w in s.added ==> w < |s.links|)
    ensures Registered(Next(s, 0, call))
  {
    FirstOf(s.t[0].rest);
  }

  lemma PopKeepsRegistered(s: State, k: Queue, call: Call)
    requires Core(s, k) && Registered(s) && s.t[0].Pop?
    ensures Registered(Next(s, 0, call))
  {
    hide Threads, Wakes;
  }

  lemma StartKeepsRegistered(s: State, call: Call)
    requires Registered(s) && s.t[0].Idle?
    ensures Registered(Next(s, 0, call))
  {
    var s2 := Next(s, 0, call);
    if call.AddWaker? && s2 != s {
      assert s2.all[1..] == s.all;
    }
    assert AsSet(s.all) + {} == AsSet(s.all);
  }

  lemma AddKeepsRegistered(s: State, k: Queue, call: Call)
    requires Core(s, k) && Registered(s) && (s.t[0].AddLoad? || s.t[0].AddCas?)
    ensures Registered(Next(s, 0, call))
  {
    assert Knows(s, 0, s.t[0]);
    hide Core, Knows;
    var s2, w := Next(s, 0, call), s.t[0].w;
    assert s.all == [w] + s.all[1..];
    assert AsSet(s.all) == AsSet(s.all[1..]) + {w};
    if s2.t[0].AddLoad? || s2.t[0].AddCas? {
      assert s2 == s.(t := s2.t) && s2.t[0].w == w;
    } else {
      assert s2.added == s.added + {w} && s2.all == s.all && s2.pending == {} && !s2.finishing;
    }
  }

  lemma ReassociateKeepsRegistered(s: State, call: Call)
    requires Registered(s) && s.t[0].Reassociate?
    ensures Registered(Next(s, 0, call))
  {
  }

  /** All other steps leave the links and the lists. */
  lemma SleeperKeepsRegistered(s: State, call: Call)
    requires Registered(s) && !s.t[0].DoneLoad? && !s.t[0].DoneCas? && !s.t[0].Pop?
    requires !s.t[0].Idle? && !s.t[0].AddLoad? && !s.t[0].AddCas? && !s.t[0].Reassociate?
    ensures Registered(Next(s, 0, call))
  {
    var s2 := Next(s, 0, call);
    assert s2.all == s.all && s2.pending == s.pending && s2.finishing == s.finishing && s2.added == s.added;
    assert NoneLinked(s, s.pending) ==> NoneLinked(s2, s.pending);
  }

  lemma AddedInRange(s: State, k: Queue)
    requires Core(s, k)
    ensures forall w :: w in s.added ==> w < |s.links|
  {
  }

  lemma StepKeepsRegistered(s: State, k: Queue, i: nat, call: Call)
    requires Core(s, k) && Registered(s) && i < |s.t|
    ensures Registered(Next(s, i, call))
  {
    hide Core, Registered, Next;
    if i > 0 { OthersKeepRegistered(s, k, i, call); }
    else if s.t[0].DoneLoad? { AddedInRange(s, k); DoneLoadKeepsRegistered(s, call); }
    else if s.t[0].DoneCas? { AddedInRange(s, k); DoneCasKeepsRegistered(s, call); }
    else if s.t[0].Pop? { PopKeepsRegistered(s, k, call); }
    else if s.t[0].Idle? { StartKeepsRegistered(s, call); }
    else if s.t[0].AddLoad? || s.t[0].AddCas? { AddKeepsRegistered(s, k, call); }
    else if s.t[0].Reassociate? { ReassociateKeepsRegistered(s, call); }
    else { SleeperKeepsRegistered(s, call); }
  }

  // ----- all runs -----

  /** How a step changes the queue: not at all, a waker is added at its end, or
      its oldest one is taken. */
  ghost predicate FirstInFirstOut(s: State, k: Queue, i: nat, k2: Queue)
    requires i < |s.t|
  {
    match s.t[i]
    case EnqCas(w, v) => k2.q == if s.shared == v then k.q + [w] else k.q
    case Pop(_) => |k.q| > 0 && k2.q == k.q[1..]
    case _ => k2.q == k.q
  }

  function NextQueue(s: State, k: Queue, i: nat): Queue
    requires i < |s.t|
  {
    match s.t[i]
    case EnqCas(w, v) => if s.shared == v then k.(q := k.q + [w]) else k
    case Pull(_) => Queue(k.q, |k.q|, |k.q|)
    case Reverse(v, _) => if v.To? && k.a > 0 then k.(a := k.a - 1) else k
    case Pop(_) => if |k.q| > 0 && k.b > 0 then Queue(k.q[1..], 0, k.b - 1) else k
    case _ => k
  }

  predicate Quiet(pc: Pc) {
    pc.AssertLoad? || pc.ClearLoad? || pc.EnqLoad? || pc.NextStart? || pc.NextLoad? || (pc.Reverse? && pc.v.Null?)
  }

  lemma QuietKeeps(s: State, k: Queue, i: nat, call: Call)
    requires Core(s, k) && i < |s.t| && Quiet(s.t[i])
    ensures Core(Next(s, i, call), k) && NextQueue(s, k, i) == k
  {
    assert Knows(s, i, s.t[i]);
    hide Core;
    MoveKeeps(s, k, i, Next(s, i, call).t[i]);
  }

  predicate OnSleeper(pc: Pc) {
    || pc.AddLoad? || pc.AddCas? || pc.Prepare? || pc.Recheck? || pc.Unprepare? || pc.Commit? || pc.Parked?
    || pc.Pull? || (pc.Reverse? && pc.v.To?) || pc.Pop? || pc.Reassociate? || pc.DoneLoad? || pc.DoneCas?
  }

  lemma SleeperKeeps(s: State, k: Queue, i: nat, call: Call)
    requires Core(s, k) && i < |s.t| && OnSleeper(s.t[i])
    ensures Core(Next(s, i, call), NextQueue(s, k, i))
    ensures s.t[i].Pop? ==> |k.q| > 0 && NextQueue(s, k, i).q == k.q[1..]
  {
    hide Core, Quiet, DoAddLoad, DoAddCas, DoRecheck, DoCommit, DoReverse, DoPop, DoReassociate, DoDoneLoad, DoDoneCas;
    match s.t[i]
    case AddLoad(w) => AddLoadKeeps(s, k, i, w);
    case AddCas(w, p) => AddCasKeeps(s, k, i, w, p);
    case Prepare => PrepareKeeps(s, k, i);
    case Recheck => RecheckKeeps(s, k, i);
    case Unprepare => UnprepareKeeps(s, k, i);
    case Commit => CommitKeeps(s, k, i);
    case Parked =>
    case Pull(block) => PullKeeps(s, k, i, block);
    case Reverse(v, block) => ReverseKeeps(s, k, i, v, block);
    case Pop(block) => PopKeeps(s, k, i, block);
    case Reassociate(w, block) => ReassociateKeeps(s, k, i, w, block);
    case DoneLoad(rest) => DoneLoadKeeps(s, k, i, rest);
    case DoneCas(rest) => DoneCasKeeps(s, k, i, rest);
  }

  lemma WakerKeeps(s: State, k: Queue, i: nat, call: Call)
    requires Core(s, k) && i < |s.t| && !Quiet(s.t[i]) && !OnSleeper(s.t[i])
    ensures Core(Next(s, i, call), NextQueue(s, k, i))
  {
    hide Core, Start, DoAssertSwap, DoClearCas, DoEnqStore, DoEnqCas, DoEnqCheck, DoEnqSwap, DoEnqReady;
    match s.t[i]
    case Idle => StartKeeps(s, k, i, call);
    case AssertSwap(w) => AssertSwapKeeps(s, k, i, w);
    case ClearCas(w) => ClearCasKeeps(s, k, i, w);
    case EnqStore(w, v) => EnqStoreKeeps(s, k, i, w, v);
    case EnqCas(w, v) => EnqCasKeeps(s, k, i, w, v);
    case EnqCheck => EnqCheckKeeps(s, k, i);
    case EnqSwap => EnqSwapKeeps(s, k, i);
    case EnqReady => EnqReadyKeeps(s, k, i);
  }

  /** Every step of every thread keeps the invariant, and the queue is one. */
  lemma StepKeeps(s: State, k: Queue, i: nat, call: Call)
    requires Inv(s, k) && i < |s.t|
    ensures Inv(Next(s, i, call), NextQueue(s, k, i))
    ensures FirstInFirstOut(s, k, i, NextQueue(s, k, i))
  {
    hide Core, Registered, Next;
    StepKeepsRegistered(s, k, i, call);
    if Quiet(s.t[i]) { QuietKeeps(s, k, i, call); }
    else if OnSleeper(s.t[i]) { SleeperKeeps(s, k, i, call); }
    else { WakerKeeps(s, k, i, call); }
  }

  predicate Initial(s: State) {
    && WellFormed(s) && s.shared.Null? && s.local.Null? && s.waiting.NoG? && s.added == {} && s.fetched == []
    && s.all == [] && s.pending == {} && !s.finishing
    && (forall w :: 0 <= w < |s.links| ==> !s.links[w].Sleeper?)
    && (forall i :: 0 <= i < |s.t| ==> s.t[i].Idle?)
  }

  datatype Step = Step(i: nat, call: Call)

  /** The state after a run: any threads, in any order, making any calls. */
  function After(s: State, steps: seq<Step>): State
    decreases |steps|
  {
    if steps == [] then s
    else
      var last := steps[|steps| - 1];
      var u := After(s, steps[..|steps| - 1]);
      if last.i < |u.t| then Next(u, last.i, last.call) else u
  }

  function QueueAfter(s: State, steps: seq<Step>): Queue
    decreases |steps|
  {
    if steps == [] then Queue([], 0, 0)
    else
      var last := steps[|steps| - 1];
      var u, k := After(s, steps[..|steps| - 1]), QueueAfter(s, steps[..|steps| - 1]);
      if last.i < |u.t| then NextQueue(u, k, last.i) else k
  }

  /** The invariant holds in every state of every run. */
  lemma {:induction false} RunKeeps(s: State, steps: seq<Step>)
    requires Initial(s)
    ensures Inv(After(s, steps), QueueAfter(s, steps))
    decreases |steps|
  {
    if steps != [] {
      hide Inv, Next, NextQueue;
      var last := steps[|steps| - 1];
      RunKeeps(s, steps[..|steps| - 1]);
      var u, k := After(s, steps[..|steps| - 1]), QueueAfter(s, steps[..|steps| - 1]);
      if last.i < |u.t| { StepKeeps(u, k, last.i, last.call); }
    }
  }

  /** A waker is linked at most once: its next field belongs to one list. The next
      fields, from the local list's head, the list being reversed and the shared
      list's head, link exactly the wakers of the queue. */
  lemma LinkedOnce(s: State, steps: seq<Step>)
    requires Initial(s)
    ensures Lists(After(s, steps), QueueAfter(s, steps))
    ensures var q := QueueAfter(s, steps).q; forall i, j :: 0 <= i < j < |q| ==> q[i] != q[j]
  {
    RunKeeps(s, steps);
  }

  /** A parked sleeper with a waker in its shared list is about to be woken: some
      thread has pushed and has still to take waitingG, or has taken it. */
  lemma NoLostWakeup(s: State, steps: seq<Step>)
    requires Initial(s)
    ensures var u := After(s, steps);
            |u.t| > 0 && (u.t[0].Parked? && u.shared.To? ==>
              exists i :: 0 <= i < |u.t| && (u.t[i].EnqCheck? || u.t[i].EnqSwap? || u.t[i].EnqReady?))
  {
    RunKeeps(s, steps);
  }

  predicate Enqueues(pc: Pc) {
    pc.EnqLoad? || pc.EnqStore? || pc.EnqCas? || pc.EnqCheck? || pc.EnqSwap? || pc.EnqReady?
  }

  /** Assertions are not lost: a waker of the sleeper that is not associated with
      it, as an asserted one, is in its queue or in the hand of a thread that will
      enqueue or fetch it. */
  lemma AssertedIsPending(s: State, steps: seq<Step>, w: nat)
    requires Initial(s)
    ensures var u := After(s, steps);
            w in u.added ==> w < |u.links| && (!u.links[w].Sleeper? ==> w in QueueAfter(s, steps).q || Held(u, w))
  {
    RunKeeps(s, steps);
  }

  /** A Fetch that does not block gives up only when every asserted waker is in
      the hand of another thread, one that is still in Assert. */
  lemma FetchMisses(s: State, steps: seq<Step>, w: nat)
    requires Initial(s)
    ensures var u := After(s, steps);
            |u.t| > 0 && (u.t[0] == NextLoad(false) && u.shared.Null? && w in u.added ==>
              w < |u.links| && (u.links[w].Asserted? ==>
                                exists i :: 1 <= i < |u.t| && Enqueues(u.t[i]) && InHand(u.t[i]) == To(w)))
  {
    RunKeeps(s, steps);
    var u, k := After(s, steps), QueueAfter(s, steps);
    if u.t[0] == NextLoad(false) && u.shared.Null? && w in u.added && u.links[w].Asserted? {
      assert Knows(u, 0, u.t[0]);
      assert k.q == [];
      var i :| 0 <= i < |u.t| && InHand(u.t[i]) == To(w);
      assert Knows(u, i, u.t[i]);
    }
  }

  // ----- waking up -----

  /** Thread i alone makes n steps. */
  function Alone(s: State, i: nat, n: nat): State
    requires i < |s.t|
    decreases n
  {
    if n == 0 then s
    else
      var u := Next(s, i, Clear(0));
      if i < |u.t| then Alone(u, i, n - 1) else u
  }

  function StepsToWake(s: State, pc: Pc): nat {
    match pc
    case EnqReady => 1
    case EnqSwap => 2
    case EnqCheck => 3
    case EnqCas(_, v) => if v == s.shared then 4 else 7
    case EnqStore(_, v) => if v == s.shared then 5 else 8
    case EnqLoad(_) => 6
    case _ => 0
  }

  lemma EnqueuerStep(s: State, k: Queue, i: nat)
    requires Inv(s, k) && 0 < i < |s.t| && Enqueues(s.t[i]) && s.t[0].Parked? && !s.t[i].EnqReady?
    requires s.waiting.SleepingG?
    ensures var u := Next(s, i, Clear(0));
            && u.t == s.t[i := u.t[i]] && Enqueues(u.t[i]) && (u.waiting.SleepingG? || u.t[i].EnqReady?)
            && StepsToWake(u, u.t[i]) + 1 == StepsToWake(s, s.t[i])
  {
    assert InHand(s.t[i]).To? ==> InHand(s.t[i]).w < |s.next|;
  }

  /** Any thread on its way through enqueueAssertedWaker wakes the sleeper,
      whatever the others do not do. */
  lemma {:induction false} EnqueuerWakes(s: State, k: Queue, i: nat)
    requires Inv(s, k) && 0 < i < |s.t| && Enqueues(s.t[i]) && s.t[0].Parked?
    requires s.waiting.SleepingG? || s.t[i].EnqReady?
    ensures var u := Alone(s, i, StepsToWake(s, s.t[i])); |u.t| > 0 && u.t[0] == NextLoad(true)
    decreases StepsToWake(s, s.t[i])
  {
    var u := Next(s, i, Clear(0));
    hide Inv;
    if s.t[i].EnqReady? {
      assert Alone(s, i, 1) == Alone(u, i, 0);
    } else {
      hide Next, Enqueues, NextQueue;
      EnqueuerStep(s, k, i);
      StepKeeps(s, k, i, Clear(0));
      hide StepsToWake;
      EnqueuerWakes(u, NextQueue(s, k, i), i);
    }
  }

  /** The main result: a parked sleeper with a waker that is asserted, or was since
      it was associated, is one whose wakeup is on its way. Some thread, in at most eight steps of its own, makes it
      runnable, so no run gets stuck there. */
  lemma ParkedIsWoken(s: State, steps: seq<Step>, w: nat) returns (i: nat, n: nat)
    requires Initial(s)
    requires var u := After(s, steps);
             |u.t| > 0 && u.t[0].Parked? && w in u.added && w < |u.links| && !u.links[w].Sleeper?
    ensures var u := After(s, steps);
            0 < i < |u.t| && n <= 8 && |Alone(u, i, n).t| > 0 && Alone(u, i, n).t[0] == NextLoad(true)
  {
    RunKeeps(s, steps);
    var u, k := After(s, steps), QueueAfter(s, steps);
    hide Core, Registered;
    i := SomeoneEnqueues(u, k, w);
    n := StepsToWake(u, u.t[i]);
    EnqueuerWakes(u, k, i);
  }

  lemma SomeoneEnqueues(u: State, k: Queue, w: nat) returns (i: nat)
    requires Core(u, k) && u.t[0].Parked? && w in u.added && !u.links[w].Sleeper?
    ensures 0 < i < |u.t| && Enqueues(u.t[i]) && (u.waiting.SleepingG? || u.t[i].EnqReady?)
  {
    if u.waiting.NoG? {
      i :| 0 <= i < |u.t| && u.t[i].EnqReady?;
    } else if Held(u, w) {
      i :| 0 <= i < |u.t| && InHand(u.t[i]) == To(w);
      assert Knows(u, i, u.t[i]);
    } else {
      assert Knows(u, 0, u.t[0]);
      assert k.q != [] && k.a == k.b == 0;
      i :| 0 <= i < |u.t| && (u.t[i].EnqCheck? || u.t[i].EnqSwap?);
    }
  }
}
