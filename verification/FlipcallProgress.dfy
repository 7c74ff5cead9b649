/** What a call comes to: a message that is sent arrives, and a call on a connection
    that is shut down ends. */
module FlipcallProgress {
  import opened Flipcall

  /** The calling thread of e alone makes k steps, with the same choices in each. */
  function Alone(s: State, e: Side, n: nat, flag: bool, k: nat): State
    decreases k
  {
    if k == 0 then s else Alone(Call(s, e, n, flag), e, n, flag, k - 1)
  }

  /** The endpoint is in nobody's shutdown. */
  predicate Up(s: State) { s.p.down.NotCalled? && s.o.down.NotCalled? && !s.conn.ShutDown? }

  predicate Waits(pc: Pc) { pc.WaitLoad? || pc.WaitCheck? || pc.WaitFutex? || pc.Blocked? }

  /** SendRecv in five steps: the length is stored, control is handed over, and the
      peer is woken. */
  lemma Sends(s: State, e: Side, n: nat)
    requires Inv(s, e) && Up(s) && s.p.pc.Ready? && n <= s.cap && Waits(s.o.pc)
    ensures var u := Alone(s, e, n, false, 5);
            && u.p.pc == WaitLoad(RoundTrip) && u.p.sent == s.p.sent + [n] && u.p.received == s.p.received
            && u.conn == Inactive(e) && u.len == n && u.cap == s.cap && u.o == Unblock(s.o) && Up(u) && Inv(u, e)
  {
    hide Inv, Call;
    InControlIsActive(s, e);
    var a := Call(s, e, n, false);
    CallKeeps(s, e, n, false);
    var b := Call(a, e, n, false);
    CallKeeps(a, e, n, false);
    var c := Call(b, e, n, false);
    CallKeeps(b, e, n, false);
    Prepares(s, e, n, a, b, c);
    var d := Call(c, e, n, false);
    CallKeeps(c, e, n, false);
    var f := Call(d, e, n, false);
    CallKeeps(d, e, n, false);
    HandsOver(c, e, n, d, f);
    FiveSteps(s, e, n, a, b, c, d, f);
  }

  lemma Prepares(s: State, e: Side, n: nat, a: State, b: State, c: State)
    requires s.p.pc.Ready? && s.conn == Active(e) && s.p.state == 0 && n <= s.cap
    requires a == Call(s, e, n, false) && b == Call(a, e, n, false) && c == Call(b, e, n, false)
    ensures c == s.(len := n, p := s.p.(pc := Swap(RoundTrip), sent := s.p.sent + [n], state := EPS_BLOCKED))
  {
    assert a.p.pc == Store(RoundTrip, n);
    assert b.p.pc == Enter(RoundTrip, n) && b.len == n;
  }

  lemma HandsOver(c: State, e: Side, n: nat, d: State, f: State)
    requires c.p.pc == Swap(RoundTrip) && c.conn == Active(e)
    requires d == Call(c, e, n, false) && f == Call(d, e, n, false)
    ensures f == c.(conn := Inactive(e), p := c.p.(pc := WaitLoad(RoundTrip)), o := Unblock(c.o))
  {
    assert d.p.pc == Wake(RoundTrip) && d.conn == Inactive(e) && d.o == c.o;
  }

  lemma FiveSteps(s: State, e: Side, n: nat, a: State, b: State, c: State, d: State, f: State)
    requires a == Call(s, e, n, false) && b == Call(a, e, n, false) && c == Call(b, e, n, false)
    requires d == Call(c, e, n, false) && f == Call(d, e, n, false)
    ensures Alone(s, e, n, false, 5) == f
  {
    hide Call;
    assert Alone(f, e, n, false, 0) == f;
    assert Alone(d, e, n, false, 1) == f;
    assert Alone(c, e, n, false, 2) == f;
    assert Alone(b, e, n, false, 3) == f;
    assert Alone(a, e, n, false, 4) == f;
  }

  lemma InControlIsActive(s: State, e: Side)
    requires Inv(s, e) && Up(s) && s.p.pc.Ready?
    ensures s.conn == Active(e) && s.p.state == 0
  {
  }

  /** How many steps an endpoint that is not blocked takes to receive. */
  function StepsToReceive(pc: Pc): nat {
    if pc.WaitCheck? then 2 + StepsOfKind(pc.k)
    else if pc.WaitFutex? then 1 + StepsOfKind(pc.k)
    else if pc.WaitLoad? then StepsOfKind(pc.k)
    else 0
  }

  function StepsOfKind(k: Kind): nat { if k.First? then 2 else 3 }

  /** The endpoint has control again, and has read one more length. */
  ghost predicate Received(s: State, e: Side, n: nat, u: State) {
    && InControl(e, u.p.pc) && !Unread(u.p.pc) && u.p.received == s.p.received + [n] && u.p.sent == s.p.sent
    && u.conn == Active(e) && u.o == s.o
  }

  /** An endpoint that waits and has been given control reads the length that was
      stored, and has control. */
  lemma Receives(s: State, e: Side, n: nat)
    requires Inv(s, e) && Up(s) && Waits(s.p.pc) && !s.p.pc.Blocked? && s.conn == Active(e) && n <= s.cap
    ensures Received(s, e, s.len, Alone(s, e, n, false, StepsToReceive(s.p.pc)))
    decreases StepsToReceive(s.p.pc)
  {
    hide Inv, Call;
    if s.p.pc.WaitLoad? {
      Reads(s, e, n);
    } else {
      LooksAgain(s, e, n);
      CallKeeps(s, e, n, false);
      Receives(Call(s, e, n, false), e, n);
    }
  }

  /** A thread that was about to sleep looks at the connection state again. */
  lemma LooksAgain(s: State, e: Side, n: nat)
    requires Inv(s, e) && Up(s) && (s.p.pc.WaitCheck? || s.p.pc.WaitFutex?) && s.conn == Active(e)
    ensures Call(s, e, n, false) == Go(s, if s.p.pc.WaitCheck? then WaitFutex(s.p.pc.k) else WaitLoad(s.p.pc.k))
  {
    hide Inv;
    NotShutDown(s, e);
  }

  lemma NotShutDown(s: State, e: Side)
    requires Inv(s, e) && Up(s)
    ensures !s.p.shutdown && s.len <= s.cap && (s.p.pc.WaitLoad? ==> s.p.state == EPS_BLOCKED)
  {
  }

  lemma Reads(s: State, e: Side, n: nat)
    requires Inv(s, e) && Up(s) && s.p.pc.WaitLoad? && s.conn == Active(e) && n <= s.cap
    ensures Received(s, e, s.len, Alone(s, e, n, false, StepsOfKind(s.p.pc.k)))
  {
    hide Inv;
    NotShutDown(s, e);
    KindsThatWait(s, e);
    var a := Call(s, e, n, false);
    var b := Call(a, e, n, false);
    var c := Call(b, e, n, false);
    ThreeSteps(s, e, n, a, b, c);
    if s.p.pc.k.First? {
      assert a.p.pc == Read(First) && b.p.pc == Store(Answering, n);
    } else if s.p.pc.k.Connecting? {
      assert a.p.pc == Read(Connecting) && b.p.pc == Exit(Connecting, true) && c.p.pc == Ready;
    } else {
      assert a.p.pc == Exit(s.p.pc.k, true) && b.p.pc == ReadLen && c.p.pc == Ready;
    }
  }

  lemma KindsThatWait(s: State, e: Side)
    requires Inv(s, e) && s.p.pc.WaitLoad?
    ensures !s.p.pc.k.Last?
  {
  }

  /** The state of a run as endpoint e sees it. */
  function Seen(s: State, e: Side): State { if e.Client? then s else Flip(s) }

  /** In every run, while nobody shuts down: an endpoint that has control sends a
      length with five steps of its own, and at most five steps of the waiting peer
      later the peer has received exactly that length, and has control. */
  lemma MessageArrives(cap: nat, steps: seq<Step>, e: Side, n: nat, m: nat)
    requires var s := Seen(After(cap, steps), e);
             Up(s) && s.p.pc.Ready? && n <= s.cap && m <= s.cap && Waits(s.o.pc)
    ensures var s := Seen(After(cap, steps), e);
            var u := Flip(Alone(s, e, n, false, 5));
            var v := Alone(u, Other(e), m, false, StepsToReceive(u.p.pc));
            && StepsToReceive(u.p.pc) <= 5 && u.o.sent == s.p.sent + [n]
            && InControl(Other(e), v.p.pc) && v.p.received == s.o.received + [n] && v.conn == Active(Other(e))
  {
    RunKeeps(cap, steps);
    var s := After(cap, steps);
    hide Inv, Alone;
    if e.Server? { FlipInv(s, Client); }
    var t := Seen(s, e);
    Sends(t, e, n);
    var u := Alone(t, e, n, false, 5);
    FlipInv(u, e);
    Receives(Flip(u), Other(e), m);
  }

  // ----- connecting -----

  /** Connect up to its wait: the request of length n is stored and handed over. */
  function Asked(cap: nat, n: nat): State {
    State(ServerActive, n, cap, NEW_ENDPOINT.(pc := WaitLoad(Connecting), state := EPS_BLOCKED, sent := [n]),
          NEW_ENDPOINT)
  }

  lemma Asks(cap: nat, n: nat)
    requires n <= cap
    ensures Alone(Initial(cap), Client, n, false, 5) == Asked(cap, n)
  {
    var s := Initial(cap);
    var a := Call(s, Client, n, false);
    assert a.p.pc == Enter(Connecting, n);
    var b := Call(a, Client, n, false);
    assert b.p.pc == Store(Connecting, n);
    var c := Call(b, Client, n, false);
    assert c.p.pc == Swap(Connecting);
    var d := Call(c, Client, n, false);
    assert d.p.pc == Wake(Connecting);
    var f := Call(d, Client, n, false);
    assert f == Asked(cap, n);
    FiveSteps(s, Client, n, a, b, c, d, f);
  }

  /** RecvFirst up to the wait for its caller's first message, as the server sees it. */
  function Answered(cap: nat, n: nat, m: nat): State {
    State(ClientActive, m, cap,
          NEW_ENDPOINT.(pc := WaitLoad(Answering), state := EPS_BLOCKED, sent := [m], received := [n]),
          NEW_ENDPOINT.(pc := WaitLoad(Connecting), state := EPS_BLOCKED, sent := [n]))
  }

  lemma Answers(cap: nat, n: nat, m: nat)
    requires n <= cap && m <= cap
    ensures Alone(Flip(Asked(cap, n)), Server, m, false, 7) == Answered(cap, n, m)
  {
    var s := Flip(Asked(cap, n));
    var a := Call(s, Server, m, false);
    assert a.p.pc == Enter(First, m);
    var b := Call(a, Server, m, false);
    assert b.p.pc == WaitLoad(First);
    var c := Call(b, Server, m, false);
    assert c.p.pc == Read(First);
    var d := Call(c, Server, m, false);
    assert d.p.pc == Store(Answering, m) && d.p.received == [n];
    var f := Call(d, Server, m, false);
    assert f.p.pc == Swap(Answering) && f.p.sent == [m];
    var g := Call(f, Server, m, false);
    assert g.p.pc == Wake(Answering);
    var h := Call(g, Server, m, false);
    assert h == Answered(cap, n, m);
    FiveSteps(b, Server, m, c, d, f, g, h);
    assert Alone(a, Server, m, false, 6) == h;
  }

  /** A connection is made: the server receives the client's request, the client the
      server's answer, and then the client has control while the server waits. */
  lemma Connects(cap: nat, n: nat, m: nat)
    requires n <= cap && m <= cap
    ensures var u := Alone(Flip(Alone(Initial(cap), Client, n, false, 5)), Server, m, false, 7);
            var v := Alone(Flip(u), Client, n, false, 3);
            && v.p.pc == Ready && v.p.received == [m] && v.o.received == [n] && Waits(v.o.pc) && Up(v)
  {
    hide Call, Alone;
    Asks(cap, n);
    Answers(cap, n, m);
    Accepts(cap, n, m);
  }

  lemma Accepts(cap: nat, n: nat, m: nat)
    requires n <= cap && m <= cap
    ensures var v := Alone(Flip(Answered(cap, n, m)), Client, n, false, 3);
            v.p.pc == Ready && v.p.received == [m] && v.o.received == [n] && Waits(v.o.pc) && Up(v)
  {
    var s := Flip(Answered(cap, n, m));
    var a := Call(s, Client, n, false);
    assert a.p.pc == Read(Connecting);
    var b := Call(a, Client, n, false);
    assert b.p.pc == Exit(Connecting, true) && b.p.received == [m];
    var c := Call(b, Client, n, false);
    ThreeSteps(s, Client, n, a, b, c);
  }

  lemma ThreeSteps(s: State, e: Side, n: nat, a: State, b: State, c: State)
    requires a == Call(s, e, n, false) && b == Call(a, e, n, false) && c == Call(b, e, n, false)
    ensures Alone(s, e, n, false, 3) == c && Alone(s, e, n, false, 2) == b
  {
    hide Call;
    assert Alone(c, e, n, false, 0) == c && Alone(b, e, n, false, 0) == b;
    assert Alone(b, e, n, false, 1) == c && Alone(a, e, n, false, 1) == b;
    assert Alone(a, e, n, false, 2) == c;
  }

  // ----- shutdown -----

  /** No call is in progress, or none may be made. */
  predicate Over(pc: Pc) { pc.Fresh? || pc.Ready? || pc.Gone? }

  function StepsToEnd(pc: Pc): nat {
    match pc
    case Fresh => 0
    case Ready => 0
    case Gone => 0
    case Undo => 1
    case ReadLen => 1
    case ConnWake(_, _) => 2
    case ConnSwap(_, _) => 3
    case Exit(_, _) => 4
    case SwapFailed(_) => 5
    case Read(k) => if k.First? then 8 else 5
    case WaitLoad(_) => 5
    case Blocked(_) => 5
    case WaitFutex(_) => 6
    case WaitCheck(_) => 7
    case Wake(_) => 6
    case Swap(_) => 6
    case Enter(_, _) => 8
    case Store(k, _) => if k.RoundTrip? then 9 else 7
  }

  /** On a connection that is shut down a call that is not blocked goes on to its end;
      one that is blocked is being woken. */
  lemma CallProgresses(s: State, e: Side, n: nat, flag: bool)
    requires Inv(s, e) && s.conn.ShutDown? && !Over(s.p.pc) && !s.p.pc.Blocked? && n <= s.cap
    ensures var u := Call(s, e, n, flag);
            u.conn.ShutDown? && !u.p.pc.Blocked? && StepsToEnd(u.p.pc) < StepsToEnd(s.p.pc)
  {
    hide Inv, Call;
    OwnKind(s, e);
    if Hands(s.p.pc) { HandingProgresses(s, e, n, flag); } else { WaitingProgresses(s, e, n, flag); }
  }

  /** The first half of a call, up to the handing over of control. */
  predicate Hands(pc: Pc) {
    pc.Enter? || pc.Store? || pc.Swap? || pc.SwapFailed? || pc.Wake? || pc.Undo? || pc.ReadLen?
  }

  lemma OwnKind(s: State, e: Side)
    requires Inv(s, e)
    ensures KindFits(e, s.p.pc)
  {
  }

  lemma HandingProgresses(s: State, e: Side, n: nat, flag: bool)
    requires KindFits(e, s.p.pc) && s.conn.ShutDown? && Hands(s.p.pc)
    ensures var u := Call(s, e, n, flag);
            u.conn.ShutDown? && !u.p.pc.Blocked? && StepsToEnd(u.p.pc) < StepsToEnd(s.p.pc)
  {
  }

  lemma WaitingProgresses(s: State, e: Side, n: nat, flag: bool)
    requires KindFits(e, s.p.pc) && s.conn.ShutDown? && !Hands(s.p.pc) && !Over(s.p.pc) && !s.p.pc.Blocked?
    requires n <= s.cap
    ensures var u := Call(s, e, n, flag);
            u.conn.ShutDown? && !u.p.pc.Blocked? && StepsToEnd(u.p.pc) < StepsToEnd(s.p.pc)
  {
  }

  /** In every run, once the connection is shut down, a call ends after at most nine
      steps of its own, unless it is blocked, and then the peer is about to wake
      it. */
  lemma {:induction false} CallEnds(s: State, e: Side, n: nat, flag: bool) returns (k: nat)
    requires Inv(s, e) && s.conn.ShutDown? && n <= s.cap
    ensures s.p.pc.Blocked? ==> WillWake(s.o)
    ensures !s.p.pc.Blocked? ==> k <= 9 && Over(Alone(s, e, n, flag, k).p.pc)
  {
    k := 0;
    if !s.p.pc.Blocked? { k := EndsWithin(s, e, n, flag); }
  }

  lemma {:induction false} EndsWithin(s: State, e: Side, n: nat, flag: bool) returns (k: nat)
    requires Inv(s, e) && s.conn.ShutDown? && !s.p.pc.Blocked? && n <= s.cap
    ensures k <= StepsToEnd(s.p.pc) && Over(Alone(s, e, n, flag, k).p.pc)
    decreases StepsToEnd(s.p.pc)
  {
    hide Inv, Call;
    k := 0;
    if !Over(s.p.pc) {
      CallProgresses(s, e, n, flag);
      CallKeeps(s, e, n, flag);
      CapStays(s, e, n, flag);
      var rest := EndsWithin(Call(s, e, n, flag), e, n, flag);
      k := rest + 1;
    }
  }

  lemma CapStays(s: State, e: Side, n: nat, flag: bool)
    ensures Call(s, e, n, flag).cap == s.cap
  {
  }

  /** The thread that shuts e down makes k steps alone. */
  function Downs(s: State, e: Side, flag: bool, k: nat): State
    decreases k
  {
    if k == 0 then s else Downs(ShutdownStep(s, e, flag), e, flag, k - 1)
  }

  /** Shutdown returns after at most four steps of its own, unless the endpoint's call
      is where it may block. Then the connection is shut down, or the call on its way
      out is about to do it. */
  lemma ShutdownEnds(s: State, e: Side, flag: bool) returns (k: nat)
    requires Inv(s, e) && !InWindow(s.p.pc)
    ensures k <= 4 && Downs(s, e, flag, k).p.down.Finished?
    ensures Downs(s, e, flag, k).conn.ShutDown? || s.p.pc.ConnSwap?
  {
    hide Inv, ShutdownStep;
    OwnShutdown(s, e);
    k := DownWithin(s, e, flag, s.p.pc.ConnSwap?);
  }

  /** What Shutdown relies on, while no call is where it may block. */
  predicate OnItsWay(s: State, swaps: bool) {
    && s.p.state % 2 == 0 && (!Added(s.p.down) ==> s.p.state == 0)
    && (Added(s.p.down) && !s.p.down.DownSwap? ==> s.conn.ShutDown? || swaps)
  }

  lemma OwnShutdown(s: State, e: Side)
    requires Inv(s, e) && !InWindow(s.p.pc)
    ensures OnItsWay(s, s.p.pc.ConnSwap?)
  {
  }

  function StepsDown(d: Down): nat {
    match d
    case NotCalled => 4
    case Add => 3
    case WakeAll => 2
    case DownSwap => 2
    case Poll => 1
    case DownWake => 1
    case Finished => 0
  }

  lemma DownProgresses(s: State, e: Side, flag: bool, swaps: bool)
    requires OnItsWay(s, swaps) && !s.p.down.Finished?
    ensures var u := ShutdownStep(s, e, flag); OnItsWay(u, swaps) && StepsDown(u.p.down) < StepsDown(s.p.down)
  {
  }

  lemma {:induction false} DownWithin(s: State, e: Side, flag: bool, swaps: bool) returns (k: nat)
    requires OnItsWay(s, swaps)
    ensures k <= StepsDown(s.p.down)
    ensures var u := Downs(s, e, flag, k); u.p.down.Finished? && (u.conn.ShutDown? || swaps)
    decreases StepsDown(s.p.down)
  {
    hide ShutdownStep;
    k := 0;
    if !s.p.down.Finished? {
      DownProgresses(s, e, flag, swaps);
      var rest := DownWithin(ShutdownStep(s, e, flag), e, flag, swaps);
      k := rest + 1;
    }
  }
}
