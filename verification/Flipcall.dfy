/** Control transfer between two connected endpoints, a client and a server,
    over one shared word, with shutdown on either side at any time. Each
    endpoint has a thread that makes its calls and one that shuts it down. One
    step is one access to shared memory or one futex operation. */
module Flipcall {

  datatype Side = Client | Server

  function Other(e: Side): Side { if e.Client? then Server else Client }

  /** The shared connection state. */
  datatype Conn = ClientActive | ServerActive | ShutDown

  /** What a call is doing: Connect; RecvFirst up to and after the connection
      request; SendRecv; SendLast. */
  datatype Kind = Connecting | First | Answering | RoundTrip | Last

  /** Where the calling thread of an endpoint is. Gone: no more calls may be made. */
  datatype Pc =
    | Fresh | Ready | Gone
    | Enter(k: Kind, n: nat) | Undo
    | Store(k: Kind, n: nat)
    | Swap(k: Kind) | SwapFailed(k: Kind) | Wake(k: Kind)
    | WaitLoad(k: Kind) | WaitCheck(k: Kind) | WaitFutex(k: Kind) | Blocked(k: Kind)
    | Read(k: Kind)
    | Exit(k: Kind, ok: bool) | ConnSwap(k: Kind, ok: bool) | ConnWake(k: Kind, ok: bool)
    | ReadLen

  /** Where the one thread is whose Shutdown took effect. */
  datatype Down = NotCalled | Add | WakeAll | Poll | DownSwap | DownWake | Finished

  /** Sent lists the lengths the endpoint stored, received those it read, conns
      counts how often it has shut the connection down; bad records a panic or an
      error other than shutdown. */
  datatype Endpoint = Endpoint(pc: Pc, down: Down, shutdown: bool, state: int,
                               sent: seq<nat>, received: seq<nat>, conns: nat, bad: bool)

  /** The state as one endpoint sees it: p is itself, o its peer. */
  datatype State = State(conn: Conn, len: nat, cap: nat, p: Endpoint, o: Endpoint)

  /** The same state as the peer sees it. */
  function Flip(s: State): State { s.(p := s.o, o := s.p) }

  const EPS_BLOCKED := 1
  const EPS_SHUTDOWN := 2

  function Active(e: Side): Conn { if e.Client? then ClientActive else ServerActive }
  function Inactive(e: Side): Conn { if e.Client? then ServerActive else ClientActive }

  function Go(s: State, pc: Pc): State { s.(p := s.p.(pc := pc)) }

  function Unblock(p: Endpoint): Endpoint {
    if p.pc.Blocked? then p.(pc := WaitLoad(p.pc.k)) else p
  }

  /** FUTEX_WAKE of one thread. Were both endpoints waiting, own would say which
      of them is woken. */
  function WakeOne(s: State, own: bool): State {
    if s.p.pc.Blocked? && (own || !s.o.pc.Blocked?) then s.(p := Unblock(s.p)) else s.(o := Unblock(s.o))
  }

  // ----- the calling thread -----

  function DoEnter(s: State, k: Kind, n: nat): State {
    var eps := s.p.state + EPS_BLOCKED;
    var pc := if eps == EPS_BLOCKED
      then (match k case Connecting => Store(k, n) case First => WaitLoad(k) case _ => Swap(k))
              else if eps == EPS_BLOCKED + EPS_SHUTDOWN then Undo else Gone;
    s.(p := s.p.(pc := pc, state := eps, bad := s.p.bad || (eps != EPS_BLOCKED && eps != EPS_BLOCKED + EPS_SHUTDOWN)))
  }

  function DoStore(s: State, k: Kind, n: nat): State {
    s.(len := n, p := s.p.(sent := s.p.sent + [n], pc := if k.RoundTrip? then Enter(k, n) else Swap(k)))
  }

  function DoSwap(s: State, e: Side, k: Kind): State {
    if s.conn == Active(e) then Go(s, Wake(k)).(conn := Inactive(e)) else Go(s, SwapFailed(k))
  }

  /** Any state but shutdown is an unexpected one here. */
  function DoSwapFailed(s: State, k: Kind): State {
    s.(p := s.p.(pc := if k.Last? then Gone else Exit(k, false), bad := s.p.bad || !s.conn.ShutDown?))
  }

  function DoWake(s: State, k: Kind, own: bool): State {
    WakeOne(Go(s, if k.Last? then Gone else WaitLoad(k)), own)
  }

  function DoWaitLoad(s: State, e: Side, k: Kind): State {
    if s.conn == Active(e) then Go(s, if k.Connecting? || k.First? then Read(k) else Exit(k, true))
    else if s.conn == Inactive(e) then Go(s, WaitCheck(k))
    else Go(s, Exit(k, false))
  }

  /** A length within the datagram part, or an error. */
  function DoRead(s: State, k: Kind, n: nat): State {
    if s.len > s.cap then s.(p := s.p.(pc := Exit(k, false), bad := true))
    else s.(p := s.p.(pc := if k.First? then Store(Answering, n) else Exit(k, true),
                               received := s.p.received + [s.len]))
  }

  function Returns(k: Kind, ok: bool): Pc {
    if !ok then Gone else if k.Connecting? then Ready else ReadLen
  }

  function DoExit(s: State, k: Kind, ok: bool): State {
    var eps := s.p.state - EPS_BLOCKED;
    s.(p := s.p.(state := eps, pc := if eps == EPS_SHUTDOWN then ConnSwap(k, ok) else Returns(k, ok),
                          bad := s.p.bad || (eps != 0 && eps != EPS_SHUTDOWN)))
  }

  /** shutdownConn, by the calling thread. */
  function DoConnSwap(s: State, e: Side, k: Kind, ok: bool): State {
    s.(conn := ShutDown,
       p := s.p.(conns := s.p.conns + 1, pc := if s.conn == Active(e) then ConnWake(k, ok) else Returns(k, ok)))
  }

  function DoReadLen(s: State): State {
    if s.len > s.cap then s.(p := s.p.(pc := Gone, bad := true))
    else s.(p := s.p.(pc := Ready, received := s.p.received + [s.len]))
  }

  /** A call is made, with a length within the datagram part. */
  function DoStart(s: State, e: Side, n: nat, last: bool): State {
    if n > s.cap then s
    else if s.p.pc.Fresh? then Go(s, Enter(if e.Client? then Connecting else First, n))
    else Go(s, Store(if last then Last else RoundTrip, n))
  }

  /** The calling thread of e moves. A blocked thread moves when interrupted. */
  function Call(s: State, e: Side, n: nat, flag: bool): State {
    match s.p.pc
    case Fresh => DoStart(s, e, n, flag)
    case Ready => DoStart(s, e, n, flag)
    case Gone => s
    case Enter(k, m) => DoEnter(s, k, m)
    case Undo => s.(p := s.p.(pc := Gone, state := s.p.state - EPS_BLOCKED))
    case Store(k, m) => DoStore(s, k, m)
    case Swap(k) => DoSwap(s, e, k)
    case SwapFailed(k) => DoSwapFailed(s, k)
    case Wake(k) => DoWake(s, k, flag)
    case WaitLoad(k) => DoWaitLoad(s, e, k)
    case WaitCheck(k) => Go(s, if s.p.shutdown then Exit(k, false) else WaitFutex(k))
    case WaitFutex(k) => Go(s, if s.conn == Inactive(e) then Blocked(k) else WaitLoad(k))
    case Blocked(k) => if flag then Go(s, WaitLoad(k)) else s
    case Read(k) => if n > s.cap then s else DoRead(s, k, n)
    case Exit(k, ok) => DoExit(s, k, ok)
    case ConnSwap(k, ok) => DoConnSwap(s, e, k, ok)
    case ConnWake(k, ok) => WakeOne(Go(s, Returns(k, ok)), flag)
    case ReadLen => DoReadLen(s)
  }

  // ----- the thread that shuts down -----

  function ShutdownStep(s: State, e: Side, flag: bool): State {
    match s.p.down
    case NotCalled => s.(p := s.p.(down := Add, shutdown := true))
    case Add =>
      var eps := s.p.state + EPS_SHUTDOWN;
      s.(p := s.p.(state := eps, down := if eps % 2 != 0 then WakeAll else DownSwap))
    case WakeAll => s.(p := Unblock(s.p).(down := Poll), o := Unblock(s.o))
    case Poll => s.(p := s.p.(down := if s.p.state % 2 == 0 then Finished else WakeAll))
    case DownSwap =>
      s.(conn := ShutDown,
         p := s.p.(conns := s.p.conns + 1, down := if s.conn == Active(e) then DownWake else Finished))
    case DownWake => WakeOne(s.(p := s.p.(down := Finished)), flag)
    case Finished => s
  }

  /** A step of the client or of the server, by its calling thread or the other. */
  datatype Step = Step(e: Side, down: bool, n: nat, flag: bool)

  function StepOf(s: State, e: Side, m: Step): State {
    if m.down then ShutdownStep(s, e, m.flag) else Call(s, e, m.n, m.flag)
  }

  /** The state is kept as the client sees it. */
  function Next(s: State, m: Step): State {
    if m.e.Client? then StepOf(s, Client, m) else Flip(StepOf(Flip(s), Server, m))
  }

  const NEW_ENDPOINT := Endpoint(Fresh, NotCalled, false, 0, [], [], 0, false)

  function Initial(cap: nat): State { State(ClientActive, 0, cap, NEW_ENDPOINT, NEW_ENDPOINT) }

  function After(cap: nat, steps: seq<Step>): State
    decreases |steps|
  {
    if steps == [] then Initial(cap) else Next(After(cap, steps[..|steps| - 1]), steps[|steps| - 1])
  }

  // ----- the invariant -----

  /** The endpoint may touch the packet window: it has control. */
  predicate InControl(e: Side, pc: Pc) {
    match pc
    case Fresh => e.Client?
    case Enter(k, _) => !k.First?
    case Ready => true
    case Store(_, _) => true
    case Swap(_) => true
    case Read(_) => true
    case Exit(_, ok) => ok
    case ConnSwap(_, ok) => ok
    case ConnWake(_, ok) => ok
    case ReadLen => true
    case _ => false
  }

  /** The endpoint waits for control, and will read the length when it has it. */
  predicate Awaits(e: Side, pc: Pc) {
    match pc
    case Fresh => e.Server?
    case Enter(k, _) => k.First?
    case Wake(k) => !k.Last?
    case WaitLoad(_) => true
    case WaitCheck(_) => true
    case WaitFutex(_) => true
    case Blocked(_) => true
    case _ => false
  }

  /** It has stored the length it is about to send. */
  predicate Stored(pc: Pc) { pc.Swap? || (pc.Enter? && pc.k.RoundTrip?) }

  /** The blocked bit is set. */
  predicate InWindow(pc: Pc) {
    match pc
    case Undo => true
    case Store(k, _) => k.Connecting? || k.Answering?
    case Swap(k) => !k.Last?
    case SwapFailed(k) => !k.Last?
    case Wake(k) => !k.Last?
    case WaitLoad(_) => true
    case WaitCheck(_) => true
    case WaitFutex(_) => true
    case Blocked(_) => true
    case Read(_) => true
    case Exit(_, _) => true
    case _ => false
  }

  predicate Added(d: Down) { !d.NotCalled? && !d.Add? }

  function Bit(b: bool): nat { if b then 1 else 0 }

  /** How many calls of shutdownConn e has made or owes. */
  function Owed(p: Endpoint): nat {
    p.conns + Bit(p.down.DownSwap?) + Bit(p.pc.ConnSwap?) + Bit(InWindow(p.pc) && !p.pc.Undo?)
  }

  predicate KindFits(e: Side, pc: Pc) {
    match pc
    case Enter(k, _) => k.RoundTrip? || (if e.Client? then k.Connecting? else k.First?)
    case Store(k, _) => !k.First? && (k.Connecting? ==> e.Client?) && (k.Answering? ==> e.Server?)
    case Swap(k) => !k.First?
    case Wake(k) => !k.First?
    case WaitLoad(k) => !k.Last? && (k.First? ==> e.Server?)
    case WaitCheck(k) => !k.Last? && (k.First? ==> e.Server?)
    case WaitFutex(k) => !k.Last? && (k.First? ==> e.Server?)
    case Blocked(k) => !k.Last? && (k.First? ==> e.Server?)
    case Read(k) => k.Connecting? || (k.First? && e.Server?)
    case _ => true
  }

  predicate LengthFits(cap: nat, pc: Pc) {
    match pc
    case Enter(_, n) => n <= cap
    case Store(_, n) => n <= cap
    case _ => true
  }

  /** Endpoint e on its own. */
  predicate Own(e: Side, conn: Conn, cap: nat, p: Endpoint) {
    && KindFits(e, p.pc) && LengthFits(cap, p.pc) && !p.bad
    && p.state == Bit(InWindow(p.pc)) * EPS_BLOCKED + Bit(Added(p.down)) * EPS_SHUTDOWN
    && (p.shutdown <==> !p.down.NotCalled?)
    && (p.pc.Undo? || p.pc.ConnSwap? || p.pc.ConnWake? ==> Added(p.down))
    && (Added(p.down) ==> Owed(p) == 1)
    && (Added(p.down) && InWindow(p.pc) && !p.pc.Undo? ==> p.down.WakeAll? || p.down.Poll?)
    && (!Added(p.down) ==> p.conns == 0)
    && (p.conns > 0 ==> conn.ShutDown?)
  }

  /** It has control, and has not yet read the length. */
  predicate Unread(pc: Pc) {
    match pc
    case Read(_) => true
    case Exit(k, ok) => ok && !k.Connecting?
    case ConnSwap(k, ok) => ok && !k.Connecting?
    case ConnWake(k, ok) => ok && !k.Connecting?
    case ReadLen => true
    case _ => false
  }

  /** Control, as endpoint e sees it: who has it, and what has been read. */
  predicate Control(s: State, e: Side) {
    && (InControl(e, s.p.pc) ==> (s.conn == Active(e) || s.conn.ShutDown?) && !InControl(Other(e), s.o.pc))
    && (s.p.pc.SwapFailed? ==> s.conn.ShutDown?)
  }

  /** The messages from e to its peer. */
  predicate Messages(s: State, e: Side) {
    && (InControl(e, s.p.pc) && Stored(s.p.pc) ==> s.p.sent == s.o.received + [s.len])
    && (InControl(e, s.p.pc) && !Stored(s.p.pc) ==> s.p.sent == s.o.received)
    && (Awaits(e, s.p.pc) && s.conn == Active(e) ==> s.p.sent == s.o.received)
    && (Awaits(Other(e), s.o.pc) && s.conn == Active(Other(e)) ==> s.p.sent == s.o.received + [s.len])
    && (InControl(Other(e), s.o.pc) && Unread(s.o.pc) ==> s.p.sent == s.o.received + [s.len])
    && (InControl(Other(e), s.o.pc) && !Unread(s.o.pc) ==> s.p.sent == s.o.received)
    && (s.p.sent == s.o.received || (s.p.sent != [] && s.p.sent[..|s.p.sent| - 1] == s.o.received))
  }

  /** A thread of endpoint o will wake one waiter. */
  predicate WillWake(o: Endpoint) { o.pc.Wake? || o.pc.ConnWake? || o.down.DownWake? }

  /** A blocked endpoint is one that has to wait: otherwise it is being woken. */
  predicate Sleeps(s: State, e: Side) {
    s.p.pc.Blocked? && s.conn != Inactive(e) ==> WillWake(s.o)
  }

  /** The invariant, as endpoint e sees it, apart from who sleeps. */
  predicate Base(s: State, e: Side) {
    && s.len <= s.cap
    && Own(e, s.conn, s.cap, s.p) && Own(Other(e), s.conn, s.cap, s.o)
    && Control(s, e) && Control(Flip(s), Other(e))
    && Messages(s, e) && Messages(Flip(s), Other(e))
  }

  predicate Inv(s: State, e: Side) { Base(s, e) && Sleeps(s, e) && Sleeps(Flip(s), Other(e)) }

  // ----- every step keeps it -----

  lemma FlipBase(s: State, e: Side)
    requires Base(s, e)
    ensures Base(Flip(s), Other(e))
  {
  }

  lemma WokenKeeps(s: State, e: Side)
    requires Base(s, e)
    ensures Base(s.(o := Unblock(s.o)), e)
  {
  }

  lemma FreshKeeps(s: State, e: Side, n: nat, flag: bool)
    requires Inv(s, e) && s.p.pc.Fresh?
    ensures Inv(Call(s, e, n, flag), e)
  {
  }

  lemma ReadyKeeps(s: State, e: Side, n: nat, flag: bool)
    requires Inv(s, e) && s.p.pc.Ready?
    ensures Inv(Call(s, e, n, flag), e)
  {
  }

  lemma EnterKeeps(s: State, e: Side, n: nat, flag: bool)
    requires Inv(s, e) && s.p.pc.Enter?
    ensures Inv(Call(s, e, n, flag), e)
  {
  }

  lemma UndoKeeps(s: State, e: Side, n: nat, flag: bool)
    requires Inv(s, e) && s.p.pc.Undo?
    ensures Inv(Call(s, e, n, flag), e)
  {
  }

  lemma StoreKeeps(s: State, e: Side, n: nat, flag: bool)
    requires Inv(s, e) && s.p.pc.Store?
    ensures Inv(Call(s, e, n, flag), e)
  {
  }

  lemma SwapKeeps(s: State, e: Side, n: nat, flag: bool)
    requires Inv(s, e) && s.p.pc.Swap?
    ensures Inv(Call(s, e, n, flag), e)
  {
    var u := Call(s, e, n, flag);
    assert Own(e, u.conn, u.cap, u.p) && Own(Other(e), u.conn, u.cap, u.o) by { hide Messages, Sleeps; }
    assert Sleeps(u, e) && Sleeps(Flip(u), Other(e)) by { hide Messages, Control; }
    hide Own, Sleeps;
  }

  lemma SwapFailedKeeps(s: State, e: Side, n: nat, flag: bool)
    requires Inv(s, e) && s.p.pc.SwapFailed?
    ensures Inv(Call(s, e, n, flag), e)
  {
  }

  lemma WakeKeeps(s: State, e: Side, n: nat, flag: bool)
    requires Inv(s, e) && s.p.pc.Wake?
    ensures Inv(Call(s, e, n, flag), e)
  {
    var u := Go(s, if s.p.pc.k.Last? then Gone else WaitLoad(s.p.pc.k));
    assert Base(u, e) by { hide Sleeps; }
    hide Base;
    WokenKeeps(u, e);
  }

  /** Control is gained: the peer has given it up. */
  lemma GainKeeps(s: State, e: Side, k: Kind)
    requires Inv(s, e) && s.p.pc == WaitLoad(k) && s.conn == Active(e)
    ensures Inv(DoWaitLoad(s, e, k), e)
  {
    var u := DoWaitLoad(s, e, k);
    assert Control(u, e) && Control(Flip(u), Other(e)) && Sleeps(u, e)
      && Sleeps(Flip(u), Other(e)) by { hide Messages, Own; }
    hide Control, Sleeps;
  }

  lemma WaitLoadKeeps(s: State, e: Side, n: nat, flag: bool)
    requires Inv(s, e) && s.p.pc.WaitLoad?
    ensures Inv(Call(s, e, n, flag), e)
  {
    if s.conn == Active(e) {
      hide Inv;
      GainKeeps(s, e, s.p.pc.k);
    }
  }

  lemma WaitCheckKeeps(s: State, e: Side, n: nat, flag: bool)
    requires Inv(s, e) && s.p.pc.WaitCheck?
    ensures Inv(Call(s, e, n, flag), e)
  {
  }

  lemma WaitFutexKeeps(s: State, e: Side, n: nat, flag: bool)
    requires Inv(s, e) && s.p.pc.WaitFutex?
    ensures Inv(Call(s, e, n, flag), e)
  {
  }

  lemma BlockedKeeps(s: State, e: Side, n: nat, flag: bool)
    requires Inv(s, e) && s.p.pc.Blocked?
    ensures Inv(Call(s, e, n, flag), e)
  {
  }

  lemma ReadKeeps(s: State, e: Side, n: nat, flag: bool)
    requires Inv(s, e) && s.p.pc.Read?
    ensures Inv(Call(s, e, n, flag), e)
  {
  }

  lemma ExitKeeps(s: State, e: Side, n: nat, flag: bool)
    requires Inv(s, e) && s.p.pc.Exit?
    ensures Inv(Call(s, e, n, flag), e)
  {
    var u := Call(s, e, n, flag);
    assert Own(e, u.conn, u.cap, u.p) && Own(Other(e), u.conn, u.cap, u.o) by { hide Messages, Sleeps; }
    assert Sleeps(u, e) && Sleeps(Flip(u), Other(e)) by { hide Messages, Control; }
    hide Own, Sleeps;
  }

  lemma ConnSwapKeeps(s: State, e: Side, n: nat, flag: bool)
    requires Inv(s, e) && s.p.pc.ConnSwap?
    ensures Inv(Call(s, e, n, flag), e)
  {
  }

  lemma ConnWakeKeeps(s: State, e: Side, n: nat, flag: bool)
    requires Inv(s, e) && s.p.pc.ConnWake?
    ensures Inv(Call(s, e, n, flag), e)
  {
    var u := Go(s, Returns(s.p.pc.k, s.p.pc.ok));
    assert Base(u, e) by { hide Sleeps; }
    hide Base;
    WokenKeeps(u, e);
  }

  lemma ReadLenKeeps(s: State, e: Side, n: nat, flag: bool)
    requires Inv(s, e) && s.p.pc.ReadLen?
    ensures Inv(Call(s, e, n, flag), e)
  {
  }

  lemma NotCalledKeeps(s: State, e: Side, flag: bool)
    requires Inv(s, e) && s.p.down.NotCalled?
    ensures Inv(ShutdownStep(s, e, flag), e)
  {
  }

  lemma AddKeeps(s: State, e: Side, flag: bool)
    requires Inv(s, e) && s.p.down.Add?
    ensures Inv(ShutdownStep(s, e, flag), e)
  {
  }

  lemma WakeAllKeeps(s: State, e: Side, flag: bool)
    requires Inv(s, e) && s.p.down.WakeAll?
    ensures Inv(ShutdownStep(s, e, flag), e)
  {
    var u := s.(p := s.p.(down := Poll));
    assert Base(u, e) by { hide Sleeps; }
    hide Base, Own, Control, Messages;
    WokenKeeps(u, e);
    var v := u.(o := Unblock(u.o));
    FlipBase(v, e);
    WokenKeeps(Flip(v), Other(e));
    FlipBase(Flip(v).(o := Unblock(v.p)), Other(e));
  }

  lemma PollKeeps(s: State, e: Side, flag: bool)
    requires Inv(s, e) && s.p.down.Poll?
    ensures Inv(ShutdownStep(s, e, flag), e)
  {
  }

  lemma DownSwapKeeps(s: State, e: Side, flag: bool)
    requires Inv(s, e) && s.p.down.DownSwap?
    ensures Inv(ShutdownStep(s, e, flag), e)
  {
  }

  lemma DownWakeKeeps(s: State, e: Side, flag: bool)
    requires Inv(s, e) && s.p.down.DownWake?
    ensures Inv(ShutdownStep(s, e, flag), e)
  {
    var u := s.(p := s.p.(down := Finished));
    assert Base(u, e) && !u.p.pc.Blocked? by { hide Sleeps; }
    hide Base;
    WokenKeeps(u, e);
  }

  lemma CallKeeps(s: State, e: Side, n: nat, flag: bool)
    requires Inv(s, e)
    ensures Inv(Call(s, e, n, flag), e)
  {
    hide Inv;
    match s.p.pc
    case Gone =>
    case Fresh => FreshKeeps(s, e, n, flag);
    case Ready => ReadyKeeps(s, e, n, flag);
    case Enter(_, _) => EnterKeeps(s, e, n, flag);
    case Undo => UndoKeeps(s, e, n, flag);
    case Store(_, _) => StoreKeeps(s, e, n, flag);
    case Swap(_) => SwapKeeps(s, e, n, flag);
    case SwapFailed(_) => SwapFailedKeeps(s, e, n, flag);
    case Wake(_) => WakeKeeps(s, e, n, flag);
    case WaitLoad(_) => WaitLoadKeeps(s, e, n, flag);
    case WaitCheck(_) => WaitCheckKeeps(s, e, n, flag);
    case WaitFutex(_) => WaitFutexKeeps(s, e, n, flag);
    case Blocked(_) => BlockedKeeps(s, e, n, flag);
    case Read(_) => ReadKeeps(s, e, n, flag);
    case Exit(_, _) => ExitKeeps(s, e, n, flag);
    case ConnSwap(_, _) => ConnSwapKeeps(s, e, n, flag);
    case ConnWake(_, _) => ConnWakeKeeps(s, e, n, flag);
    case ReadLen => ReadLenKeeps(s, e, n, flag);
  }

  lemma ShutdownKeeps(s: State, e: Side, flag: bool)
    requires Inv(s, e)
    ensures Inv(ShutdownStep(s, e, flag), e)
  {
    hide Inv;
    match s.p.down
    case Finished =>
    case NotCalled => NotCalledKeeps(s, e, flag);
    case Add => AddKeeps(s, e, flag);
    case WakeAll => WakeAllKeeps(s, e, flag);
    case Poll => PollKeeps(s, e, flag);
    case DownSwap => DownSwapKeeps(s, e, flag);
    case DownWake => DownWakeKeeps(s, e, flag);
  }

  lemma FlipInv(s: State, e: Side)
    requires Inv(s, e)
    ensures Inv(Flip(s), Other(e))
  {
    hide Own, Control, Messages, Sleeps;
  }

  lemma StepKeeps(s: State, m: Step)
    requires Inv(s, Client)
    ensures Inv(Next(s, m), Client)
  {
    var u := if m.e.Client? then s else Flip(s);
    FlipInv(s, Client);
    hide Inv, Call, ShutdownStep;
    if m.down { ShutdownKeeps(u, m.e, m.flag); } else { CallKeeps(u, m.e, m.n, m.flag); }
    if m.e.Server? { FlipInv(StepOf(u, Server, m), Server); }
  }

  // ----- all runs -----

  lemma {:induction false} RunKeeps(cap: nat, steps: seq<Step>)
    ensures Inv(After(cap, steps), Client)
    decreases |steps|
  {
    if steps != [] {
      hide Inv, Next;
      RunKeeps(cap, steps[..|steps| - 1]);
      StepKeeps(After(cap, steps[..|steps| - 1]), steps[|steps| - 1]);
    }
  }

  /** At most one endpoint has control of the packet window. */
  lemma AtMostOneInControl(cap: nat, steps: seq<Step>)
    ensures var s := After(cap, steps); !(InControl(Client, s.p.pc) && InControl(Server, s.o.pc))
  {
    RunKeeps(cap, steps);
  }

  /** Every length that is stored is read once, in order: what one side has read
      is what the other has stored, or all of it but the last. */
  lemma MessagesInOrder(cap: nat, steps: seq<Step>)
    ensures var s := After(cap, steps);
            && s.o.received <= s.p.sent && |s.p.sent| <= |s.o.received| + 1
            && s.p.received <= s.o.sent && |s.o.sent| <= |s.p.received| + 1
  {
    RunKeeps(cap, steps);
  }

  /** Nothing panics, no connection state is unexpected and no length invalid. */
  lemma NothingUnexpected(cap: nat, steps: seq<Step>)
    ensures var s := After(cap, steps); !s.p.bad && !s.o.bad
  {
    RunKeeps(cap, steps);
  }

  /** Shutdown is final. */
  lemma {:induction false} ShutdownIsFinal(cap: nat, steps: seq<Step>, n: nat)
    requires n <= |steps| && After(cap, steps[..n]).conn.ShutDown?
    ensures After(cap, steps).conn.ShutDown?
    decreases |steps|
  {
    if n < |steps| {
      assert steps[..|steps| - 1][..n] == steps[..n];
      ShutdownIsFinal(cap, steps[..|steps| - 1], n);
    } else {
      assert steps[..n] == steps;
    }
  }

  /** A Shutdown shuts the connection down once: neither its own thread nor the
      call it found blocked does so twice, and when both are through it is done. */
  lemma ShutDownOnce(cap: nat, steps: seq<Step>)
    ensures var s := After(cap, steps);
            && s.p.conns <= 1 && s.o.conns <= 1
            && (s.p.down.Finished? && !InWindow(s.p.pc) && !s.p.pc.ConnSwap? ==> s.p.conns == 1 && s.conn.ShutDown?)
            && (s.o.down.Finished? && !InWindow(s.o.pc) && !s.o.pc.ConnSwap? ==> s.o.conns == 1 && s.conn.ShutDown?)
  {
    RunKeeps(cap, steps);
  }

  /** No endpoint sleeps through its turn or through a shutdown: while it is
      blocked, it is the peer's turn, or the peer will wake it; and if it has been
      shut down itself, its own Shutdown goes on waking it. */
  lemma NobodySleepsThrough(cap: nat, steps: seq<Step>)
    ensures var s := After(cap, steps);
            && (s.p.pc.Blocked? ==> s.conn.ServerActive? || WillWake(s.o))
            && (s.o.pc.Blocked? ==> s.conn.ClientActive? || WillWake(s.p))
            && (s.p.pc.Blocked? && s.p.shutdown ==> s.p.down.Add? || s.p.down.WakeAll? || s.p.down.Poll?)
            && (s.o.pc.Blocked? && s.o.shutdown ==> s.o.down.Add? || s.o.down.WakeAll? || s.o.down.Poll?)
  {
    RunKeeps(cap, steps);
  }
}
