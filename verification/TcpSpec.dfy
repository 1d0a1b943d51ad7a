/**
What each section of a thread does to one TCP socket of skynet-src/socket_server.c, as a function on the socket's
state: the specification of the methods of TcpSocket, and of whole runs.
*/
module TcpSpec {
  import opened Basics
  import opened TcpLists

  datatype Type = Invalid | Connecting | Connected | HalfCloseRead | HalfCloseWrite | PAccept

  /** What socket_server_poll reports; Nothing stands for -1 and Blocked for waiting on the lock. Wrote is what a direct
      write put on the wire, Dropped that force_close freed the lists, with or without a package that was begun. */
  datatype Report =
    | Nothing | Blocked | Close | Err | Data(n: nat) | Open | Wrote(n: nat) | Dropped(begun: bool)

  /** struct socket, as far as it decides what happens; the fields are explained at class Socket. */
  datatype State = State(typ: Type, closing: bool, high: seq<Buffer>, low: seq<Buffer>, dw: Option<Buffer>,
                         locked: Option<Package>, pipe: seq<Request>, sending: int, tickets: int, busy: bool,
                         shutting: Option<Report>, past: Option<Past>, wire: seq<Byte>, sent: seq<Package>,
                         lost: seq<Buffer>, writing: bool, owes: int)

  function Begin(start: Type): State {
    State(start, false, [], [], None, None, [], 0, 0, false, None, None, [], [], [], start == Connecting, 0)
  }

  /** nomore_sending_data */
  predicate NoMoreSending(s: State) {
    (s.high == [] && s.low == [] && s.dw == None && s.sending == 0) || s.typ == HalfCloseWrite
  }

  /** The socket takes no more packages. */
  predicate Refuses(s: State) {
    s.typ == Invalid || s.typ == HalfCloseWrite || s.typ == PAccept || s.closing
  }

  /** list_uncomplete on the low list */
  predicate LowUncomplete(s: State) {
    s.low != [] && (s.low[0].off != 0 || !s.low[0].pkg.plain)
  }

  /** The package that a worker is writing directly, or has begun to. */
  function FrontOf(locked: Option<Package>, dw: Option<Buffer>): seq<Buffer> {
    if locked.Some? then [Buffer(locked.value, 0)] else if dw.Some? then [dw.value] else []
  }

  /** Everything accepted and not completely written, in the order it will be written. */
  function Pending(s: State): seq<Buffer> {
    if s.typ == Invalid then s.lost else FrontOf(s.locked, s.dw) + s.high + s.low
  }

  // ---------------------------------------------------------------- worker threads

  function DirectBegin(s: State, p: Package): State {
    if s.locked == None && NoMoreSending(s) && s.typ == Connected then s.(locked := Some(p)) else s
  }

  function DirectEnd(s: State, n: nat): State
    requires s.locked.Some? && n <= |s.locked.value.bytes|
  {
    var p := s.locked.value;
    var t := s.(locked := None, wire := s.wire + p.bytes[..n]);
    if n == |p.bytes| then t.(sent := s.sent + [p]) else t.(dw := Some(Buffer(p, n)), owes := s.owes + 1)
  }

  function Count(s: State): State {
    if s.sending < 0xffff then s.(sending := s.sending + 1, tickets := s.tickets + 1) else s
  }

  function Enqueue(s: State, p: Package): State {
    s.(pipe := s.pipe + [Send(p)], tickets := s.tickets - 1)
  }

  /** The worker whose direct write has left a rest asks for write events. */
  function Ask(s: State): State {
    if s.owes > 0 then s.(pipe := s.pipe + [Trigger], owes := s.owes - 1) else s
  }

  // ---------------------------------------------------------------- requests

  function Join(s: State, p: Package): State {
    if Refuses(s) then s
    else if s.high == [] && s.low == [] then s.(high := [Buffer(p, 0)], writing := true)
    else if p.high then s.(high := s.high + [Buffer(p, 0)])
    else s.(low := s.low + [Buffer(p, 0)])
  }

  function Handle(s: State): State
    requires s.pipe != []
  {
    var t := s.(pipe := s.pipe[1..]);
    if s.pipe[0].Send? then Join(t, s.pipe[0].pkg).(busy := true) else t.(writing := s.writing || s.typ != Invalid)
  }

  // ---------------------------------------------------------------- writing

  function Thrown(s: State): State {
    s.(typ := Invalid, high := [], low := [], dw := None, shutting := None,
       lost := FrontOf(s.locked, s.dw) + s.high + s.low)
  }

  /** close_write, and whether SOCKET_ERR is to be reported. */
  function CloseWrite(s: State): (State, Report) {
    if s.closing || s.typ == HalfCloseRead then (Thrown(s), Nothing)
    else if s.typ == HalfCloseWrite then (s, Nothing)
    else (s.(typ := HalfCloseWrite, writing := false), Err)
  }

  /** What one round of writes leaves of the high or the low list, before a failure is dealt with. */
  function Delivered(s: State, onHigh: bool, d: Delivery): State {
    var t := s.(wire := s.wire + d.out, sent := s.sent + d.done);
    if onHigh then t.(high := d.rest) else t.(low := d.rest)
  }

  /** The low list, when the high one is empty: a package that was begun moves to the high list. */
  function LowRound(s: State, io: seq<Io>): (State, Report) {
    var d := Deliver(s.low, io);
    var t := Delivered(s, false, d);
    if d.stop == Failure then CloseWrite(t)
    else if LowUncomplete(t) then (t.(high := [t.low[0]], low := t.low[1..]), Nothing)
    else (t, Nothing)
  }

  /** When everything is written, a closing socket is closed, and any other needs no more write events. */
  function Finished(s: State): State {
    if s.typ == Invalid || s.high != [] || s.low != [] then s
    else if s.closing then Thrown(s)
    else s.(writing := false)
  }

  function WriteLists(s: State, io: seq<Io>): (State, Report) {
    var d := Deliver(s.high, io);
    var t := Delivered(s, true, d);
    if d.stop == Failure then CloseWrite(t)
    else if t.high != [] then (t, Nothing)
    else
      var (u, r) := LowRound(t, d.left);
      (Finished(u), r)
  }

  /** The rest of a direct write goes before the high list. */
  function Raised(s: State): State {
    if s.dw.Some? then s.(high := [s.dw.value] + s.high, dw := None) else s
  }

  function Write(s: State, io: seq<Io>): (State, Report) {
    if s.typ == Invalid then (s, Nothing)
    else if s.locked.Some? then (s, Blocked)
    else WriteLists(Raised(s), io)
  }

  // ---------------------------------------------------------------- closing and reading

  /** The first half of force_close, which will end in the report r. */
  function Drop(s: State, r: Report): (State, Report) {
    var t := s.(high := [], low := [], shutting := Some(r));
    if s.high != [] && s.high[0].off > 0 then
      (t.(past := Some(Past(s.wire, s.sent, s.high[0])), wire := [], sent := []), Dropped(true))
    else (t, Dropped(false))
  }

  /** The second half of force_close. */
  function Finish(s: State): (State, Report) {
    if s.shutting == None then (s, Nothing)
    else if s.locked.Some? then (s, Blocked)
    else (Thrown(s), s.shutting.value)
  }

  /** Whether SOCKET_CLOSE is still to come. */
  function Farewell(s: State): Report { if s.typ == HalfCloseRead then Nothing else Close }

  function CloseCall(s: State, shutdown: bool): (State, Report) {
    if s.typ == Invalid then (s, Nothing)
    else if shutdown || NoMoreSending(s) then Drop(s, Farewell(s))
    else (s.(typ := HalfCloseRead, closing := true), Farewell(s))
  }

  function ReadEnd(s: State): (State, Report) {
    if s.closing then (if NoMoreSending(s) then Drop(s, Nothing) else (s, Nothing))
    else if s.typ == HalfCloseRead then (s, Nothing)
    else if s.typ == HalfCloseWrite then Drop(s, Close)
    else (s.(typ := HalfCloseRead), Close)
  }

  function Read(s: State, io: Io): (State, Report) {
    if s.typ == Invalid || s.typ == Connecting then (s, Nothing)
    else match io
      case Failed => (s, Err)
      case Interrupted => (s, Nothing)
      case Again => (s, Nothing)
      case Moved(n) =>
        if n == 0 then ReadEnd(s) else (s, if s.typ == HalfCloseRead then Nothing else Data(n))
  }

  function Eof(s: State): (State, Report) {
    if s.typ == Invalid || s.typ == Connecting then (s, Nothing) else Drop(s, Farewell(s))
  }

  function Connect(s: State, ok: bool): (State, Report) {
    if s.typ != Connecting then (s, Nothing)
    else if ok then (s.(typ := Connected, writing := s.writing && !NoMoreSending(s)), Open)
    else Drop(s, Err)
  }

  function Resume(s: State): (State, Report) {
    if s.typ == Invalid || s.typ == HalfCloseRead then (s, Err)
    else (s.(typ := if s.typ == PAccept then Connected else s.typ),
          if s.typ == PAccept || s.typ == Connected then Open else Nothing)
  }

  // ---------------------------------------------------------------- every run

  datatype Event =
    | EDirectBegin(pkg: Package) | EDirectEnd(io: Io) | ETrigger | ECount | ESend(pkg: Package)
    | EHandle | EUncount | EWrite(results: seq<Io>) | EClose(shutdown: bool) | ERead(io: Io) | EEof
    | EConnect(ok: bool) | EResume | EPause | EFinish

  /** The sections of worker threads, and the end of force_close. */
  function ByOthers(s: State, e: Event): (State, Report) {
    match e
    case EDirectBegin(p) => (DirectBegin(s, p), Nothing)
    case EDirectEnd(io) =>
      if s.locked == None then (s, Nothing)
      else
        var n := Taken(io, |s.locked.value.bytes|);
        (DirectEnd(s, n), Wrote(n))
    case ETrigger => (Ask(s), Nothing)
    case ECount => (Count(s), Nothing)
    case ESend(p) => (if s.tickets > 0 then Enqueue(s, p) else s, Nothing)
    case EFinish => Finish(s)
    case _ => (s, Nothing)
  }

  /** The sections of the socket thread, outside force_close. */
  function ByThread(s: State, e: Event): (State, Report) {
    match e
    case EHandle => (if s.pipe != [] && !s.busy then Handle(s) else s, Nothing)
    case EUncount => (if s.busy then s.(sending := s.sending - 1, busy := false) else s, Nothing)
    case EWrite(io) => Write(s, io)
    case EClose(shutdown) => CloseCall(s, shutdown)
    case ERead(io) => Read(s, io)
    case EEof => Eof(s)
    case EConnect(ok) => Connect(s, ok)
    case EResume => Resume(s)
    case _ => (s, Nothing)
  }

  predicate Others(e: Event) {
    e.EDirectBegin? || e.EDirectEnd? || e.ETrigger? || e.ECount? || e.ESend? || e.EFinish?
  }

  /** One section, when it can run; otherwise nothing happens. While the socket thread is in force_close, nothing but
      the end of that is its next section. */
  function Step(s: State, e: Event): (State, Report) {
    if Others(e) then ByOthers(s, e) else if s.shutting == None then ByThread(s, e) else (s, Nothing)
  }

  /** The assert at the start of send_buffer_ fails. */
  predicate Fails(s: State, e: Event) {
    e.EWrite? && s.shutting == None && s.typ != Invalid && s.locked == None && LowUncomplete(s)
  }

  /** A run, which ends early only at that assert. */
  datatype Run = Run(state: State, reports: seq<Report>, failed: bool)

  function Exec(start: Type, es: seq<Event>): Run {
    if es == [] then Run(Begin(start), [], false)
    else
      var pre, e := Exec(start, es[..|es| - 1]), es[|es| - 1];
      if pre.failed || Fails(pre.state, e) then pre.(failed := true)
      else
        var (s, r) := Step(pre.state, e);
        Run(s, pre.reports + [r], false)
  }

  /** The packages that workers hand in. */
  function Handed(e: Event): seq<Package> { if e.EDirectBegin? || e.ESend? then [e.pkg] else [] }

  function HandedIn(es: seq<Event>): seq<Package> {
    if es == [] then [] else HandedIn(es[..|es| - 1]) + Handed(es[|es| - 1])
  }

  /** Low-priority packages are ordinary memory. */
  predicate Ordinary(es: seq<Event>) {
    forall e :: e in es && (e.EDirectBegin? || e.ESend?) && !e.pkg.high ==> e.pkg.plain
  }

  ghost predicate PlainLow(ps: seq<Package>) {
    forall p :: p in ps && !p.high ==> p.plain
  }

  /** SOCKET_CLOSE comes at most once, and no data comes after it. */
  predicate Polite(rs: seq<Report>) {
    forall i, j :: 0 <= i < j < |rs| && rs[i] == Close ==> rs[j] != Close && !rs[j].Data?
  }

  /** force_close drops a package that was begun, and a worker's direct write puts bytes behind it. */
  predicate Torn(rs: seq<Report>) {
    exists i, j :: 0 <= i < j < |rs| && rs[i] == Dropped(true) && rs[j].Wrote? && rs[j].n > 0
  }

  /** The segments of the wire so far. */
  function Wire(s: State): seq<Segment> { Segments(s.past, s.sent, Pending(s)) }

  lemma ExecStep(start: Type, es: seq<Event>, n: nat)
    requires n < |es|
    ensures var pre := Exec(start, es[..n]);
            Exec(start, es[..n + 1]) ==
              if pre.failed || Fails(pre.state, es[n]) then pre.(failed := true)
              else
                var (s, r) := Step(pre.state, es[n]);
                Run(s, pre.reports + [r], false)
  {
    assert es[..n + 1][..n] == es[..n];
  }

  lemma {:induction false} ExecStuck(start: Type, es: seq<Event>, n: nat)
    requires n <= |es| && Exec(start, es[..n]).failed
    ensures Exec(start, es) == Exec(start, es[..n])
    decreases |es| - n
  {
    hide Exec;
    if n < |es| {
      ExecStep(start, es, n);
      ExecStuck(start, es, n + 1);
    } else {
      assert es[..n] == es;
    }
  }
}
