/**
Whole runs of one TCP socket: runs that the source does not mean to have, what holds in every state of every run, what
a close loses and what no run loses.
*/
module TcpRuns {
  import opened Basics
  import opened TcpLists
  import opened TcpSpec

  // ---------------------------------------------------------------- runs that the source does not mean to have

  /** The run after some events. */
  ghost predicate Leads(start: Type, es: seq<Event>, s: State, rs: seq<Report>) {
    Exec(start, es) == Run(s, rs, false)
  }

  lemma Begins(start: Type)
    ensures Leads(start, [], Begin(start), [])
  {
  }

  lemma Goes(start: Type, es: seq<Event>, s: State, rs: seq<Report>, e: Event, s': State, r: Report)
    requires Leads(start, es, s, rs) && !Fails(s, e) && Step(s, e) == (s', r)
    ensures Leads(start, es + [e], s', rs + [r])
  {
    hide Step, Fails;
    assert (es + [e])[..|es|] == es;
  }

  /** A package goes through the pipe into the high list. */
  function Sending(a: Package): seq<Event> { [ECount, ESend(a), EHandle, EUncount] }

  lemma ThroughPipe(es: seq<Event>, s: State, rs: seq<Report>, a: Package)
    requires Leads(Connected, es, s, rs) && s.typ == Connected && s.shutting == None && s.pipe == []
    requires s.sending == s.tickets == 0 && !s.busy && !s.closing
    ensures Leads(Connected, es + Sending(a), Join(s, a), rs + [Nothing, Nothing, Nothing, Nothing])
  {
    hide Leads, Write, CloseCall, Read, Eof, Connect, Resume, Finish, DirectBegin, DirectEnd, Join;
    var e1, e2, e3 := es + [ECount], es + [ECount] + [ESend(a)], es + [ECount] + [ESend(a)] + [EHandle];
    var s1, s2 := s.(sending := 1, tickets := 1), s.(sending := 1, pipe := [Send(a)]);
    JoinSame(s, s2.(pipe := []), a);
    var s3 := Join(s, a).(sending := 1, busy := true);
    assert s.pipe + [Send(a)] == [Send(a)] && [Send(a)][1..] == [];
    Goes(Connected, es, s, rs, ECount, s1, Nothing);
    Goes(Connected, e1, s1, rs + [Nothing], ESend(a), s2, Nothing);
    Goes(Connected, e2, s2, rs + [Nothing] + [Nothing], EHandle, s3, Nothing);
    Goes(Connected, e3, s3, rs + [Nothing] + [Nothing] + [Nothing], EUncount, Join(s, a), Nothing);
    assert e3 + [EUncount] == es + Sending(a);
    assert rs + [Nothing] + [Nothing] + [Nothing] + [Nothing] == rs + [Nothing, Nothing, Nothing, Nothing];
  }

  /** Joining a list depends on, and changes, nothing but the lists. */
  lemma JoinSame(s: State, t: State, p: Package)
    requires t == s.(sending := t.sending)
    ensures Join(t, p) == Join(s, p).(sending := t.sending)
    ensures Join(s, p) == s.(high := Join(s, p).high, low := Join(s, p).low, writing := Join(s, p).writing)
  {
  }

  /** Two packages sent while the socket is connected, the second a low-priority user object: the write event that
      comes next stops at the assert at the start of send_buffer_. */
  lemma UserObject(first: Package, second: Package, io: seq<Io>)
    requires first.high && !second.high && !second.plain
    ensures Exec(Connected, Sending(first) + Sending(second) + [EWrite(io)]).failed
  {
    hide Leads, Step, Sending;
    var s := Begin(Connected);
    var s1, rs := s.(high := [Buffer(first, 0)], writing := true), [Nothing, Nothing, Nothing, Nothing];
    Begins(Connected);
    ThroughPipe([], s, [], first);
    assert [] + [Buffer(first, 0)] == [Buffer(first, 0)];
    assert [] + Sending(first) == Sending(first) && [] + rs == rs;
    ThroughPipe(Sending(first), s1, rs, second);
    var es := Sending(first) + Sending(second);
    LeadsIs(Connected, es, Join(s1, second), rs + rs);
    assert (es + [EWrite(io)])[..|es|] == es;
  }

  lemma LeadsIs(start: Type, es: seq<Event>, s: State, rs: seq<Report>)
    requires Leads(start, es, s, rs)
    ensures Exec(start, es) == Run(s, rs, false)
  {
  }

  /** A package is begun, its socket is shut down, and before the socket thread gets the lock a worker writes
      another package: it stands behind the first byte of the one that was dropped. */
  lemma TornWire(a: Package, b: Package)
    requires |a.bytes| >= 2 && b.bytes != []
    ensures var es := Sending(a) + [EWrite([Moved(1)]), EClose(true), EDirectBegin(b), EDirectEnd(Moved(|b.bytes|))];
            var run := Exec(Connected, es);
            && !run.failed && PastWire(run.state.past) + run.state.wire == a.bytes[..1] + b.bytes
            && Wire(run.state) == [Segment(a, 1), Segment(b, |b.bytes|)] && !Unbroken(Wire(run.state))
  {
    hide Leads, Sending, Step, Exec, Wire, Unbroken;
    var s, rs := Begin(Connected), [Nothing, Nothing, Nothing, Nothing];
    Begins(Connected);
    ThroughPipe([], s, [], a);
    assert [] + [Buffer(a, 0)] == [Buffer(a, 0)] && [] + a.bytes[..1] == a.bytes[..1] && s.sent + [] == [];
    var e0 := Sending(a);
    assert [] + e0 == e0 && [] + rs == rs;
    var s0 := s.(high := [Buffer(a, 0)], writing := true);
    var s1 := s.(high := [Buffer(a, 1)], wire := a.bytes[..1], writing := true);
    OneByteStep(a);
    Goes(Connected, e0, s0, rs, EWrite([Moved(1)]), s1, Nothing);
    TornEnd(e0 + [EWrite([Moved(1)])], s1, rs + [Nothing], a, b);
    assert e0 + [EWrite([Moved(1)])] + [EClose(true)] + [EDirectBegin(b)] + [EDirectEnd(Moved(|b.bytes|))]
        == e0 + [EWrite([Moved(1)]), EClose(true), EDirectBegin(b), EDirectEnd(Moved(|b.bytes|))];
  }

  lemma TornEnd(es: seq<Event>, s: State, rs: seq<Report>, a: Package, b: Package)
    requires |a.bytes| >= 2 && b.bytes != [] && Leads(Connected, es, s, rs)
    requires s == Begin(Connected).(high := [Buffer(a, 1)], wire := a.bytes[..1], writing := true)
    ensures var run := Exec(Connected, es + [EClose(true)] + [EDirectBegin(b)] + [EDirectEnd(Moved(|b.bytes|))]);
            && !run.failed && PastWire(run.state.past) + run.state.wire == a.bytes[..1] + b.bytes
            && Wire(run.state) == [Segment(a, 1), Segment(b, |b.bytes|)] && !Unbroken(Wire(run.state))
  {
    hide Leads, Sending, Deliver, Write, Wire, Unbroken;
    var e1, e2 := es + [EClose(true)], es + [EClose(true)] + [EDirectBegin(b)];
    var past := Some(Past(a.bytes[..1], [], Buffer(a, 1)));
    var s1 := Begin(Connected).(shutting := Some(Close), past := past, writing := true);
    var s2, s3 := s1.(locked := Some(b)), s1.(wire := b.bytes, sent := [b]);
    var n := |b.bytes|;
    Goes(Connected, es, s, rs, EClose(true), s1, Dropped(true));
    Goes(Connected, e1, s1, rs + [Dropped(true)], EDirectBegin(b), s2, Nothing);
    assert [] + b.bytes[..n] == b.bytes && [] + [b] == [b];
    Goes(Connected, e2, s2, rs + [Dropped(true)] + [Nothing], EDirectEnd(Moved(n)), s3, Wrote(n));
    LeadsIs(Connected, e2 + [EDirectEnd(Moved(n))], s3, rs + [Dropped(true)] + [Nothing] + [Wrote(n)]);
    TwoSegments(s3, a, b);
  }

  lemma TwoSegments(s: State, a: Package, b: Package)
    requires |a.bytes| >= 2 && b.bytes != [] && s.past == Some(Past(a.bytes[..1], [], Buffer(a, 1)))
    requires s.sent == [b] && Pending(s) == []
    ensures Wire(s) == [Segment(a, 1), Segment(b, |b.bytes|)] && !Unbroken(Wire(s))
  {
    var w := Wire(s);
    assert WholeSegs([b]) == [Segment(b, |b.bytes|)] && WholeSegs([]) == [];
    assert w == [Segment(a, 1), Segment(b, |b.bytes|)];
    assert !Complete(w[0]) && w[1].n > 0;
  }

  lemma OneByte(a: Package)
    requires |a.bytes| >= 2
    ensures Deliver([Buffer(a, 0)], [Moved(1)]) == Delivery([Buffer(a, 1)], a.bytes[..1], [], [], NoRoom)
  {
    assert a.bytes[0..1] == a.bytes[..1];
    assert [Buffer(a, 1)] + [Buffer(a, 0)][1..] == [Buffer(a, 1)];
  }

  lemma OneByteStep(a: Package)
    requires |a.bytes| >= 2
    ensures var s := Begin(Connected).(writing := true);
            Step(s.(high := [Buffer(a, 0)]), EWrite([Moved(1)])) ==
              (s.(high := [Buffer(a, 1)], wire := a.bytes[..1]), Nothing)
  {
    hide Deliver, LowRound, CloseWrite, Finished;
    OneByte(a);
    var s := Begin(Connected).(writing := true);
    assert s.wire + a.bytes[..1] == a.bytes[..1] && s.sent + [] == s.sent;
  }

  /** An ordinary close decides that nothing is left to send while a worker is writing: what the descriptor does not
      take at once is lost. */
  lemma LostRest(a: Package)
    requires |a.bytes| >= 2
    ensures var run := Exec(Connected, [EDirectBegin(a), EClose(false), EDirectEnd(Moved(1)), EFinish]);
            && !run.failed && run.state.typ == Invalid
            && run.state.wire == a.bytes[..1] && run.state.lost == [Buffer(a, 1)]
  {
    hide Leads, Deliver, Write;
    var e1 := [EDirectBegin(a)];
    var e2, e3 := e1 + [EClose(false)], e1 + [EClose(false)] + [EDirectEnd(Moved(1))];
    var s := Begin(Connected);
    var s1, s2 := s.(locked := Some(a)), s.(locked := Some(a), shutting := Some(Close));
    var s3 := s.(dw := Some(Buffer(a, 1)), wire := a.bytes[..1], shutting := Some(Close), owes := 1);
    var s4 := s.(typ := Invalid, wire := a.bytes[..1], lost := [Buffer(a, 1)], owes := 1);
    Begins(Connected);
    assert [] + e1 == e1 && [] + a.bytes[..1] == a.bytes[..1];
    Goes(Connected, [], s, [], EDirectBegin(a), s1, Nothing);
    Goes(Connected, e1, s1, [] + [Nothing], EClose(false), s2, Dropped(false));
    Goes(Connected, e2, s2, [] + [Nothing] + [Dropped(false)], EDirectEnd(Moved(1)), s3, Wrote(1));
    assert [Buffer(a, 1)] + [] + [] == [Buffer(a, 1)];
    Goes(Connected, e3, s3, [] + [Nothing] + [Dropped(false)] + [Wrote(1)], EFinish, s4, Close);
    LeadsIs(Connected, e3 + [EFinish], s4, [] + [Nothing] + [Dropped(false)] + [Wrote(1)] + [Close]);
    assert e3 + [EFinish] == [EDirectBegin(a), EClose(false), EDirectEnd(Moved(1)), EFinish];
  }

  // ---------------------------------------------------------------- states of a run

  /** The event starts force_close without the lock. */
  predicate Forces(s: State, e: Event) {
    && s.shutting == None && s.typ != Invalid
    && match e
       case EClose(shutdown) => shutdown || NoMoreSending(s)
       case ERead(io) =>
         io == Moved(0) && s.typ != Connecting && (if s.closing then NoMoreSending(s) else s.typ == HalfCloseWrite)
       case EEof => s.typ != Connecting
       case EConnect(ok) => !ok && s.typ == Connecting
       case _ => false
  }

  predicate HeadBegun(s: State) { s.high != [] && s.high[0].off > 0 }

  /** A direct write ends that the descriptor has taken some of. */
  predicate WritesSome(s: State, e: Event) {
    e.EDirectEnd? && s.locked.Some? && Taken(e.io, |s.locked.value.bytes|) > 0
  }

  /** What every state of a run keeps. */
  ghost predicate Sane(s: State) {
    && (s.shutting.Some? ==> s.shutting.value in {Close, Err, Nothing})
    && (s.typ == Invalid ==> s.shutting == None && s.locked == None)
    && (s.past.Some? ==> s.typ == Invalid || s.shutting.Some?)
    && s.tickets >= 0 && s.sending == s.tickets + |InPipe(s.pipe)| + (if s.busy then 1 else 0)
  }

  /** What writing leaves alone. */
  predicate Alike(s: State, t: State) {
    && t.pipe == s.pipe && t.sending == s.sending && t.tickets == s.tickets && t.busy == s.busy && t.past == s.past
    && t.locked == s.locked && s.shutting == None && t.shutting == None
  }

  lemma CloseWriteAlike(s: State, t: State)
    requires Alike(s, t)
    ensures Alike(s, CloseWrite(t).0) && CloseWrite(t).1 in {Err, Nothing}
  {
  }

  lemma LowRoundAlike(s: State, t: State, io: seq<Io>)
    requires Alike(s, t)
    ensures Alike(s, Finished(LowRound(t, io).0)) && LowRound(t, io).1 in {Err, Nothing}
  {
    hide Deliver, LowUncomplete, CloseWrite;
    CloseWriteAlike(s, Delivered(t, false, Deliver(t.low, io)));
  }

  lemma WriteAlike(s: State, io: seq<Io>)
    requires s.shutting == None
    ensures Alike(s, Write(s, io).0) && Write(s, io).1 in {Err, Nothing, Blocked}
    ensures Write(s, io).0 == s || (s.locked == None && s.typ != Invalid)
  {
    hide Deliver, LowRound, CloseWrite, Finished;
    var t := Raised(s);
    var d := Deliver(t.high, io);
    CloseWriteAlike(s, Delivered(t, true, d));
    LowRoundAlike(s, Delivered(t, true, d), d.left);
  }

  /** force_close has begun, or is over. */
  predicate Going(s: State) { s.typ == Invalid || s.shutting.Some? }

  /** The socket has not gone into force_close without the lock. */
  predicate Undropped(rs: seq<Report>) { forall r :: r in rs ==> !r.Dropped? }

  lemma StepGoing(s: State, e: Event)
    requires Sane(s)
    ensures var (t, r) := Step(s, e); Going(s) || r.Dropped? ==> Going(t)
  {
    hide InPipe, Handle, WriteLists;
    if Others(e) {
    } else if s.shutting == None && !e.EHandle? && !e.EWrite? {
      hide Sane, NoMoreSending;
      CloseGoing(s, e);
    } else if s.shutting == None && e.EHandle? && s.pipe != [] {
      HandleType(s);
    } else if s.shutting == None && e.EWrite? {
      WriteAlike(s, e.results);
    }
  }

  lemma HandleType(s: State)
    requires s.pipe != []
    ensures Handle(s).typ == s.typ
  {
  }

  lemma CloseGoing(s: State, e: Event)
    requires s.shutting == None && !Others(e) && !e.EHandle? && !e.EWrite?
    ensures var (t, r) := ByThread(s, e); Going(s) || r.Dropped? ==> Going(t)
  {
    hide NoMoreSending, Write, Handle;
  }

  lemma WriteKeeps(s: State, io: seq<Io>)
    requires Sane(s) && s.shutting == None
    ensures Sane(Write(s, io).0) && Alike(s, Write(s, io).0) && Write(s, io).1 in {Err, Nothing, Blocked}
  {
    hide InPipe, Write;
    WriteAlike(s, io);
  }

  lemma HandleKeeps(s: State)
    requires Sane(s) && s.shutting == None && s.pipe != [] && !s.busy
    ensures Sane(Handle(s)) && Handle(s).past == s.past && Handle(s).shutting == None
  {
  }

  lemma CloseKeeps(s: State, e: Event)
    requires Sane(s) && s.shutting == None && !e.EHandle? && !e.EWrite?
    ensures var (t, r) := ByThread(s, e);
            && Sane(t) && t.pipe == s.pipe && !r.Wrote? && (s.past.Some? || r == Dropped(true) ==> t.past.Some?)
            && (r == Dropped(true) <==> Forces(s, e) && HeadBegun(s))
  {
    hide InPipe, Write, Handle;
  }

  lemma ThreadSane(s: State, e: Event)
    requires Sane(s) && s.shutting == None
    ensures var (t, r) := ByThread(s, e);
            && Sane(t) && !r.Wrote? && (s.past.Some? || r == Dropped(true) ==> t.past.Some?)
            && (r == Dropped(true) <==> Forces(s, e) && HeadBegun(s))
  {
    if e.EWrite? {
      hide Sane, Write, Handle;
      WriteKeeps(s, e.results);
    } else if e.EHandle? {
      hide Sane, Write, Handle;
      if s.pipe != [] && !s.busy { HandleKeeps(s); }
    } else {
      hide Sane, ByThread, Forces;
      CloseKeeps(s, e);
    }
  }

  lemma FinishSane(s: State)
    requires Sane(s)
    ensures Sane(Finish(s).0) && Finish(s).0.past == s.past && Finish(s).1 in {Nothing, Blocked, Close, Err}
  {
    hide InPipe;
  }

  lemma AskSane(s: State)
    requires Sane(s)
    ensures Sane(Ask(s)) && Ask(s).past == s.past
  {
    hide InPipe;
    InPipeJoin(s.pipe, [Trigger]);
    InPipeOne(Trigger);
  }

  lemma EnqueueSane(s: State, p: Package)
    requires Sane(s) && s.tickets > 0
    ensures Sane(Enqueue(s, p)) && Enqueue(s, p).past == s.past
  {
    hide InPipe;
    InPipeJoin(s.pipe, [Send(p)]);
    InPipeOne(Send(p));
  }

  lemma DirectSane(s: State, p: Package, n: nat)
    requires Sane(s)
    ensures Sane(DirectBegin(s, p)) && DirectBegin(s, p).past == s.past
    ensures s.locked.Some? && n <= |s.locked.value.bytes| ==> Sane(DirectEnd(s, n)) && DirectEnd(s, n).past == s.past
  {
    hide InPipe;
  }

  lemma OtherSane(s: State, e: Event)
    requires Sane(s) && Others(e)
    ensures var (t, r) := ByOthers(s, e);
            && Sane(t) && !r.Dropped? && (s.past.Some? ==> t.past.Some?)
            && (r.Wrote? && r.n > 0 <==> WritesSome(s, e))
            && (r.Wrote? && r.n > 0 && s.past.Some? ==> s.shutting.Some?)
  {
    hide InPipe, Finish, DirectBegin, DirectEnd, Ask, Enqueue;
    match e {
      case EDirectBegin(p) => DirectSane(s, p, 0);
      case EDirectEnd(io) =>
        if s.locked.Some? { DirectSane(s, s.locked.value, Taken(io, |s.locked.value.bytes|)); }
      case ETrigger => AskSane(s);
      case ECount =>
      case ESend(p) => if s.tickets > 0 { EnqueueSane(s, p); }
      case EFinish => FinishSane(s);
    }
  }

  lemma StepSane(s: State, e: Event)
    requires Sane(s)
    ensures var (t, r) := Step(s, e);
            && Sane(t) && (s.past.Some? || r == Dropped(true) ==> t.past.Some?)
            && (r == Dropped(true) <==> Forces(s, e) && HeadBegun(s))
            && (r.Wrote? && r.n > 0 <==> WritesSome(s, e))
            && (r.Wrote? && r.n > 0 && s.past.Some? ==> s.shutting.Some?)
  {
    hide Sane, ByThread, ByOthers;
    if Others(e) {
      OtherSane(s, e);
    } else if s.shutting == None {
      ThreadSane(s, e);
    }
  }

  /** The state before event i of a run. */
  function Before(start: Type, es: seq<Event>, i: nat): State
    requires i <= |es|
  {
    Exec(start, es[..i]).state
  }

  lemma {:induction false} RunSane(start: Type, es: seq<Event>, i: nat)
    requires start != Invalid && i <= |es|
    ensures var run := Exec(start, es[..i]);
            && |run.reports| <= i && (run.failed <==> |run.reports| < i) && Sane(run.state)
            && (Dropped(true) in run.reports ==> run.state.past.Some?)
            && (Undropped(run.reports) || Going(run.state))
  {
    hide Sane, Step, Fails, Going;
    if i == 0 {
      assert es[..0] == [];
      StartSane(start);
    } else {
      RunSane(start, es, i - 1);
      ExecStep(start, es, i - 1);
      StepSane(Before(start, es, i - 1), es[i - 1]);
      StepGoing(Before(start, es, i - 1), es[i - 1]);
    }
  }

  lemma StartSane(start: Type)
    requires start != Invalid
    ensures Sane(Begin(start))
  {
  }

  /** The reports of a run are those of its steps. */
  lemma {:induction false} ReportIs(start: Type, es: seq<Event>, n: nat, i: nat)
    requires start != Invalid && n <= |es| && i < |Exec(start, es[..n]).reports|
    ensures i < n && !Exec(start, es[..i]).failed && !Fails(Before(start, es, i), es[i])
    ensures Exec(start, es[..n]).reports[i] == Step(Before(start, es, i), es[i]).1
    ensures Exec(start, es[..i]).reports == Exec(start, es[..n]).reports[..i]
    decreases n
  {
    hide Step, Fails, Exec;
    RunSane(start, es, n);
    if n == 0 {
      assert false;
    } else {
      RunSane(start, es, n - 1);
      ExecStep(start, es, n - 1);
      var pre := Exec(start, es[..n - 1]);
      if i < |pre.reports| {
        ReportIs(start, es, n - 1, i);
      }
    }
  }

  /** force_close starts while the head of the high list is begun, and a direct write puts bytes on the wire before
      force_close has the lock. */
  ghost predicate Overrun(start: Type, es: seq<Event>) {
    exists i, j :: 0 <= i < j < |Exec(start, es).reports| <= |es| && Starts(start, es, i) && Passes(start, es, j)
  }

  predicate Starts(start: Type, es: seq<Event>, i: nat)
    requires i < |es|
  {
    Forces(Before(start, es, i), es[i]) && HeadBegun(Before(start, es, i))
  }

  predicate Passes(start: Type, es: seq<Event>, j: nat)
    requires j < |es|
  {
    Before(start, es, j).shutting.Some? && WritesSome(Before(start, es, j), es[j])
  }

  lemma StartsIff(start: Type, es: seq<Event>, i: nat)
    requires start != Invalid && |Exec(start, es).reports| <= |es| && i < |Exec(start, es).reports|
    ensures var rs := Exec(start, es).reports;
            && (rs[i] == Dropped(true) <==> Starts(start, es, i))
            && (rs[i].Wrote? && rs[i].n > 0 <==> WritesSome(Before(start, es, i), es[i]))
            && (rs[i].Wrote? && rs[i].n > 0 && Dropped(true) in rs[..i] ==> Before(start, es, i).shutting.Some?)
  {
    hide Step, Fails, Exec, Forces, HeadBegun, WritesSome, Sane;
    assert es[..|es|] == es;
    ReportIs(start, es, |es|, i);
    RunSane(start, es, i);
    StepSane(Before(start, es, i), es[i]);
  }

  /** The condition of Torn in terms of the states before the events. */
  lemma TornIff(start: Type, es: seq<Event>)
    requires start != Invalid
    ensures Torn(Exec(start, es).reports) <==> Overrun(start, es)
  {
    hide Exec, Starts, WritesSome, Before;
    var rs := Exec(start, es).reports;
    assert es[..|es|] == es;
    RunSane(start, es, |es|);
    forall i | 0 <= i < |rs|
      ensures rs[i] == Dropped(true) <==> Starts(start, es, i)
      ensures rs[i].Wrote? && rs[i].n > 0 <==> WritesSome(Before(start, es, i), es[i])
      ensures rs[i].Wrote? && rs[i].n > 0 && Dropped(true) in rs[..i] ==> Before(start, es, i).shutting.Some?
    {
      StartsIff(start, es, i);
    }
    if Torn(rs) {
      var i, j :| 0 <= i < j < |rs| && rs[i] == Dropped(true) && rs[j].Wrote? && rs[j].n > 0;
      assert rs[..j][i] == Dropped(true);
      assert Starts(start, es, i) && Passes(start, es, j);
    }
  }

  // ---------------------------------------------------------------- what a close loses

  /** The state that some events lead to. */
  function Steps(s: State, es: seq<Event>): State {
    if es == [] then s else Step(Steps(s, es[..|es| - 1]), es[|es| - 1]).0
  }

  /** A worker's direct write ends and the descriptor has not taken all of the package. */
  predicate Cuts(s: State, e: Event) {
    e.EDirectEnd? && s.locked.Some? && Taken(e.io, |s.locked.value.bytes|) < |s.locked.value.bytes|
  }

  ghost predicate SomeCut(s: State, es: seq<Event>) {
    exists i :: 0 <= i < |es| && Cuts(Steps(s, es[..i]), es[i])
  }

  /** What holds between the two halves of force_close; `rest` when a direct write has left something. */
  ghost predicate Between(s: State, t: State, rest: bool) {
    && t.typ == s.typ && t.shutting == s.shutting && s.shutting.Some? && t.high == [] && t.low == []
    && (t.locked.Some? ==> t.dw == None) && (t.dw.Some? <==> rest)
  }

  lemma BetweenStep(s: State, t: State, rest: bool, e: Event)
    requires Between(s, t, rest) && s.typ != Invalid && !e.EFinish?
    ensures Between(s, Step(t, e).0, rest || Cuts(t, e))
  {
  }

  lemma {:induction false} BetweenSteps(s: State, es: seq<Event>)
    requires Between(s, s, s.dw.Some?) && s.typ != Invalid && EFinish !in es
    ensures Between(s, Steps(s, es), s.dw.Some? || SomeCut(s, es))
  {
    hide Between, Cuts, Step, SomeCut;
    CutLast(s, es);
    if es != [] {
      var pre := es[..|es| - 1];
      BetweenSteps(s, pre);
      BetweenStep(s, Steps(s, pre), s.dw.Some? || SomeCut(s, pre), es[|es| - 1]);
    }
  }

  lemma CutLast(s: State, es: seq<Event>)
    ensures SomeCut(s, es) <==>
              es != [] && (SomeCut(s, es[..|es| - 1]) || Cuts(Steps(s, es[..|es| - 1]), es[|es| - 1]))
  {
    hide Steps, Cuts;
    if es != [] {
      var n := |es| - 1;
      assert forall i :: 0 <= i < n ==> es[..i] == es[..n][..i] && es[i] == es[..n][i];
    }
  }

  /** A force_close that does not hold the lock, whatever happens before it gets it: what the lists held is dropped,
      and besides that something is lost exactly when a direct write had left a rest at the start or leaves one before
      the lock is taken. */
  lemma DropLoses(s: State, r: Report, es: seq<Event>)
    requires s.typ != Invalid && (s.locked.Some? ==> s.dw == None) && EFinish !in es
    ensures var c := Drop(s, r).0;
            var t := Steps(c, es);
            && t.typ == s.typ && t.high == [] && t.low == []
            && (t.dw.Some? <==> s.dw.Some? || SomeCut(c, es))
            && (t.locked == None ==>
                  var end := Finish(t).0;
                  end.typ == Invalid && (end.lost == [] <==> s.dw == None && !SomeCut(c, es)))
  {
    hide SomeCut, Steps;
    BetweenSteps(Drop(s, r).0, es);
  }

  /** An ordinary close that finds nothing left to send loses data exactly when a worker's direct write ends before the
      lock is taken and the descriptor does not take all of it. */
  lemma LostIff(s: State, es: seq<Event>)
    requires s.typ != Invalid && s.typ != HalfCloseWrite && s.shutting == None && NoMoreSending(s) && EFinish !in es
    ensures s.high == s.low == [] && s.dw == None
    ensures var c := CloseCall(s, false).0;
            var t := Steps(c, es);
            && t.high == [] && t.low == [] && (t.dw.Some? <==> SomeCut(c, es))
            && (t.locked == None ==>
                  Finish(t).0.typ == Invalid && (Finish(t).0.lost == [] <==> !SomeCut(c, es)))
  {
    hide SomeCut, Steps, Finish;
    DropLoses(s, Farewell(s), es);
  }

  /** Nothing is lost when no direct write is under way at the close and none begins before the lock is taken. */
  lemma {:induction false} NoneLost(s: State, es: seq<Event>)
    requires s.typ != Invalid && s.typ != HalfCloseWrite && s.shutting == None && NoMoreSending(s) && s.locked == None
    requires forall e :: e in es ==> !e.EFinish? && !e.EDirectBegin?
    ensures var t := Steps(CloseCall(s, false).0, es);
            t.locked == None && Finish(t).0.typ == Invalid && Finish(t).0.lost == []
  {
    hide Step, Finish, CloseCall, NoMoreSending;
    var c := CloseCall(s, false).0;
    LostIff(s, es);
    CloseKeepsLock(s);
    forall i | 0 <= i <= |es| ensures Steps(c, es[..i]).locked == None {
      Unlocked(c, es[..i]);
    }
    assert es[..|es|] == es;
  }

  lemma CloseKeepsLock(s: State)
    requires s.typ != Invalid && NoMoreSending(s)
    ensures CloseCall(s, false).0.locked == s.locked && CloseCall(s, false).0.shutting.Some?
  {
  }

  lemma {:induction false} Unlocked(s: State, es: seq<Event>)
    requires s.locked == None && s.shutting.Some? && forall e :: e in es ==> !e.EDirectBegin? && !e.EFinish?
    ensures Steps(s, es).locked == None && Steps(s, es).shutting.Some?
  {
    hide Step;
    if es != [] {
      Unlocked(s, es[..|es| - 1]);
      StepUnlocked(Steps(s, es[..|es| - 1]), es[|es| - 1]);
    }
  }

  lemma StepUnlocked(s: State, e: Event)
    requires s.locked == None && s.shutting.Some? && !e.EDirectBegin? && !e.EFinish?
    ensures Step(s, e).0.locked == None && Step(s, e).0.shutting.Some?
  {
    hide ByThread;
  }

  // ---------------------------------------------------------------- nothing gets lost on the way

  /** The package that a worker gets through: it is written directly or put into the pipe. */
  function Enters(s: State, e: Event): seq<Package> {
    match e
    case EDirectBegin(p) => if s.locked == None && NoMoreSending(s) && s.typ == Connected then [p] else []
    case ESend(p) => if s.tickets > 0 then [p] else []
    case _ => []
  }

  /** The package that the socket thread takes out of the pipe. */
  function Leaves(s: State, e: Event): seq<Package> {
    if e.EHandle? && s.shutting == None && s.pipe != [] && !s.busy && s.pipe[0].Send? then [s.pipe[0].pkg] else []
  }

  /** The package that is written directly or joins a list. */
  function Accepts(s: State, e: Event): seq<Package> {
    if e.EDirectBegin? then Enters(s, e) else if Refuses(s) then [] else Leaves(s, e)
  }

  /** The package that is freed because the socket takes no more. */
  function Frees(s: State, e: Event): seq<Package> { if Refuses(s) then Leaves(s, e) else [] }

  /** What the events of a run contribute, in order. */
  function Gather(f: (State, Event) -> seq<Package>, start: Type, es: seq<Event>): seq<Package> {
    if es == [] then []
    else
      var pre, e := Exec(start, es[..|es| - 1]), es[|es| - 1];
      Gather(f, start, es[..|es| - 1]) + (if pre.failed || Fails(pre.state, e) then [] else f(pre.state, e))
  }

  lemma GatherStep(f: (State, Event) -> seq<Package>, start: Type, es: seq<Event>, n: nat)
    requires n < |es|
    ensures var pre := Exec(start, es[..n]);
            Gather(f, start, es[..n + 1]) ==
              Gather(f, start, es[..n]) + (if pre.failed || Fails(pre.state, es[n]) then [] else f(pre.state, es[n]))
  {
    hide Exec, Fails;
    assert es[..n + 1][..n] == es[..n];
  }

  lemma PipeStep(s: State, e: Event)
    requires Sane(s)
    ensures InPipe(s.pipe) + Enters(s, e) == Accepts(s, e) + Frees(s, e) + InPipe(Step(s, e).0.pipe)
    ensures e.EDirectBegin? && Enters(s, e) != [] ==> InPipe(s.pipe) == []
  {
    hide Sane, InPipe, Write, CloseCall, Read, Eof, Connect, Resume;
    SanePipe(s, e);
    if e.EHandle? {
      HandlePipe(s, e);
    } else if e.ESend? {
      InPipeJoin(s.pipe, [Send(e.pkg)]);
      InPipeOne(Send(e.pkg));
    } else if e.ETrigger? {
      InPipeJoin(s.pipe, [Trigger]);
      InPipeOne(Trigger);
    }
  }

  /** A direct write begins only when the pipe holds no package; closing and writing do not touch the pipe. */
  lemma SanePipe(s: State, e: Event)
    requires Sane(s)
    ensures e.EDirectBegin? && Enters(s, e) != [] ==> InPipe(s.pipe) == []
    ensures s.shutting == None && !Others(e) && !e.EHandle? ==> Step(s, e).0.pipe == s.pipe
  {
    hide InPipe, Write, ByThread, ByOthers;
    if s.shutting == None && !Others(e) && !e.EHandle? {
      if e.EWrite? { ByWrite(s, e.results); WriteKeeps(s, e.results); } else { CloseKeeps(s, e); }
    }
  }

  lemma ByWrite(s: State, io: seq<Io>)
    ensures ByThread(s, EWrite(io)) == Write(s, io)
  {
  }

  lemma HandlePipe(s: State, e: Event)
    requires e.EHandle?
    ensures InPipe(s.pipe) == Accepts(s, e) + Frees(s, e) + InPipe(Step(s, e).0.pipe)
  {
    hide Write, CloseCall, Read, Eof, Connect, Resume, Refuses;
    if s.pipe != [] { PipeTail(s); }
  }

  lemma PipeTail(s: State)
    requires s.pipe != []
    ensures Handle(s).pipe == s.pipe[1..]
    ensures InPipe(s.pipe) == (if s.pipe[0].Send? then [s.pipe[0].pkg] else []) + InPipe(s.pipe[1..])
  {
  }

  /** What came in is accepted, freed or in the pipe, each package once; as long as none was freed, in this order. */
  ghost predicate Balanced(through: seq<Package>, accepted: seq<Package>, freed: seq<Package>, pipe: seq<Package>) {
    && multiset(through) == multiset(accepted) + multiset(freed) + multiset(pipe)
    && (freed == [] ==> through == accepted + pipe)
  }

  /** In every run, what workers get through is accepted, freed or still in the pipe. */
  lemma {:induction false} Conserved(start: Type, es: seq<Event>, n: nat)
    requires start != Invalid && n <= |es|
    ensures Balanced(Gather(Enters, start, es[..n]), Gather(Accepts, start, es[..n]), Gather(Frees, start, es[..n]),
                     InPipe(Exec(start, es[..n]).state.pipe))
  {
    hide Sane, Step, Fails, Exec, Enters, Accepts, Frees, InPipe, Gather, Balanced;
    if n == 0 {
      assert es[..0] == [];
      ConservedStart(start);
    } else {
      var m := n - 1;
      Conserved(start, es, m);
      GatherStep(Enters, start, es, m);
      GatherStep(Accepts, start, es, m);
      GatherStep(Frees, start, es, m);
      ExecStep(start, es, m);
      RunSane(start, es, m);
      var through, accepted, freed := Gather(Enters, start, es[..m]), Gather(Accepts, start, es[..m]),
                                      Gather(Frees, start, es[..m]);
      var pre, e := Exec(start, es[..m]), es[m];
      if pre.failed || Fails(pre.state, e) {
        assert through + [] == through && accepted + [] == accepted && freed + [] == freed;
      } else {
        var s := pre.state;
        PipeStep(s, e);
        BalancedStep(through, accepted, freed, InPipe(s.pipe), Enters(s, e), Accepts(s, e), Frees(s, e),
                     InPipe(Step(s, e).0.pipe));
      }
    }
  }

  lemma ConservedStart(start: Type)
    ensures Balanced(Gather(Enters, start, []), Gather(Accepts, start, []), Gather(Frees, start, []),
                     InPipe(Exec(start, []).state.pipe))
  {
  }

  lemma BalancedStep(through: seq<Package>, accepted: seq<Package>, freed: seq<Package>, pipe: seq<Package>,
                     enters: seq<Package>, accepts: seq<Package>, frees: seq<Package>, pipe': seq<Package>)
    requires Balanced(through, accepted, freed, pipe) && pipe + enters == accepts + frees + pipe'
    ensures Balanced(through + enters, accepted + accepts, freed + frees, pipe')
  {
    assert multiset(pipe) + multiset(enters) == multiset(accepts) + multiset(frees) + multiset(pipe') by {
      assert multiset(pipe + enters) == multiset(pipe) + multiset(enters);
      assert multiset(accepts + frees + pipe') == multiset(accepts) + multiset(frees) + multiset(pipe');
    }
    assert multiset(through + enters) == multiset(through) + multiset(enters);
    assert multiset(accepted + accepts) == multiset(accepted) + multiset(accepts);
    assert multiset(freed + frees) == multiset(freed) + multiset(frees);
    assert multiset(through) + multiset(enters)
        == multiset(accepted) + multiset(freed) + (multiset(pipe) + multiset(enters));
    if freed + frees == [] {
      assert freed == [] && frees == [];
      assert (accepted + pipe) + enters == accepted + (pipe + enters);
      assert accepts + frees + pipe' == accepts + pipe';
      assert accepted + (accepts + pipe') == (accepted + accepts) + pipe';
    }
  }
}
