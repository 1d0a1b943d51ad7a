/**
What a section of the socket thread means for the peer and for the service, in terms of bytes, packages and reports,
whatever way it is computed: write events, priorities, closing, and when write events are asked for.
*/
module TcpLaws {
  import opened Basics
  import opened TcpLists
  import opened TcpSpec
  import opened TcpRuns

  // ---------------------------------------------------------------- the bytes that are left

  function Left(b: Buffer): seq<Byte> { if b.off <= |b.pkg.bytes| then b.pkg.bytes[b.off..] else [] }

  /** What a list of buffers still has to put on the wire. */
  function Stream(l: seq<Buffer>): seq<Byte> {
    if l == [] then [] else Left(l[0]) + Stream(l[1..])
  }

  lemma {:induction false} StreamJoin(a: seq<Buffer>, b: seq<Buffer>)
    ensures Stream(a + b) == Stream(a) + Stream(b)
  {
    if a == [] {
      assert a + b == b;
    } else {
      assert (a + b)[1..] == a[1..] + b;
      StreamJoin(a[1..], b);
    }
  }

  /** A round of writes puts the beginning of the stream on the wire, and the beginning of the packages. */
  lemma {:induction false} DeliverKeeps(l: seq<Buffer>, io: seq<Io>)
    ensures Keeps(l, Deliver(l, io))
    decreases |io|
  {
    hide Keeps, Part, Taken;
    if l == [] || io == [] || io[0] == Again || io[0] == Failed {
      NoneKeeps(l, Deliver(l, io));
    } else if io[0] == Interrupted {
      DeliverKeeps(l, io[1..]);
    } else {
      var n := Taken(io[0], Room(l[0]));
      if n < Room(l[0]) {
        ShortKeeps(l, n, io[1..]);
      } else {
        DeliverKeeps(l[1..], io[1..]);
        WholeKeeps(l, n, Deliver(l[1..], io[1..]));
      }
    }
  }

  ghost predicate Keeps(l: seq<Buffer>, d: Delivery) {
    d.out + Stream(d.rest) == Stream(l) && d.done + Packages(d.rest) == Packages(l)
  }

  lemma NoneKeeps(l: seq<Buffer>, d: Delivery)
    requires d.rest == l && d.out == [] && d.done == []
    ensures Keeps(l, d)
  {
    assert [] + Stream(l) == Stream(l) && [] + Packages(l) == Packages(l);
  }

  lemma WholeKeeps(l: seq<Buffer>, n: nat, d: Delivery)
    requires l != [] && n == Room(l[0]) && Keeps(l[1..], d)
    ensures Keeps(l, Then(Part(l[0], n), [l[0].pkg], d))
  {
    hide Part, Left, Stream, Packages;
    HeadKeeps(l[0], n);
    FirstOf(l);
    assert Part(l[0], n) + d.out + Stream(d.rest) == Part(l[0], n) + (d.out + Stream(d.rest));
    assert [l[0].pkg] + d.done + Packages(d.rest) == [l[0].pkg] + (d.done + Packages(d.rest));
  }

  lemma FirstOf(l: seq<Buffer>)
    requires l != []
    ensures Stream(l) == Left(l[0]) + Stream(l[1..]) && Packages(l) == [l[0].pkg] + Packages(l[1..])
  {
  }

  lemma HeadKeeps(b: Buffer, n: nat)
    requires n <= Room(b)
    ensures Part(b, n) + Left(Buffer(b.pkg, b.off + n)) == Left(b)
    ensures n == Room(b) ==> Part(b, n) == Left(b)
  {
  }

  lemma ShortKeeps(l: seq<Buffer>, n: nat, left: seq<Io>)
    requires l != [] && n < Room(l[0])
    ensures Keeps(l, Delivery([Buffer(l[0].pkg, l[0].off + n)] + l[1..], Part(l[0], n), [], left, NoRoom))
  {
    hide Part, Left;
    HeadKeeps(l[0], n);
    var b := Buffer(l[0].pkg, l[0].off + n);
    assert ([b] + l[1..])[1..] == l[1..];
    assert Stream([b] + l[1..]) == Left(b) + Stream(l[1..]) && Packages([b] + l[1..]) == Packages(l);
    assert Part(l[0], n) + (Left(b) + Stream(l[1..])) == Part(l[0], n) + Left(b) + Stream(l[1..]);
    assert [] + Packages(l) == Packages(l);
  }

  /** Every write takes the whole of its buffer. */
  predicate Whole(l: seq<Buffer>, io: seq<Io>) {
    |l| <= |io| && forall i :: 0 <= i < |l| ==> io[i].Moved? && io[i].n >= Room(l[i])
  }

  lemma {:induction false} DeliverWhole(l: seq<Buffer>, io: seq<Io>)
    requires Whole(l, io)
    ensures Deliver(l, io) == Delivery([], Stream(l), Packages(l), io[|l|..], Emptied)
  {
    if l != [] {
      HeadKeeps(l[0], Room(l[0]));
      DeliverWhole(l[1..], io[1..]);
      assert io[1..][|l[1..]|..] == io[|l|..];
    } else {
      assert io[0..] == io;
    }
  }

  // ---------------------------------------------------------------- a write event

  /** More was written of what was pending. */
  ghost predicate Further<T(!new)>(done: seq<T>, todo: seq<T>, done': seq<T>, todo': seq<T>) {
    done <= done' && done'[|done|..] + todo' == todo
  }

  lemma FurtherBy<T(!new)>(done: seq<T>, todo: seq<T>, more: seq<T>, todo': seq<T>)
    requires more + todo' == todo
    ensures Further(done, todo, done + more, todo')
  {
    assert (done + more)[|done|..] == more;
  }

  lemma FurtherThen<T(!new)>(d0: seq<T>, t0: seq<T>, d1: seq<T>, t1: seq<T>, d2: seq<T>, t2: seq<T>)
    requires Further(d0, t0, d1, t1) && Further(d1, t1, d2, t2)
    ensures Further(d0, t0, d2, t2)
  {
    var a, b := d1[|d0|..], d2[|d1|..];
    assert d2[|d0|..] == a + b;
    assert (a + b) + t2 == a + (b + t2);
  }

  /** From s to t the beginning of what was pending goes out, and the rest stays pending. */
  ghost predicate Continues(s: State, t: State) {
    && Further(s.wire, Stream(Pending(s)), t.wire, Stream(Pending(t)))
    && Further(s.sent, Packages(Pending(s)), t.sent, Packages(Pending(t)))
  }

  lemma ContinuesBy(s: State, t: State, out: seq<Byte>, done: seq<Package>)
    requires t.wire == s.wire + out && t.sent == s.sent + done
    requires out + Stream(Pending(t)) == Stream(Pending(s)) && done + Packages(Pending(t)) == Packages(Pending(s))
    ensures Continues(s, t)
  {
    hide Further, Stream, Packages, Pending;
    FurtherBy(s.wire, Stream(Pending(s)), out, Stream(Pending(t)));
    FurtherBy(s.sent, Packages(Pending(s)), done, Packages(Pending(t)));
  }

  lemma ContinuesSame(s: State, t: State, u: State)
    requires Continues(s, t) && u.wire == t.wire && u.sent == t.sent && Pending(u) == Pending(t)
    ensures Continues(s, u)
  {
  }

  lemma ContinuesThen(s: State, t: State, u: State)
    requires Continues(s, t) && Continues(t, u)
    ensures Continues(s, u)
  {
    hide Further, Stream, Packages, Pending;
    FurtherThen(s.wire, Stream(Pending(s)), t.wire, Stream(Pending(t)), u.wire, Stream(Pending(u)));
    FurtherThen(s.sent, Packages(Pending(s)), t.sent, Packages(Pending(t)), u.sent, Packages(Pending(u)));
  }

  /** One list of two, or the only one. */
  lemma RoundContinues(s: State, onHigh: bool, io: seq<Io>)
    requires s.typ != Invalid && s.locked == None && s.dw == None && (onHigh || s.high == [])
    ensures var t := Delivered(s, onHigh, Deliver(if onHigh then s.high else s.low, io));
            Continues(s, t) && t.typ == s.typ && t.locked == None && t.dw == None
  {
    hide Deliver, Stream, Packages, Continues;
    var l := if onHigh then s.high else s.low;
    var d := Deliver(l, io);
    var t := Delivered(s, onHigh, d);
    DeliverKeeps(l, io);
    assert d.out + Stream(d.rest) == Stream(l) && d.done + Packages(d.rest) == Packages(l);
    assert Pending(s) == s.high + s.low && Pending(t) == t.high + t.low;
    StreamJoin(s.high, s.low);
    StreamJoin(t.high, t.low);
    PackagesJoin(s.high, s.low);
    PackagesJoin(t.high, t.low);
    if onHigh {
      assert d.out + (Stream(d.rest) + Stream(s.low)) == (d.out + Stream(d.rest)) + Stream(s.low);
      assert d.done + (Packages(d.rest) + Packages(s.low)) == (d.done + Packages(d.rest)) + Packages(s.low);
    } else {
      assert s.high + s.low == s.low && t.high + t.low == t.low;
    }
    ContinuesBy(s, t, d.out, d.done);
  }

  lemma SamePending(s: State)
    requires s.typ != Invalid && s.locked == None
    ensures s.dw == None ==> Pending(CloseWrite(s).0) == Pending(s)
    ensures CloseWrite(s).0.wire == s.wire && CloseWrite(s).0.sent == s.sent
    ensures Pending(Finished(s)) == Pending(s) && Finished(s).wire == s.wire && Finished(s).sent == s.sent
    ensures Pending(Raised(s)) == Pending(s) && Raised(s).wire == s.wire && Raised(s).sent == s.sent
    ensures s.high == [] && s.low != [] ==> Pending(s.(high := [s.low[0]], low := s.low[1..])) == Pending(s)
  {
    assert FrontOf(s.locked, s.dw) + s.high + s.low == [] + (FrontOf(s.locked, s.dw) + s.high) + s.low;
    if s.high == [] && s.low != [] {
      assert FrontOf(s.locked, s.dw) + [s.low[0]] + s.low[1..] == FrontOf(s.locked, s.dw) + [] + s.low;
    }
  }

  /** What was not pending before is not pending afterwards, what was is on the wire or pending, and in order: whatever
      the results of write are. */
  lemma WriteContinues(s: State, io: seq<Io>)
    requires s.shutting == None && s.typ != Invalid && s.locked == None
    ensures Continues(s, Step(s, EWrite(io)).0)
  {
    hide Continues, Deliver, Stream, Packages, Pending, Raised, CloseWrite, Finished, LowRound;
    SamePending(s);
    Itself(s);
    var s0 := Raised(s);
    ContinuesSame(s, s, s0);
    RaisedIs(s);
    RoundContinues(s0, true, io);
    var d := Deliver(s0.high, io);
    var t := Delivered(s0, true, d);
    ContinuesThen(s, s0, t);
    SamePending(t);
    if d.stop == Failure {
      ContinuesSame(s, t, CloseWrite(t).0);
    } else if t.high == [] {
      LowContinues(t, d.left);
      ContinuesThen(s, t, Finished(LowRound(t, d.left).0));
    }
  }

  lemma Itself(s: State)
    ensures Continues(s, s)
  {
    ContinuesBy(s, s, [], []);
  }

  lemma RaisedIs(s: State)
    requires s.locked == None
    ensures Raised(s).dw == None && Raised(s).locked == None && Raised(s).typ == s.typ
  {
  }

  lemma LowContinues(s: State, io: seq<Io>)
    requires s.typ != Invalid && s.locked == None && s.dw == None && s.high == []
    ensures Continues(s, Finished(LowRound(s, io).0))
  {
    hide Continues, Deliver, Stream, Packages, Pending, CloseWrite, Finished;
    RoundContinues(s, false, io);
    var d := Deliver(s.low, io);
    var t := Delivered(s, false, d);
    SamePending(t);
    if d.stop == Failure {
      Closed(t);
      ContinuesSame(s, t, Finished(CloseWrite(t).0));
    } else {
      var u := if LowUncomplete(t) then t.(high := [t.low[0]], low := t.low[1..]) else t;
      ContinuesSame(s, t, u);
      SamePending(u);
      ContinuesSame(s, u, Finished(u));
    }
  }

  /** A failure leaves something pending. */
  lemma Closed(s: State)
    requires s.typ != Invalid && s.locked == None
    ensures var t := CloseWrite(s).0;
            Pending(Finished(t)) == Pending(t) && Finished(t).wire == t.wire && Finished(t).sent == t.sent
  {
    if CloseWrite(s).0.typ != Invalid { SamePending(CloseWrite(s).0); }
  }

  lemma {:induction false} WholeSplit(a: seq<Buffer>, b: seq<Buffer>, io: seq<Io>)
    requires Whole(a + b, io)
    ensures Whole(a, io) && Whole(b, io[|a|..])
  {
    var l := a + b;
    assert forall i :: 0 <= i < |a| ==> l[i] == a[i];
    assert forall i :: 0 <= i < |b| ==> l[|a| + i] == b[i];
  }

  lemma RaisedPending(s: State)
    requires s.typ != Invalid && s.locked == None
    ensures Pending(s) == Raised(s).high + s.low && Raised(s).low == s.low
    ensures Raised(s) == s.(high := Raised(s).high, dw := None)
  {
    assert [] + s.high == s.high;
  }

  /** When the descriptor takes every buffer whole, everything pending goes out, high list before low list, and nothing
      is pending afterwards; a closing socket is then closed without a loss. */
  lemma AllTaken(s: State, io: seq<Io>)
    requires s.shutting == None && s.typ != Invalid && s.locked == None && Whole(Pending(s), io)
    ensures var (t, r) := Step(s, EWrite(io));
            && t.high == [] && t.low == [] && t.dw == None && r == Nothing
            && t.wire == s.wire + Stream(Pending(s)) && t.sent == s.sent + Packages(Pending(s))
            && t.typ == (if s.closing then Invalid else s.typ) && Pending(t) == []
            && (!s.closing ==> !t.writing)
  {
    hide Deliver, Stream, Packages, Whole, Pending, Raised;
    RaisedPending(s);
    var s0 := Raised(s);
    WholeSplit(s0.high, s0.low, io);
    DeliverWhole(s0.high, io);
    DeliverWhole(s0.low, io[|s0.high|..]);
    StreamJoin(s0.high, s0.low);
    PackagesJoin(s0.high, s0.low);
    var t := Step(s, EWrite(io)).0;
    assert t.wire == s.wire + Stream(s0.high) + Stream(s0.low);
    assert t.sent == s.sent + Packages(s0.high) + Packages(s0.low);
    NonePending(t);
  }

  lemma NonePending(t: State)
    requires t.high == [] && t.low == [] && t.dw == None && t.locked == None && (t.typ == Invalid ==> t.lost == [])
    ensures Pending(t) == []
  {
  }

  lemma DeliverFirst(l: seq<Buffer>, io: seq<Io>)
    requires l != [] && io != [] && io[0].Moved?
    ensures Part(l[0], Taken(io[0], Room(l[0]))) <= Deliver(l, io).out
  {
  }

  /** A write event that is not blocked puts the next bytes of what is pending on the wire, as many as the first write
      takes. */
  lemma FirstBytes(s: State, io: seq<Io>)
    requires s.shutting == None && s.typ != Invalid && s.locked == None && Pending(s) != []
    requires io != [] && io[0].Moved?
    ensures s.wire + Part(Pending(s)[0], Taken(io[0], Room(Pending(s)[0]))) <= Step(s, EWrite(io)).0.wire
  {
    hide Deliver, Stream, Packages, Continues, Pending, Raised, Finished, LowRound, CloseWrite, Part, Taken;
    RaisedPending(s);
    RaisedIs(s);
    var s0 := Raised(s);
    var d := Deliver(s0.high, io);
    var t := Delivered(s0, true, d);
    SamePending(t);
    if s0.high != [] {
      DeliverFirst(s0.high, io);
      if t.high == [] {
        LowGrows(t, d.left);
      }
    } else {
      DeliverStep(s0.high, io);
      LowFirst(t, io);
    }
  }

  lemma LowGrows(s: State, io: seq<Io>)
    requires s.typ != Invalid && s.locked == None && s.dw == None && s.high == []
    ensures s.wire <= Finished(LowRound(s, io).0).wire
  {
    LowContinues(s, io);
  }

  lemma LowFirst(s: State, io: seq<Io>)
    requires s.typ != Invalid && s.locked == None && s.dw == None && s.low != [] && io != [] && io[0].Moved?
    ensures s.wire + Part(s.low[0], Taken(io[0], Room(s.low[0]))) <= Finished(LowRound(s, io).0).wire
  {
    hide Deliver, Part, Taken;
    DeliverFirst(s.low, io);
  }

  /** A write error with something pending: nothing is written or forgotten; a closing or read-closed socket is closed,
      any other takes no more data and reports it once. */
  lemma WriteFails(s: State, io: seq<Io>)
    requires s.shutting == None && s.typ != Invalid && s.locked == None && Pending(s) != []
    requires io != [] && io[0] == Failed
    ensures var (t, r) := Step(s, EWrite(io));
            && t.wire == s.wire && t.sent == s.sent && Pending(t) == Pending(s)
            && t.typ == (if s.closing || s.typ == HalfCloseRead then Invalid else HalfCloseWrite)
            && r == (if t.typ == HalfCloseWrite && s.typ != HalfCloseWrite then Err else Nothing)
  {
    hide Deliver, Pending, Raised;
    RaisedPending(s);
    RaisedIs(s);
    SamePending(s);
    var s0 := Raised(s);
    DeliverStep(s0.high, io);
    DeliverStep(s0.low, io);
    assert s0.wire + [] == s0.wire && s0.sent + [] == s0.sent;
    SamePending(s0);
    assert s0.(high := s0.high) == s0 && s0.(low := s0.low) == s0;
    if s0.high == [] { FailsLow(s0, io); }
  }

  lemma FailsLow(s: State, io: seq<Io>)
    requires s.typ != Invalid && s.low != [] && io != [] && io[0] == Failed
    ensures Finished(LowRound(s, io).0) == CloseWrite(s).0 && LowRound(s, io).1 == CloseWrite(s).1
  {
    hide Deliver;
    DeliverStep(s.low, io);
    assert s.wire + [] == s.wire && s.sent + [] == s.sent;
  }

  /** An ordinary close of a socket with data left to send: one SOCKET_CLOSE, then everything pending goes out and the
      socket is closed without a loss. */
  lemma GracefulClose(s: State, io: seq<Io>)
    requires s.shutting == None && s.typ != Invalid && s.locked == None && !NoMoreSending(s) && Whole(Pending(s), io)
    ensures var (t, r) := Step(s, EClose(false));
            var (u, q) := Step(t, EWrite(io));
            && r == (if s.typ == HalfCloseRead then Nothing else Close) && q == Nothing
            && u.typ == Invalid && u.lost == [] && u.wire == s.wire + Stream(Pending(s))
  {
    hide Stream, Whole, Deliver;
    AllTaken(Step(s, EClose(false)).0, io);
  }

  // ---------------------------------------------------------------- priorities

  /** The socket thread can take a package out of the pipe. */
  predicate Takes(s: State, p: Package) {
    s.shutting == None && !s.busy && s.pipe != [] && s.pipe[0] == Send(p) && !Refuses(s)
  }

  /** A package of high priority goes before everything in the low list, any other one to the end. */
  lemma Placed(s: State, p: Package)
    requires Takes(s, p)
    ensures var t := Step(s, EHandle).0;
            && t.pipe == s.pipe[1..] && t.busy
            && (p.high ==> Pending(t) == FrontOf(s.locked, s.dw) + s.high + [Buffer(p, 0)] + s.low)
            && (!p.high ==> Pending(t) == Pending(s) + [Buffer(p, 0)])
  {
    hide Write, CloseCall, Read, Eof, Connect, Resume;
    var f := FrontOf(s.locked, s.dw);
    assert f + (s.high + [Buffer(p, 0)]) + s.low == f + s.high + [Buffer(p, 0)] + s.low;
    assert f + s.high + (s.low + [Buffer(p, 0)]) == f + s.high + s.low + [Buffer(p, 0)];
  }

  /** While something else is in the lists, a package of high priority overtakes one of low priority that came before
      it. */
  lemma Overtakes(s: State, a: Package, b: Package)
    requires Takes(s, a) && !a.high && b.high && |s.pipe| >= 2 && s.pipe[1] == Send(b)
    requires s.high != [] || s.low != []
    ensures var t := Step(Step(Step(s, EHandle).0, EUncount).0, EHandle).0;
            Pending(t) == FrontOf(s.locked, s.dw) + s.high + [Buffer(b, 0)] + s.low + [Buffer(a, 0)]
  {
    hide Write, CloseCall, Read, Eof, Connect, Resume;
    var t := Step(s, EHandle).0;
    LowLast(s, a);
    var u := Step(t, EUncount).0;
    assert u.pipe[0] == s.pipe[1];
    Placed(u, b);
    var f := FrontOf(s.locked, s.dw) + s.high + [Buffer(b, 0)];
    assert f + (s.low + [Buffer(a, 0)]) == f + s.low + [Buffer(a, 0)];
  }

  lemma LowLast(s: State, a: Package)
    requires Takes(s, a) && !a.high && (s.high != [] || s.low != [])
    ensures Step(s, EHandle).0 == s.(pipe := s.pipe[1..], low := s.low + [Buffer(a, 0)], busy := true)
  {
    hide Write, CloseCall, Read, Eof, Connect, Resume;
  }

  // ---------------------------------------------------------------- write events are asked for

  /** Something is left for the socket thread to write. */
  predicate HasRest(s: State) { s.high != [] || s.low != [] || s.dw.Some? }

  /** Then write events are on, or a request for them is in the pipe, or a worker is about to send one. */
  predicate Awake(s: State) {
    && s.owes >= 0
    && (s.typ != Invalid && s.typ != HalfCloseWrite && s.shutting == None && HasRest(s) ==>
          s.writing || Trigger in s.pipe || s.owes > 0)
  }

  lemma CloseWriteAwake(s: State)
    requires s.owes >= 0
    ensures Awake(CloseWrite(s).0) && (s.dw == None ==> CloseWrite(s).0.dw == None)
  {
  }

  lemma FinishedAwake(s: State)
    requires Awake(s) && s.dw == None
    ensures Awake(Finished(s))
  {
  }

  lemma LowAwake(s: State, io: seq<Io>)
    requires Awake(s) && s.dw == None && s.shutting == None && s.typ != Invalid
    ensures Awake(Finished(LowRound(s, io).0))
  {
    hide Deliver, CloseWrite, Finished;
    CloseWriteAwake(Delivered(s, false, Deliver(s.low, io)));
    EmptyStays(s.low, io);
    FinishedAwake(LowRound(s, io).0);
  }

  lemma EmptyStays(l: seq<Buffer>, io: seq<Io>)
    ensures l == [] ==> Deliver(l, io).rest == [] && Deliver(l, io).left == io
  {
  }

  lemma WriteAwake(s: State, io: seq<Io>)
    requires Awake(s) && s.shutting == None
    ensures Awake(Write(s, io).0)
  {
    hide Deliver, CloseWrite, LowRound, Finished;
    var s0 := Raised(s);
    var d := Deliver(s0.high, io);
    var t := Delivered(s0, true, d);
    EmptyStays(s0.high, io);
    CloseWriteAwake(t);
    if s.typ != Invalid && s.locked == None {
      LowAwake(t, d.left);
    }
  }

  lemma StepAwake(s: State, e: Event)
    requires Awake(s)
    ensures Awake(Step(s, e).0)
  {
    if e.EWrite? {
      hide Write;
      if s.shutting == None { WriteAwake(s, e.results); }
    } else if e.EHandle? {
      hide Write;
      HandleAwake(s);
    } else if Others(e) {
      hide Write, Handle;
      OtherAwake(s, e);
    } else {
      hide Write, Handle;
    }
  }

  lemma HandleAwake(s: State)
    requires Awake(s)
    ensures s.pipe != [] ==> Awake(Handle(s))
  {
    if s.pipe != [] {
      assert s.pipe == [s.pipe[0]] + s.pipe[1..];
    }
  }

  lemma OtherAwake(s: State, e: Event)
    requires Awake(s) && Others(e)
    ensures Awake(ByOthers(s, e).0)
  {
    hide NoMoreSending;
  }

  /** In every state of every run: no write is forgotten. */
  lemma {:induction false} RunAwake(start: Type, es: seq<Event>)
    ensures Awake(Exec(start, es).state)
  {
    hide Step, Fails, Awake;
    if es == [] {
      StartAwake(start);
    } else {
      RunAwake(start, es[..|es| - 1]);
      StepAwake(Exec(start, es[..|es| - 1]).state, es[|es| - 1]);
    }
  }

  lemma StartAwake(start: Type)
    ensures Awake(Begin(start))
  {
  }

  // ---------------------------------------------------------------- reports

  /** The end of a connection attempt. */
  lemma Connects(s: State, ok: bool)
    requires s.shutting == None && s.typ == Connecting
    ensures var (t, r) := Step(s, EConnect(ok));
            && (ok ==> t.typ == Connected && r == Open && Pending(t) == Pending(s))
            && (!ok ==> t.typ == Connecting && r.Dropped?)
            && (!ok && s.locked == None ==> Step(t, EFinish).0.typ == Invalid && Step(t, EFinish).1 == Err)
  {
  }

  /** Bytes that arrive are reported as long as the socket is open for reading; the end of the stream closes it for
      reading, with one SOCKET_CLOSE, and leaves what is pending. */
  lemma Reads(s: State, n: nat)
    requires s.shutting == None && s.typ != Invalid && s.typ != Connecting
    ensures var (t, r) := Step(s, ERead(Moved(n)));
            && (n > 0 ==> t == s && r == if s.typ == HalfCloseRead then Nothing else Data(n))
            && (n == 0 && !s.closing && s.typ != HalfCloseRead && s.typ != HalfCloseWrite ==>
                  t.typ == HalfCloseRead && r == Close && Pending(t) == Pending(s))
            && (n == 0 && s.typ == HalfCloseRead && !s.closing ==> t == s && r == Nothing)
  {
  }

  /** A hang-up ends the socket, with SOCKET_CLOSE exactly when it was not reported before. */
  lemma HangsUp(s: State, e: Event)
    requires s.shutting == None && s.typ != Invalid && s.typ != Connecting && s.locked == None
    requires e == EEof || e == EClose(true) || (e == ERead(Moved(0)) && s.typ == HalfCloseWrite && !s.closing)
    ensures var (t, r) := Step(s, e);
            var (u, q) := Step(t, EFinish);
            r.Dropped? && u.typ == Invalid && q == if s.typ == HalfCloseRead then Nothing else Close
  {
  }

  /** An accepted socket starts and a connected one changes its owner; a closed one is an error. */
  lemma Resumes(s: State)
    requires s.shutting == None
    ensures var (t, r) := Step(s, EResume);
            && (s.typ == PAccept || s.typ == Connected ==> t.typ == Connected && r == Open)
            && (s.typ == Invalid || s.typ == HalfCloseRead ==> t == s && r == Err)
            && (s.typ == Connecting || s.typ == HalfCloseWrite ==> t == s && r == Nothing)
  {
  }
}
