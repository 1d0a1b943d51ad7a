/**
One TCP socket of skynet-src/socket_server.c from the moment its id is opened or accepted until it is closed for
good: the two write lists, the direct writes of worker threads, the control pipe, and the states of the
connection. Each method is one section that runs atomically: under the socket's lock, or between two points
where another thread can step in. Results of system calls are parameters.
*/
module TcpSocket {
  import opened Basics
  import opened TcpLists
  import opened TcpSpec
  import opened TcpRuns

  // ---------------------------------------------------------------- struct socket

  class Socket {
    var typ: Type
    var closing: bool
    var reading: bool
    var writing: bool
    var high: seq<Buffer>
    var low: seq<Buffer>
    var wbSize: int
    var sending: nat
    var dw: Option<Buffer>             // dw_buffer and dw_offset
    var locked: Option<Package>        // the package a worker is writing directly, while it holds the lock
    var pipe: seq<Request>             // the control pipe
    var tickets: nat                   // workers between inc_sending_ref and send_request
    var busy: bool                     // the socket thread is between send_socket and dec_sending_ref
    var owes: nat                      // workers between a direct write that left a rest and their request 'W'
    var shutting: Option<Report>       // the socket thread is in force_close, the lists are gone; what it will report
    var past: Option<Past>             // what was written before force_close dropped a package that was begun
    var wire: seq<Byte>                // everything written to the descriptor, since then
    var sent: seq<Package>             // packages completely written, since then
    var lost: seq<Buffer>              // what force_close threw away
    ghost var accepted: seq<Package>   // packages taken by send_socket or by a direct write
    ghost var arrived: seq<Package>    // packages put in the pipe or written directly
    ghost var closes: nat              // how often SOCKET_CLOSE was reported

    function Value(): State
      reads this
    {
      State(typ, closing, high, low, dw, locked, pipe, sending, tickets, busy, shutting, past, wire, sent, lost,
            writing, owes)
    }

    function Front(): seq<Buffer>
      reads `locked, `dw
    {
      FrontOf(locked, dw)
    }

    /** Everything accepted and not completely written, in the order it will be written. */
    function Pending(): seq<Buffer>
      reads this
    {
      TcpSpec.Pending(Value())
    }

    /** wb_size, which force_close no longer keeps. */
    ghost function Recorded(): int
      reads `shutting, `wbSize
    {
      if shutting.Some? then 0 else wbSize
    }

    ghost predicate ListsOk()
      reads `typ, `high, `low, `wbSize, `dw, `locked, `pipe, `shutting, `past, `wire, `sent, `lost, `accepted, `arrived
    {
      && Ordered(PastSent(past), accepted + InPipe(pipe), arrived)
      && PastIs(past, arrived, typ == Invalid || shutting.Some?)
      && (locked.Some? ==> dw == None)
      && (shutting.Some? ==> typ != Invalid && high == [] && low == [])
      && (typ == Invalid ==> high == [] && low == [] && dw == None && locked == None)
      && (typ == Invalid ==> Framed(wire, sent, lost) && InOrder(accepted, sent, lost))
      && (typ != Invalid ==> Lists(wire, sent, accepted, Front(), high, low, Recorded()))
    }

    ghost predicate StateOk()
      reads `typ, `closing, `sending, `pipe, `tickets, `busy, `shutting, `closes
    {
      && sending == tickets + |InPipe(pipe)| + (if busy then 1 else 0)
      && closes <= 1
      && (closes == 1 ==> typ == HalfCloseRead || typ == Invalid)
      && (typ == HalfCloseRead ==> closes == 1)
      && (closing ==> typ == HalfCloseRead || typ == Invalid)
      && (shutting.Some? ==> shutting.value in {Close, Err, Nothing})
      && (shutting == Some(Close) ==> closes == 0)
    }

    /** Between two sections: no low-priority package has been begun. */
    ghost predicate Valid()
      reads this
    {
      ListsOk() && StateOk() && forall b :: b in low ==> b.off == 0
    }

    constructor (start: Type)
      requires start == Connecting || start == Connected || start == PAccept
      ensures Valid() && Value() == Begin(start) && closes == 0 && arrived == [] && accepted == []
    {
      hide Lists, Within, InPipe, Framed, InOrder;
      NoLists();
      NothingInPipe();
      NoOrder();
      NoPast([], false);
      typ, closing, reading, writing := start, false, start != PAccept, start == Connecting;
      high, low, wbSize, sending, dw, locked, pipe := [], [], 0, 0, None, None, [];
      owes, tickets, busy, wire, sent, lost, accepted, arrived, closes := 0, 0, false, [], [], [], [], [], 0;
      shutting, past := None, None;
    }

    predicate BufferEmpty() reads `high, `low { high == [] && low == [] }

    /** nomore_sending_data */
    predicate NoMoreSending()
      reads this
    {
      TcpSpec.NoMoreSending(Value())
    }

    /** What any section may do to the state: SOCKET_CLOSE is counted, data is only reported before it, a socket
        half closed for reading stays so until it is invalid, and an invalid one stays invalid. */
    twostate predicate Moves(r: Report, more: seq<Package> := [])
      reads this
    {
      && closes == old(closes) + (if r == Close then 1 else 0)
      && (r.Data? ==> closes == 0)
      && (old(typ) == HalfCloseRead ==> typ == HalfCloseRead || typ == Invalid)
      && (old(typ) == Invalid ==> typ == Invalid)
      && arrived == old(arrived) + more
      && (past == old(past) ==> old(wire) <= wire && old(sent) <= sent)
      && (past != old(past) ==> old(past) == None && past.Some? && past.value.wire == old(wire)
                                && past.value.sent == old(sent) && wire == [] && sent == [])
    }

    // -------------------------------------------------------------- worker threads

    /** The start of socket_server_send: the lock is free and nothing else is under way. Everything this worker
        sent before has then been accepted. */
    method TryDirect(p: Package) returns (ok: bool)
      requires Valid()
      modifies `locked, `accepted, `arrived
      ensures Valid() && Moves(Nothing, if ok then [p] else [])
      ensures Value() == DirectBegin(old(Value()), p) && accepted == old(accepted) + (if ok then [p] else [])
      ensures ok <==> old(locked) == None && old(NoMoreSending()) && old(typ) == Connected
      ensures if ok then locked == Some(p) && InPipe(pipe) == [] && tickets == 0 else locked == old(locked)
    {
      hide Within, InPipe, Lists, Ordered, PastIs;
      ok := locked == None && NoMoreSending() && typ == Connected;
      if ok {
        DirectStart(wire, sent, accepted, Recorded(), p);
        assert accepted + InPipe(pipe) == accepted;
        OrderedSnoc(PastSent(past), accepted, arrived, p);
        PastGrows(past, arrived, typ == Invalid || shutting.Some?, [p]);
        locked := Some(p);
        accepted := accepted + [p];
        arrived := arrived + [p];
        assert accepted + InPipe(pipe) == accepted;
      }
    }

    /** The rest of the direct write: what the descriptor does not take is left for the socket thread. */
    method FinishDirect(io: Io) returns (n: nat)
      requires Valid() && locked.Some?
      modifies `locked, `wire, `sent, `dw, `owes
      ensures Valid() && Moves(Nothing) && locked == None && n == Taken(io, |old(locked).value.bytes|)
      ensures Value() == DirectEnd(old(Value()), n)
    {
      hide ListsOk, StateOk;
      n := Unlock(io);
    }

    method Unlock(io: Io) returns (n: nat)
      requires ListsOk() && locked.Some?
      modifies `locked, `wire, `sent, `dw, `owes
      ensures ListsOk() && locked == None && n == Taken(io, |old(locked).value.bytes|)
      ensures var p := old(locked).value;
              && wire == old(wire) + p.bytes[..n]
              && (if n == |p.bytes| then sent == old(sent) + [p] && dw == old(dw) && owes == old(owes)
                  else sent == old(sent) && dw == Some(Buffer(p, n)) && owes == old(owes) + 1)
    {
      hide Within, InPipe, Lists, Ordered, PastIs;
      var p := locked.value;
      n := Taken(io, |p.bytes|);
      DirectWrite(wire, sent, accepted, p, high, low, Recorded(), n);
      wire := wire + p.bytes[..n];
      locked := None;
      if n == |p.bytes| {
        sent := sent + [p];
      } else {
        dw := Some(Buffer(p, n));
        owes := owes + 1;
      }
    }

    /** send_request 'W' */
    method PushTrigger()
      requires Valid() && owes > 0
      modifies `pipe, `owes
      ensures Valid() && Moves(Nothing) && Value() == Ask(old(Value()))
    {
      hide Within, InPipe, Lists, Framed, InOrder, Ordered, PastIs;
      InPipeJoin(pipe, [Trigger]);
      InPipeOne(Trigger);
      pipe := pipe + [Trigger];
      owes := owes - 1;
      assert InPipe(pipe) == InPipe(old(pipe));
    }

    /** inc_sending_ref: waits while the counter is at its limit. */
    method IncSending() returns (ok: bool)
      requires Valid()
      modifies `sending, `tickets
      ensures Valid() && Moves(Nothing) && tickets == old(tickets) + (if ok then 1 else 0)
      ensures ok <==> old(sending) < 0xffff
      ensures Value() == TcpSpec.Count(old(Value()))
    {
      hide ListsOk;
      ok := sending < 0xffff;
      if ok {
        sending := sending + 1;
        tickets := tickets + 1;
      }
    }

    /** send_request 'D' or 'P', after inc_sending_ref */
    method Enqueue(p: Package)
      requires Valid() && tickets > 0
      modifies `pipe, `tickets, `arrived
      ensures Valid() && Moves(Nothing, [p])
      ensures Value() == TcpSpec.Enqueue(old(Value()), p)
    {
      hide Within, InPipe, Lists, Framed, InOrder, Ordered, PastIs;
      InPipeJoin(pipe, [Send(p)]);
      InPipeOne(Send(p));
      OrderedSnoc(PastSent(past), accepted + InPipe(pipe), arrived, p);
      PastGrows(past, arrived, typ == Invalid || shutting.Some?, [p]);
      assert accepted + (InPipe(pipe) + [p]) == accepted + InPipe(pipe) + [p];
      pipe := pipe + [Send(p)];
      tickets := tickets - 1;
      arrived := arrived + [p];
    }
  
    /** A package that a worker has not got through yet, or never. */
    ghost method Offer(p: Package)
      requires Valid()
      modifies `arrived
      ensures Valid() && Moves(Nothing, [p]) && Value() == old(Value())
    {
      hide Within, InPipe, Lists, Framed, InOrder, Ordered, PastIs, StateOk;
      OrderedSnoc(PastSent(past), accepted + InPipe(pipe), arrived, p);
      PastGrows(past, arrived, typ == Invalid || shutting.Some?, [p]);
      arrived := arrived + [p];
    }

    // -------------------------------------------------------------- the socket thread: requests

    /** The socket takes no more packages. */
    predicate Refuses()
      reads this
    {
      TcpSpec.Refuses(Value())
    }

    /** send_socket: the package joins a list, or is freed when the socket takes no more. */
    method SendSocket(p: Package, ghost rest: seq<Request>)
      requires ListsOk() && (forall b :: b in low ==> b.off == 0) && pipe == [Send(p)] + rest && shutting == None
      modifies `high, `low, `wbSize, `writing, `accepted, `pipe
      ensures ListsOk() && (forall b :: b in low ==> b.off == 0)
      ensures Value() == Join(old(Value()).(pipe := rest), p)
      ensures accepted == old(accepted) + (if Refuses() then [] else [p])
    {
      hide ListsOk;
      if Refuses() {
        FreePackage(p, rest);
        assert accepted + [] == accepted;
      } else {
        Append(p, rest);
      }
    }

    /** The package is freed. */
    method FreePackage(p: Package, ghost rest: seq<Request>)
      requires ListsOk() && pipe == [Send(p)] + rest
      modifies `pipe
      ensures ListsOk() && pipe == rest
    {
      hide Framed, InOrder, Within, Unsent, InPipe, Lists, Ordered, PastIs;
      InPipeJoin([Send(p)], rest);
      InPipeOne(Send(p));
      pipe := pipe[1..];
      assert accepted + ([p] + InPipe(rest)) == accepted + [p] + InPipe(rest);
      OrderedCut(PastSent(past), accepted, [p], InPipe(rest), arrived);
    }

    /** The package goes last in one of the lists. */
    method Append(p: Package, ghost rest: seq<Request>)
      requires ListsOk() && (forall b :: b in low ==> b.off == 0) && pipe == [Send(p)] + rest && shutting == None
      requires typ != Invalid
      modifies `high, `low, `wbSize, `writing, `accepted, `pipe
      ensures ListsOk() && pipe == rest && accepted == old(accepted) + [p]
      ensures if old(BufferEmpty()) || p.high then high == old(high) + [Buffer(p, 0)] && low == old(low)
              else low == old(low) + [Buffer(p, 0)] && high == old(high)
      ensures writing == (old(writing) || old(BufferEmpty()))
    {
      hide Framed, InOrder, Within, Unsent, InPipe, Lists, Ordered, PastIs;
      InPipeJoin([Send(p)], rest);
      InPipeOne(Send(p));
      pipe := pipe[1..];
      var b := Buffer(p, 0);
      assert accepted + ([p] + InPipe(rest)) == (accepted + [p]) + InPipe(rest);
      if BufferEmpty() || p.high {
        JoinHigh(wire, sent, accepted, Front(), high, low, wbSize, p);
        if BufferEmpty() {
          writing := true;
        }
        high := high + [b];
      } else {
        JoinLow(wire, sent, accepted, Front(), high, low, wbSize, p);
        low := low + [b];
      }
      wbSize := wbSize + |p.bytes|;
      accepted := accepted + [p];
    }

    /** ctrl_cmd for 'D', 'P' and 'W', up to dec_sending_ref. */
    method HandleRequest()
      requires Valid() && pipe != [] && !busy && shutting == None
      modifies `pipe, `busy, `high, `low, `wbSize, `writing, `accepted
      ensures Valid() && Moves(Nothing) && Value() == Handle(old(Value()))
      ensures accepted == old(accepted) + Accepts(old(Value()), EHandle)
    {
      hide ListsOk, StateOk, TcpSpec.Refuses;
      ghost var rest := pipe[1..];
      assert pipe == [pipe[0]] + rest;
      match pipe[0] {
        case Send(p) =>
          TakeSend(p, rest);
        case Trigger =>
          TakeTrigger(rest);
      }
    }

    /** ctrl_cmd for 'D' and 'P' */
    method TakeSend(p: Package, ghost rest: seq<Request>)
      requires Valid() && pipe == [Send(p)] + rest && !busy && shutting == None
      modifies `pipe, `busy, `high, `low, `wbSize, `writing, `accepted
      ensures Valid() && Value() == Join(old(Value()).(pipe := rest), p).(busy := true)
      ensures accepted == old(accepted) + (if TcpSpec.Refuses(old(Value())) then [] else [p])
    {
      hide ListsOk, InPipe;
      InPipeJoin([Send(p)], rest);
      InPipeOne(Send(p));
      SendSocket(p, rest);
      busy := true;
    }

    /** ctrl_cmd for 'W': enable_write */
    method TakeTrigger(ghost rest: seq<Request>)
      requires Valid() && pipe == [Trigger] + rest
      modifies `pipe, `writing
      ensures Valid() && Value() == old(Value()).(pipe := rest, writing := old(writing) || typ != Invalid)
    {
      hide Within, InPipe, Lists, Framed, InOrder, Ordered, PastIs;
      InPipeJoin([Trigger], rest);
      InPipeOne(Trigger);
      pipe := pipe[1..];
      assert InPipe(pipe) == InPipe(old(pipe));
      if typ != Invalid {
        writing := true;
      }
    }

    /** dec_sending_ref; its assert holds. */
    method DecSending()
      requires Valid() && busy
      modifies `sending, `busy
      ensures Valid() && Moves(Nothing) && Value() == old(Value()).(sending := old(sending) - 1, busy := false)
    {
      hide ListsOk;
      assert sending != 0;
      sending := sending - 1;
      busy := false;
    }
  
    // -------------------------------------------------------------- the socket thread: writing

    /** In the middle of a section of the socket thread. */
    ghost predicate Midway()
      reads this
    {
      ListsOk() && StateOk() && locked == None && shutting == None
    }

    /** What a section on the write side leaves alone. */
    twostate predicate WriteMoves()
      reads this
    {
      && Moves(Nothing) && accepted == old(accepted) && pipe == old(pipe)
      && sending == old(sending) && tickets == old(tickets) && busy == old(busy) && closing == old(closing)
      && past == old(past)
    }

    /** force_close from inside a write section, which holds the lock throughout. */
    method ForceClose()
      requires Midway()
      modifies `typ, `high, `low, `dw, `lost, `shutting
      ensures Midway() && WriteMoves() && typ == Invalid && (old(typ) != Invalid ==> low == [])
      ensures Value() == if old(typ) == Invalid then old(Value()) else Thrown(old(Value()))
    {
      hide ListsOk;
      if typ == Invalid {
        return;
      }
      Throw();
    }

    /** The socket becomes invalid; what was not written is lost. */
    method Throw()
      requires ListsOk() && locked == None && typ != Invalid
      modifies `typ, `high, `low, `dw, `lost, `shutting
      ensures ListsOk() && Value() == Thrown(old(Value()))
    {
      hide ListsOk;
      Toss();
    }

    method Toss()
      requires ListsOk() && locked == None && typ != Invalid
      modifies `typ, `high, `low, `dw, `lost, `shutting
      ensures ListsOk() && typ == Invalid && shutting == None && BufferEmpty() && dw == None
      ensures lost == old(Front() + high + low)
    {
      hide Within, InPipe, Lists, Framed, InOrder, Ordered, PastIs;
      ListsOrder(wire, sent, accepted, Front(), high, low, Recorded());
      PastGrows(past, arrived, shutting.Some?, []);
      lost := Front() + high + low;
      high, low, dw := [], [], None;
      typ, shutting := Invalid, None;
    }

    /** close_write: true when SOCKET_ERR is to be reported. */
    method CloseWrite() returns (err: bool)
      requires Midway() && typ != Invalid
      modifies `typ, `high, `low, `dw, `lost, `shutting, `writing
      ensures Midway() && WriteMoves() && (err <==> typ == HalfCloseWrite && old(typ) != HalfCloseWrite)
      ensures (Value(), if err then Err else Nothing) == TcpSpec.CloseWrite(old(Value()))
    {
      hide Within, InPipe, Lists, Framed, InOrder, Ordered, PastIs;
      if closing || typ == HalfCloseRead {
        ForceClose();
        return false;
      }
      if typ == HalfCloseWrite {
        return false;
      }
      typ := HalfCloseWrite;
      writing := false;
      return true;
    }

    /** One successful write in send_list_tcp; `whole` when the buffer was written to its end. */
    method WriteHead(onHigh: bool, r: Io) returns (whole: bool)
      requires Midway() && typ != Invalid && dw == None
      requires if onHigh then high != [] else high == [] && low != []
      modifies `wire, `wbSize, `high, `low, `sent
      ensures Midway() && (if onHigh then low == old(low) else high == old(high))
      ensures var l := if onHigh then high else low;
              var l0 := old(if onHigh then high else low);
              var b := l0[0];
              && b.off <= |b.pkg.bytes|
              && var n := Taken(r, Size(b));
                 && l == Advance(l0, n) && (whole <==> n == Size(b)) && (whole ==> l == l0[1..])
                 && wire == old(wire) + Part(b, n) && sent == old(sent) + (if whole then [b.pkg] else [])
    {
      hide Within, InPipe, Lists, Framed, InOrder, Ordered, PastIs, StateOk;
      var l := if onHigh then high else low;
      var b := l[0];
      ListsHead(wire, sent, accepted, high, low, wbSize);
      var n := Taken(r, |b.pkg.bytes| - b.off);
      whole := n == |b.pkg.bytes| - b.off;
      if onHigh {
        WriteHigh(wire, sent, accepted, high, low, wbSize, n);
        high := Advance(l, n);
      } else {
        WriteLow(wire, sent, accepted, low, wbSize, n);
        low := Advance(l, n);
      }
      wire := wire + b.pkg.bytes[b.off..b.off + n];
      wbSize := wbSize - n;
      if whole {
        sent := sent + [b.pkg];
      }
    }

    /** The high or the low list. */
    function List(onHigh: bool): seq<Buffer>
      reads `high, `low
    {
      if onHigh then high else low
    }

    /** WriteHead as one step of the delivery. */
    method WriteNext(onHigh: bool, io: seq<Io>) returns (whole: bool)
      requires Midway() && typ != Invalid && dw == None && io != [] && io[0].Moved?
      requires List(onHigh) != [] && (onHigh || high == []) && forall b :: b in low ==> b.off == 0
      modifies `wire, `wbSize, `high, `low, `sent
      ensures Midway() && (if onHigh then low == old(low) else high == old(high))
      ensures |List(onHigh)| <= old(|List(onHigh)|)
      ensures whole ==> (forall b :: b in low ==> b.off == 0) && |List(onHigh)| < old(|List(onHigh)|)
      ensures var goal := Then(old(wire), old(sent), Deliver(old(List(onHigh)), io));
              goal == if whole then Then(wire, sent, Deliver(List(onHigh), io[1..]))
                      else Delivery(List(onHigh), wire, sent, io[1..], NoRoom)
    {
      hide Deliver, Part, Taken, ListsOk, StateOk, Then;
      Heads();
      var l := List(onHigh);
      DeliverStep(l, io);
      ghost var n := Taken(io[0], Size(l[0]));
      whole := WriteHead(onHigh, io[0]);
      ThenThen(old(wire), old(sent), Part(l[0], n), [l[0].pkg], Deliver(List(onHigh), io[1..]));
      ThenStop(old(wire), old(sent), List(onHigh), Part(l[0], n), io[1..], NoRoom);
    }

    /** The loop of send_list_tcp on the high or, when that is empty, on the low list: `io` are the results of write. */
    method WriteList(onHigh: bool, io: seq<Io>) returns (failed: bool, left: seq<Io>)
      requires Midway() && typ != Invalid && dw == None
      requires (onHigh || high == []) && forall b :: b in low ==> b.off == 0
      modifies `wire, `wbSize, `high, `low, `sent
      ensures Midway() && (failed ==> forall b :: b in low ==> b.off == 0)
      ensures if onHigh then low == old(low) else high == []
      ensures var d := Deliver(old(List(onHigh)), io);
              && (failed <==> d.stop == Failure)
              && wire == old(wire) + d.out && sent == old(sent) + d.done && left == d.left && List(onHigh) == d.rest
    {
      hide Deliver, ListsOk, StateOk, Then;
      left := io;
      ghost var d := Deliver(List(onHigh), io);
      ghost var goal := Then(wire, sent, d);
      ThenIs(wire, sent, d);
      while List(onHigh) != []
        invariant Midway() && forall b :: b in low ==> b.off == 0
        invariant if onHigh then low == old(low) else high == []
        invariant goal == Then(wire, sent, Deliver(List(onHigh), left))
        decreases |List(onHigh)|, |left|
      {
        DeliverStep(List(onHigh), left);
        ThenStop(wire, sent, List(onHigh), [], left, NoRoom);
        if left == [] || left[0] == Again {
          return false, left;
        }
        var r := left[0];
        if r == Interrupted {
          left := left[1..];
          continue;
        }
        if r == Failed {
          left := left[1..];
          ThenStop(wire, sent, List(onHigh), [], left, Failure);
          return true, left;
        }
        var whole := WriteNext(onHigh, left);
        left := left[1..];
        if !whole {
          return false, left;
        }
      }
      DeliverStep(List(onHigh), left);
      ThenStop(wire, sent, List(onHigh), [], left, Emptied);
      return false, left;
    }

    /** send_list_tcp: `go` says that the caller may go on (-1), otherwise `err` tells SOCKET_ERR from SOCKET_RST. */
    method SendList(onHigh: bool, io: seq<Io>) returns (go: bool, err: bool, left: seq<Io>)
      requires Midway() && typ != Invalid && dw == None
      requires (onHigh || high == []) && forall b :: b in low ==> b.off == 0
      modifies `wire, `wbSize, `high, `low, `sent, `typ, `dw, `lost, `shutting, `writing
      ensures Midway() && WriteMoves() && (!go ==> forall b :: b in low ==> b.off == 0)
      ensures var d := Deliver(old(List(onHigh)), io);
              && (go <==> d.stop != Failure) && left == d.left
              && var s := Delivered(old(Value()), onHigh, d);
                 if go then Value() == s else (Value(), if err then Err else Nothing) == TcpSpec.CloseWrite(s)
    {
      hide Deliver, ListsOk, StateOk;
      var failed;
      failed, left := WriteList(onHigh, io);
      go, err := !failed, false;
      if failed {
        err := CloseWrite();
      }
    }

    lemma Heads()
      requires Midway() && typ != Invalid && dw == None
      ensures high != [] ==> high[0].off <= |high[0].pkg.bytes|
      ensures high == [] && low != [] ==> low[0].off <= |low[0].pkg.bytes|
    {
      hide Within, InPipe, Lists, Framed, InOrder, Ordered;
      ListsHead(wire, sent, accepted, high, low, wbSize);
    }

    /** list_uncomplete */
    predicate LowUncomplete()
      reads this
    {
      TcpSpec.LowUncomplete(Value())
    }

    /** Steps 2 and 3 of send_buffer_: the low list; a package of it that was begun moves to the empty high list. */
    method SendLow(io: seq<Io>) returns (finished: bool, r: Report)
      requires Midway() && typ != Invalid && dw == None && high == []
      requires forall b :: b in low ==> b.off == 0
      modifies this
      ensures Midway() && WriteMoves() && (forall b :: b in low ==> b.off == 0) && (r == Err || r == Nothing)
      ensures finished <==> typ != Invalid && BufferEmpty()
      ensures finished ==> dw == None && r == Nothing
      ensures (Value(), r) == LowRound(old(Value()), io)
    {
      hide Within, InPipe, Lists, Framed, InOrder, Ordered, PastIs;
      DeliverRest(low, io);
      var go, err, left := SendList(false, io);
      if !go {
        return false, if err then Err else Nothing;
      }
      LowStarted(wire, sent, accepted, [], [], low, wbSize);
      if LowUncomplete() {
        RaiseHead(wire, sent, accepted, low, wbSize);
        high := [low[0]];
        low := low[1..];
      }
      return BufferEmpty(), Nothing;
    }

    lemma DeliverRest(l: seq<Buffer>, io: seq<Io>)
      ensures Deliver(l, io).stop == Emptied <==> Deliver(l, io).rest == []
      decreases |io|
    {
      if io != [] {
        DeliverRest(l, io[1..]);
        if l != [] {
          DeliverRest(l[1..], io[1..]);
        }
      }
    }

    lemma NothingLeft()
      requires Midway() && typ != Invalid && dw == None && BufferEmpty()
      ensures wbSize == 0
    {
      AllSent(wire, sent, accepted, wbSize);
    }

    /** send_buffer_. The asserts of the source are asserts here. */
    method SendBufferLocked(io: seq<Io>) returns (r: Report)
      requires Midway() && typ != Invalid && dw == None
      requires (forall b :: b in low ==> b.off == 0) && !LowUncomplete()
      modifies this
      ensures Midway() && WriteMoves() && (forall b :: b in low ==> b.off == 0) && (r == Err || r == Nothing)
      ensures (Value(), r) == WriteLists(old(Value()), io)
    {
      hide Deliver, ListsOk, StateOk, LowRound, TcpSpec.CloseWrite, Thrown;
      DeliverRest(high, io);
      var go, err, left := SendList(true, io);
      if !go {
        return if err then Err else Nothing;
      }
      if high != [] {
        return Nothing;
      }
      var finished;
      finished, r := SendLow(left);
      if finished {
        Settle();
      }
    }

    /** Step 4 of send_buffer_: everything is written. */
    method Settle()
      requires Midway() && typ != Invalid && dw == None && BufferEmpty()
      modifies `typ, `high, `low, `dw, `lost, `shutting, `writing
      ensures Midway() && WriteMoves() && BufferEmpty() && Value() == Finished(old(Value()))
    {
      hide ListsOk, StateOk;
      NothingLeft();
      assert BufferEmpty() && wbSize == 0;
      if closing {
        ForceClose();
      } else {
        writing := false;
      }
    }

    /** send_buffer: a write event. The rest of a direct write goes before the high list. */
    method SendBuffer(io: seq<Io>) returns (r: Report)
      requires Valid() && shutting == None && (typ != Invalid && locked == None ==> !LowUncomplete())
      modifies this
      ensures Valid() && Moves(r) && (r == Err || r == Nothing || r == Blocked) && past == old(past) && shutting == None
      ensures r == Blocked <==> old(typ) != Invalid && old(locked).Some?
      ensures accepted == old(accepted)
      ensures old(typ) == Invalid || r == Blocked ==> wire == old(wire)
      ensures (Value(), r) == TcpSpec.Write(old(Value()), io)
    {
      hide ListsOk, StateOk, WriteLists;
      if typ == Invalid {
        return Nothing;
      }
      if locked.Some? {
        return Blocked;
      }
      if dw.Some? {
        TakeRest();
      }
      r := SendBufferLocked(io);
    }

    /** The rest of a direct write becomes the head of the high list. */
    method TakeRest()
      requires ListsOk() && typ != Invalid && locked == None && shutting == None && dw.Some?
      modifies `wbSize, `high, `dw
      ensures ListsOk() && dw == None && high == [old(dw).value] + old(high)
    {
      hide Within, InPipe, Lists, Framed, InOrder, Ordered, PastIs;
      TakeDirect(wire, sent, accepted, dw.value, high, low, wbSize);
      wbSize := wbSize + (|dw.value.pkg.bytes| - dw.value.off);
      high := [dw.value] + high;
      dw := None;
    }

    /** The assert at the start of send_buffer_ holds exactly when the head of the low list, if any, has its
        payload at the address of the buffer itself. */
    lemma LowIsFresh()
      requires Valid()
      ensures LowUncomplete() <==> low != [] && !low[0].pkg.plain
    {
    }

    lemma Ended()
      requires Valid()
      ensures Framed(wire, sent, Pending()) && InOrder(accepted, sent, Pending())
      ensures typ != Invalid && shutting == None ==> past == None
      ensures Ordered(PastSent(past), accepted + InPipe(pipe), arrived) && PastOk(past)
      ensures past.Some? ==> past.value.torn.pkg in arrived
      ensures closes <= 1 && (closes == 1 ==> typ == HalfCloseRead || typ == Invalid)
    {
    }

    lemma PlainHead()
      requires Valid() && PlainLow(arrived)
      ensures !LowUncomplete()
    {
      hide Within, InPipe, Lists, Framed, InOrder, Ordered, PastIs;
      LowIsFresh();
      if typ != Invalid && low != [] {
        ListsOrder(wire, sent, accepted, Front(), high, low, Recorded());
        assert low[0] in Front() + high + low;
        PendingArrived(PastSent(past), accepted, sent, Front() + high + low, InPipe(pipe), arrived, low[0]);
        LowPriority(wire, sent, accepted, Front(), high, low, Recorded());
      }
    }

    // -------------------------------------------------------------- the socket thread: closing and reading

    /** close_read, with its SOCKET_CLOSE. */
    method CloseRead()
      requires Valid() && typ != Invalid && typ != HalfCloseRead && shutting == None
      modifies `typ, `reading, `closes
      ensures Valid() && Moves(Close) && Value() == old(Value()).(typ := HalfCloseRead)
    {
      hide Within, InPipe, Lists, Framed, InOrder, Ordered;
      typ := HalfCloseRead;
      reading := false;
      closes := closes + 1;
    }

    /** force_close up to its socket_lock: both lists are freed without the lock, and the type is still what it was,
        so workers may write directly from now on. */
    method DropLists(r: Report) returns (begun: bool)
      requires Valid() && typ != Invalid && shutting == None && r in {Close, Err, Nothing}
      requires r == Close ==> typ != HalfCloseRead
      modifies `high, `low, `shutting, `past, `wire, `sent, `accepted
      ensures Valid() && Moves(Nothing) && shutting == Some(r) && BufferEmpty()
      ensures old(past) == None && (begun <==> past.Some?) && (begun ==> wire == []) && (!begun ==> wire == old(wire))
      ensures (Value(), Dropped(begun)) == Drop(old(Value()), r)
    {
      hide ListsOk;
      begun := FreeLists(r);
    }

    /** free_wb_list on both lists. */
    method FreeLists(r: Report) returns (begun: bool)
      requires ListsOk() && (forall b :: b in low ==> b.off == 0) && typ != Invalid && shutting == None
      modifies `high, `low, `shutting, `past, `wire, `sent, `accepted
      ensures ListsOk() && shutting == Some(r) && BufferEmpty()
      ensures begun <==> old(high) != [] && old(high)[0].off > 0
      ensures past == (if begun then Some(Past(old(wire), old(sent), old(high)[0])) else None) && old(past) == None
      ensures if begun then wire == [] && sent == [] else wire == old(wire) && sent == old(sent)
    {
      hide Within, InPipe, Lists, Framed, InOrder, Ordered, PastIs;
      begun := high != [] && high[0].off > 0;
      PastGrows(past, arrived, false, []);
      if begun {
        DropTorn(wire, sent, accepted, Front(), high, low, wbSize, InPipe(pipe), arrived);
        past := Some(Past(wire, sent, high[0]));
        wire, sent, accepted := [], [], [];
      } else {
        DropKept(wire, sent, accepted, Front(), high, low, wbSize, [], InPipe(pipe), arrived);
        accepted := sent + Packages(Front());
      }
      high, low := [], [];
      shutting := Some(r);
    }

    lemma Dropping()
      requires Valid() && shutting.Some?
      ensures typ != Invalid && BufferEmpty()
    {
    }

    /** The rest of force_close, under the lock: the descriptor is closed and the socket is invalid. */
    method FinishClose() returns (r: Report)
      requires Valid() && shutting.Some?
      modifies `typ, `high, `low, `dw, `lost, `shutting, `closes
      ensures Valid() && Moves(r) && r in {Close, Err, Nothing, Blocked}
      ensures (Value(), r) == Finish(old(Value()))
    {
      hide ListsOk;
      if locked.Some? {
        return Blocked;
      }
      Dropping();
      assert Front() + [] + [] == Front();
      r := shutting.value;
      Throw();
      if r == Close {
        closes := closes + 1;
      }
    }

    /** close_socket: decided before the lock is taken. */
    method CloseSocket(shutdown: bool) returns (r: Report)
      requires Valid() && shutting == None
      modifies this
      ensures Valid() && Moves(r)
      ensures (Value(), r) == CloseCall(old(Value()), shutdown) && !r.Wrote?
      ensures past != old(past) <==> r == Dropped(true)
      ensures (past == old(past) ==> wire == old(wire)) && (!r.Dropped? ==> accepted == old(accepted))
    {
      hide Within, InPipe, Lists, Framed, InOrder, Ordered, PastIs;
      if typ == Invalid {
        return Nothing;
      }
      var shutdownRead := typ == HalfCloseRead;
      if shutdown || NoMoreSending() {
        var begun := DropLists(if shutdownRead then Nothing else Close);
        return Dropped(begun);
      }
      if !shutdownRead {
        CloseRead();
        closing := true;
        return Close;
      }
      closing := true;
      return Nothing;
    }

    /** forward_message_tcp: `io` is the result of read. */
    method ReadEvent(io: Io) returns (r: Report)
      requires Valid() && shutting == None
      modifies this
      ensures Valid() && Moves(r)
      ensures (Value(), r) == TcpSpec.Read(old(Value()), io) && !r.Wrote?
      ensures r.Data? <==> io.Moved? && io.n > 0 && old(typ) !in {Invalid, Connecting, HalfCloseRead}
      ensures past != old(past) <==> r == Dropped(true)
      ensures (past == old(past) ==> wire == old(wire)) && (!r.Dropped? ==> accepted == old(accepted))
    {
      hide Within, InPipe, Lists, Framed, InOrder, Ordered, PastIs;
      if typ == Invalid || typ == Connecting {
        return Nothing;
      }
      match io {
        case Failed => return Err;
        case Interrupted => return Nothing;
        case Again => return Nothing;
        case Moved(n) =>
          if n == 0 {
            if closing {
              if NoMoreSending() {
                var begun := DropLists(Nothing);
                return Dropped(begun);
              }
              return Nothing;
            }
            if typ == HalfCloseRead {
              return Nothing;
            }
            if typ == HalfCloseWrite {
              var begun := DropLists(Close);
              return Dropped(begun);
            }
            CloseRead();
            return Close;
          }
          if typ == HalfCloseRead {
            return Nothing;
          }
          return Data(n);
      }
    }

    /** The eof branch of socket_server_poll. */
    method EofEvent() returns (r: Report)
      requires Valid() && shutting == None
      modifies this
      ensures Valid() && Moves(r) && (Value(), r) == TcpSpec.Eof(old(Value())) && !r.Wrote?
      ensures past != old(past) <==> r == Dropped(true)
      ensures (past == old(past) ==> wire == old(wire)) && (!r.Dropped? ==> accepted == old(accepted))
    {
      hide Within, InPipe, Lists, Framed, InOrder, Ordered, PastIs;
      if typ == Invalid || typ == Connecting {
        return Nothing;
      }
      var begun := DropLists(if typ == HalfCloseRead then Nothing else Close);
      return Dropped(begun);
    }

    /** report_connect */
    method ConnectEvent(ok: bool) returns (r: Report)
      requires Valid() && shutting == None
      modifies this
      ensures Valid() && Moves(r)
      ensures (Value(), r) == TcpSpec.Connect(old(Value()), ok) && !r.Wrote?
      ensures past != old(past) <==> r == Dropped(true)
      ensures (past == old(past) ==> wire == old(wire)) && (!r.Dropped? ==> accepted == old(accepted))
    {
      hide Within, InPipe, Lists, Framed, InOrder, Ordered, PastIs;
      if typ != Connecting {
        return Nothing;
      }
      if !ok {
        var begun := DropLists(Err);
        return Dropped(begun);
      }
      typ := Connected;
      if NoMoreSending() {
        writing := false;
      }
      return Open;
    }

    /** resume_socket */
    method ResumeSocket() returns (r: Report)
      requires Valid() && shutting == None
      modifies `reading, `typ
      ensures Valid() && Moves(r) && r in {Err, Open, Nothing} && (r != Err ==> reading)
      ensures (Value(), r) == TcpSpec.Resume(old(Value()))
    {
      hide Within, InPipe, Lists, Framed, InOrder, Ordered, PastIs;
      if typ == Invalid || typ == HalfCloseRead {
        return Err;
      }
      reading := true;
      if typ == PAccept {
        typ := Connected;
        return Open;
      }
      return if typ == Connected then Open else Nothing;
    }

    /** pause_socket */
    method PauseSocket()
      requires Valid()
      modifies `reading
      ensures Valid() && Moves(Nothing) && (typ != Invalid ==> !reading) && Value() == old(Value())
    {
      hide Within, InPipe, Lists, Framed, InOrder, Ordered, PastIs;
      if typ != Invalid {
        reading := false;
      }
    }
  }

  // ---------------------------------------------------------------- every run

  /** Any one section, of any thread. */
  method Happen(s: Socket, e: Event) returns (r: Report)
    requires s.Valid() && !Fails(s.Value(), e)
    modifies s
    ensures s.Valid() && (s.Value(), r) == Step(old(s.Value()), e) && s.arrived == old(s.arrived) + Handed(e)
    ensures s.closes == old(s.closes) + (if r == Close then 1 else 0) <= 1 && (r.Data? ==> s.closes == 0)
    ensures old(s.typ) == HalfCloseRead ==> s.typ == HalfCloseRead || s.typ == Invalid
    ensures old(s.typ) == Invalid ==> s.typ == Invalid
    ensures s.past != old(s.past) <==> r == Dropped(true)
    ensures r == Dropped(true) ==> s.past.Some? && s.wire == []
    ensures old(s.past).Some? ==> old(s.wire) <= s.wire && (s.wire != old(s.wire) <==> r.Wrote? && r.n > 0)
    ensures !r.Dropped? ==> s.accepted == old(s.accepted) + Accepts(old(s.Value()), e)
  {
    hide Socket.ListsOk, Socket.StateOk, Framed, InOrder, Ordered, TcpSpec.ByThread, ByOthers, Accepts;
    Idle(s.Value(), e);
    s.Ended();
    r := Nothing;
    if Others(e) {
      r := OtherStep(s, e);
    } else if s.shutting == None {
      r := ThreadStep(s, e);
    }
    s.Ended();
  }

  /** Packages are accepted at the start of a direct write and, outside force_close, by the socket thread. */
  lemma Idle(s: State, e: Event)
    ensures (s.shutting.Some? || Others(e)) && !e.EDirectBegin? ==> Accepts(s, e) == []
  {
  }

  /** The sections of worker threads, and the end of force_close. */
  method OtherStep(s: Socket, e: Event) returns (r: Report)
    requires s.Valid() && Others(e)
    modifies s
    ensures s.Valid() && (s.Value(), r) == ByOthers(old(s.Value()), e) && s.Moves(r, Handed(e))
    ensures s.past == old(s.past) && !r.Dropped? && (s.wire != old(s.wire) <==> r.Wrote? && r.n > 0)
    ensures s.accepted == old(s.accepted) + Accepts(old(s.Value()), e)
  {
    hide Socket.ListsOk, Socket.StateOk, Accepts;
    Idle(s.Value(), e);
    r := Nothing;
    match e {
      case EDirectBegin(p) => Direct(s, p);
      case EDirectEnd(io) => if s.locked.Some? { var n := s.FinishDirect(io); r := Wrote(n); }
      case ETrigger => if s.owes > 0 { s.PushTrigger(); }
      case ECount => var _ := s.IncSending();
      case ESend(p) => if s.tickets > 0 { s.Enqueue(p); } else { s.Offer(p); }
      case EFinish => if s.shutting.Some? { r := s.FinishClose(); }
    }
  }

  method Direct(s: Socket, p: Package)
    requires s.Valid()
    modifies s`locked, s`accepted, s`arrived
    ensures s.Valid() && s.Moves(Nothing, [p]) && s.Value() == DirectBegin(old(s.Value()), p)
    ensures s.accepted == old(s.accepted) + Accepts(old(s.Value()), EDirectBegin(p))
  {
    hide Socket.ListsOk, Socket.StateOk;
    var ok := s.TryDirect(p);
    if !ok { s.Offer(p); }
  }

  /** The sections of the socket thread, outside force_close. */
  method ThreadStep(s: Socket, e: Event) returns (r: Report)
    requires s.Valid() && s.shutting == None && !Fails(s.Value(), e) && !Others(e)
    modifies s
    ensures s.Valid() && (s.Value(), r) == TcpSpec.ByThread(old(s.Value()), e) && s.Moves(r) && !r.Wrote?
    ensures s.past != old(s.past) <==> r == Dropped(true)
    ensures old(s.typ) == Invalid ==> s.wire == old(s.wire)
    ensures !r.Dropped? ==> s.accepted == old(s.accepted) + Accepts(old(s.Value()), e)
  {
    hide Socket.ListsOk, Socket.StateOk, Drop, TcpSpec.Write, Handle;
    r := Nothing;
    match e {
      case EHandle => if s.pipe != [] && !s.busy { s.HandleRequest(); }
      case EUncount => if s.busy { s.DecSending(); }
      case EWrite(io) => r := s.SendBuffer(io);
      case EClose(b) => r := s.CloseSocket(b);
      case ERead(io) => r := s.ReadEvent(io);
      case EEof => r := s.EofEvent();
      case EConnect(ok) => r := s.ConnectEvent(ok);
      case EResume => r := s.ResumeSocket();
      case EPause => s.PauseSocket();
    }
  }

  /** The whole life of a socket, for every interleaving of workers and the socket thread and all results of system
      calls. The wire is a sequence of segments, each the beginning of a package handed in; the whole packages of each
      priority are in the order in which they were handed in; and they are back to back with at most one more begun
      exactly when no direct write got in between the two halves of a force_close that dropped a package begun.
      What workers get through is accepted, freed because the socket takes no more, or still in the pipe; and until
      force_close drops the lists, what was accepted of each priority is sent or pending, in order. SOCKET_CLOSE comes
      at most once and no data after it. The life ends early only at the assert that low-priority user objects can
      break. */
  method Life(start: Type, events: seq<Event>) returns (run: Run)
    requires start == Connecting || start == Connected || start == PAccept
    ensures run == Exec(start, events)
    ensures |run.reports| <= |events| && (run.failed <==> |run.reports| < |events|)
    ensures run.failed ==> !Ordinary(events)
    ensures Polite(run.reports)
    ensures Bytes(Wire(run.state)) == PastWire(run.state.past) + run.state.wire
    ensures forall g :: g in Wire(run.state) ==>
              g.n <= |g.pkg.bytes| && g.pkg in HandedIn(events[..|run.reports|])
    ensures forall high :: Within(Of(Done(Wire(run.state)), high), Of(HandedIn(events[..|run.reports|]), high))
    ensures (Unbroken(Wire(run.state)) <==> !Torn(run.reports)) && (Torn(run.reports) <==> Overrun(start, events))
    ensures var es := events[..|run.reports|];
            && Balanced(Gather(Enters, start, es), Gather(Accepts, start, es), Gather(Frees, start, es),
                        InPipe(run.state.pipe))
            && (Undropped(run.reports) || !Going(run.state) ==>
                  InOrder(Gather(Accepts, start, es), run.state.sent, TcpSpec.Pending(run.state)))
  {
    hide Lived, Within, Of, Unbroken, Exec, Bytes, Done, Torn, Polite, HandedIn, Ordinary, Wire, Socket.Value,
         Gather, InOrder, Balanced, InPipe, Overrun, Going, Sane;
    var s;
    run, s := Live(start, events);
    LivedIs(s, start, events, run.reports);
    TornIff(start, events);
    Conserved(start, events, |run.reports|);
    RunSane(start, events, |run.reports|);
  }

  method Live(start: Type, events: seq<Event>) returns (run: Run, s: Socket)
    requires start == Connecting || start == Connected || start == PAccept
    ensures run == Exec(start, events) && run.state == s.Value() && Lived(s, start, events, run.reports)
    ensures |run.reports| <= |events| && (run.failed <==> |run.reports| < |events|)
    ensures run.failed ==> !Ordinary(events)
  {
    hide Lived, Fails, Exec, HandedIn, Ordinary, Socket.Valid;
    s := new Socket(start);
    var reports: seq<Report> := [];
    StartRun(start, events, s);
    while |reports| < |events|
      invariant |reports| <= |events| && fresh(s) && Lived(s, start, events, reports)
      decreases |events| - |reports|
    {
      if Fails(s.Value(), events[|reports|]) {
        Stopped(s, start, events, reports);
        run := Run(s.Value(), reports, true);
        return;
      }
      var r := GoOn(s, start, events, reports);
      reports := reports + [r];
    }
    Through(s, start, events, reports);
    run := Run(s.Value(), reports, false);
  }

  lemma Stopped(s: Socket, start: Type, events: seq<Event>, reports: seq<Report>)
    requires |reports| < |events| && Lived(s, start, events, reports) && Fails(s.Value(), events[|reports|])
    ensures Exec(start, events) == Run(s.Value(), reports, true) && !Ordinary(events)
  {
    hide Fails, Exec, HandedIn, Ordinary, Torn, Polite, Step, Socket.Valid;
    var n := |reports|;
    Unusual(s, events, n);
    ExecStep(start, events, n);
    ExecStuck(start, events, n + 1);
  }

  lemma Through(s: Socket, start: Type, events: seq<Event>, reports: seq<Report>)
    requires |reports| == |events| && Lived(s, start, events, reports)
    ensures Exec(start, events) == Run(s.Value(), reports, false)
  {
    hide Exec, Torn, Polite, HandedIn, Socket.Valid;
    assert events[..|events|] == events;
  }

  /** The socket is where the run so far takes it. */
  ghost predicate Lived(s: Socket, start: Type, events: seq<Event>, reports: seq<Report>)
    reads s
  {
    && |reports| <= |events| && s.Valid() && Polite(reports)
    && Exec(start, events[..|reports|]) == Run(s.Value(), reports, false)
    && s.arrived == HandedIn(events[..|reports|])
    && (s.closes == 0 ==> Close !in reports)
    && (s.past.Some? <==> Dropped(true) in reports)
    && (if s.past.Some? then s.wire != [] <==> Torn(reports) else !Torn(reports))
    && (Undropped(reports) ==> s.accepted == Gather(Accepts, start, events[..|reports|]))
  }

  lemma LivedIs(s: Socket, start: Type, events: seq<Event>, reports: seq<Report>)
    requires Lived(s, start, events, reports)
    ensures s.Valid() && Polite(reports) && |reports| <= |events|
    ensures Exec(start, events[..|reports|]) == Run(s.Value(), reports, false)
    ensures s.arrived == HandedIn(events[..|reports|])
    ensures var segs := Wire(s.Value());
            && Bytes(segs) == PastWire(s.Value().past) + s.Value().wire
            && (forall g :: g in segs ==> g.n <= |g.pkg.bytes| && g.pkg in HandedIn(events[..|reports|]))
            && (forall high :: Within(Of(Done(segs), high), Of(HandedIn(events[..|reports|]), high)))
            && (Unbroken(segs) <==> !Torn(reports))
    ensures Undropped(reports) ==>
              InOrder(Gather(Accepts, start, events[..|reports|]), s.Value().sent, TcpSpec.Pending(s.Value()))
  {
    hide Within, Of, Unbroken, Exec, Bytes, Done, Segments, Torn, Polite, HandedIn, Wire, Socket.Valid, Gather,
         InOrder, Framed, Ordered, PastOk;
    Ending(s);
    s.Ended();
  }

  method GoOn(s: Socket, start: Type, events: seq<Event>, reports: seq<Report>) returns (r: Report)
    requires |reports| < |events| && Lived(s, start, events, reports) && !Fails(s.Value(), events[|reports|])
    modifies s
    ensures Lived(s, start, events, reports + [r])
  {
    hide Exec, Torn, Polite, Fails, Step, Socket.Valid, Gather, Accepts;
    var n := |reports|;
    ExecStep(start, events, n);
    GatherStep(Accepts, start, events, n);
    r := Happen(s, events[n]);
    assert events[..n + 1][..n] == events[..n];
    TornSnoc(reports, r);
    PoliteSnoc(reports, r);
  }

  lemma StartRun(start: Type, events: seq<Event>, s: Socket)
    requires s.Valid() && s.Value() == Begin(start) && s.arrived == [] && s.accepted == []
    ensures Lived(s, start, events, [])
  {
    hide Socket.Valid;
    assert events[..0] == [];
  }

  lemma PoliteSnoc(rs: seq<Report>, r: Report)
    ensures Polite(rs) && (Close in rs ==> r != Close && !r.Data?) ==> Polite(rs + [r])
  {
  }

  lemma TornSnoc(rs: seq<Report>, r: Report)
    ensures Torn(rs + [r]) <==> Torn(rs) || (Dropped(true) in rs && r.Wrote? && r.n > 0)
  {
    var t := rs + [r];
    if Torn(rs) {
      var i, j :| 0 <= i < j < |rs| && rs[i] == Dropped(true) && rs[j].Wrote? && rs[j].n > 0;
      assert t[i] == rs[i] && t[j] == rs[j];
    } else if Dropped(true) in rs && r.Wrote? && r.n > 0 {
      var i :| 0 <= i < |rs| && rs[i] == Dropped(true);
      assert t[i] == rs[i] && t[|rs|] == r;
    }
  }

  /** A failing assert means that a low-priority user object was handed in. */
  lemma Unusual(s: Socket, events: seq<Event>, n: nat)
    requires s.Valid() && n < |events| && Fails(s.Value(), events[n]) && s.arrived == HandedIn(events[..n])
    ensures !Ordinary(events)
  {
    hide Within, InPipe, Lists, Framed, InOrder, Ordered, PastIs;
    if Ordinary(events) {
      OrdinaryPlain(events, n);
      s.PlainHead();
    }
  }

  lemma {:induction false} OrdinaryPlain(events: seq<Event>, n: nat)
    requires Ordinary(events) && n <= |events|
    ensures PlainLow(HandedIn(events[..n]))
  {
    if n > 0 {
      OrdinaryPlain(events, n - 1);
      assert events[..n][..n - 1] == events[..n - 1];
      assert events[n - 1] in events;
    }
  }

  /** The segments of a socket's wire, and where they come from. */
  lemma Ending(s: Socket)
    requires s.Valid()
    ensures var segs := Wire(s.Value());
            && Bytes(segs) == PastWire(s.past) + s.wire
            && (forall g :: g in segs ==> g.n <= |g.pkg.bytes| && g.pkg in s.arrived)
            && (forall high :: Within(Of(Done(segs), high), Of(s.arrived, high)))
            && (Unbroken(segs) <==> s.past.None? || s.wire == [])
  {
    hide Within, Of, Bytes, Done, Unbroken, Framed, InOrder, Ordered, PastOk, Segments, Socket.Valid;
    s.Ended();
    Summary(s);
    UnbrokenIff(s.past, s.wire, s.sent, s.Pending());
  }

  lemma Summary(s: Socket)
    requires s.Valid()
    ensures var segs := Segments(s.past, s.sent, s.Pending());
            && Bytes(segs) == PastWire(s.past) + s.wire
            && (forall g :: g in segs ==> g.n <= |g.pkg.bytes| && g.pkg in s.arrived)
            && forall high :: Within(Of(Done(segs), high), Of(s.arrived, high))
  {
    hide Within, InPipe, Lists, InOrder, Ordered, Flatten, Of, WholeSegs, Bytes, Done;
    s.Ended();
    var p := s.Pending();
    SegmentsAre(s.past, s.wire, s.sent, p);
    forall high ensures Within(Of(PastSent(s.past) + s.sent, high), Of(s.arrived, high)) {
      SentInOrder(PastSent(s.past), s.accepted, s.sent, p, InPipe(s.pipe), s.arrived, high);
    }
    AllArrived(PastSent(s.past) + s.sent, s.arrived);
    if p != [] { PendingArrived(PastSent(s.past), s.accepted, s.sent, p, InPipe(s.pipe), s.arrived, p[0]); }
  }
}
