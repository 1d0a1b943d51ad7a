/**
 * The spinning readers-writer lock of rwlock.h: any number of threads, one atomic
 * operation at a time, in any order.
 */
module RwLock {
  datatype Pc =
    | Idle
    | RWait             // while (write) {}
    | RInc              // before the increment of read
    | RCheck            // after it, before the second look at write
    | RBack             // before the decrement that gives up
    | Reading           // past rwlock_rlock
    | WTry(clear: int)  // the compare-and-swap on write, expecting clear
    | WWait             // while (read) {}
    | Writing           // past rwlock_wlock

  datatype State = State(write: int, read: int, threads: seq<Pc>)

  // A thread moves; an idle one takes the lock for writing or for reading.
  datatype Move = Move(thread: nat, wantsWrite: bool)

  // The compare-and-swap of atomic.h: c11 is the variant that writes the value it found
  // back into the expected one; the other, which atomic.h selects, does not.
  function Step(s: State, m: Move, c11: bool): State {
    if m.thread >= |s.threads| then s
    else
      var t := m.thread;
      match s.threads[t]
      case Idle => Goto(s, t, if m.wantsWrite then WTry(0) else RWait)
      case RWait => if s.write != 0 then s else Goto(s, t, RInc)
      case RInc => Goto(s.(read := s.read + 1), t, RCheck)
      case RCheck => Goto(s, t, if s.write != 0 then RBack else Reading)
      case RBack => Goto(s.(read := s.read - 1), t, RWait)
      case Reading => Goto(s.(read := s.read - 1), t, Idle)
      case WTry(clear) =>
        if s.write == clear then Goto(s.(write := 1), t, WWait)
        else if c11 then Goto(s, t, WTry(s.write))
        else s
      case WWait => if s.read != 0 then s else Goto(s, t, Writing)
      case Writing => Goto(s.(write := 0), t, Idle)
  }

  function Goto(s: State, t: nat, pc: Pc): State
    requires t < |s.threads|
  { s.(threads := s.threads[t := pc]) }

  function Run(s: State, ms: seq<Move>, c11: bool): State {
    if ms == [] then s else Step(Run(s, ms[..|ms| - 1], c11), ms[|ms| - 1], c11)
  }

  predicate Start(s: State) {
    s.write == 0 && s.read == 0 && forall t :: 0 <= t < |s.threads| ==> s.threads[t] == Idle
  }

  // Between its increment and its decrement.
  predicate Counted(pc: Pc) { pc.RCheck? || pc.RBack? || pc.Reading? }

  // Has set write and not yet cleared it.
  predicate Owner(pc: Pc) { pc.WWait? || pc.Writing? }

  function Readers(ts: seq<Pc>): nat {
    if ts == [] then 0 else Readers(ts[..|ts| - 1]) + (if Counted(ts[|ts| - 1]) then 1 else 0)
  }

  lemma {:induction false} ReadersMove(ts: seq<Pc>, t: nat, pc: Pc)
    requires t < |ts|
    ensures Readers(ts[t := pc]) == Readers(ts) + (if Counted(pc) then 1 else 0) - (if Counted(ts[t]) then 1 else 0)
  {
    var n := |ts| - 1;
    if t < n {
      ReadersMove(ts[..n], t, pc);
      assert ts[t := pc][..n] == ts[..n][t := pc];
    } else {
      assert ts[t := pc][..n] == ts[..n];
    }
  }

  lemma {:induction false} NoReaders(ts: seq<Pc>)
    ensures Readers(ts) == 0 ==> forall t :: 0 <= t < |ts| ==> !Counted(ts[t])
    ensures (forall t :: 0 <= t < |ts| ==> !Counted(ts[t])) ==> Readers(ts) == 0
  {
    if ts != [] {
      var n := |ts| - 1;
      NoReaders(ts[..n]);
      assert forall t :: 0 <= t < n ==> ts[..n][t] == ts[t];
    }
  }

  // The lock's words say what the threads are doing.
  ghost predicate Inv(s: State) {
    s.read == Readers(s.threads) && 0 <= s.write <= 1 &&
    (forall t, u :: 0 <= t < u < |s.threads| ==> !(Owner(s.threads[t]) && Owner(s.threads[u]))) &&
    (s.write == 1 <==> exists t :: 0 <= t < |s.threads| && Owner(s.threads[t])) &&
    (forall t, u :: 0 <= t < |s.threads| && 0 <= u < |s.threads| && s.threads[t].Writing? ==> !s.threads[u].Reading?) &&
    (forall t :: 0 <= t < |s.threads| && s.threads[t].WTry? ==> s.threads[t].clear == 0)
  }

  lemma StepInv(s: State, m: Move)
    requires Inv(s)
    ensures Inv(Step(s, m, false))
  {
    hide Readers;
    if m.thread < |s.threads| {
      var t := m.thread;
      var n := Step(s, m, false);
      NoReaders(s.threads);
      if n != s {
        ReadersMove(s.threads, t, n.threads[t]);
        Owners(s, n, t);
      }
    }
  }

  // The owner, if any, before and after a thread has moved.
  lemma Owners(s: State, n: State, t: nat)
    requires Inv(s) && t < |s.threads| && exists m: Move :: m.thread == t && n == Step(s, m, false)
    requires n != s
    ensures n.write == 1 <==> exists u :: 0 <= u < |n.threads| && Owner(n.threads[u])
  {
    hide Readers;
    assert forall u :: 0 <= u < |s.threads| && u != t ==> n.threads[u] == s.threads[u];
    if n.write == 1 {
      if Owner(n.threads[t]) {
        assert Owner(n.threads[t]);
      } else {
        var u :| 0 <= u < |s.threads| && Owner(s.threads[u]);
        assert Owner(n.threads[u]);
      }
    }
  }

  lemma {:induction false} RunInv(s: State, ms: seq<Move>)
    requires Start(s)
    ensures Inv(Run(s, ms, false))
  {
    hide Step, Inv;
    if ms == [] {
      StartInv(s);
    } else {
      RunInv(s, ms[..|ms| - 1]);
      StepInv(Run(s, ms[..|ms| - 1], false), ms[|ms| - 1]);
    }
  }

  lemma StartInv(s: State)
    requires Start(s)
    ensures Inv(s)
  { NoReaders(s.threads); }

  // In every run: a writer excludes every reader and every other writer, and read counts
  // the readers between their increment and their decrement.
  lemma Exclusion(s: State, ms: seq<Move>, t: nat, u: nat)
    requires Start(s)
    ensures var n := Run(s, ms, false);
      n.read == Readers(n.threads) &&
      (t < |n.threads| && u < |n.threads| && t != u && n.threads[t].Writing? ==>
        !n.threads[u].Reading? && !Owner(n.threads[u]))
  {
    hide Run, Readers;
    RunInv(s, ms);
  }

  // A thread's own moves, one after the other.
  function Alone(s: State, t: nat, wantsWrite: bool, n: nat): State {
    if n == 0 then s else Step(Alone(s, t, wantsWrite, n - 1), Move(t, wantsWrite), false)
  }

  // With no writer about, four moves of its own take a thread past rwlock_rlock, whatever other readers there
  // are, and one more back.
  lemma ReaderGetsIn(s: State, t: nat)
    requires Inv(s) && t < |s.threads| && s.threads[t] == Idle
    requires forall u :: 0 <= u < |s.threads| ==> !Owner(s.threads[u])
    ensures Alone(s, t, false, 4) == State(0, s.read + 1, s.threads[t := Reading])
    ensures Alone(s, t, false, 5) == s
  {
    hide Readers;
    assert s.write == 0;
    assert Alone(s, t, false, 1) == Goto(s, t, RWait);
    assert Alone(s, t, false, 2) == Goto(s, t, RInc);
    assert Alone(s, t, false, 3) == Goto(s.(read := s.read + 1), t, RCheck);
    assert Alone(s, t, false, 4) == Goto(s.(read := s.read + 1), t, Reading);
    assert s.threads[t := Reading][t := Idle] == s.threads;
  }

  // With no reader and no writer about, three moves of its own take a thread past rwlock_wlock, and one more back.
  lemma WriterGetsIn(s: State, t: nat)
    requires Inv(s) && t < |s.threads| && s.threads[t] == Idle
    requires forall u :: 0 <= u < |s.threads| ==> !Owner(s.threads[u]) && !Counted(s.threads[u])
    ensures Alone(s, t, true, 3) == State(1, 0, s.threads[t := Writing])
    ensures Alone(s, t, true, 4) == s
  {
    NoReaders(s.threads);
    hide Readers;
    assert s.write == 0 && s.read == 0;
    assert Alone(s, t, true, 1) == Goto(s, t, WTry(0));
    assert Alone(s, t, true, 2) == Goto(s.(write := 1), t, WWait);
    assert Alone(s, t, true, 3) == Goto(s.(write := 1), t, Writing);
    assert s.threads[t := Writing][t := Idle] == s.threads;
  }

  lemma RunSnoc(s: State, ms: seq<Move>, m: Move, c11: bool)
    ensures Run(s, ms + [m], c11) == Step(Run(s, ms, c11), m, c11)
  { assert (ms + [m])[..|ms|] == ms; }

  // With the C11 variant of the compare-and-swap, which atomic.h does not select, two writers
  // get in: the loser's failed attempt leaves it expecting 1.
  lemma TwoWriters()
    ensures exists s, ms :: Start(s) && Run(s, ms, true).threads == [Writing, Writing]
  {
    var s0 := State(0, 0, [Idle, Idle]);
    var a, b := Move(0, true), Move(1, true);
    var m1 := [] + [a];
    var m2 := m1 + [a];
    var m3 := m2 + [a];
    var m4 := m3 + [b];
    var m5 := m4 + [b];
    var m6 := m5 + [b];
    var m7 := m6 + [b];
    RunSnoc(s0, [], a, true);
    assert Run(s0, m1, true) == State(0, 0, [WTry(0), Idle]);
    RunSnoc(s0, m1, a, true);
    assert Run(s0, m2, true) == State(1, 0, [WWait, Idle]);
    RunSnoc(s0, m2, a, true);
    assert Run(s0, m3, true) == State(1, 0, [Writing, Idle]);
    RunSnoc(s0, m3, b, true);
    assert Run(s0, m4, true) == State(1, 0, [Writing, WTry(0)]);
    RunSnoc(s0, m4, b, true);
    assert Run(s0, m5, true) == State(1, 0, [Writing, WTry(1)]);
    RunSnoc(s0, m5, b, true);
    assert Run(s0, m6, true) == State(1, 0, [Writing, WWait]);
    RunSnoc(s0, m6, b, true);
    assert Run(s0, m7, true) == State(1, 0, [Writing, Writing]);
    assert Start(s0);
  }
}
