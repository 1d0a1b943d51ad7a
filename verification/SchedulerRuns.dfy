/**
What a run of the scheduler delivers, read off the points that its threads pass alone: which messages are pushed,
with which messages the callback of a service is entered, and which ones are dropped after its end.
*/
module SchedulerRuns {
  import opened Scheduler

  // ---------------------------------------------------------------- what can be seen of a step

  function PointOf(s: State, t: nat): Pc { if t < |s.threads| then s.threads[t] else Idle }

  /** A thread in skynet_mq_push on the queue of c puts its message there. */
  function Puts(s: State, t: nat, c: Id): seq<Message> {
    var pc := PointOf(s, t);
    if pc.Push? && pc.c == c then [pc.msg] else []
  }

  /** A thread in the dispatch of c comes into dispatch_message. */
  function Calls(s: State, t: nat, s': State, c: Id): seq<Message> {
    var pc := PointOf(s', t);
    if PointOf(s, t) == Run(c) && pc.Call? && pc.c == c then [pc.msg] else []
  }

  /** A thread in _drop_queue on the queue of c comes into drop_func. */
  function Discards(s: State, t: nat, s': State, c: Id): seq<Message> {
    var pc := PointOf(s', t);
    if pc.Discard? && pc.c == c && PointOf(s, t) == Drop(c, pc.next) then [pc.msg] else []
  }

  /** A thread finds the handle c and will push its message. */
  function Sends(s: State, t: nat, ch: Choice, c: Id): seq<Message> {
    if t < |s.threads| && s.threads[t].Idle? && ch.Send? && ch.to == c && c < |s.services| && s.services[c].registered
    then [ch.msg] else []
  }

  // ---------------------------------------------------------------- what can be seen of a run

  type Moves = seq<(nat, Choice)>

  function Pushed(s: State, run: Moves, c: Id): seq<Message> {
    if run == [] then []
    else
      var pre, (t, ch) := run[..|run| - 1], run[|run| - 1];
      Pushed(s, pre, c) + Puts(Exec(s, pre), t, c)
  }

  function Called(s: State, run: Moves, c: Id): seq<Message> {
    if run == [] then []
    else
      var pre, (t, ch) := run[..|run| - 1], run[|run| - 1];
      Called(s, pre, c) + Calls(Exec(s, pre), t, Exec(s, run), c)
  }

  function Discarded(s: State, run: Moves, c: Id): seq<Message> {
    if run == [] then []
    else
      var pre, (t, ch) := run[..|run| - 1], run[|run| - 1];
      Discarded(s, pre, c) + Discards(Exec(s, pre), t, Exec(s, run), c)
  }

  function Sent(s: State, run: Moves, c: Id): seq<Message> {
    if run == [] then []
    else
      var pre, (t, ch) := run[..|run| - 1], run[|run| - 1];
      Sent(s, pre, c) + Sends(Exec(s, pre), t, ch, c)
  }

  // ---------------------------------------------------------------- one step

  /** What a step does to the messages of a service, in terms of what can be seen of it. */
  predicate Recorded(v: Service, v': Service, puts: seq<Message>, calls: seq<Message>, discards: seq<Message>) {
    && v'.accepted == v.accepted + puts
    && v'.popped == v.popped + calls + discards
    && calls + discards + v'.msgs == v.msgs + puts
  }

  lemma Unrecorded(v: Service, v': Service)
    requires v'.accepted == v.accepted && v'.popped == v.popped && v'.msgs == v.msgs
    ensures Recorded(v, v', [], [], [])
  {
    assert v.popped + [] + [] == v.popped && [] + [] + v.msgs == v.msgs && v.msgs + [] == v.msgs;
  }

  predicate SameMessages(v: Service, v': Service) {
    v'.accepted == v.accepted && v'.popped == v.popped && v'.msgs == v.msgs
  }

  /** A service that was not created has no messages. */
  predicate Blank(s: State) { forall c :: 0 <= c < |s.services| ==> s.services[c].created || s.services[c] == BLANK }

  lemma KeepsMessages(s: State, pc: Pc, ch: Choice)
    requires 0 < |s.services| && Blank(s) && !pc.Push? && !pc.Run? && !pc.Drop?
    ensures var e := StepOf(s, pc, ch); e.c < |s.services| ==> SameMessages(s.services[e.c], e.v)
  {
  }

  /** A message comes in at the end. */
  lemma PushRecords(s: State, t: nat, c: Id, m: Message, x: Id)
    requires c < |s.services| && x < |s.services| && t < |s.threads| && s.threads[t] == Push(c, m)
    ensures var s' := Apply(s, t, PushStep(s, c, m));
            Recorded(s.services[x], s'.services[x], Puts(s, t, x), Calls(s, t, s', x), Discards(s, t, s', x))
  {
    var v := s.services[x];
    if x == c { assert v.popped + [] + [] == v.popped; } else { Unrecorded(v, v); }
  }

  /** The oldest one goes out, to dispatch_message or to drop_func. */
  lemma PopRecords(s: State, t: nat, c: Id, x: Id)
    requires c < |s.services| && x < |s.services| && t < |s.threads| && s.threads[t] == Run(c)
    ensures var s' := Apply(s, t, PopStep(s, c));
            Recorded(s.services[x], s'.services[x], Puts(s, t, x), Calls(s, t, s', x), Discards(s, t, s', x))
  {
    var v := s.services[x];
    if x == c && v.msgs != [] {
      assert v.msgs == [v.msgs[0]] + v.msgs[1..];
    } else {
      Unrecorded(v, Apply(s, t, PopStep(s, c)).services[x]);
    }
  }

  lemma DropRecords(s: State, t: nat, c: Id, k: Pc, x: Id)
    requires c < |s.services| && x < |s.services| && t < |s.threads| && s.threads[t] == Drop(c, k)
    ensures var s' := Apply(s, t, DropStep(s, c, k));
            Recorded(s.services[x], s'.services[x], Puts(s, t, x), Calls(s, t, s', x), Discards(s, t, s', x))
  {
    var v := s.services[x];
    if x == c && v.msgs != [] {
      assert v.msgs == [v.msgs[0]] + v.msgs[1..];
    } else {
      Unrecorded(v, Apply(s, t, DropStep(s, c, k)).services[x]);
    }
  }

  lemma StepRecords(s: State, t: nat, ch: Choice, c: Id)
    requires Blank(s) && c < |s.services|
    ensures c < |Step(s, t, ch).services|
    ensures var s' := Step(s, t, ch);
            Recorded(s.services[c], s'.services[c], Puts(s, t, c), Calls(s, t, s', c), Discards(s, t, s', c))
  {
    hide PushStep, PopStep, DropStep, Recorded;
    var pc, v := PointOf(s, t), s.services[c];
    if t >= |s.threads| {
      Unrecorded(v, v);
    } else if (pc.Push? || pc.Run? || pc.Drop?) && pc.c < |s.services| {
      Moving(s, pc, ch);
      match pc {
        case Push(x, m) => PushRecords(s, t, x, m, c);
        case Run(x) => PopRecords(s, t, x, c);
        case Drop(x, k) => DropRecords(s, t, x, k, c);
      }
    } else {
      Resting(s, t, ch, c);
    }
  }

  lemma Moving(s: State, pc: Pc, ch: Choice)
    requires 0 < |s.services| && (pc.Push? || pc.Run? || pc.Drop?) && pc.c < |s.services|
    ensures pc.Push? ==> StepOf(s, pc, ch) == PushStep(s, pc.c, pc.msg)
    ensures pc.Run? ==> StepOf(s, pc, ch) == PopStep(s, pc.c)
    ensures pc.Drop? ==> StepOf(s, pc, ch) == DropStep(s, pc.c, pc.next)
  {
  }

  /** At any other point nothing happens to messages. */
  lemma Resting(s: State, t: nat, ch: Choice, c: Id)
    requires Blank(s) && c < |s.services| && t < |s.threads|
    requires var pc := s.threads[t]; (pc.Push? || pc.Run? || pc.Drop?) ==> pc.c >= |s.services|
    ensures var s' := Step(s, t, ch);
            c < |s'.services| &&
            Recorded(s.services[c], s'.services[c], Puts(s, t, c), Calls(s, t, s', c), Discards(s, t, s', c))
  {
    hide StepOf, Recorded;
    var pc := s.threads[t];
    if pc.Push? || pc.Run? || pc.Drop? { Strayed(s, pc, ch); } else { KeepsMessages(s, pc, ch); }
    Unrecorded(s.services[c], Step(s, t, ch).services[c]);
  }

  // ---------------------------------------------------------------- every run

  /** The messages of a service are those pushed: called with, then discarded, then waiting; discarded only after its
      end. */
  predicate Kept(v: Service, pushed: seq<Message>, called: seq<Message>, discarded: seq<Message>) {
    && v.accepted == pushed && v.popped == called + discarded && called + discarded + v.msgs == pushed
    && (discarded != [] ==> v.release)
  }

  lemma KeptStep(v: Service, v': Service, pushed: seq<Message>, called: seq<Message>, discarded: seq<Message>,
                 puts: seq<Message>, calls: seq<Message>, discards: seq<Message>)
    requires Kept(v, pushed, called, discarded) && Recorded(v, v', puts, calls, discards)
    requires (calls != [] ==> !v.release) && (discards != [] ==> v.release) && (v.release ==> v'.release)
    ensures Kept(v', pushed + puts, called + calls, discarded + discards)
  {
    assert calls == [] || discarded == [];
    assert (called + discarded) + calls + discards == (called + calls) + (discarded + discards);
    assert (called + discarded) + (calls + discards + v'.msgs) == (called + discarded) + (v.msgs + puts);
    assert (called + discarded) + (v.msgs + puts) == (called + discarded + v.msgs) + puts;
    assert ((called + discarded) + calls + discards) + v'.msgs == (called + discarded) + (calls + discards + v'.msgs);
  }

  lemma InvBlank(s: State)
    requires Inv(s)
    ensures Blank(s)
  {
    hide Total, InList, History;
    forall c | 0 <= c < |s.services| ensures s.services[c].created || s.services[c] == BLANK {
      assert SoundAt(s, c);
    }
  }

  /** A callback is entered before the end of its service, messages are discarded after it, and the end is final. */
  lemma EndIsFinal(s: State, t: nat, ch: Choice, c: Id)
    requires Inv(s) && c < |s.services| && c < |Step(s, t, ch).services|
    ensures var s' := Step(s, t, ch);
            && (Calls(s, t, s', c) != [] ==> !s.services[c].release)
            && (Discards(s, t, s', c) != [] ==> s.services[c].release)
            && (s.services[c].release ==> s'.services[c].release)
  {
    hide Total, InList, History, StepOf;
    assert SoundAt(s, c);
    if t < |s.threads| {
      OnlyLive(s, t, c);
      TotalAtLeast(s.threads, t, t, c, ADrop);
      ReleaseStays(s, s.threads[t], ch);
    }
  }

  lemma ReleaseStays(s: State, pc: Pc, ch: Choice)
    requires 0 < |s.services| && Inv(s)
    ensures var e := StepOf(s, pc, ch); e.c < |s.services| && s.services[e.c].release ==> e.v.release
  {
    InvBlank(s);
    hide Inv;
  }

  /** In every run, the callback of a service is entered with the messages pushed to it, one after the other in the
      order in which they were pushed; those behind are discarded after its end, in order, or still wait. */
  lemma {:induction false} Delivered(services: nat, threads: nat, run: Moves, c: Id)
    requires c < services
    ensures var s0 := Start(services, threads);
            var s := Exec(s0, run);
            && |s.services| == services
            && Kept(s.services[c], Pushed(s0, run, c), Called(s0, run, c), Discarded(s0, run, c))
  {
    hide Step, Inv, Kept, Recorded, Puts, Calls, Discards;
    var s0 := Start(services, threads);
    if run == [] {
      KeptStart(services, threads, c);
    } else {
      var n := |run| - 1;
      var pre, t, ch := run[..n], run[n].0, run[n].1;
      Delivered(services, threads, pre, c);
      RunInv(services, threads, pre);
      var s := Exec(s0, pre);
      InvBlank(s);
      StepInv(s, t, ch);
      StepRecords(s, t, ch, c);
      EndIsFinal(s, t, ch, c);
      var s' := Step(s, t, ch);
      KeptStep(s.services[c], s'.services[c], Pushed(s0, pre, c), Called(s0, pre, c), Discarded(s0, pre, c),
               Puts(s, t, c), Calls(s, t, s', c), Discards(s, t, s', c));
    }
  }

  lemma KeptStart(services: nat, threads: nat, c: Id)
    requires c < services
    ensures Kept(Start(services, threads).services[c], [], [], [])
  {
  }

  /** As a law on the run alone. */
  lemma InOrder(services: nat, threads: nat, run: Moves, c: Id)
    requires c < services
    ensures var s0 := Start(services, threads);
            && Called(s0, run, c) <= Pushed(s0, run, c)
            && Called(s0, run, c) + Discarded(s0, run, c) <= Pushed(s0, run, c)
  {
    hide Exec, Pushed, Called, Discarded;
    Delivered(services, threads, run, c);
  }

  // ---------------------------------------------------------------- what is sent is pushed

  /** How often a thread has yet to push m to c. */
  function Owed(pc: Pc, c: Id, m: Message): nat {
    match pc
    case Push(x, y) => If(x == c && y == m)
    case MqRelease(_, k) => Owed(k, c, m)
    case Drop(_, k) => Owed(k, c, m)
    case Discard(_, _, k) => Owed(k, c, m)
    case Rel(_, k) => Owed(k, c, m)
    case Del(_, k) => Owed(k, c, m)
    case _ => 0
  }

  function AllOwed(ts: seq<Pc>, c: Id, m: Message): nat {
    if ts == [] then 0 else Owed(ts[0], c, m) + AllOwed(ts[1..], c, m)
  }

  function Count(ms: seq<Message>, m: Message): nat { multiset(ms)[m] }

  lemma CountJoin(a: seq<Message>, b: seq<Message>, m: Message)
    ensures Count(a + b, m) == Count(a, m) + Count(b, m)
  {
  }

  lemma {:induction false} OwedUpdate(ts: seq<Pc>, t: nat, pc: Pc, c: Id, m: Message)
    requires t < |ts|
    ensures AllOwed(ts[t := pc], c, m) + Owed(ts[t], c, m) == AllOwed(ts, c, m) + Owed(pc, c, m)
  {
    hide Owed;
    if t == 0 {
      assert ts[t := pc][1..] == ts[1..];
    } else {
      assert ts[t := pc][1..] == ts[1..][t - 1 := pc];
      OwedUpdate(ts[1..], t - 1, pc, c, m);
    }
  }

  /** A thread comes to owe a push by a send that finds the handle, and the push pays it. */
  lemma OwedStep(s: State, t: nat, ch: Choice, c: Id, m: Message)
    requires c < |s.services| && t < |s.threads|
    ensures var pc, e := s.threads[t], StepOf(s, s.threads[t], ch);
            && e.c < |s.services|
            && Owed(e.pc, c, m) + Count(Puts(s, t, c), m) == Owed(pc, c, m) + Count(Sends(s, t, ch, c), m)
  {
    hide StepOf, Count;
    var pc := s.threads[t];
    Ones(m);
    if pc.Idle? {
      StartOwes(s, t, ch, c, m);
    } else if pc.Push? {
      PushOwes(s, pc, ch, c, m);
    } else {
      OtherOwes(s, pc, ch, c, m);
    }
  }

  lemma PushOwes(s: State, pc: Pc, ch: Choice, c: Id, m: Message)
    requires c < |s.services| && pc.Push?
    ensures var e := StepOf(s, pc, ch);
            && e.c < |s.services|
            && Owed(e.pc, c, m) + (if pc.c == c then If(pc.msg == m) else 0) == Owed(pc, c, m)
  {
    OwedNext(c, m);
  }

  lemma OtherOwes(s: State, pc: Pc, ch: Choice, c: Id, m: Message)
    requires c < |s.services| && !pc.Idle? && !pc.Push?
    ensures StepOf(s, pc, ch).c < |s.services| && Owed(StepOf(s, pc, ch).pc, c, m) == Owed(pc, c, m)
  {
    OwedNext(c, m);
  }

  lemma Ones(m: Message)
    ensures Count([], m) == 0
    ensures forall x :: Count([x], m) == If(x == m)
  {
  }

  lemma StartOwes(s: State, t: nat, ch: Choice, c: Id, m: Message)
    requires c < |s.services| && t < |s.threads| && s.threads[t] == Idle
    ensures StepOf(s, Idle, ch).c < |s.services|
    ensures Owed(StepOf(s, Idle, ch).pc, c, m) == Count(Sends(s, t, ch, c), m) && Owed(Idle, c, m) == 0
    ensures Puts(s, t, c) == []
  {
    Ones(m);
    OwedNext(c, m);
    IdleStep(s, ch);
  }

  lemma OwedNext(c: Id, m: Message)
    ensures forall x :: Owed(Rel(x, Idle), c, m) == Owed(Rel(x, Fetch), c, m) == Owed(Rel(x, Abort(x)), c, m) == 0
    ensures forall x :: Owed(Rel(x, MqRelease(x, Idle)), c, m) == Owed(MqRelease(x, Idle), c, m) == 0
    ensures forall x :: Owed(MqRelease(x, Fetch), c, m) == 0
    ensures forall x, q :: Owed(Rel(x, Hold(q)), c, m) == 0
    ensures forall x, ret :: Owed(Del(x, LaunchPush(x, ret)), c, m) == 0
  {
    forall x: Id ensures Owed(Rel(x, MqRelease(x, Idle)), c, m) == Owed(Rel(x, Abort(x)), c, m) == 0 {
      assert Owed(MqRelease(x, Idle), c, m) == Owed(Idle, c, m);
      assert Owed(Rel(x, Abort(x)), c, m) == Owed(Abort(x), c, m);
    }
  }

  /** In every run, every message sent to a handle that was found is pushed, once, or is about to be. */
  lemma {:induction false} SentIsPushed(services: nat, threads: nat, run: Moves, c: Id, m: Message)
    requires c < services
    ensures var s0 := Start(services, threads);
            var s := Exec(s0, run);
            && |s.services| == services
            && Count(Sent(s0, run, c), m) == Count(Pushed(s0, run, c), m) + AllOwed(s.threads, c, m)
  {
    hide StepOf, Inv, Puts, Sends, Owed, AllOwed, Count;
    var s0 := Start(services, threads);
    if run == [] {
      NothingOwed(threads, c, m);
    } else {
      var n := |run| - 1;
      var pre, t, ch := run[..n], run[n].0, run[n].1;
      SentIsPushed(services, threads, pre, c, m);
      var s := Exec(s0, pre);
      CountJoin(Sent(s0, pre, c), Sends(s, t, ch, c), m);
      CountJoin(Pushed(s0, pre, c), Puts(s, t, c), m);
      if t < |s.threads| {
        OwedStep(s, t, ch, c, m);
        OwedUpdate(s.threads, t, StepOf(s, s.threads[t], ch).pc, c, m);
      } else {
        NoMove(s, t, ch, c);
      }
    }
  }

  lemma NoMove(s: State, t: nat, ch: Choice, c: Id)
    requires t >= |s.threads|
    ensures Puts(s, t, c) == [] && Sends(s, t, ch, c) == []
  {
  }

  lemma {:induction false} NothingOwed(n: nat, c: Id, m: Message)
    ensures AllOwed(AllIdle(n), c, m) == 0 && Count([], m) == 0
  {
    if n > 0 {
      assert AllIdle(n)[1..] == AllIdle(n - 1);
      NothingOwed(n - 1, c, m);
    }
  }

  // ---------------------------------------------------------------- threads get somewhere

  /** One thread moves n times. */
  function Alone(s: State, t: nat, n: nat): State {
    if n == 0 then s else Step(Alone(s, t, n - 1), t, Work)
  }

  lemma {:induction false} AloneFirst(s: State, t: nat, n: nat)
    ensures Alone(s, t, n + 1) == Alone(Step(s, t, Work), t, n)
  {
    hide Step;
    if n > 0 {
      AloneFirst(s, t, n - 1);
    }
  }

  /** A service that can be found is called with its oldest message once a worker gets its queue. */
  lemma Served(s: State, t: nat, c: Id)
    requires t < |s.threads| && s.threads[t] == Idle && c < |s.services| && s.global != [] && s.global[0] == c
    requires s.services[c].registered && s.services[c].msgs != []
    ensures |Alone(s, t, 4).threads| == |s.threads| && Alone(s, t, 4).threads[t] == Call(c, s.services[c].msgs[0])
    ensures |Alone(s, t, 4).services| == |s.services| && Alone(s, t, 4).services[c].msgs == s.services[c].msgs[1..]
  {
    hide Alone;
    AloneFour(s, t);
    var s1 := Step(s, t, Work);
    assert s1 == State(s.services, s.global, s.threads[t := Fetch]);
    var s2 := Step(s1, t, Work);
    assert s2 == State(s.services, s.global[1..], s.threads[t := Hold(c)]);
    var s3 := Step(s2, t, Work);
    assert s3.threads[t] == Run(c) && s3.services[c].msgs == s.services[c].msgs;
  }

  lemma AloneFour(s: State, t: nat)
    ensures Alone(s, t, 4) == Step(Step(Step(Step(s, t, Work), t, Work), t, Work), t, Work)
  {
    assert Alone(s, t, 1) == Step(Alone(s, t, 0), t, Work);
    assert Alone(s, t, 2) == Step(Alone(s, t, 1), t, Work);
    assert Alone(s, t, 3) == Step(Alone(s, t, 2), t, Work);
  }

  /** The drop loop comes to its end: the queue is freed. */
  lemma {:induction false} Dropped(s: State, t: nat, c: Id, k: Pc)
    requires t < |s.threads| && s.threads[t] == Drop(c, k) && c < |s.services|
    ensures var s' := Alone(s, t, 2 * |s.services[c].msgs| + 1);
            && c < |s'.services| && s'.services[c].freed && s'.services[c].msgs == []
            && t < |s'.threads| && s'.threads[t] == k
    decreases |s.services[c].msgs|
  {
    hide Alone;
    var v := s.services[c];
    if v.msgs == [] {
      AloneFirst(s, t, 0);
      AloneNone(Step(s, t, Work), t);
    } else {
      var s1 := Step(s, t, Work);
      assert s1.threads[t] == Discard(c, v.msgs[0], k) && s1.services[c].msgs == v.msgs[1..];
      var s2 := Step(s1, t, Work);
      assert s2.threads[t] == Drop(c, k) && s2.services[c].msgs == v.msgs[1..];
      Dropped(s2, t, c, k);
      var n := 2 * |v.msgs[1..]| + 1;
      AloneFirst(s, t, n + 1);
      AloneFirst(s1, t, n);
    }
  }

  lemma AloneNone(s: State, t: nat)
    ensures Alone(s, t, 0) == s
  {
  }

  /** The queue of a deleted service is freed once a worker gets it, and its messages are dropped. */
  lemma Reclaimed(s: State, t: nat, c: Id)
    requires Inv(s) && t < |s.threads| && s.threads[t] == Idle && c < |s.services| && s.services[c].release
    requires s.global != [] && s.global[0] == c
    ensures var s' := Alone(s, t, 2 * |s.services[c].msgs| + 5);
            c < |s'.services| && s'.services[c].freed && s'.services[c].msgs == []
  {
    hide Alone, Inv;
    var v := s.services[c];
    NotFound(s, c);
    var s1 := Step(s, t, Work);
    assert s1 == State(s.services, s.global, s.threads[t := Fetch]);
    var s2 := Step(s1, t, Work);
    assert s2 == State(s.services, s.global[1..], s.threads[t := Hold(c)]);
    var s3 := Step(s2, t, Work);
    assert s3.threads[t] == MqRelease(c, Fetch) && s3.services[c] == v;
    var s4 := Step(s3, t, Work);
    assert s4.threads[t] == Drop(c, Fetch) && s4.services[c] == v;
    Dropped(s4, t, c, Fetch);
    var n := 2 * |v.msgs| + 1;
    AloneFirst(s, t, n + 3);
    AloneFirst(s1, t, n + 2);
    AloneFirst(s2, t, n + 1);
    AloneFirst(s3, t, n);
  }

  lemma NotFound(s: State, c: Id)
    requires Inv(s) && c < |s.services| && s.services[c].release
    ensures !s.services[c].registered
  {
    hide Total, InList, History;
    assert SoundAt(s, c);
  }

  /** What an idle thread can be asked to do. */
  lemma Requests(s: State, t: nat, c: Id, m: Message)
    requires t < |s.threads| && s.threads[t] == Idle && c < |s.services|
    ensures var s' := Step(s, t, Send(c, m));
            if s.services[c].registered then s'.threads == s.threads[t := Push(c, m)]
            else s' == s
    ensures var s' := Step(s, t, Kill(c));
            |s'.services| == |s.services| && !s'.services[c].registered && s'.services[c].msgs == s.services[c].msgs
    ensures var s' := Step(s, t, Launch(c));
            !s.services[c].created ==>
              && s'.threads == s.threads[t := Init(c)] && |s'.services| == |s.services|
              && s'.services[c].created && s'.services[c].registered && s'.services[c].ref == 2
  {
  }
}
