/**
The message scheduler of skynet-src/skynet_mq.c and skynet-src/skynet_server.c: a queue of messages per service,
a global list of the queues that have work, any number of threads, reference counts on services and a deferred
release of queues. One step of one thread is one section under a lock or one atomic operation. A service, its
handle and its queue have the same number, so handles are not reused.
*/
module Scheduler {

  type Id = nat
  datatype Message = Message(source: nat, session: int, data: nat, size: nat)

  datatype Fate = Dispatched | FreedWithoutCallback | DroppedWithError

  /** struct skynet_context, struct message_queue and the service's entry in the handle table. The last three
      fields only record history: every message pushed, every message popped, and what became of the latter. */
  datatype Service = Service(
    created: bool,
    ref: int,
    registered: bool,
    init: bool,
    msgs: seq<Message>,
    inGlobal: bool,
    release: bool,
    freed: bool,
    accepted: seq<Message>,
    popped: seq<Message>,
    fates: seq<Fate>)

  /** Where a thread is. Each point names the services it works on; `next` is where it goes on to. */
  datatype Pc =
    | Idle
    | Push(c: Id, msg: Message)     // skynet_context_push after the grab
    | Hold(c: Id)                   // skynet_context_message_dispatch with a queue in hand
    | Run(c: Id)                    // its loop, before skynet_mq_pop
    | Call(c: Id, msg: Message)     // its loop, in dispatch_message with the message popped
    | Next(c: Id)                   // after the loop, before skynet_globalmq_pop
    | Swap(c: Id, other: Id)        // another queue was there: c goes back to the global list
    | Fetch                         // before the skynet_globalmq_pop that ends a dispatch
    | MqRelease(c: Id, next: Pc)    // skynet_mq_release
    | Drop(c: Id, next: Pc)         // the loop of _drop_queue, before skynet_mq_pop
    | Discard(c: Id, msg: Message, next: Pc) // its drop_func on the message popped
    | Rel(c: Id, next: Pc)          // skynet_context_release
    | Del(c: Id, next: Pc)          // delete_context
    | Init(c: Id)                   // skynet_context_new after registration
    | SetInit(c: Id)                // its store to ctx->init, after it gave up its reference
    | LaunchPush(c: Id, ret: bool)  // its skynet_globalmq_push; ret tells whether the context was still there
    | Report(c: Id)                 // its last skynet_error, which reads the context, and its caller's use of it
    | Abort(c: Id)                  // its skynet_handle_retire after a failed initialisation

  datatype State = State(services: seq<Service>, global: seq<Id>, threads: seq<Pc>)

  /** What is left open by the code: what an idle thread starts, how initialisation ends, whether a callback is
      set, and whether the loop of a dispatch goes on. */
  datatype Choice =
    | Send(to: Id, msg: Message) | Kill(victim: Id) | Peek(at: Id) | Launch(newborn: Id) | Work
    | Outcome(ok: bool, more: bool)

  /** One step: the new service record of one service, the new global list and the thread's new point. */
  datatype Effect = Effect(c: Id, v: Service, global: seq<Id>, pc: Pc)

  const BLANK := Service(false, 0, false, false, [], false, false, false, [], [], [])

  // ---------------------------------------------------------------- the steps

  function Stay(s: State, pc: Pc): Effect
    requires 0 < |s.services|
  {
    Effect(0, s.services[0], s.global, pc)
  }

  /** skynet_handle_grab: the table's entry gives a new reference. */
  function Grab(s: State, c: Id, found: Pc, missing: Pc): Effect
    requires c < |s.services|
  {
    var v := s.services[c];
    if v.registered then Effect(c, v.(ref := v.ref + 1), s.global, found) else Effect(c, v, s.global, missing)
  }

  function StartStep(s: State, ch: Choice): Effect
    requires 0 < |s.services|
  {
    match ch
    case Send(c, m) => if c < |s.services| then Grab(s, c, Push(c, m), Idle) else Stay(s, Idle)
    case Kill(c) => if c < |s.services| then RetireStep(s, c, Idle) else Stay(s, Idle)
    case Peek(c) => if c < |s.services| then Grab(s, c, Rel(c, Idle), Idle) else Stay(s, Idle)
    case Launch(c) =>
      if c < |s.services| && !s.services[c].created then
        Effect(c, BLANK.(created := true, ref := 2, registered := true, inGlobal := true), s.global, Init(c))
      else Stay(s, Idle)
    case _ => Stay(s, Fetch)
  }

  /** skynet_mq_push */
  function PushStep(s: State, c: Id, m: Message): Effect
    requires c < |s.services|
  {
    var v := s.services[c];
    var v' := v.(msgs := v.msgs + [m], accepted := v.accepted + [m], inGlobal := true);
    Effect(c, v', if v.inGlobal then s.global else s.global + [c], Rel(c, Idle))
  }

  /** skynet_mq_pop in the loop of a dispatch */
  function PopStep(s: State, c: Id): Effect
    requires c < |s.services|
  {
    var v := s.services[c];
    if v.msgs != [] then
      Effect(c, v.(msgs := v.msgs[1..], popped := v.popped + [v.msgs[0]]), s.global, Call(c, v.msgs[0]))
    else
      Effect(c, v.(inGlobal := false), s.global, Rel(c, Fetch))
  }

  function CallStep(s: State, c: Id, ok: bool, more: bool): Effect
    requires c < |s.services|
  {
    var v := s.services[c];
    Effect(c, v.(fates := v.fates + [if ok then Dispatched else FreedWithoutCallback]), s.global,
           if more then Run(c) else Next(c))
  }

  /** skynet_mq_mark_release, and the end of the context */
  function DelStep(s: State, c: Id, k: Pc): Effect
    requires c < |s.services|
  {
    var v := s.services[c];
    Effect(c, v.(release := true), if v.inGlobal then s.global else s.global + [c], k)
  }

  /** skynet_context_release */
  function RelStep(s: State, c: Id, k: Pc): Effect
    requires c < |s.services|
  {
    var v := s.services[c];
    Effect(c, v.(ref := v.ref - 1), s.global, if v.ref == 1 then Del(c, k) else k)
  }

  /** skynet_mq_release */
  function MqReleaseStep(s: State, c: Id, k: Pc): Effect
    requires c < |s.services|
  {
    var v := s.services[c];
    if v.release then Effect(c, v, s.global, Drop(c, k)) else Effect(c, v, s.global + [c], k)
  }

  /** One round of _drop_queue; the empty queue is freed. */
  function DropStep(s: State, c: Id, k: Pc): Effect
    requires c < |s.services|
  {
    var v := s.services[c];
    if v.msgs != [] then
      Effect(c, v.(msgs := v.msgs[1..], popped := v.popped + [v.msgs[0]]), s.global, Discard(c, v.msgs[0], k))
    else
      Effect(c, v.(inGlobal := false, freed := true), s.global, k)
  }

  /** drop_message: an error goes to the sender. */
  function DiscardStep(s: State, c: Id, k: Pc): Effect
    requires c < |s.services|
  {
    var v := s.services[c];
    Effect(c, v.(fates := v.fates + [DroppedWithError]), s.global, Drop(c, k))
  }

  /** skynet_context_new after the initialisation: on success the creator's reference goes. */
  function InitStep(s: State, c: Id, ok: bool): Effect
    requires c < |s.services|
  {
    var v := s.services[c];
    if !ok then Effect(c, v, s.global, Rel(c, Abort(c)))
    else if v.ref == 1 then Effect(c, v.(ref := 0), s.global, Del(c, LaunchPush(c, false)))
    else Effect(c, v.(ref := v.ref - 1), s.global, SetInit(c))
  }

  /** ctx->init = true, without a reference. */
  function SetInitStep(s: State, c: Id): Effect
    requires c < |s.services|
  {
    Effect(c, s.services[c].(init := true), s.global, LaunchPush(c, true))
  }

  /** skynet_handle_retire: the table's reference is released. */
  function RetireStep(s: State, c: Id, k: Pc): Effect
    requires c < |s.services|
  {
    var v := s.services[c];
    if v.registered then Effect(c, v.(registered := false), s.global, Rel(c, k)) else Effect(c, v, s.global, k)
  }

  /** skynet_globalmq_pop */
  function FetchStep(s: State, none: Pc, some: Id -> Pc): Effect
    requires 0 < |s.services|
  {
    if s.global == [] then Stay(s, none)
    else Effect(0, s.services[0], s.global[1..], some(s.global[0]))
  }

  function StepOf(s: State, pc: Pc, ch: Choice): Effect
    requires 0 < |s.services|
  {
    var ok, more := ch.Outcome? && ch.ok, ch.Outcome? && ch.more;
    if !pc.Idle? && !pc.Fetch? && pc.c >= |s.services| then Stay(s, pc)
    else
      match pc
      case Idle => StartStep(s, ch)
      case Push(c, m) => PushStep(s, c, m)
      case Hold(c) => Grab(s, c, Run(c), MqRelease(c, Fetch))
      case Run(c) => PopStep(s, c)
      case Call(c, _) => CallStep(s, c, ok, more)
      case Next(c) => FetchStep(s, Rel(c, Hold(c)), (q: Id) => Swap(c, q))
      case Swap(c, q) => Effect(c, s.services[c], s.global + [c], Rel(c, Hold(q)))
      case Fetch => FetchStep(s, Idle, (q: Id) => Hold(q))
      case MqRelease(c, k) => MqReleaseStep(s, c, k)
      case Drop(c, k) => DropStep(s, c, k)
      case Discard(c, _, k) => DiscardStep(s, c, k)
      case Rel(c, k) => RelStep(s, c, k)
      case Del(c, k) => DelStep(s, c, k)
      case Init(c) => InitStep(s, c, ok)
      case SetInit(c) => SetInitStep(s, c)
      case LaunchPush(c, ret) => Effect(c, s.services[c], s.global + [c], if ret then Report(c) else Idle)
      case Report(c) => Stay(s, Idle)
      case Abort(c) => RetireStep(s, c, MqRelease(c, Idle))
  }

  function Apply(s: State, t: nat, e: Effect): State
    requires t < |s.threads|
  {
    if e.c < |s.services| then State(s.services[e.c := e.v], e.global, s.threads[t := e.pc]) else s
  }

  function Step(s: State, t: nat, ch: Choice): State {
    if t < |s.threads| && 0 < |s.services| then Apply(s, t, StepOf(s, s.threads[t], ch)) else s
  }

  // ---------------------------------------------------------------- what the threads hold

  /** What a thread can have of a service: a reference it owes a release for, its queue in hand, a deletion to
      carry out, a launch that may yet retire it, a dispatch, a message popped, a drop loop over its queue. */
  datatype Kind = ARef | AQueue | ADeletion | ALaunch | ADispatch | ACallback | ADrop

  function If(b: bool): nat { if b then 1 else 0 }

  function Held(pc: Pc, c: Id, j: Kind): nat {
    match pc
    case Idle => 0
    case Fetch => 0
    case Push(x, _) => If(x == c && j == ARef)
    case Hold(x) => If(x == c && j == AQueue)
    case Run(x) => If(x == c && (j == ARef || j == AQueue || j == ADispatch))
    case Call(x, _) => If(x == c && (j == ARef || j == AQueue || j == ADispatch || j == ACallback))
    case Next(x) => If(x == c && (j == ARef || j == AQueue))
    case Swap(x, q) => If(x == c && (j == ARef || j == AQueue)) + If(q == c && j == AQueue)
    case Init(x) => If(x == c && (j == ARef || j == AQueue || j == ALaunch))
    case SetInit(x) => If(x == c && (j == AQueue || j == ALaunch))
    case LaunchPush(x, _) => If(x == c && j == AQueue)
    case Report(x) => 0
    case MqRelease(x, k) => If(x == c && j == AQueue) + Held(k, c, j)
    case Drop(x, k) => If(x == c && (j == AQueue || j == ADrop)) + Held(k, c, j)
    case Discard(x, _, k) => If(x == c && (j == AQueue || j == ADrop || j == ACallback)) + Held(k, c, j)
    case Rel(x, k) => If(x == c && j == ARef) + Held(k, c, j)
    case Del(x, k) => If(x == c && j == ADeletion) + Held(k, c, j)
    case Abort(x) => If(x == c && (j == AQueue || j == ALaunch))
  }

  function Total(ts: seq<Pc>, c: Id, j: Kind): nat {
    if ts == [] then 0 else Held(ts[0], c, j) + Total(ts[1..], c, j)
  }

  /** How often a queue is in the global list. */
  function InList(g: seq<Id>, c: Id): nat {
    if g == [] then 0 else If(g[0] == c) + InList(g[1..], c)
  }

  // ---------------------------------------------------------------- the invariant

  /** Every message pushed is popped once, in the order pushed, and everything popped meets one fate, except
      that a message in a thread's hand has not met its fate yet. */
  predicate History(v: Service, calls: int) {
    v.accepted == v.popped + v.msgs && |v.popped| == |v.fates| + calls
  }

  /** The invariant for one service, given what all threads together have of it, and how often its queue is in
      the global list or in a hand. */
  predicate Sound(v: Service, refs: int, places: int, deletions: int, launches: int, dispatches: int,
                  drops: int)
  {
    if !v.created then v == BLANK && refs == places == deletions == launches == dispatches == drops == 0
    else
      // every reference is held by the handle table or by a thread
      && v.ref == refs + If(v.registered)
      // the queue is in exactly one place, the global list or one hand, while it has work, is worked on or
      // waits for its release; it is nowhere while it is idle and after it was freed
      && places == If(!v.freed && (v.inGlobal || v.release))
      // the last reference is given up once, and the service is then deleted once
      && deletions + If(v.release) == If(v.ref == 0)
      && (drops > 0 ==> v.release)
      // a service that can be found is ready, unless it is still being launched
      && (v.registered ==> v.init || launches > 0)
      && (dispatches > 0 ==> v.init)
      // an idle queue is empty: no wakeup is lost
      && (!v.inGlobal && !v.release ==> v.msgs == [])
      && (v.freed ==> v.release && v.msgs == [])
  }

  predicate SoundAt(s: State, c: Id)
    requires c < |s.services|
  {
    && Sound(s.services[c], Total(s.threads, c, ARef), Total(s.threads, c, AQueue) + InList(s.global, c),
             Total(s.threads, c, ADeletion), Total(s.threads, c, ALaunch), Total(s.threads, c, ADispatch),
             Total(s.threads, c, ADrop))
    && History(s.services[c], Total(s.threads, c, ACallback))
  }

  predicate Inv(s: State) {
    forall c :: 0 <= c < |s.services| ==> SoundAt(s, c)
  }

  // ---------------------------------------------------------------- every step keeps it

  lemma {:induction false} TotalUpdate(ts: seq<Pc>, t: nat, pc: Pc, c: Id, j: Kind)
    requires t < |ts|
    ensures Total(ts[t := pc], c, j) == Total(ts, c, j) - Held(ts[t], c, j) + Held(pc, c, j)
    ensures Held(ts[t], c, j) <= Total(ts, c, j)
  {
    hide Held;
    if t == 0 {
      assert ts[t := pc][1..] == ts[1..];
    } else {
      assert ts[t := pc][1..] == ts[1..][t - 1 := pc];
      TotalUpdate(ts[1..], t - 1, pc, c, j);
    }
  }

  lemma {:induction false} InListSnoc(g: seq<Id>, x: Id, c: Id)
    ensures InList(g + [x], c) == InList(g, c) + If(x == c)
  {
    if g != [] {
      assert (g + [x])[1..] == g[1..] + [x];
      InListSnoc(g[1..], x, c);
    } else {
      assert g + [x] == [x];
    }
  }

  /** The totals before and after a thread moves from ts[t] to pc. */
  predicate Moved(ts: seq<Pc>, t: nat, pc: Pc, c: Id, j: Kind)
    requires t < |ts|
  {
    && Total(ts[t := pc], c, j) == Total(ts, c, j) - Held(ts[t], c, j) + Held(pc, c, j)
    && Held(ts[t], c, j) <= Total(ts, c, j)
  }

  lemma AllMoved(ts: seq<Pc>, t: nat, pc: Pc, c: Id)
    requires t < |ts|
    ensures Moved(ts, t, pc, c, ARef) && Moved(ts, t, pc, c, AQueue) && Moved(ts, t, pc, c, ADeletion)
    ensures Moved(ts, t, pc, c, ALaunch) && Moved(ts, t, pc, c, ADispatch) && Moved(ts, t, pc, c, ACallback)
    ensures Moved(ts, t, pc, c, ADrop)
  {
    hide Total, Held;
    TotalUpdate(ts, t, pc, c, ARef);
    TotalUpdate(ts, t, pc, c, AQueue);
    TotalUpdate(ts, t, pc, c, ADeletion);
    TotalUpdate(ts, t, pc, c, ALaunch);
    TotalUpdate(ts, t, pc, c, ADispatch);
    TotalUpdate(ts, t, pc, c, ACallback);
    TotalUpdate(ts, t, pc, c, ADrop);
  }

  predicate At(s: State, t: nat, pc: Pc, c: Id) {
    t < |s.threads| && s.threads[t] == pc && c < |s.services| && SoundAt(s, c)
  }

  lemma Nothing(c: Id)
    ensures forall j :: Held(Idle, c, j) == 0 && Held(Fetch, c, j) == 0
    ensures forall j :: Held(Rel(c, Idle), c, j) == Held(Rel(c, Fetch), c, j) == If(j == ARef)
    ensures forall j :: Held(Del(c, LaunchPush(c, false)), c, j) == If(j == ADeletion || j == AQueue)
  {
  }

  lemma HistoryPush(v: Service, m: Message, calls: int)
    requires History(v, calls)
    ensures History(v.(msgs := v.msgs + [m], accepted := v.accepted + [m], inGlobal := true), calls)
  {
    assert v.popped + v.msgs + [m] == v.popped + (v.msgs + [m]);
  }

  lemma HistoryPop(v: Service, calls: int)
    requires History(v, calls) && v.msgs != []
    ensures History(v.(msgs := v.msgs[1..], popped := v.popped + [v.msgs[0]]), calls + 1)
  {
    assert v.popped + v.msgs == (v.popped + [v.msgs[0]]) + v.msgs[1..];
  }

  lemma HistorySame(v: Service, v': Service, calls: int)
    requires v'.accepted == v.accepted && v'.popped == v.popped && v'.fates == v.fates && v'.msgs == v.msgs
    ensures History(v', calls) == History(v, calls)
  {
  }

  lemma PushKeeps(s: State, t: nat, c: Id, m: Message)
    requires At(s, t, Push(c, m), c)
    ensures SoundAt(Apply(s, t, PushStep(s, c, m)), c)
  {
    hide InList, Total, History;
    AllMoved(s.threads, t, Rel(c, Idle), c);
    Nothing(c);
    InListSnoc(s.global, c, c);
    HistoryPush(s.services[c], m, Total(s.threads, c, ACallback));
  }

  lemma PopKeeps(s: State, t: nat, c: Id)
    requires At(s, t, Run(c), c)
    ensures SoundAt(Apply(s, t, PopStep(s, c)), c)
  {
    hide InList, Total, History;
    AllMoved(s.threads, t, PopStep(s, c).pc, c);
    Nothing(c);
    var v := s.services[c];
    if v.msgs != [] {
      HistoryPop(v, Total(s.threads, c, ACallback));
    } else {
      HistorySame(v, PopStep(s, c).v, Total(s.threads, c, ACallback));
    }
  }

  lemma CallKeeps(s: State, t: nat, c: Id, m: Message, ok: bool, more: bool)
    requires At(s, t, Call(c, m), c)
    ensures SoundAt(Apply(s, t, CallStep(s, c, ok, more)), c)
  {
    hide InList, Total;
    AllMoved(s.threads, t, CallStep(s, c, ok, more).pc, c);
  }

  lemma DelKeeps(s: State, t: nat, c: Id, k: Pc)
    requires At(s, t, Del(c, k), c)
    ensures SoundAt(Apply(s, t, DelStep(s, c, k)), c)
  {
    hide InList, Total, History;
    AllMoved(s.threads, t, k, c);
    InListSnoc(s.global, c, c);
    HistorySame(s.services[c], DelStep(s, c, k).v, Total(s.threads, c, ACallback));
  }

  lemma RelKeeps(s: State, t: nat, c: Id, k: Pc)
    requires At(s, t, Rel(c, k), c)
    ensures SoundAt(Apply(s, t, RelStep(s, c, k)), c)
  {
    hide InList, Total, History;
    AllMoved(s.threads, t, RelStep(s, c, k).pc, c);
    HistorySame(s.services[c], RelStep(s, c, k).v, Total(s.threads, c, ACallback));
  }

  lemma MqReleaseKeeps(s: State, t: nat, c: Id, k: Pc)
    requires At(s, t, MqRelease(c, k), c)
    ensures SoundAt(Apply(s, t, MqReleaseStep(s, c, k)), c)
  {
    hide InList, Total, History;
    AllMoved(s.threads, t, MqReleaseStep(s, c, k).pc, c);
    InListSnoc(s.global, c, c);
  }

  lemma DropKeeps(s: State, t: nat, c: Id, k: Pc)
    requires At(s, t, Drop(c, k), c)
    ensures SoundAt(Apply(s, t, DropStep(s, c, k)), c)
  {
    hide InList, Total, History;
    AllMoved(s.threads, t, DropStep(s, c, k).pc, c);
    var v := s.services[c];
    if v.msgs != [] {
      HistoryPop(v, Total(s.threads, c, ACallback));
    } else {
      HistorySame(v, DropStep(s, c, k).v, Total(s.threads, c, ACallback));
    }
  }

  lemma DiscardKeeps(s: State, t: nat, c: Id, m: Message, k: Pc)
    requires At(s, t, Discard(c, m, k), c)
    ensures SoundAt(Apply(s, t, DiscardStep(s, c, k)), c)
  {
    hide InList, Total;
    AllMoved(s.threads, t, Drop(c, k), c);
  }

  lemma FailedLaunch(c: Id)
    ensures forall x, j :: Held(Rel(c, Abort(c)), x, j) == Held(Init(c), x, j)
    ensures forall x, j :: Held(MqRelease(c, Idle), x, j) == If(x == c && j == AQueue)
    ensures forall x, j :: Held(Rel(c, MqRelease(c, Idle)), x, j) == If(x == c && (j == ARef || j == AQueue))
  {
    forall x: Id, j ensures Held(MqRelease(c, Idle), x, j) == If(x == c && j == AQueue) {
    }
  }

  lemma InitKeeps(s: State, t: nat, c: Id, ok: bool)
    requires At(s, t, Init(c), c)
    ensures SoundAt(Apply(s, t, InitStep(s, c, ok)), c)
  {
    hide InList, Total, History;
    AllMoved(s.threads, t, InitStep(s, c, ok).pc, c);
    FailedLaunch(c);
    Nothing(c);
    HistorySame(s.services[c], InitStep(s, c, ok).v, Total(s.threads, c, ACallback));
  }

  lemma SetInitKeeps(s: State, t: nat, c: Id)
    requires At(s, t, SetInit(c), c)
    ensures SoundAt(Apply(s, t, SetInitStep(s, c)), c)
  {
    hide InList, Total, History;
    AllMoved(s.threads, t, LaunchPush(c, true), c);
    HistorySame(s.services[c], SetInitStep(s, c).v, Total(s.threads, c, ACallback));
  }

  lemma AbortKeeps(s: State, t: nat, c: Id)
    requires At(s, t, Abort(c), c)
    ensures SoundAt(Apply(s, t, RetireStep(s, c, MqRelease(c, Idle))), c)
  {
    hide InList, Total, History;
    AllMoved(s.threads, t, RetireStep(s, c, MqRelease(c, Idle)).pc, c);
    FailedLaunch(c);
    HistorySame(s.services[c], RetireStep(s, c, MqRelease(c, Idle)).v, Total(s.threads, c, ACallback));
  }

  lemma KillKeeps(s: State, t: nat, c: Id)
    requires At(s, t, Idle, c)
    ensures SoundAt(Apply(s, t, RetireStep(s, c, Idle)), c)
  {
    hide InList, Total, History;
    AllMoved(s.threads, t, RetireStep(s, c, Idle).pc, c);
    Nothing(c);
    HistorySame(s.services[c], RetireStep(s, c, Idle).v, Total(s.threads, c, ACallback));
  }

  lemma LaunchKeeps(s: State, t: nat, c: Id)
    requires At(s, t, Idle, c) && !s.services[c].created
    ensures SoundAt(Apply(s, t, StartStep(s, Launch(c))), c)
  {
    hide InList, Total;
    AllMoved(s.threads, t, Init(c), c);
  }

  /** skynet_handle_grab gives the thread one reference more, or nothing. */
  lemma GrabKeeps(s: State, t: nat, c: Id, found: Pc, missing: Pc)
    requires t < |s.threads| && c < |s.services| && SoundAt(s, c)
    requires forall j :: j != ADispatch ==> Held(found, c, j) == Held(s.threads[t], c, j) + If(j == ARef)
    requires Held(found, c, ADispatch) == Held(s.threads[t], c, ADispatch)
             || (s.services[c].registered ==> Total(s.threads, c, ALaunch) == 0)
    requires forall j :: Held(missing, c, j) == Held(s.threads[t], c, j)
    ensures SoundAt(Apply(s, t, Grab(s, c, found, missing)), c)
  {
    hide InList, Total, Held, History;
    if s.services[c].registered {
      AllMoved(s.threads, t, found, c);
      HistorySame(s.services[c], Grab(s, c, found, missing).v, Total(s.threads, c, ACallback));
    } else {
      OtherKeeps(s, t, Grab(s, c, found, missing), c);
    }
  }

  lemma {:induction false} LauncherHolds(pc: Pc, c: Id)
    ensures Held(pc, c, ALaunch) + Held(pc, c, ACallback) <= Held(pc, c, AQueue)
  {
    if pc.MqRelease? || pc.Drop? || pc.Discard? || pc.Rel? || pc.Del? {
      LauncherHolds(pc.next, c);
    }
  }

  lemma {:induction false} LaunchersHold(ts: seq<Pc>, c: Id)
    ensures Total(ts, c, ALaunch) + Total(ts, c, ACallback) <= Total(ts, c, AQueue)
  {
    if ts != [] {
      hide Held;
      LauncherHolds(ts[0], c);
      LaunchersHold(ts[1..], c);
    }
  }

  /** A queue that a dispatch has in hand is not being launched. */
  lemma NotLaunching(s: State, t: nat, c: Id)
    requires At(s, t, Hold(c), c)
    ensures Total(s.threads, c, ALaunch) == 0
  {
    hide Total, InList, History;
    AllMoved(s.threads, t, Idle, c);
    LaunchersHold(s.threads[t := Idle], c);
  }

  /** A service that the step does not change; its queue may move between the thread's hand and the list. */
  lemma OtherKeeps(s: State, t: nat, e: Effect, x: Id)
    requires t < |s.threads| && x < |s.services| && e.c < |s.services| && SoundAt(s, x)
    requires x == e.c ==> e.v == s.services[x]
    requires forall j :: j != AQueue ==> Held(e.pc, x, j) == Held(s.threads[t], x, j)
    requires Held(e.pc, x, AQueue) + InList(e.global, x) == Held(s.threads[t], x, AQueue) + InList(s.global, x)
    ensures SoundAt(Apply(s, t, e), x)
  {
    hide InList, Total, Held, History;
    AllMoved(s.threads, t, e.pc, x);
  }

  /** What a thread has of a service x is not touched by a step on another service c, except that
      skynet_globalmq_pop puts x's queue into its hand. */
  predicate Aside(s: State, pc: Pc, e: Effect, x: Id) {
    && (forall j :: j != AQueue ==> Held(e.pc, x, j) == Held(pc, x, j))
    && Held(e.pc, x, AQueue) + InList(e.global, x) == Held(pc, x, AQueue) + InList(s.global, x)
  }

  lemma AsideKeeps(s: State, t: nat, e: Effect, x: Id)
    requires t < |s.threads| && x < |s.services| && e.c < |s.services| && SoundAt(s, x)
    requires x == e.c ==> e.v == s.services[x]
    requires Aside(s, s.threads[t], e, x)
    ensures SoundAt(Apply(s, t, e), x)
  {
    hide InList, Total, Held, Sound, History;
    OtherKeeps(s, t, e, x);
  }

  lemma StayAside(s: State, pc: Pc, x: Id)
    requires 0 < |s.services|
    ensures Aside(s, pc, Stay(s, pc), x)
  {
  }

  lemma StayIdle(s: State, c: Id, x: Id)
    requires 0 < |s.services|
    ensures Aside(s, Report(c), Stay(s, Idle), x)
  {
  }

  lemma HeldRel(c: Id, k: Pc, x: Id)
    ensures forall j :: Held(Rel(c, k), x, j) == If(x == c && j == ARef) + Held(k, x, j)
    ensures forall j :: Held(Hold(c), x, j) == If(x == c && j == AQueue)
  {
  }

  lemma FetchAside(s: State, c: Id, x: Id)
    requires 0 < |s.services|
    ensures Aside(s, Fetch, FetchStep(s, Idle, (q: Id) => Hold(q)), x)
    ensures Aside(s, Next(c), FetchStep(s, Rel(c, Hold(c)), (q: Id) => Swap(c, q)), x)
  {
    HeldRel(c, Hold(c), x);
  }

  lemma ListAside(s: State, c: Id, q: Id, x: Id)
    requires c < |s.services|
    ensures Aside(s, Swap(c, q), Effect(c, s.services[c], s.global + [c], Rel(c, Hold(q))), x)
    ensures Aside(s, LaunchPush(c, false), Effect(c, s.services[c], s.global + [c], Idle), x)
    ensures Aside(s, LaunchPush(c, true), Effect(c, s.services[c], s.global + [c], Report(c)), x)
  {
    hide InList;
    InListSnoc(s.global, c, x);
    HeldRel(c, Hold(q), x);
    HeldRel(q, Idle, x);
  }

  lemma MessageAside(s: State, c: Id, m: Message, ok: bool, more: bool, x: Id)
    requires c < |s.services| && x != c
    ensures Aside(s, Push(c, m), PushStep(s, c, m), x)
    ensures Aside(s, Run(c), PopStep(s, c), x)
    ensures Aside(s, Call(c, m), CallStep(s, c, ok, more), x)
  {
    hide InList;
    InListSnoc(s.global, c, x);
    HeldRel(c, Idle, x);
    HeldRel(c, Fetch, x);
  }

  lemma QueueAside(s: State, c: Id, m: Message, k: Pc, x: Id)
    requires c < |s.services| && x != c
    ensures Aside(s, MqRelease(c, k), MqReleaseStep(s, c, k), x)
    ensures Aside(s, Drop(c, k), DropStep(s, c, k), x)
    ensures Aside(s, Discard(c, m, k), DiscardStep(s, c, k), x)
    ensures Aside(s, Del(c, k), DelStep(s, c, k), x)
  {
    hide InList;
    InListSnoc(s.global, c, x);
  }

  lemma RefAside(s: State, c: Id, k: Pc, x: Id)
    requires c < |s.services| && x != c
    ensures Aside(s, Rel(c, k), RelStep(s, c, k), x)
    ensures Aside(s, Abort(c), RetireStep(s, c, MqRelease(c, Idle)), x)
  {
    hide InList;
    FailedLaunch(c);
  }

  lemma ContextAside(s: State, c: Id, ok: bool, x: Id)
    requires c < |s.services| && x != c
    ensures Aside(s, Init(c), InitStep(s, c, ok), x)
    ensures Aside(s, SetInit(c), SetInitStep(s, c), x)
    ensures Aside(s, Hold(c), Grab(s, c, Run(c), MqRelease(c, Fetch)), x)
  {
    hide InList;
    FailedLaunch(c);
    assert forall j :: Held(Del(c, LaunchPush(c, false)), x, j) == 0;
    assert forall j :: Held(MqRelease(c, Fetch), x, j) == 0;
  }

  lemma StartKeeps(s: State, t: nat, ch: Choice, x: Id)
    requires At(s, t, Idle, x)
    ensures SoundAt(Apply(s, t, StartStep(s, ch)), x)
  {
    hide InList, Total, Sound, History;
    var e := StartStep(s, ch);
    HeldRel(e.c, Idle, x);
    if e.c != x || e.v == s.services[x] {
      AsideKeeps(s, t, e, x);
    } else {
      match ch {
        case Send(c, m) => GrabKeeps(s, t, c, Push(c, m), Idle);
        case Kill(c) => KillKeeps(s, t, c);
        case Peek(c) => GrabKeeps(s, t, c, Rel(c, Idle), Idle);
        case Launch(c) => LaunchKeeps(s, t, c);
        case _ =>
      }
    }
  }

  /** The points of a dispatch and of a push. */
  lemma DispatchKeeps(s: State, t: nat, pc: Pc, ch: Choice, x: Id)
    requires t < |s.threads| && s.threads[t] == pc && x < |s.services| && SoundAt(s, x)
    requires pc.Push? || pc.Hold? || pc.Run? || pc.Call? || pc.Next? || pc.Swap?
    requires pc.c < |s.services|
    ensures SoundAt(Apply(s, t, StepOf(s, pc, ch)), x)
  {
    hide InList, Total, Sound, History, Held, StartStep, SoundAt, Aside, If;
    var ok, more := ch.Outcome? && ch.ok, ch.Outcome? && ch.more;
    var m := if pc.Push? || pc.Call? then pc.msg else Message(0, 0, 0, 0);
    var c := pc.c;
    if pc.Next? {
      FetchAside(s, c, x);
    } else if pc.Swap? {
      ListAside(s, c, pc.other, x);
    } else if x != c {
      if pc.Hold? { ContextAside(s, c, ok, x); } else { MessageAside(s, c, m, ok, more, x); }
    }
    if pc.Next? || pc.Swap? || x != c {
      AsideKeeps(s, t, StepOf(s, pc, ch), x);
    } else if pc.Push? {
      PushKeeps(s, t, c, m);
    } else if pc.Hold? {
      HoldKeeps(s, t, c);
    } else if pc.Run? {
      PopKeeps(s, t, c);
    } else {
      CallKeeps(s, t, c, m, ok, more);
    }
  }

  /** The points of releases. */
  lemma ReleaseKeeps(s: State, t: nat, pc: Pc, ch: Choice, x: Id)
    requires t < |s.threads| && s.threads[t] == pc && x < |s.services| && SoundAt(s, x)
    requires pc.MqRelease? || pc.Drop? || pc.Discard? || pc.Rel? || pc.Del?
    requires pc.c < |s.services|
    ensures SoundAt(Apply(s, t, StepOf(s, pc, ch)), x)
  {
    hide InList, Total, Sound, History, Held, StartStep, SoundAt, Aside, If;
    var c, k := pc.c, pc.next;
    var m := if pc.Discard? then pc.msg else Message(0, 0, 0, 0);
    if x != c {
      if pc.Rel? { RefAside(s, c, k, x); } else { QueueAside(s, c, m, k, x); }
      AsideKeeps(s, t, StepOf(s, pc, ch), x);
    } else if pc.MqRelease? {
      MqReleaseKeeps(s, t, c, k);
    } else if pc.Drop? {
      DropKeeps(s, t, c, k);
    } else if pc.Discard? {
      DiscardKeeps(s, t, c, m, k);
    } else if pc.Rel? {
      RelKeeps(s, t, c, k);
    } else {
      DelKeeps(s, t, c, k);
    }
  }

  /** The points of a launch. */
  lemma LaunchingKeeps(s: State, t: nat, pc: Pc, ch: Choice, x: Id)
    requires t < |s.threads| && s.threads[t] == pc && x < |s.services| && SoundAt(s, x)
    requires pc.Init? || pc.SetInit? || pc.LaunchPush? || pc.Report? || pc.Abort?
    requires pc.c < |s.services|
    ensures SoundAt(Apply(s, t, StepOf(s, pc, ch)), x)
  {
    hide InList, Total, Sound, History, Held, StartStep, SoundAt, Aside, If;
    var ok := ch.Outcome? && ch.ok;
    var c := pc.c;
    if pc.LaunchPush? {
      ListAside(s, c, c, x);
    } else if pc.Report? {
      StayIdle(s, c, x);
    } else if x != c {
      if pc.Abort? { RefAside(s, c, Idle, x); } else { ContextAside(s, c, ok, x); }
    }
    if pc.LaunchPush? || pc.Report? || x != c {
      AsideKeeps(s, t, StepOf(s, pc, ch), x);
    } else if pc.Init? {
      InitKeeps(s, t, c, ok);
    } else if pc.SetInit? {
      SetInitKeeps(s, t, c);
    } else {
      AbortKeeps(s, t, c);
    }
  }

  /** Any step of any thread keeps the invariant of any service. */
  lemma StepKeeps(s: State, t: nat, ch: Choice, x: Id)
    requires t < |s.threads| && x < |s.services| && SoundAt(s, x)
    ensures SoundAt(Step(s, t, ch), x)
  {
    hide InList, Total, Sound, History, Held, SoundAt, Aside, If, StepOf;
    var pc := s.threads[t];
    if pc.Idle? {
      IdleStep(s, ch);
      StartKeeps(s, t, ch, x);
    } else if pc.Fetch? {
      IdleStep(s, ch);
      FetchAside(s, 0, x);
      AsideKeeps(s, t, StepOf(s, pc, ch), x);
    } else if pc.c >= |s.services| {
      Strayed(s, pc, ch);
      StayAside(s, pc, x);
      AsideKeeps(s, t, StepOf(s, pc, ch), x);
    } else if pc.MqRelease? || pc.Drop? || pc.Discard? || pc.Rel? || pc.Del? {
      ReleaseKeeps(s, t, pc, ch, x);
    } else if pc.Init? || pc.SetInit? || pc.LaunchPush? || pc.Report? || pc.Abort? {
      LaunchingKeeps(s, t, pc, ch, x);
    } else {
      DispatchKeeps(s, t, pc, ch, x);
    }
  }

  lemma IdleStep(s: State, ch: Choice)
    requires 0 < |s.services|
    ensures StepOf(s, Idle, ch) == StartStep(s, ch)
    ensures StepOf(s, Fetch, ch) == FetchStep(s, Idle, (q: Id) => Hold(q))
  {
  }

  lemma Strayed(s: State, pc: Pc, ch: Choice)
    requires 0 < |s.services| && !pc.Idle? && !pc.Fetch? && pc.c >= |s.services|
    ensures StepOf(s, pc, ch) == Stay(s, pc)
  {
  }

  lemma HoldKeeps(s: State, t: nat, c: Id)
    requires At(s, t, Hold(c), c)
    ensures SoundAt(Apply(s, t, Grab(s, c, Run(c), MqRelease(c, Fetch))), c)
  {
    hide InList, Total, Sound, History;
    assert forall j :: Held(MqRelease(c, Fetch), c, j) == If(j == AQueue);
    NotLaunching(s, t, c);
    GrabKeeps(s, t, c, Run(c), MqRelease(c, Fetch));
  }

  // ---------------------------------------------------------------- every run

  /** A run: which thread steps, and how its open choices fall. */
  function Exec(s: State, run: seq<(nat, Choice)>): State {
    if run == [] then s
    else Step(Exec(s, run[..|run| - 1]), run[|run| - 1].0, run[|run| - 1].1)
  }

  function Start(services: nat, threads: nat): State {
    State(seq(services, _ => BLANK), [], AllIdle(threads))
  }

  function AllIdle(n: nat): seq<Pc> { seq(n, _ => Idle) }

  lemma {:induction false} IdleTotal(n: nat, c: Id, j: Kind)
    ensures Total(AllIdle(n), c, j) == 0
  {
    if n > 0 {
      assert AllIdle(n)[1..] == AllIdle(n - 1);
      IdleTotal(n - 1, c, j);
    }
  }

  lemma StartInv(services: nat, threads: nat)
    ensures Inv(Start(services, threads))
  {
    forall c: Id, j ensures Total(AllIdle(threads), c, j) == 0 {
      IdleTotal(threads, c, j);
    }
  }

  lemma StepInv(s: State, t: nat, ch: Choice)
    requires Inv(s)
    ensures Inv(Step(s, t, ch)) && |Step(s, t, ch).services| == |s.services|
  {
    hide SoundAt, StepOf;
    if t < |s.threads| && 0 < |s.services| {
      forall x | 0 <= x < |s.services| ensures SoundAt(Step(s, t, ch), x) {
        StepKeeps(s, t, ch, x);
      }
    }
  }

  /** The invariant holds after every run of any number of threads over any number of services. */
  lemma {:induction false} RunInv(services: nat, threads: nat, run: seq<(nat, Choice)>)
    ensures Inv(Exec(Start(services, threads), run))
  {
    hide Inv, Step;
    if run == [] {
      StartInv(services, threads);
    } else {
      RunInv(services, threads, run[..|run| - 1]);
      StepInv(Exec(Start(services, threads), run[..|run| - 1]), run[|run| - 1].0, run[|run| - 1].1);
    }
  }

  // ---------------------------------------------------------------- what the invariant gives

  lemma {:induction false} TotalAtLeast(ts: seq<Pc>, t: nat, u: nat, c: Id, j: Kind)
    requires t < |ts| && u < |ts|
    ensures Held(ts[t], c, j) <= Total(ts, c, j)
    ensures t != u ==> Held(ts[t], c, j) + Held(ts[u], c, j) <= Total(ts, c, j)
  {
    hide Held;
    if t > 0 && u > 0 {
      TotalAtLeast(ts[1..], t - 1, u - 1, c, j);
    } else if t > 0 {
      TotalAtLeast(ts[1..], t - 1, t - 1, c, j);
    } else if u > 0 {
      TotalAtLeast(ts[1..], u - 1, u - 1, c, j);
    }
  }

  /** Two threads never have the same queue in hand, so no service's callback runs twice at once, and a queue in
      a hand is not in the global list. */
  lemma OneHand(s: State, t: nat, u: nat, c: Id)
    requires Inv(s) && t < |s.threads| && u < |s.threads| && t != u && c < |s.services|
    requires Held(s.threads[t], c, AQueue) > 0
    ensures Held(s.threads[t], c, AQueue) == 1 && Held(s.threads[u], c, AQueue) == 0 && InList(s.global, c) == 0
    ensures s.threads[t].Call? && s.threads[u].Call? ==> s.threads[u].c != c
  {
    hide Total, InList, History;
    assert SoundAt(s, c);
    TotalAtLeast(s.threads, t, u, c, AQueue);
  }

  /** A queue with messages that was not freed is in the global list or in a hand: no wakeup is lost. */
  lemma NoLostWakeup(s: State, c: Id)
    requires Inv(s) && c < |s.services| && s.services[c].msgs != []
    ensures InList(s.global, c) + Total(s.threads, c, AQueue) == 1
  {
    hide Total, InList, History;
    assert SoundAt(s, c);
  }

  /** The memory a thread's next step works on: queues, and contexts. */
  predicate UsesQueue(pc: Pc, c: Id) {
    match pc
    case Push(x, _) => x == c
    case Run(x) => x == c
    case Call(x, _) => x == c
    case Swap(x, q) => x == c || q == c
    case Hold(x) => x == c
    case LaunchPush(x, _) => x == c
    case MqRelease(x, _) => x == c
    case Drop(x, _) => x == c
    case Discard(x, _, _) => x == c
    case Del(x, _) => x == c
    case _ => false
  }

  predicate UsesContext(pc: Pc, c: Id) {
    match pc
    case Push(x, _) => x == c
    case Run(x) => x == c
    case Call(x, _) => x == c
    case Next(x) => x == c
    case Swap(x, _) => x == c
    case Rel(x, _) => x == c
    case Del(x, _) => x == c
    case Init(x) => x == c
    case SetInit(x) => x == c
    case Report(x) => x == c
    case _ => false
  }

  /** The two uses of a context without a reference: after a launch has succeeded. */
  predicate Unprotected(pc: Pc) { pc.SetInit? || pc.Report? }

  /** No step works on a freed queue or, those two uses apart, on a deleted context; the asserts on `release` in
      skynet_mq_mark_release and on `init` in dispatch_message hold. */
  lemma OnlyLive(s: State, t: nat, c: Id)
    requires Inv(s) && t < |s.threads| && c < |s.services|
    ensures UsesQueue(s.threads[t], c) ==> !s.services[c].freed
    ensures UsesContext(s.threads[t], c) && !Unprotected(s.threads[t]) ==> !s.services[c].release
    ensures s.threads[t].Call? && s.threads[t].c == c ==> s.services[c].init
    ensures s.threads[t] == SetInit(c) ==> !s.services[c].freed
  {
    hide Total, InList, History;
    assert SoundAt(s, c);
    TotalAtLeast(s.threads, t, t, c, ARef);
    TotalAtLeast(s.threads, t, t, c, AQueue);
    TotalAtLeast(s.threads, t, t, c, ADeletion);
    TotalAtLeast(s.threads, t, t, c, ADispatch);
  }

  /** Those two uses meet a deleted context exactly when the handle was retired meanwhile, nobody else has a
      reference and the deletion is over. */
  lemma LateUse(s: State, t: nat, c: Id)
    requires Inv(s) && t < |s.threads| && c < |s.services|
    requires Unprotected(s.threads[t]) && UsesContext(s.threads[t], c)
    ensures var v := s.services[c];
            v.release <==> v.created && !v.registered && Total(s.threads, c, ARef) == 0
                           && Total(s.threads, c, ADeletion) == 0
  {
    hide Total, InList, History;
    assert SoundAt(s, c);
  }

  lemma ExecSnoc(s: State, run: seq<(nat, Choice)>, t: nat, ch: Choice)
    ensures Exec(s, run + [(t, ch)]) == Step(Exec(s, run), t, ch)
  {
    assert (run + [(t, ch)])[..|run|] == run;
  }

  /** One thread launches a service, another retires it as soon as the launcher has given up its reference: the
      store to ctx->init goes to a deleted context. */
  lemma StoreAfterDeletion()
    ensures exists run :: var s := Exec(Start(1, 2), run);
              s.threads == [SetInit(0), Idle] && |s.services| == 1 && s.services[0].release
  {
    hide Exec;
    var v := BLANK.(created := true, ref := 2, registered := true, inGlobal := true);
    var r1 := [(0, Launch(0))];
    var r2 := r1 + [(0, Outcome(true, true))];
    var s2 := State([v.(ref := 1)], [], [SetInit(0), Idle]);
    Launched(v);
    var r3 := r2 + [(1, Kill(0))];
    ExecSnoc(Start(1, 2), r2, 1, Kill(0));
    assert Exec(Start(1, 2), r3) == State([v.(ref := 1, registered := false)], [], [SetInit(0), Rel(0, Idle)]);
    var r4 := r3 + [(1, Work)];
    ExecSnoc(Start(1, 2), r3, 1, Work);
    assert Exec(Start(1, 2), r4) == State([v.(ref := 0, registered := false)], [], [SetInit(0), Del(0, Idle)]);
    var r5 := r4 + [(1, Work)];
    ExecSnoc(Start(1, 2), r4, 1, Work);
    assert Exec(Start(1, 2), r5).threads == [SetInit(0), Idle];
  }

  /** The same between the push to the global list and the last report of the launcher, which reads the context. */
  lemma ReportAfterDeletion()
    ensures exists run :: var s := Exec(Start(1, 2), run);
              s.threads == [Report(0), Idle] && |s.services| == 1 && s.services[0].release
  {
    hide Exec;
    var w := BLANK.(created := true, ref := 1, registered := true, inGlobal := true, init := true);
    var r4 := [(0, Launch(0))] + [(0, Outcome(true, true))] + [(0, Work)] + [(0, Work)];
    Reporting(w);
    var r5 := r4 + [(1, Kill(0))];
    ExecSnoc(Start(1, 2), r4, 1, Kill(0));
    assert Exec(Start(1, 2), r5) == State([w.(registered := false)], [0], [Report(0), Rel(0, Idle)]);
    var r6 := r5 + [(1, Work)];
    ExecSnoc(Start(1, 2), r5, 1, Work);
    assert Exec(Start(1, 2), r6) == State([w.(ref := 0, registered := false)], [0], [Report(0), Del(0, Idle)]);
    var r7 := r6 + [(1, Work)];
    ExecSnoc(Start(1, 2), r6, 1, Work);
    assert Exec(Start(1, 2), r7).threads == [Report(0), Idle];
  }

  lemma Reporting(w: Service)
    requires w == BLANK.(created := true, ref := 1, registered := true, inGlobal := true, init := true)
    ensures Exec(Start(1, 2), [(0, Launch(0))] + [(0, Outcome(true, true))] + [(0, Work)] + [(0, Work)])
            == State([w], [0], [Report(0), Idle])
  {
    hide Exec;
    var v := BLANK.(created := true, ref := 2, registered := true, inGlobal := true);
    var r2 := [(0, Launch(0))] + [(0, Outcome(true, true))];
    Launched(v);
    var r3 := r2 + [(0, Work)];
    ExecSnoc(Start(1, 2), r2, 0, Work);
    assert Exec(Start(1, 2), r3) == State([w], [], [LaunchPush(0, true), Idle]);
    ExecSnoc(Start(1, 2), r3, 0, Work);
  }

  /** The first two steps of both runs. */
  lemma Launched(v: Service)
    requires v == BLANK.(created := true, ref := 2, registered := true, inGlobal := true)
    ensures Exec(Start(1, 2), [(0, Launch(0))] + [(0, Outcome(true, true))])
            == State([v.(ref := 1)], [], [SetInit(0), Idle])
  {
    var none: seq<(nat, Choice)> := [];
    assert Start(1, 2) == State([BLANK], [], [Idle, Idle]);
    ExecSnoc(Start(1, 2), none, 0, Launch(0));
    assert none + [(0, Launch(0))] == [(0, Launch(0))];
    assert Exec(Start(1, 2), [(0, Launch(0))]) == State([v], [], [Init(0), Idle]);
    ExecSnoc(Start(1, 2), [(0, Launch(0))], 0, Outcome(true, true));
  }

  /** A queue is freed only after the last reference to its service is gone and every message has met its fate,
      and nothing about it changes again: it is freed once. */
  lemma FreedForGood(s: State, t: nat, ch: Choice, c: Id)
    requires Inv(s) && c < |s.services| && s.services[c].freed
    ensures s.services[c].ref == 0 && s.services[c].popped == s.services[c].accepted
    ensures |s.services[c].fates| == |s.services[c].accepted|
    ensures Step(s, t, ch).services[c] == s.services[c]
  {
    hide Total, InList, Held;
    assert SoundAt(s, c);
    LaunchersHold(s.threads, c);
    if t < |s.threads| {
      OnlyLive(s, t, c);
    }
  }
}
