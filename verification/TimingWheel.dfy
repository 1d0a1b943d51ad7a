/**
The timing wheel of skynet-src/skynet_timer.c: 256 near buckets and four levels of 64 buckets over a
wrapping 32-bit clock. The wheel is proved to be a stable priority queue: every timer is handed out
exactly once, at exactly the tick it was asked for, also when the clock wraps to 0, and timers due at the
same tick come out in the order they were added.

A bit test on a power of two is written with `/` and `%`: `x | (m - 1)` is `OrLow(x, m)`, `x & (m - 1)` is
`x % m`, and `x >> k` is `x / 2^k`.
*/
module TimingWheel {

  const NEAR := 0x100          // TIME_NEAR
  const LEVEL := 0x40          // TIME_LEVEL
  const WORD := 0x1_0000_0000  // 2^32
  const HALF := 0x8000_0000    // 2^31

  type Word32 = x: int | 0 <= x < WORD
  type Int32 = x: int | -HALF <= x < HALF

  datatype Event = Event(handle: Word32, session: Int32)

  /** struct timer_node with its payload: the absolute time has been cut to 32 bits. */
  datatype Node = Node(expire: Word32, event: Event)

  /** A pending timer as the user thinks of it: due at an unbounded tick number. */
  datatype Item = Item(due: nat, event: Event)

  /** A call of skynet_timeout. */
  datatype Request = Request(delay: Int32, event: Event)

  /** Names one bucket: near[idx] or t[lvl][idx]. */
  datatype Slot = Near(idx: nat) | Level(lvl: nat, idx: nat)

  predicate IsSlot(b: Slot) {
    match b
    case Near(k) => k < NEAR
    case Level(l, k) => l < 4 && k < LEVEL
  }

  /** How many ticks one bucket of level i covers; Span(4) is the whole clock. */
  function Span(i: nat): (s: int)
    requires i <= 4
    ensures s > 0
  {
    if i == 0 then 0x100 else if i == 1 then 0x4000 else if i == 2 then 0x10_0000
    else if i == 3 then 0x400_0000 else WORD
  }

  function OrLow(x: int, m: int): int
    requires m > 0
  {
    x / m * m + (m - 1)
  }

  /** The lowest level whose blocks do not separate the two times; 4 when even level 3 does. */
  function Rank(e: Word32, c: Word32): (r: nat)
    ensures r <= 4
  {
    if e / 0x100 == c / 0x100 then 0
    else if e / 0x4000 == c / 0x4000 then 1
    else if e / 0x10_0000 == c / 0x10_0000 then 2
    else if e / 0x400_0000 == c / 0x400_0000 then 3
    else 4
  }

  /** The bucket a timer belongs to depends on its expire time and the current time alone. */
  function SlotOf(e: Word32, c: Word32): (b: Slot)
    ensures IsSlot(b)
  {
    var r := Rank(e, c);
    if r == 0 then Near(e % NEAR) else Level(r - 1, Block(e, r - 1) % LEVEL)
  }

  function Block(x: Word32, i: nat): int
    requires i <= 4
  {
    x / Span(i)
  }

  /** T->time after ++. */
  function Next(c: Word32): Word32 {
    if c + 1 == WORD then 0 else c + 1
  }

  /** e - c in 32-bit arithmetic: how many ticks until the clock shows e. */
  function Gap(e: Word32, c: Word32): Word32 {
    if e >= c then e - c else e - c + WORD
  }

  /** The bucket lies below level i: near, or a finer level. */
  predicate Below(b: Slot, i: nat) {
    b.Near? || b.lvl < i
  }

  /** Where each node belongs at time c. */
  ghost function At(c: Word32): Node -> Slot {
    (n: Node) => SlotOf(n.expire, c)
  }

  /** The nodes of p that `place` puts in bucket b, in their order in p. */
  ghost function Select(p: seq<Node>, place: Node -> Slot, b: Slot): seq<Node> {
    if p == [] then []
    else
      var last := p[|p| - 1];
      Select(p[..|p| - 1], place, b) + if place(last) == b then [last] else []
  }

  ghost function Wire(items: seq<Item>): seq<Node> {
    seq(|items|, i requires 0 <= i < |items| => Node(items[i].due % WORD, items[i].event))
  }

  // ---------------------------------------------------------------- the abstract priority queue

  /** The items due at tick k, in their order of insertion. */
  ghost function DueAt(items: seq<Item>, k: nat): seq<Item> {
    if items == [] then []
    else
      var last := items[|items| - 1];
      DueAt(items[..|items| - 1], k) + if last.due == k then [last] else []
  }

  ghost function NotDueAt(items: seq<Item>, k: nat): seq<Item> {
    if items == [] then []
    else
      var last := items[|items| - 1];
      NotDueAt(items[..|items| - 1], k) + if last.due == k then [] else [last]
  }

  /** The items still waiting after tick n. */
  ghost function Later(items: seq<Item>, n: nat): seq<Item> {
    if items == [] then []
    else
      var last := items[|items| - 1];
      Later(items[..|items| - 1], n) + if last.due > n then [last] else []
  }

  /** Everything due at ticks 1 to n: tick by tick, and in order of insertion within a tick. */
  ghost function Schedule(items: seq<Item>, n: nat): seq<Item> {
    if n == 0 then [] else Schedule(items, n - 1) + DueAt(items, n)
  }

  /** One call made on a timer: skynet_timeout, or timer_update. `waiting` are the calls of skynet_timeout
      that other threads make while timer_update runs; they wait for the lock. */
  datatype Op = Timeout(request: Request) | Update(waiting: seq<Request>)

  /** How often timer_update is among the first j calls. */
  ghost function Ticks(ops: seq<Op>, j: nat): nat
    requires j <= |ops|
  {
    if j == 0 then 0 else Ticks(ops, j - 1) + if ops[j - 1].Update? then 1 else 0
  }

  /** The timers that a list of requests made at tick `now` asks for. */
  ghost function Queued(rs: seq<Request>, now: nat): seq<Item> {
    if rs == [] then []
    else
      var last := rs[|rs| - 1];
      Queued(rs[..|rs| - 1], now) + if last.delay > 0 then [Item(now + last.delay, last.event)] else []
  }

  /** The events that a list of requests asks for at once (time <= 0). */
  ghost function AtOnce(rs: seq<Request>): seq<Event> {
    if rs == [] then []
    else
      var last := rs[|rs| - 1];
      AtOnce(rs[..|rs| - 1]) + if last.delay > 0 then [] else [last.event]
  }

  function Requests(op: Op): seq<Request> {
    match op case Timeout(r) => [r] case Update(w) => w
  }

  /** Every timer asked for in the first j calls, in order, with the absolute tick it is due at. */
  ghost function Asked(ops: seq<Op>, j: nat): seq<Item>
    requires j <= |ops|
  {
    if j == 0 then [] else Asked(ops, j - 1) + Queued(Requests(ops[j - 1]), Ticks(ops, j))
  }

  ghost function AskedAtOnce(ops: seq<Op>, j: nat): seq<Event>
    requires j <= |ops|
  {
    if j == 0 then [] else AskedAtOnce(ops, j - 1) + AtOnce(Requests(ops[j - 1]))
  }

  ghost function Events(items: seq<Item>): seq<Event> {
    seq(|items|, i requires 0 <= i < |items| => items[i].event)
  }

  // ---------------------------------------------------------------- where a timer moves when the clock ticks

  lemma DivDiv(x: nat, a: int)
    requires a == 0x100 || a == 0x4000 || a == 0x10_0000 || a == 0x400_0000
    ensures x / (a * LEVEL) == x / a / LEVEL
  {
    var q, r := x / a, x % a;
    var p, t := q / LEVEL, q % LEVEL;
    assert x == (a * LEVEL) * p + (a * t + r) && 0 <= a * t + r < a * LEVEL;
  }

  /** A block of level i + 1 is made of 64 blocks of level i. */
  lemma Nested(x: Word32, i: nat)
    requires i < 4
    ensures Block(x, i + 1) == Block(x, i) / LEVEL
  {
    DivDiv(x, Span(i));
  }

  lemma SameUp(e: Word32, c: Word32, a: int)
    requires a == 0x100 || a == 0x4000 || a == 0x10_0000 || a == 0x400_0000
    ensures e / a == c / a ==> e / (a * LEVEL) == c / (a * LEVEL)
  {
    DivDiv(e, a);
    DivDiv(c, a);
  }

  lemma RankBlock(e: Word32, c: Word32, i: nat)
    requires i <= 4
    ensures Rank(e, c) <= i <==> Block(e, i) == Block(c, i)
  {
    SameUp(e, c, 0x100);
    SameUp(e, c, 0x4000);
    SameUp(e, c, 0x10_0000);
    if i == 0 {
    } else if i == 1 {
    } else if i == 2 {
    } else if i == 3 {
    } else {
      assert i == 4 && Block(e, i) == Block(c, i) == 0;
    }
  }

  lemma RankFrom(e: Word32, c: Word32, c': Word32, i: nat)
    requires i <= 4 && Block(c', i) == Block(c, i)
    ensures Rank(e, c) > i || Rank(e, c') > i ==> Rank(e, c) == Rank(e, c')
    decreases 4 - i
  {
    RankBlock(e, c, i);
    RankBlock(e, c', i);
    if i < 4 {
      Nested(c, i);
      Nested(c', i);
      RankBlock(e, c, i + 1);
      RankBlock(e, c', i + 1);
      RankFrom(e, c, c', i + 1);
    }
  }

  lemma SlotStable(e: Word32, c: Word32)
    requires (c + 1) % NEAR != 0 && c + 1 < WORD
    ensures SlotOf(e, c + 1) == SlotOf(e, c)
  {
    assert Block(c + 1, 0) == Block(c, 0);
    RankFrom(e, c, c + 1, 0);
    RankBlock(e, c, 0);
    RankBlock(e, c + 1, 0);
  }

  /** A pending timer is never in the block that the clock is leaving. */
  lemma LeftBlock(e: Word32, c: Word32, a: int)
    requires a == 0x100 || a == 0x4000 || a == 0x10_0000 || a == 0x400_0000
    requires Next(c) % a == 0
    requires 1 <= Gap(e, c) < HALF
    ensures e / a != c / a
  {
    LastOfBlock(c, a);
  }

  lemma LastOfBlock(c: Word32, a: int)
    requires a == 0x100 || a == 0x4000 || a == 0x10_0000 || a == 0x400_0000
    requires Next(c) % a == 0
    ensures c == a * (c / a) + a - 1
    ensures c + 1 < WORD ==> Next(c) / a == c / a + 1
  {
  }

  /** The clock enters the next block of level i and stays in its block of level i + 1. */
  lemma OpenedBlock(c: Word32, i: nat)
    requires i < 4 && Next(c) % Span(i) == 0
    requires i < 3 ==> Block(Next(c), i) % LEVEL != 0
    ensures Block(Next(c), i + 1) == Block(c, i + 1)
  {
    if i < 3 {
      Nested(c, i);
      Nested(Next(c), i);
      LastOfBlock(c, Span(i));
    }
  }

  lemma SameDigit(e: Word32, c: Word32, i: nat)
    requires i < 4
    ensures Block(e, i + 1) == Block(c, i + 1) && Block(e, i) % LEVEL == Block(c, i) % LEVEL
            <==> Block(e, i) == Block(c, i)
  {
    Nested(e, i);
    Nested(c, i);
  }

  /** At the tick that opens block `src` of level i, exactly the timers of that bucket move, and they move
      to finer buckets, all of which are empty. */
  lemma SlotCascade(e: Word32, c: Word32, i: nat)
    requires i < 4 && Next(c) % Span(i) == 0
    requires i < 3 ==> Block(Next(c), i) % LEVEL != 0
    requires 1 <= Gap(e, c) < HALF
    ensures var src := Level(i, Block(Next(c), i) % LEVEL);
            var s, s' := SlotOf(e, c), SlotOf(e, Next(c));
            if s == src then Below(s', i) else s' == s && !Below(s, i)
  {
    LeftBlock(e, c, Span(i));
    OpenedBlock(c, i);
    RankFrom(e, c, Next(c), i + 1);
    RankBlock(e, c, i);
    RankBlock(e, Next(c), i);
    RankBlock(e, c, i + 1);
    SameDigit(e, Next(c), i);
    CascadeByRank(e, c, i, Block(Next(c), i) % LEVEL);
  }

  lemma CascadeByRank(e: Word32, c: Word32, i: nat, k: nat)
    requires i < 4 && Rank(e, c) > i
    requires Rank(e, Next(c)) <= i <==> Rank(e, c) == i + 1 && Block(e, i) % LEVEL == k
    requires Rank(e, c) > i + 1 || Rank(e, Next(c)) > i + 1 ==> Rank(e, c) == Rank(e, Next(c))
    ensures var s, s' := SlotOf(e, c), SlotOf(e, Next(c));
            if s == Level(i, k) then Below(s', i) else s' == s && !Below(s, i)
  {
  }

  // ---------------------------------------------------------------- lists of timers under a tick

  lemma SelectAppend(p: seq<Node>, n: Node, place: Node -> Slot, b: Slot)
    ensures Select(p + [n], place, b) == Select(p, place, b) + if place(n) == b then [n] else []
  {
    assert (p + [n])[..|p|] == p;
  }

  lemma {:induction false} SelectSame(p: seq<Node>, f: Node -> Slot, g: Node -> Slot, b: Slot)
    requires forall n :: n in p ==> f(n) == g(n)
    ensures Select(p, f, b) == Select(p, g, b)
  {
    if p != [] {
      SelectSame(p[..|p| - 1], f, g, b);
    }
  }

  /** From placement f to placement g, exactly the nodes of bucket src move, and they move to buckets below
      level i, where f puts nothing. */
  ghost predicate Cascades(p: seq<Node>, f: Node -> Slot, g: Node -> Slot, i: nat, src: Slot) {
    && !Below(src, i)
    && forall n :: n in p ==> if f(n) == src then Below(g(n), i) else g(n) == f(n) && !Below(f(n), i)
  }

  lemma {:induction false} CascadeDown(p: seq<Node>, f: Node -> Slot, g: Node -> Slot, i: nat, src: Slot, b: Slot)
    requires Cascades(p, f, g, i, src) && Below(b, i)
    ensures Select(p, f, b) == []
    ensures Select(p, g, b) == Select(Select(p, f, src), g, b)
  {
    if p != [] {
      var last, rest := p[|p| - 1], p[..|p| - 1];
      CascadeDown(rest, f, g, i, src, b);
      if f(last) == src {
        SelectAppend(Select(rest, f, src), last, g, b);
      } else {
        assert Select(p, f, src) == Select(rest, f, src);
      }
    }
  }

  lemma {:induction false} CascadeStay(p: seq<Node>, f: Node -> Slot, g: Node -> Slot, i: nat, src: Slot, b: Slot)
    requires Cascades(p, f, g, i, src) && !Below(b, i)
    ensures Select(Select(p, f, src), g, b) == []
    ensures Select(p, g, b) == if b == src then [] else Select(p, f, b)
  {
    if p != [] {
      var last, rest := p[|p| - 1], p[..|p| - 1];
      CascadeStay(rest, f, g, i, src, b);
      if f(last) == src {
        SelectAppend(Select(rest, f, src), last, g, b);
      } else {
        assert Select(p, f, src) == Select(rest, f, src);
      }
    }
  }

  /** Re-adding the nodes of the opened bucket, in order, leaves every bucket holding what belongs there. */
  lemma SelectCascade(p: seq<Node>, f: Node -> Slot, g: Node -> Slot, i: nat, src: Slot, b: Slot)
    requires Cascades(p, f, g, i, src)
    ensures Select(p, g, b) == (if b == src then [] else Select(p, f, b)) + Select(Select(p, f, src), g, b)
  {
    hide Select;
    if Below(b, i) {
      CascadeDown(p, f, g, i, src, b);
    } else {
      CascadeStay(p, f, g, i, src, b);
    }
  }

  ghost predicate Window(p: seq<Node>, c: Word32) {
    forall n :: n in p ==> 1 <= Gap(n.expire, c) < HALF
  }

  /** What every bucket holds after the tick that opens a block of level i. */
  lemma TickCascades(p: seq<Node>, c: Word32, i: nat)
    requires i < 4 && Next(c) % Span(i) == 0
    requires i < 3 ==> Block(Next(c), i) % LEVEL != 0
    requires Window(p, c)
    ensures var src := Level(i, Block(Next(c), i) % LEVEL);
            forall b :: Select(p, At(Next(c)), b)
                        == (if b == src then [] else Select(p, At(c), b))
                        + Select(Select(p, At(c), src), At(Next(c)), b)
  {
    var src := Level(i, Block(Next(c), i) % LEVEL);
    forall n | n in p
      ensures if At(c)(n) == src then Below(At(Next(c))(n), i)
              else At(Next(c))(n) == At(c)(n) && !Below(At(c)(n), i)
    {
      SlotCascade(n.expire, c, i);
    }
    forall b
      ensures Select(p, At(Next(c)), b)
              == (if b == src then [] else Select(p, At(c), b)) + Select(Select(p, At(c), src), At(Next(c)), b)
    {
      SelectCascade(p, At(c), At(Next(c)), i, src, b);
    }
  }

  lemma TickStable(p: seq<Node>, c: Word32)
    requires Next(c) % NEAR != 0
    ensures forall b :: Select(p, At(Next(c)), b) == Select(p, At(c), b)
  {
    forall n | n in p ensures At(Next(c))(n) == At(c)(n) {
      SlotStable(n.expire, c);
    }
    forall b ensures Select(p, At(Next(c)), b) == Select(p, At(c), b) {
      SelectSame(p, At(Next(c)), At(c), b);
    }
  }

  lemma NextLevel(ct: Word32, i: nat)
    requires i < 4 && ct != 0 && ct % Span(i) == 0 && ct / Span(i) % LEVEL == 0
    ensures i < 3 && ct % Span(i + 1) == 0
    ensures ct / Span(i) / LEVEL == ct / Span(i + 1)
  {
    Nested(ct, i);
  }

  lemma GapIs(due: nat, now: nat)
    requires now <= due < now + WORD
    ensures Gap(due % WORD, now % WORD) == due - now
    ensures Next(now % WORD) == (now + 1) % WORD
  {
  }

  lemma WireWindow(items: seq<Item>, now: nat)
    requires forall x :: x in items ==> now + 1 <= x.due < now + HALF
    ensures Window(Wire(items), now % WORD)
  {
    forall n | n in Wire(items) ensures 1 <= Gap(n.expire, now % WORD) < HALF {
      var k :| 0 <= k < |items| && n == Wire(items)[k];
      GapIs(items[k].due, now);
    }
  }

  lemma NothingYet(p: seq<Node>, place: Node -> Slot)
    ensures forall b :: Select(p[..0], place, b) == []
  {
  }

  lemma OneMore(base: seq<Node>, p: seq<Node>, j: nat, c: Word32, b: Slot)
    requires j < |p|
    ensures base + Select(p[..j + 1], At(c), b)
            == if SlotOf(p[j].expire, c) == b then base + Select(p[..j], At(c), b) + [p[j]]
               else base + Select(p[..j], At(c), b)
  {
    assert p[..j + 1] == p[..j] + [p[j]];
    SelectAppend(p[..j], p[j], At(c), b);
  }

  lemma WireAppend(items: seq<Item>, x: Item)
    ensures Wire(items + [x]) == Wire(items) + [Node(x.due % WORD, x.event)]
  {
  }

  lemma WireSelect(items: seq<Item>, x: Item, c: Word32, b: Slot)
    ensures Select(Wire(items + [x]), At(c), b)
            == if SlotOf(x.due % WORD, c) == b then Select(Wire(items), At(c), b) + [Node(x.due % WORD, x.event)]
               else Select(Wire(items), At(c), b)
  {
    hide SlotOf;
    WireAppend(items, x);
    SelectAppend(Wire(items), Node(x.due % WORD, x.event), At(c), b);
  }

  lemma QueuedMore(rs: seq<Request>, j: nat, now: nat)
    requires j < |rs|
    ensures Queued(rs[..j + 1], now) == Queued(rs[..j], now) + Queued([rs[j]], now)
    ensures AtOnce(rs[..j + 1]) == AtOnce(rs[..j]) + AtOnce([rs[j]])
  {
    assert rs[..j + 1][..j] == rs[..j];
    QueuedOne(rs[j], now);
  }

  lemma QueuedOne(r: Request, now: nat)
    ensures Queued([r], now) == if r.delay > 0 then [Item(now + r.delay, r.event)] else []
    ensures AtOnce([r]) == if r.delay > 0 then [] else [r.event]
  {
    assert Queued([], now) == [] && AtOnce([]) == [];
  }

  lemma NowSlot(e: Word32, c: Word32)
    ensures SlotOf(e, c) == Near(c % NEAR) <==> e == c
  {
  }

  lemma SameTick(due: nat, now: nat)
    requires now <= due < now + WORD
    ensures due % WORD == now % WORD <==> due == now
  {
  }

  lemma NowOnly(due: nat, now: nat)
    requires now <= due < now + HALF
    ensures SlotOf(due % WORD, now % WORD) == Near(now % WORD % NEAR) <==> due == now
  {
    hide SlotOf;
    NowSlot(due % WORD, now % WORD);
    SameTick(due, now);
  }

  lemma {:induction false} FireOne(items: seq<Item>, now: nat, b: Slot)
    requires forall x :: x in items ==> now <= x.due < now + HALF
    ensures Select(Wire(NotDueAt(items, now)), At(now % WORD), b)
            == if b == Near(now % WORD % NEAR) then [] else Select(Wire(items), At(now % WORD), b)
  {
    if items != [] {
      hide SlotOf, Wire, At, Select;
      var last, rest := items[|items| - 1], items[..|items| - 1];
      assert items == rest + [last];
      FireOne(rest, now, b);
      NowOnly(last.due, now);
      WireSelect(rest, last, now % WORD, b);
      if last.due == now {
        assert NotDueAt(items, now) == NotDueAt(rest, now);
      } else {
        assert NotDueAt(items, now) == NotDueAt(rest, now) + [last];
        WireSelect(NotDueAt(rest, now), last, now % WORD, b);
      }
    }
  }

  lemma {:induction false} FireNow(items: seq<Item>, now: nat)
    requires forall x :: x in items ==> now <= x.due < now + HALF
    ensures Select(Wire(items), At(now % WORD), Near(now % WORD % NEAR)) == Wire(DueAt(items, now))
    ensures forall x :: x in NotDueAt(items, now) ==> x in items && x.due != now
  {
    if items != [] {
      hide SlotOf;
      var last, rest := items[|items| - 1], items[..|items| - 1];
      assert items == rest + [last];
      FireNow(rest, now);
      NowOnly(last.due, now);
      WireSelect(rest, last, now % WORD, Near(now % WORD % NEAR));
      WireAppend(DueAt(rest, now), last);
    }
  }

  /** The near bucket under the clock's hand holds exactly the timers due now; taking it out leaves every
      other bucket as it should be. */
  lemma FireSlot(items: seq<Item>, now: nat)
    requires forall x :: x in items ==> now <= x.due < now + HALF
    ensures Select(Wire(items), At(now % WORD), Near(now % WORD % NEAR)) == Wire(DueAt(items, now))
    ensures forall b :: Select(Wire(NotDueAt(items, now)), At(now % WORD), b)
                        == if b == Near(now % WORD % NEAR) then [] else Select(Wire(items), At(now % WORD), b)
    ensures forall x :: x in NotDueAt(items, now) ==> now + 1 <= x.due < now + HALF
  {
    hide Select, Wire, At, DueAt, NotDueAt;
    FireNow(items, now);
    forall b
      ensures Select(Wire(NotDueAt(items, now)), At(now % WORD), b)
              == if b == Near(now % WORD % NEAR) then [] else Select(Wire(items), At(now % WORD), b)
    {
      FireOne(items, now, b);
    }
  }

  lemma {:induction false} NotDueAll(items: seq<Item>, now: nat)
    requires DueAt(items, now) == []
    ensures NotDueAt(items, now) == items
    ensures forall x :: x in items ==> x.due != now
  {
    if items != [] {
      NotDueAll(items[..|items| - 1], now);
    }
  }

  lemma {:induction false} DueAtNone(items: seq<Item>, k: nat)
    requires forall x :: x in items ==> x.due != k
    ensures DueAt(items, k) == [] && NotDueAt(items, k) == items
  {
    if items != [] {
      DueAtNone(items[..|items| - 1], k);
    }
  }

  lemma NoneDue(items: seq<Item>, now: nat)
    requires forall x :: x in items ==> now + 1 <= x.due < now + HALF
    ensures Select(Wire(items), At(now % WORD), Near(now % WORD % NEAR)) == []
  {
    hide Select, SlotOf;
    FireSlot(items, now);
    DueAtNone(items, now);
  }

  // ---------------------------------------------------------------- struct timer

  /** dispatch_list: one message per node, first to last. */
  method DispatchList(current: seq<Node>) returns (fired: seq<Event>)
    ensures |fired| == |current|
    ensures forall k :: 0 <= k < |current| ==> fired[k] == current[k].event
  {
    fired := [];
    var k := 0;
    while k < |current|
      invariant k == |fired| <= |current|
      invariant forall m :: 0 <= m < k ==> fired[m] == current[m].event
    {
      fired := fired + [current[k].event];
      k := k + 1;
    }
  }

  /** The search of add_node: a near bucket, or the first level whose next coarser block holds both times. */
  method FindSlot(e: Word32, c: Word32) returns (b: Slot)
    ensures b == SlotOf(e, c)
  {
    RankBlock(e, c, 0);
    if OrLow(e, NEAR) == OrLow(c, NEAR) {
      b := Near(e % NEAR);
    } else {
      var i, mask := 0, NEAR * LEVEL;
      while i < 3 && OrLow(e, mask) != OrLow(c, mask)
        invariant 0 <= i <= 3 && mask == Span(i + 1)
        invariant Rank(e, c) > i
      {
        RankBlock(e, c, i + 1);
        mask := mask * LEVEL;
        i := i + 1;
      }
      RankBlock(e, c, i + 1);
      b := Level(i, e / Span(i) % LEVEL);
    }
  }

  class Timer {
    const near: array<seq<Node>>
    const t: array2<seq<Node>>
    var time: Word32
    ghost var now: nat          // how often the clock has ticked; time is its low 32 bits
    ghost var items: seq<Item>  // the pending timers in the order they were added

    /** The list in a bucket. */
    ghost function Content(b: Slot): seq<Node>
      requires Shape() && IsSlot(b)
      reads near, t
    {
      match b
      case Near(k) => near[k]
      case Level(l, k) => t[l, k]
    }

    ghost predicate Shape() {
      near.Length == NEAR && t.Length0 == 4 && t.Length1 == LEVEL
    }

    /** Every bucket holds exactly the pending timers that belong there, in order. */
    ghost predicate Layout()
      reads this, near, t
    {
      && Shape()
      && time == now % WORD
      && forall b {:trigger Content(b)} :: IsSlot(b) ==> Content(b) == Select(Wire(items), At(time), b)
    }

    ghost predicate Due(lo: nat)
      reads this
    {
      forall x :: x in items ==> lo <= x.due < now + HALF
    }

    ghost predicate Valid()
      reads this, near, t
    {
      Layout() && Due(now + 1)
    }

    constructor ()
      ensures Valid() && fresh(near) && fresh(t)
      ensures now == 0 && items == []
    {
      near := new seq<Node>[NEAR](_ => []);
      t := new seq<Node>[4, LEVEL]((_, _) => []);
      time := 0;
      now := 0;
      items := [];
    }

    /** link */
    method Link(b: Slot, node: Node)
      requires Shape() && IsSlot(b)
      modifies near, t
      ensures Content(b) == old(Content(b)) + [node]
      ensures forall o {:trigger Content(o)} :: IsSlot(o) && o != b ==> Content(o) == old(Content(o))
    {
      match b
      case Near(k) => near[k] := near[k] + [node];
      case Level(l, k) => t[l, k] := t[l, k] + [node];
    }

    /** link_clear */
    method LinkClear(b: Slot) returns (list: seq<Node>)
      requires Shape() && IsSlot(b)
      modifies near, t
      ensures list == old(Content(b)) && Content(b) == []
      ensures forall o {:trigger Content(o)} :: IsSlot(o) && o != b ==> Content(o) == old(Content(o))
    {
      match b
      case Near(k) => list := near[k]; near[k] := [];
      case Level(l, k) => list := t[l, k]; t[l, k] := [];
    }

    /** add_node */
    method AddNode(node: Node)
      requires Shape()
      modifies near, t
      ensures forall b {:trigger Content(b)} :: IsSlot(b) ==>
                Content(b) == if SlotOf(node.expire, time) == b then old(Content(b)) + [node] else old(Content(b))
    {
      hide *;
      var b := FindSlot(node.expire, time);
      Link(b, node);
    }

    /** move_list: empties one bucket and adds its nodes again, first to last. */
    method MoveList(level: nat, idx: nat)
      requires Shape() && level < 4 && idx < LEVEL
      modifies near, t
      ensures forall b {:trigger Content(b)} :: IsSlot(b) ==>
                Content(b) == (if b == Level(level, idx) then [] else old(Content(b)))
                              + Select(old(Content(Level(level, idx))), At(time), b)
    {
      hide SlotOf, Select;
      var current := LinkClear(Level(level, idx));
      assert forall b :: Select(current[..0], At(time), b) == [] by { NothingYet(current, At(time)); }
      var j := 0;
      while j < |current|
        invariant j <= |current|
        invariant forall b {:trigger Content(b)} :: IsSlot(b) ==>
                    Content(b) == (if b == Level(level, idx) then [] else old(Content(b)))
                                  + Select(current[..j], At(time), b)
      {
        AddNode(current[j]);
        forall b | IsSlot(b)
          ensures Content(b) == (if b == Level(level, idx) then [] else old(Content(b)))
                                + Select(current[..j + 1], At(time), b)
        {
          OneMore(if b == Level(level, idx) then [] else old(Content(b)), current, j, time, b);
        }
        j := j + 1;
      }
      assert current[..j] == current;
    }

    /** timer_shift: the clock advances and, where it opens a block, that block's timers cascade down. */
    method Shift()
      requires Valid()
      modifies this, near, t
      ensures Layout() && Due(now)
      ensures now == old(now) + 1 && items == old(items)
    {
      hide SlotOf, Rank, Wire, Select;
      ghost var c, p := time, Wire(items);
      WireWindow(items, now);
      GapIs(now, now);
      var mask := NEAR;
      time := Next(time);
      now := now + 1;
      var ct := time;
      if ct == 0 {
        TickCascades(p, c, 3);
        assert Level(3, Block(0, 3) % LEVEL) == Level(3, 0);
        MoveList(3, 0);
      } else {
        var tm, i := ct / NEAR, 0;
        while ct % mask == 0
          invariant 0 <= i <= 3 && mask == Span(i) && tm == ct / Span(i)
          invariant i > 0 ==> ct % mask == 0
          invariant forall b {:trigger Content(b)} :: IsSlot(b) ==> Content(b) == Select(p, At(c), b)
          modifies near, t
          decreases 4 - i
        {
          var idx := tm % LEVEL;
          if idx != 0 {
            TickCascades(p, c, i);
            MoveList(i, idx);
            break;
          }
          NextLevel(ct, i);
          mask := mask * LEVEL;
          tm := tm / LEVEL;
          i := i + 1;
        }
        if ct % NEAR != 0 {
          TickStable(p, c);
        }
      }
    }
  
    /** timer_add */
    method Add(delay: Int32, event: Event)
      requires Valid() && delay > 0
      modifies this, near, t
      ensures Valid() && now == old(now)
      ensures items == old(items) + [Item(now + delay, event)]
    {
      hide Select, SlotOf, Wire;
      var node := Node((delay + time) % WORD, event);
      AddNode(node);
      ghost var x := Item(now + delay, event);
      items := items + [x];
      forall b | IsSlot(b) ensures Content(b) == Select(Wire(items), At(time), b) {
        WireSelect(old(items), x, time, b);
      }
    }

    /** skynet_timeout: a request for no delay is answered at once, without the lock. */
    method Timeout(r: Request) returns (immediate: seq<Event>)
      requires Valid()
      modifies this, near, t
      ensures Valid() && now == old(now)
      ensures immediate == AtOnce([r])
      ensures items == old(items) + Queued([r], now)
    {
      QueuedOne(r, now);
      if r.delay <= 0 {
        immediate := [r.event];
      } else {
        immediate := [];
        Add(r.delay, r.event);
      }
    }

    /** The calls of other threads that were waiting for the lock. */
    method Serve(waiting: seq<Request>) returns (immediate: seq<Event>)
      requires Valid()
      modifies this, near, t
      ensures Valid() && now == old(now)
      ensures immediate == AtOnce(waiting)
      ensures items == old(items) + Queued(waiting, now)
    {
      immediate := [];
      var j := 0;
      while j < |waiting|
        invariant j <= |waiting| && Valid() && now == old(now)
        invariant immediate == AtOnce(waiting[..j])
        invariant items == old(items) + Queued(waiting[..j], now)
      {
        var more := Timeout(waiting[j]);
        QueuedMore(waiting, j, now);
        immediate := immediate + more;
        j := j + 1;
      }
      assert waiting[..j] == waiting;
    }
  
    /** timer_execute: hands out the list of the current tick. The lock is released while the list is
        dispatched, so the waiting calls get in then; they cannot refill that list. */
    method Execute(waiting: seq<Request>) returns (fired: seq<Event>, immediate: seq<Event>, left: seq<Request>)
      requires Layout() && Due(now)
      modifies this, near, t
      ensures Valid() && now == old(now)
      ensures fired == Events(DueAt(old(items), now))
      ensures if fired == [] then items == old(items) && left == waiting && immediate == []
              else items == NotDueAt(old(items), now) + Queued(waiting, now) && left == []
                   && immediate == AtOnce(waiting)
    {
      hide Select, SlotOf, DueAt, NotDueAt;
      fired, immediate, left := [], [], waiting;
      var idx := time % NEAR;
      FireSlot(items, now);
      assert Content(Near(idx)) == near[idx];
      while near[idx] != []
        invariant Layout() && now == old(now) && time == old(time)
        invariant Content(Near(idx)) == near[idx]
        invariant fired == [] ==> items == old(items) && left == waiting && immediate == []
        invariant fired != [] ==> near[idx] == [] && Due(now + 1) && left == []
                                  && fired == Events(DueAt(old(items), now)) && immediate == AtOnce(waiting)
                                  && items == NotDueAt(old(items), now) + Queued(waiting, now)
        decreases |near[idx]|
      {
        var current := LinkClear(Near(idx));
        items := NotDueAt(items, now);
        fired := DispatchList(current);
        immediate := Serve(left);
        left := [];
        NoneDue(items, now);
        assert Content(Near(idx)) == near[idx];
      }
      if fired == [] {
        assert DueAt(items, now) == [];
        NotDueAll(items, now);
      }
    }
  
    /** timer_update: one tick. Nothing is ever found by the first timer_execute. */
    method Update(waiting: seq<Request>) returns (fired: seq<Event>, immediate: seq<Event>)
      requires Valid()
      modifies this, near, t
      ensures Valid() && now == old(now) + 1
      ensures fired == Events(DueAt(old(items), now))
      ensures immediate == AtOnce(waiting)
      ensures items == NotDueAt(old(items), now) + Queued(waiting, now)
    {
      hide DueAt, NotDueAt, Queued, AtOnce, Select, SlotOf;
      DueAtNone(items, now);
      var early, atonce, left := Execute(waiting);
      assert early == [];
      Shift();
      fired, immediate, left := Execute(left);
      if fired == [] {
        assert DueAt(items, now) == [];
        NotDueAll(items, now);
        immediate := Serve(left);
      }
    }

    method Call(op: Op) returns (fired: seq<seq<Event>>, immediate: seq<Event>)
      requires Valid()
      modifies this, near, t
      ensures Valid() && now == if op.Update? then old(now) + 1 else old(now)
      ensures fired == if op.Update? then [Events(DueAt(old(items), now))] else []
      ensures immediate == AtOnce(Requests(op))
      ensures items == (if op.Update? then NotDueAt(old(items), now) else old(items)) + Queued(Requests(op), now)
    {
      hide Valid, Queued, AtOnce, DueAt, NotDueAt;
      match op {
        case Timeout(r) =>
          fired := [];
          immediate := Timeout(r);
        case Update(w) =>
          var list;
          list, immediate := Update(w);
          fired := [list];
      }
    }
  }

  // ---------------------------------------------------------------- whole runs

  lemma LaterSnoc(items: seq<Item>, x: Item, n: nat)
    ensures Later(items + [x], n) == Later(items, n) + if x.due > n then [x] else []
    ensures DueAt(items + [x], n) == DueAt(items, n) + if x.due == n then [x] else []
  {
    assert (items + [x])[..|items|] == items;
  }

  lemma {:induction false} LaterAppend(items: seq<Item>, more: seq<Item>, n: nat)
    requires forall x :: x in more ==> x.due > n
    ensures Later(items + more, n) == Later(items, n) + more
    ensures DueAt(items + more, n) == DueAt(items, n)
  {
    hide Later, DueAt;
    if more == [] {
      assert items + more == items;
    } else {
      var last, rest := more[|more| - 1], more[..|more| - 1];
      assert more == rest + [last];
      LaterAppend(items, rest, n);
      LaterSnoc(items + rest, last, n);
      assert items + more == (items + rest) + [last];
    }
  }

  lemma {:induction false} LaterTick(items: seq<Item>, n: nat)
    ensures DueAt(Later(items, n), n + 1) == DueAt(items, n + 1)
    ensures NotDueAt(Later(items, n), n + 1) == Later(items, n + 1)
  {
    if items != [] {
      var last, rest := items[|items| - 1], items[..|items| - 1];
      LaterTick(rest, n);
      if last.due > n {
        assert (Later(rest, n) + [last])[..|Later(rest, n)|] == Later(rest, n);
      } else {
        assert Later(items, n) == Later(rest, n);
      }
    }
  }

  lemma {:induction false} QueuedLater(rs: seq<Request>, now: nat)
    ensures forall x :: x in Queued(rs, now) ==> now < x.due
  {
    if rs != [] {
      QueuedLater(rs[..|rs| - 1], now);
    }
  }

  lemma RunStart(ops: seq<Op>)
    ensures Later(Asked(ops, 0), 0) == [] && Ticks(ops, 0) == 0 && AskedAtOnce(ops, 0) == []
  {
  }

  /** What one more call does to everything asked for so far. */
  lemma RunStep(ops: seq<Op>, j: nat)
    requires j < |ops|
    ensures var asked, asked' := Asked(ops, j), Asked(ops, j + 1);
            var n, n' := Ticks(ops, j), Ticks(ops, j + 1);
            && n' == (if ops[j].Update? then n + 1 else n)
            && AskedAtOnce(ops, j + 1) == AskedAtOnce(ops, j) + AtOnce(Requests(ops[j]))
            && Later(asked', n') == (if ops[j].Update? then NotDueAt(Later(asked, n), n') else Later(asked, n))
                                    + Queued(Requests(ops[j]), n')
            && (forall k :: 1 <= k <= n ==> DueAt(asked', k) == DueAt(asked, k))
            && (ops[j].Update? ==> DueAt(asked', n') == DueAt(Later(asked, n), n'))
  {
    var asked, n, n' := Asked(ops, j), Ticks(ops, j), Ticks(ops, j + 1);
    var more := Queued(Requests(ops[j]), n');
    hide DueAt, Later, NotDueAt, Queued, AtOnce;
    LaterTick(asked, n);
    QueuedLater(Requests(ops[j]), n');
    LaterAppend(asked, more, n');
    forall k | 1 <= k <= n' ensures DueAt(asked + more, k) == DueAt(asked, k) {
      LaterAppend(asked, more, k);
    }
  }

  /** Any run of skynet_timeout and timer_update from a fresh wheel, with other threads' calls arriving during
      updates: update number k hands out exactly the timers due at tick k, in the order they were asked for. */
  method Run(ops: seq<Op>) returns (log: seq<seq<Event>>, immediate: seq<Event>)
    ensures |log| == Ticks(ops, |ops|)
    ensures forall k :: 0 <= k < |log| ==> log[k] == Events(DueAt(Asked(ops, |ops|), k + 1))
    ensures immediate == AskedAtOnce(ops, |ops|)
  {
    hide *;
    RunStart(ops);
    var timer := new Timer();
    log, immediate := [], [];
    var j := 0;
    while j < |ops|
      invariant j <= |ops| && fresh(timer) && fresh(timer.near) && fresh(timer.t) && timer.Valid()
      invariant |log| == timer.now == Ticks(ops, j)
      invariant timer.items == Later(Asked(ops, j), timer.now)
      invariant immediate == AskedAtOnce(ops, j)
      invariant forall k :: 0 <= k < |log| ==> log[k] == Events(DueAt(Asked(ops, j), k + 1))
    {
      RunStep(ops, j);
      var fired, atOnce := timer.Call(ops[j]);
      log := log + fired;
      immediate := immediate + atOnce;
      j := j + 1;
    }
  }

  // ---------------------------------------------------------------- what the schedule promises

  lemma {:induction false} AskedAhead(ops: seq<Op>, j: nat)
    requires j <= |ops|
    ensures forall x :: x in Asked(ops, j) ==> 1 <= x.due
  {
    if j > 0 {
      AskedAhead(ops, j - 1);
      QueuedLater(Requests(ops[j - 1]), Ticks(ops, j));
    }
  }

  lemma {:induction false} OneTick(items: seq<Item>, n: nat)
    requires n > 0
    ensures multiset(DueAt(items, n)) + multiset(Later(items, n)) == multiset(Later(items, n - 1))
  {
    if items != [] {
      OneTick(items[..|items| - 1], n);
    }
  }

  lemma {:induction false} AllLater(items: seq<Item>)
    requires forall x :: x in items ==> 1 <= x.due
    ensures Later(items, 0) == items
  {
    if items != [] {
      AllLater(items[..|items| - 1]);
    }
  }

  /** Handed out plus still waiting is exactly what was asked for: no timer is lost and none fires twice. */
  lemma {:induction false} ExactlyOnce(items: seq<Item>, n: nat)
    requires forall x :: x in items ==> 1 <= x.due
    ensures multiset(Schedule(items, n)) + multiset(Later(items, n)) == multiset(items)
  {
    if n == 0 {
      AllLater(items);
    } else {
      ExactlyOnce(items, n - 1);
      OneTick(items, n);
    }
  }

  lemma {:induction false} DueAtIs(items: seq<Item>, k: nat)
    ensures forall x :: x in DueAt(items, k) ==> x.due == k
  {
    if items != [] {
      DueAtIs(items[..|items| - 1], k);
    }
  }

  lemma {:induction false} DueAtJoin(a: seq<Item>, b: seq<Item>, k: nat)
    ensures DueAt(a + b, k) == DueAt(a, k) + DueAt(b, k)
  {
    if b == [] {
      assert a + b == a;
    } else {
      DueAtJoin(a, b[..|b| - 1], k);
      assert (a + b)[..|a + b| - 1] == a + b[..|b| - 1];
    }
  }

  lemma {:induction false} DueAtTwice(items: seq<Item>, n: nat, k: nat)
    ensures DueAt(DueAt(items, n), k) == if n == k then DueAt(items, k) else []
  {
    if items != [] {
      var last, rest := items[|items| - 1], items[..|items| - 1];
      DueAtTwice(rest, n, k);
      if last.due == n {
        assert (DueAt(rest, n) + [last])[..|DueAt(rest, n)|] == DueAt(rest, n);
      } else {
        assert DueAt(items, n) == DueAt(rest, n);
      }
    }
  }

  /** The schedule is ordered by tick. */
  lemma {:induction false} ScheduleSorted(items: seq<Item>, n: nat)
    ensures forall x :: x in Schedule(items, n) ==> 1 <= x.due <= n
    ensures forall i, j :: 0 <= i < j < |Schedule(items, n)| ==> Schedule(items, n)[i].due <= Schedule(items, n)[j].due
  {
    if n > 0 {
      hide DueAt;
      ScheduleSorted(items, n - 1);
      DueAtIs(items, n);
    }
  }

  /** Within a tick the schedule keeps the order of insertion. */
  lemma {:induction false} ScheduleStable(items: seq<Item>, n: nat, k: nat)
    ensures DueAt(Schedule(items, n), k) == if 1 <= k <= n then DueAt(items, k) else []
  {
    if n > 0 {
      ScheduleStable(items, n - 1, k);
      DueAtJoin(Schedule(items, n - 1), DueAt(items, n), k);
      DueAtTwice(items, n, k);
    }
  }
}
