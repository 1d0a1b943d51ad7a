/**
The ring buffer behind a service's message queue, skynet-src/skynet_mq.c: it doubles when it is full and is
proved to be a first-in first-out queue across any number of doublings. The bodies are the sections that the
source runs under the queue's lock.
*/
module MessageQueue {
  import opened Basics

  const DEFAULT_QUEUE_SIZE := 64
  const MQ_OVERLOAD := 1024

  /** The messages in a ring with the given ends, oldest first. */
  ghost function Ring<T>(a: seq<T>, head: nat, tail: nat): seq<T>
    requires head < |a| && tail < |a|
  {
    if head <= tail then a[head..tail] else a[head..] + a[..tail]
  }

  lemma RingWrite<T>(a: seq<T>, head: nat, tail: nat, x: T)
    requires head < |a| && tail < |a|
    ensures var b, t := a[tail := x], if tail + 1 < |a| then tail + 1 else 0;
            if t == head then b[head..] + b[..head] == Ring(a, head, tail) + [x]
            else Ring(b, head, t) == Ring(a, head, tail) + [x]
  {
  }

  lemma RingRead<T>(a: seq<T>, head: nat, tail: nat)
    requires head < |a| && tail < |a| && head != tail
    ensures var h := if head + 1 < |a| then head + 1 else 0;
            Ring(a, head, tail) == [a[head]] + Ring(a, h, tail)
  {
  }

  class Queue<T(0)> {
    var cap: nat
    var head: nat
    var tail: nat
    var inGlobal: bool
    var overload: int
    var overloadThreshold: int
    var queue: array<T>

    ghost predicate Valid()
      reads this
    {
      queue.Length == cap && head < cap && tail < cap && overloadThreshold > 0
    }

    ghost function Contents(): seq<T>
      requires Valid()
      reads this, queue
    {
      Ring(queue[..], head, tail)
    }

    /** skynet_mq_create */
    constructor (filler: T)
      ensures Valid() && fresh(queue) && Contents() == [] && inGlobal
    {
      queue := new T[DEFAULT_QUEUE_SIZE](_ => filler);
      cap, head, tail := DEFAULT_QUEUE_SIZE, 0, 0;
      inGlobal, overload, overloadThreshold := true, 0, MQ_OVERLOAD;
    }

    /** skynet_mq_length */
    method Length() returns (n: int)
      requires Valid()
      ensures n == |Contents()|
    {
      n := if head <= tail then tail - head else tail + cap - head;
    }

    /** skynet_mq_pop: the oldest message, or none; an empty queue leaves the global list. */
    method Pop() returns (none: bool, m: T)
      requires Valid()
      modifies this
      ensures Valid() && queue == old(queue)
      ensures none <==> old(Contents()) == []
      ensures none ==> Contents() == [] && !inGlobal
      ensures !none ==> old(Contents()) == [m] + Contents() && inGlobal == old(inGlobal)
      ensures !none ==> |Contents()| <= overloadThreshold
    {
      m := queue[head];
      if head != tail {
        none := false;
        RingRead(queue[..], head, tail);
        head := head + 1;
        if head >= cap {
          head := 0;
        }
        var length := tail - head;
        if length < 0 {
          length := length + cap;
        }
        while length > overloadThreshold
          invariant overloadThreshold > 0
          modifies `overload, `overloadThreshold
        {
          overload := length;
          overloadThreshold := overloadThreshold * 2;
        }
      } else {
        none := true;
        overloadThreshold := MQ_OVERLOAD;
        inGlobal := false;
      }
    }

    /** expand_queue, for a ring that is full: its two ends have met. */
    method Expand()
      requires Valid() && head == tail
      modifies this
      ensures Valid() && fresh(queue) && cap == 2 * old(cap)
      ensures Contents() == old(queue[head..] + queue[..head])
      ensures inGlobal == old(inGlobal)
    {
      var filler := queue[head];
      var larger := new T[cap * 2](_ => filler);
      var i := 0;
      while i < cap
        invariant i <= cap
        invariant forall k :: 0 <= k < i ==> larger[k] == (queue[head..] + queue[..head])[k]
        modifies larger
      {
        ModOnce(head + i, cap);
        larger[i] := queue[(head + i) % cap];
        i := i + 1;
      }
      head := 0;
      tail := cap;
      cap := cap * 2;
      queue := larger;
      assert queue[..][0..tail] == old(queue[head..] + queue[..head]);
    }

    /** skynet_mq_push: the message goes in last; `wake` says that the queue has to join the global list. */
    method Push(m: T) returns (wake: bool)
      requires Valid()
      modifies this, queue
      ensures Valid() && (queue == old(queue) || fresh(queue))
      ensures Contents() == old(Contents()) + [m]
      ensures wake == !old(inGlobal) && inGlobal
    {
      RingWrite(queue[..], head, tail, m);
      ghost var before := queue[..];
      queue[tail] := m;
      assert queue[..] == before[tail := m];
      tail := tail + 1;
      if tail >= cap {
        tail := 0;
      }
      if head == tail {
        assert queue[head..] + queue[..head] == queue[..][head..] + queue[..][..head];
        Expand();
      }
      wake := !inGlobal;
      inGlobal := true;
    }
  }
}
