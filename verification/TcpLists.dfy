/**
The packages of one TCP socket of skynet-src/socket_server.c as values: its two write lists, what they leave on the
wire, and the order in which they send.
*/
module TcpLists {
  import opened Basics

  /** A package handed to socket_server_send or socket_server_send_lowpriority. `plain` is false for a user object
      whose payload is not at the object's own address. */
  datatype Package = Package(bytes: seq<Byte>, high: bool, plain: bool)

  /** struct write_buffer: off bytes of the package are already written. */
  datatype Buffer = Buffer(pkg: Package, off: nat)

  datatype Request = Send(pkg: Package) | Trigger

  /** What a call of write or read returns. */
  datatype Io = Moved(n: nat) | Interrupted | Again | Failed

  // ---------------------------------------------------------------- lists of packages

  function Flatten(ps: seq<Package>): seq<Byte> {
    if ps == [] then [] else Flatten(ps[..|ps| - 1]) + ps[|ps| - 1].bytes
  }

  function Size(b: Buffer): int { |b.pkg.bytes| - b.off }

  function Unsent(l: seq<Buffer>): int {
    if l == [] then 0 else Size(l[0]) + Unsent(l[1..])
  }

  function Packages(l: seq<Buffer>): seq<Package> {
    if l == [] then [] else [l[0].pkg] + Packages(l[1..])
  }

  /** The packages of one priority, in order. */
  function Of(ps: seq<Package>, high: bool): seq<Package> {
    if ps == [] then [] else (if ps[0].high == high then [ps[0]] else []) + Of(ps[1..], high)
  }

  function InPipe(pipe: seq<Request>): seq<Package> {
    if pipe == [] then [] else (if pipe[0].Send? then [pipe[0].pkg] else []) + InPipe(pipe[1..])
  }

  lemma FlattenSnoc(ps: seq<Package>, p: Package)
    ensures Flatten(ps + [p]) == Flatten(ps) + p.bytes
  {
    assert (ps + [p])[..|ps|] == ps;
  }

  lemma {:induction false} UnsentSnoc(l: seq<Buffer>, b: Buffer)
    ensures Unsent(l + [b]) == Unsent(l) + Size(b)
  {
    if l != [] {
      assert (l + [b])[1..] == l[1..] + [b];
      UnsentSnoc(l[1..], b);
    } else {
      assert l + [b] == [b];
    }
  }

  lemma {:induction false} PackagesJoin(a: seq<Buffer>, b: seq<Buffer>)
    ensures Packages(a + b) == Packages(a) + Packages(b)
  {
    if a == [] {
      assert a + b == b;
    } else {
      assert (a + b)[1..] == a[1..] + b;
      PackagesJoin(a[1..], b);
    }
  }

  lemma {:induction false} OfJoin(a: seq<Package>, b: seq<Package>, high: bool)
    ensures Of(a + b, high) == Of(a, high) + Of(b, high)
  {
    if a == [] {
      assert a + b == b;
    } else {
      assert (a + b)[1..] == a[1..] + b;
      OfJoin(a[1..], b, high);
      var first := if a[0].high == high then [a[0]] else [];
      assert Of(a + b, high) == first + (Of(a[1..], high) + Of(b, high)) == first + Of(a[1..], high) + Of(b, high);
    }
  }

  lemma {:induction false} InPipeJoin(a: seq<Request>, b: seq<Request>)
    ensures InPipe(a + b) == InPipe(a) + InPipe(b)
  {
    if a == [] {
      assert a + b == b;
    } else {
      assert (a + b)[1..] == a[1..] + b;
      InPipeJoin(a[1..], b);
      var first := if a[0].Send? then [a[0].pkg] else [];
      assert InPipe(a + b) == first + (InPipe(a[1..]) + InPipe(b)) == first + InPipe(a[1..]) + InPipe(b);
    }
  }

  lemma NothingInPipe()
    ensures InPipe([]) == []
  {
  }

  lemma InPipeOne(r: Request)
    ensures InPipe([r]) == if r.Send? then [r.pkg] else []
  {
  }

  lemma {:induction false} NoneOf(ps: seq<Package>, high: bool)
    requires forall p :: p in ps ==> p.high != high
    ensures Of(ps, high) == []
  {
    if ps != [] {
      NoneOf(ps[1..], high);
    }
  }

  // ---------------------------------------------------------------- what is on the wire, and in what order

  /** Not begun, or begun and not finished. */
  predicate Unfinished(b: Buffer) { b.off == 0 || b.off < |b.pkg.bytes| }

  /** Nothing but the first buffer has been started, and no buffer is at its end. */
  ghost predicate Fresh(l: seq<Buffer>) {
    && (forall i :: 0 < i < |l| ==> l[i].off == 0)
    && (forall i :: 0 <= i < |l| ==> Unfinished(l[i]))
  }

  /** The bytes of the first buffer that are on the wire already. */
  ghost function Begun(l: seq<Buffer>): seq<Byte>
    requires Fresh(l)
  {
    if l == [] then [] else l[0].pkg.bytes[..l[0].off]
  }

  /** Whole packages back to back, and at most one more package begun. */
  ghost predicate Framed(wire: seq<Byte>, sent: seq<Package>, pending: seq<Buffer>) {
    Fresh(pending) && wire == Flatten(sent) + Begun(pending)
  }

  /** Of each priority, what was accepted is sent or pending, in the order of acceptance. */
  ghost predicate InOrder(accepted: seq<Package>, sent: seq<Package>, pending: seq<Buffer>) {
    forall high :: Of(accepted, high) == Of(sent, high) + Of(Packages(pending), high)
  }

  /** a is b with some elements left out. */
  ghost predicate Within(a: seq<Package>, b: seq<Package>) {
    if a == [] then true
    else if b == [] then false
    else Within(a, b[..|b| - 1]) || (a[|a| - 1] == b[|b| - 1] && Within(a[..|a| - 1], b[..|b| - 1]))
  }

  lemma WithinSnoc(a: seq<Package>, b: seq<Package>, p: Package)
    requires Within(a, b)
    ensures Within(a + [p], b + [p])
  {
    assert (a + [p])[..|a|] == a && (b + [p])[..|b|] == b;
  }

  lemma {:induction false} WithinLess(a: seq<Package>, p: Package, c: seq<Package>, b: seq<Package>)
    requires Within(a + [p] + c, b)
    ensures Within(a + c, b)
    decreases |b|
  {
    var x := a + [p] + c;
    if b != [] {
      var b' := b[..|b| - 1];
      if Within(x, b') {
        WithinLess(a, p, c, b');
      } else if c == [] {
        assert x[..|x| - 1] == a && a + c == a;
        WithinMore(a, b', b[|b| - 1]);
        assert b == b' + [b[|b| - 1]];
      } else {
        var c' := c[..|c| - 1];
        assert x[..|x| - 1] == a + [p] + c';
        WithinLess(a, p, c', b');
        assert (a + c)[..|a + c| - 1] == a + c';
      }
    }
  }

  lemma WithinMore(a: seq<Package>, b: seq<Package>, p: Package)
    requires Within(a, b)
    ensures Within(a, b + [p])
  {
    assert (b + [p])[..|b|] == b;
  }

  // ---------------------------------------------------------------- steps of the wire

  lemma FreshTail(b: Buffer, b': Buffer, rest: seq<Buffer>)
    requires Fresh([b] + rest)
    ensures (Unfinished(b') ==> Fresh([b'] + rest)) && Fresh(rest) && (rest != [] ==> rest[0].off == 0)
  {
    var l, l' := [b] + rest, [b'] + rest;
    assert forall i :: 0 < i < |l| ==> l[i] == l'[i] == rest[i - 1];
    assert forall i :: 0 <= i < |rest| ==> rest[i] == l[i + 1];
  }

  /** Writing n more bytes of the first pending buffer. */
  lemma FramedWrite(wire: seq<Byte>, sent: seq<Package>, b: Buffer, rest: seq<Buffer>, n: nat)
    requires Framed(wire, sent, [b] + rest) && n <= Size(b) && b.off <= |b.pkg.bytes|
    ensures var wire' := wire + b.pkg.bytes[b.off..b.off + n];
            && (n < Size(b) ==> Framed(wire', sent, [b.(off := b.off + n)] + rest))
            && (n == Size(b) ==> Framed(wire', sent + [b.pkg], rest))
  {
    hide Flatten;
    FreshTail(b, b.(off := b.off + n), rest);
    var old_, more := b.pkg.bytes[..b.off], b.pkg.bytes[b.off..b.off + n];
    assert Flatten(sent) + old_ + more == Flatten(sent) + (old_ + more);
    assert old_ + more == b.pkg.bytes[..b.off + n];
    FlattenSnoc(sent, b.pkg);
    assert Begun(rest) == [];
  }

  lemma OrderSent(accepted: seq<Package>, sent: seq<Package>, b: Buffer, rest: seq<Buffer>)
    requires InOrder(accepted, sent, [b] + rest)
    ensures InOrder(accepted, sent + [b.pkg], rest)
  {
    hide Of;
    assert ([b] + rest)[1..] == rest;
    forall high ensures Of(accepted, high) == Of(sent + [b.pkg], high) + Of(Packages(rest), high) {
      OfJoin(sent, [b.pkg], high);
      OfJoin([b.pkg], Packages(rest), high);
      assert Of(sent, high) + (Of([b.pkg], high) + Of(Packages(rest), high))
          == Of(sent, high) + Of([b.pkg], high) + Of(Packages(rest), high);
    }
  }

  lemma FramedHead(wire: seq<Byte>, sent: seq<Package>, b: Buffer, rest: seq<Buffer>)
    requires Framed(wire, sent, [b] + rest)
    ensures b.off <= |b.pkg.bytes|
  {
    assert ([b] + rest)[0] == b;
  }

  lemma FreshInsert(a: seq<Buffer>, p: Package, c: seq<Buffer>)
    requires Fresh(a + c) && (a == [] && c != [] ==> c[0].off == 0)
    ensures Fresh(a + [Buffer(p, 0)] + c)
  {
    var l, l' := a + c, a + [Buffer(p, 0)] + c;
    forall i | 0 <= i < |l'| ensures Unfinished(l'[i]) && (i > 0 ==> l'[i].off == 0) {
      if i < |a| {
        assert l'[i] == l[i];
      } else if i > |a| {
        assert l'[i] == l[i - 1] == c[i - 1 - |a|];
      }
    }
  }

  /** A new package that is not put before one already begun changes nothing on the wire. */
  lemma FramedInsert(wire: seq<Byte>, sent: seq<Package>, a: seq<Buffer>, p: Package, c: seq<Buffer>)
    requires Framed(wire, sent, a + c) && (a == [] && c != [] ==> c[0].off == 0)
    ensures Framed(wire, sent, a + [Buffer(p, 0)] + c)
  {
    hide Flatten, Fresh;
    FreshInsert(a, p, c);
    if a != [] {
      assert (a + [Buffer(p, 0)] + c)[0] == (a + c)[0];
    } else if c != [] {
      assert (a + c)[0] == c[0] && (a + [Buffer(p, 0)] + c)[0] == Buffer(p, 0);
    }
  }

  /** How many bytes a call of write took; an error counts as none here. */
  function Taken(io: Io, size: nat): (n: nat)
    ensures n <= size
  {
    if io.Moved? then (if io.n <= size then io.n else size) else 0
  }

  lemma OrderShift(accepted: seq<Package>, sent: seq<Package>, b: Buffer, n: nat, rest: seq<Buffer>)
    requires InOrder(accepted, sent, [b] + rest)
    ensures InOrder(accepted, sent, [Buffer(b.pkg, n)] + rest)
  {
    PackagesSame([b] + rest, [Buffer(b.pkg, n)] + rest);
  }

  lemma {:induction false} PackagesSame(l: seq<Buffer>, l': seq<Buffer>)
    requires |l| == |l'| && forall i :: 0 <= i < |l| ==> l[i].pkg == l'[i].pkg
    ensures Packages(l) == Packages(l')
  {
    if l != [] {
      PackagesSame(l[1..], l'[1..]);
    }
  }

  lemma OfInsert(sent: seq<Package>, a: seq<Package>, p: Package, c: seq<Package>, high: bool)
    requires Of(c, p.high) == []
    ensures Of(sent, high) + Of(a + [p] + c, high) == Of(sent, high) + Of(a + c, high) + Of([p], high)
  {
    hide Of;
    OfJoin(a, c, high);
    OfJoin(a + [p], c, high);
    OfJoin(a, [p], high);
    var x, y, z, w := Of(sent, high), Of(a, high), Of([p], high), Of(c, high);
    if high != p.high {
      NoneOf([p], high);
    }
    assert w == [] || z == [];
    assert x + (y + z + w) == x + (y + w) + z;
  }

  /** A package that comes in behind the buffers of its own priority keeps the order. */
  lemma OrderInsert(accepted: seq<Package>, sent: seq<Package>, a: seq<Buffer>, p: Package, c: seq<Buffer>)
    requires InOrder(accepted, sent, a + c) && forall b :: b in c ==> b.pkg.high != p.high
    ensures InOrder(accepted + [p], sent, a + [Buffer(p, 0)] + c)
  {
    hide Of;
    PackagesJoin(a, c);
    PackagesJoin(a + [Buffer(p, 0)], c);
    PackagesJoin(a, [Buffer(p, 0)]);
    assert Packages([Buffer(p, 0)]) == [p];
    PackagesIn(c);
    NoneOf(Packages(c), p.high);
    forall high ensures Of(accepted + [p], high) == Of(sent, high) + Of(Packages(a + [Buffer(p, 0)] + c), high) {
      OfJoin(accepted, [p], high);
      OfInsert(sent, Packages(a), p, Packages(c), high);
    }
  }

  lemma {:induction false} PackagesIn(c: seq<Buffer>)
    ensures forall p :: p in Packages(c) ==> exists b :: b in c && b.pkg == p
  {
    if c != [] {
      PackagesIn(c[1..]);
    }
  }

  /** The lists of a socket: on the wire, in order, and of the size recorded. */
  ghost predicate Lists(wire: seq<Byte>, sent: seq<Package>, accepted: seq<Package>, front: seq<Buffer>,
                        high: seq<Buffer>, low: seq<Buffer>, size: int)
  {
    && Framed(wire, sent, front + high + low)
    && InOrder(accepted, sent, front + high + low)
    && size == Unsent(high) + Unsent(low)
    && (forall b :: b in low ==> !b.pkg.high)
  }

  /** A package joins the high list: the order is kept if it is of high priority or the low list is empty. */
  lemma JoinHigh(wire: seq<Byte>, sent: seq<Package>, accepted: seq<Package>, front: seq<Buffer>,
                 high: seq<Buffer>, low: seq<Buffer>, size: int, p: Package)
    requires Lists(wire, sent, accepted, front, high, low, size)
    requires low == [] || (p.high && low[0].off == 0)
    ensures Lists(wire, sent, accepted + [p], front, high + [Buffer(p, 0)], low, size + |p.bytes|)
  {
    hide Framed, InOrder, Unsent;
    assert front + high + low == (front + high) + low;
    FramedInsert(wire, sent, front + high, p, low);
    OrderInsert(accepted, sent, front + high, p, low);
    UnsentSnoc(high, Buffer(p, 0));
    assert front + (high + [Buffer(p, 0)]) + low == (front + high) + [Buffer(p, 0)] + low;
  }

  lemma JoinLow(wire: seq<Byte>, sent: seq<Package>, accepted: seq<Package>, front: seq<Buffer>,
                high: seq<Buffer>, low: seq<Buffer>, size: int, p: Package)
    requires Lists(wire, sent, accepted, front, high, low, size) && !p.high
    ensures Lists(wire, sent, accepted + [p], front, high, low + [Buffer(p, 0)], size + |p.bytes|)
  {
    hide Framed, InOrder, Unsent;
    assert front + high + low == (front + high + low) + [];
    FramedInsert(wire, sent, front + high + low, p, []);
    OrderInsert(accepted, sent, front + high + low, p, []);
    UnsentSnoc(low, Buffer(p, 0));
    assert front + high + (low + [Buffer(p, 0)]) == (front + high + low) + [Buffer(p, 0)] + [];
  }

  lemma DirectStart(wire: seq<Byte>, sent: seq<Package>, accepted: seq<Package>, size: int, p: Package)
    requires Lists(wire, sent, accepted, [], [], [], size)
    ensures Lists(wire, sent, accepted + [p], [Buffer(p, 0)], [], [], size)
  {
    hide Framed, InOrder;
    var none: seq<Buffer> := [];
    assert none + none + none == none + none;
    FramedInsert(wire, sent, none, p, none);
    OrderInsert(accepted, sent, none, p, none);
    assert [Buffer(p, 0)] + [] + [] == [] + [Buffer(p, 0)] + [];
  }

  /** Writing n bytes of the first pending buffer, whichever list it is in. */
  lemma ListsWrite(wire: seq<Byte>, sent: seq<Package>, accepted: seq<Package>, b: Buffer, rest: seq<Buffer>, n: nat)
    requires Framed(wire, sent, [b] + rest) && InOrder(accepted, sent, [b] + rest) && n <= Size(b) &&
             b.off <= |b.pkg.bytes|
    ensures var wire' := wire + b.pkg.bytes[b.off..b.off + n];
            if n == Size(b) then Framed(wire', sent + [b.pkg], rest) && InOrder(accepted, sent + [b.pkg], rest)
            else Framed(wire', sent, [Buffer(b.pkg, b.off + n)] + rest)
                 && InOrder(accepted, sent, [Buffer(b.pkg, b.off + n)] + rest)
  {
    hide Framed, InOrder;
    FramedWrite(wire, sent, b, rest, n);
    OrderSent(accepted, sent, b, rest);
    OrderShift(accepted, sent, b, b.off + n, rest);
  }

  lemma DirectWrite(wire: seq<Byte>, sent: seq<Package>, accepted: seq<Package>, p: Package,
                    high: seq<Buffer>, low: seq<Buffer>, size: int, n: nat)
    requires Lists(wire, sent, accepted, [Buffer(p, 0)], high, low, size) && n <= |p.bytes|
    ensures if n == |p.bytes| then Lists(wire + p.bytes[..n], sent + [p], accepted, [], high, low, size)
            else Lists(wire + p.bytes[..n], sent, accepted, [Buffer(p, n)], high, low, size)
  {
    hide Framed, InOrder, Unsent;
    var b, rest := Buffer(p, 0), high + low;
    assert [b] + high + low == [b] + rest;
    ListsWrite(wire, sent, accepted, b, rest, n);
    assert p.bytes[0..0 + n] == p.bytes[..n];
    assert [Buffer(p, n)] + high + low == [Buffer(p, n)] + rest && [] + high + low == rest;
  }

  lemma ListsHead(wire: seq<Byte>, sent: seq<Package>, accepted: seq<Package>, high: seq<Buffer>, low: seq<Buffer>,
                  size: int)
    requires Lists(wire, sent, accepted, [], high, low, size)
    ensures high != [] ==> high[0].off <= |high[0].pkg.bytes|
    ensures low != [] ==> low[0].off <= |low[0].pkg.bytes|
  {
    var l := [] + high + low;
    assert high != [] ==> l[0] == high[0];
    assert low != [] ==> l[|high|] == low[0];
  }

  /** Only the very first pending buffer can have been begun. */
  lemma LowStarted(wire: seq<Byte>, sent: seq<Package>, accepted: seq<Package>, front: seq<Buffer>, high: seq<Buffer>,
                   low: seq<Buffer>, size: int)
    requires Lists(wire, sent, accepted, front, high, low, size)
    ensures forall i :: 0 <= i < |low| && (i > 0 || |front + high| > 0) ==> low[i].off == 0
  {
    var l := front + high + low;
    assert forall i :: 0 <= i < |low| ==> low[i] == l[|front| + |high| + i];
  }

  lemma AllSent(wire: seq<Byte>, sent: seq<Package>, accepted: seq<Package>, size: int)
    requires Lists(wire, sent, accepted, [], [], [], size)
    ensures size == 0
  {
  }

  lemma NoLists()
    ensures Lists([], [], [], [], [], [], 0)
  {
  }

  /** The head of a list after n bytes of it were written. */
  function Advance(l: seq<Buffer>, n: nat): seq<Buffer>
    requires l != []
  {
    if n == Size(l[0]) then l[1..] else [Buffer(l[0].pkg, l[0].off + n)] + l[1..]
  }

  lemma AdvanceUnsent(l: seq<Buffer>, n: nat)
    requires l != []
    ensures Unsent(Advance(l, n)) == Unsent(l) - n
  {
    if n != Size(l[0]) {
      assert Advance(l, n)[1..] == l[1..];
    }
  }

  lemma WriteHigh(wire: seq<Byte>, sent: seq<Package>, accepted: seq<Package>, high: seq<Buffer>, low: seq<Buffer>,
                  size: int, n: nat)
    requires Lists(wire, sent, accepted, [], high, low, size) && high != [] && n <= Size(high[0])
    ensures var b := high[0];
            && b.off + n <= |b.pkg.bytes|
            && Lists(wire + b.pkg.bytes[b.off..b.off + n], if n == Size(b) then sent + [b.pkg] else sent, accepted,
                     [], Advance(high, n), low, size - n)
  {
    hide Framed, InOrder, Unsent;
    var b, rest := high[0], high[1..] + low;
    assert [] + high + low == [b] + rest;
    FramedHead(wire, sent, b, rest);
    ListsWrite(wire, sent, accepted, b, rest, n);
    AdvanceUnsent(high, n);
    assert [] + high[1..] + low == rest;
    assert [] + ([Buffer(b.pkg, b.off + n)] + high[1..]) + low == [Buffer(b.pkg, b.off + n)] + rest;
  }

  lemma WriteLow(wire: seq<Byte>, sent: seq<Package>, accepted: seq<Package>, low: seq<Buffer>, size: int, n: nat)
    requires Lists(wire, sent, accepted, [], [], low, size) && low != [] && n <= Size(low[0])
    ensures var b := low[0];
            && b.off + n <= |b.pkg.bytes|
            && Lists(wire + b.pkg.bytes[b.off..b.off + n], if n == Size(b) then sent + [b.pkg] else sent, accepted,
                     [], [], Advance(low, n), size - n)
  {
    RaiseAll(wire, sent, accepted, low, size);
    hide Framed, InOrder, Unsent;
    WriteHigh(wire, sent, accepted, low, [], size, n);
    var l := Advance(low, n);
    assert [] + l + [] == [] + [] + l;
    AdvanceUnsent(low, n);
  }

  lemma RaiseAll(wire: seq<Byte>, sent: seq<Package>, accepted: seq<Package>, low: seq<Buffer>, size: int)
    requires Lists(wire, sent, accepted, [], [], low, size)
    ensures Lists(wire, sent, accepted, [], low, [], size)
  {
    hide Framed, InOrder;
    assert [] + low + [] == [] + [] + low;
  }

  lemma RaiseHead(wire: seq<Byte>, sent: seq<Package>, accepted: seq<Package>, low: seq<Buffer>, size: int)
    requires Lists(wire, sent, accepted, [], [], low, size) && low != []
    ensures Lists(wire, sent, accepted, [], [low[0]], low[1..], size)
  {
    hide Framed, InOrder;
    assert [] + [low[0]] + low[1..] == [] + [] + low;
    assert Unsent([low[0]]) == Size(low[0]);
  }

  lemma TakeDirect(wire: seq<Byte>, sent: seq<Package>, accepted: seq<Package>, b: Buffer, high: seq<Buffer>,
                   low: seq<Buffer>, size: int)
    requires Lists(wire, sent, accepted, [b], high, low, size)
    ensures Lists(wire, sent, accepted, [], [b] + high, low, size + Size(b))
  {
    hide Framed, InOrder;
    assert [] + ([b] + high) + low == [b] + high + low;
    assert ([b] + high)[1..] == high;
  }

  lemma {:induction false} OfIn(ps: seq<Package>, p: Package)
    ensures p in Of(ps, p.high) <==> p in ps
  {
    if ps != [] {
      OfIn(ps[1..], p);
    }
  }

  lemma {:induction false} WithinIn(a: seq<Package>, b: seq<Package>, p: Package)
    requires Within(a, b) && p in a
    ensures p in b
    decreases |b|
  {
    var b' := b[..|b| - 1];
    if Within(a, b') {
      WithinIn(a, b', p);
    } else if p != a[|a| - 1] {
      WithinIn(a[..|a| - 1], b', p);
    }
  }

  lemma {:induction false} InPackages(l: seq<Buffer>, b: Buffer)
    requires b in l
    ensures b.pkg in Packages(l)
  {
    if b != l[0] {
      InPackages(l[1..], b);
    }
  }

  lemma LowPriority(wire: seq<Byte>, sent: seq<Package>, accepted: seq<Package>, front: seq<Buffer>, high: seq<Buffer>,
                    low: seq<Buffer>, size: int)
    requires Lists(wire, sent, accepted, front, high, low, size)
    ensures forall b :: b in low ==> !b.pkg.high
  {
  }

  lemma {:induction false} WithinPrefix(a: seq<Package>, c: seq<Package>, b: seq<Package>)
    requires Within(a + c, b)
    ensures Within(a, b)
    decreases |c|
  {
    if c == [] {
      assert a + c == a;
    } else {
      var c' := c[..|c| - 1];
      assert a + c == a + c' + [c[|c| - 1]] + [];
      WithinLess(a + c', c[|c| - 1], [], b);
      assert a + c' + [] == a + c';
      WithinPrefix(a, c', b);
    }
  }

  // ---------------------------------------------------------------- the order of each priority

  lemma {:induction false} WithinCut(a: seq<Package>, b: seq<Package>, c: seq<Package>, x: seq<Package>)
    requires Within(a + b + c, x)
    ensures Within(a + c, x)
    decreases |b|
  {
    hide Within;
    if b == [] {
      assert a + b + c == a + c;
    } else {
      assert a + b + c == a + [b[0]] + (b[1..] + c);
      WithinLess(a, b[0], b[1..] + c, x);
      assert a + (b[1..] + c) == a + b[1..] + c;
      WithinCut(a, b[1..], c, x);
    }
  }

  /** Of each priority, what was sent before, then what was taken since, is what arrived with some left out. */
  ghost predicate Ordered(before: seq<Package>, taken: seq<Package>, arrived: seq<Package>) {
    forall high :: Within(Of(before, high) + Of(taken, high), Of(arrived, high))
  }

  lemma OrderedSnoc(before: seq<Package>, taken: seq<Package>, arrived: seq<Package>, p: Package)
    requires Ordered(before, taken, arrived)
    ensures Ordered(before, taken + [p], arrived + [p]) && Ordered(before, taken, arrived + [p])
  {
    hide Within, Of;
    forall high
      ensures Within(Of(before, high) + Of(taken + [p], high), Of(arrived + [p], high))
      ensures Within(Of(before, high) + Of(taken, high), Of(arrived + [p], high))
    {
      OfJoin(taken, [p], high);
      OfJoin(arrived, [p], high);
      OfOne(p, high);
      var a, b := Of(before, high) + Of(taken, high), Of(arrived, high);
      if p.high == high {
        WithinSnoc(a, b, p);
        WithinMore(a, b, p);
        assert a + [p] == Of(before, high) + (Of(taken, high) + [p]);
      } else {
        assert Of(taken, high) + [] == Of(taken, high) && b + [] == b;
      }
    }
  }

  lemma OfOne(p: Package, high: bool)
    ensures Of([p], high) == if p.high == high then [p] else []
  {
  }

  lemma OrderedCut(before: seq<Package>, a: seq<Package>, b: seq<Package>, c: seq<Package>, arrived: seq<Package>)
    requires Ordered(before, a + b + c, arrived)
    ensures Ordered(before, a + c, arrived)
  {
    hide Within, Of;
    forall high ensures Within(Of(before, high) + Of(a + c, high), Of(arrived, high)) {
      OfJoin(a + b, c, high);
      OfJoin(a, b, high);
      OfJoin(a, c, high);
      var x, y, z, w := Of(before, high), Of(a, high), Of(b, high), Of(c, high);
      assert x + (y + z + w) == (x + y) + z + w;
      WithinCut(x + y, z, w, Of(arrived, high));
      assert x + (y + w) == (x + y) + w;
    }
  }

  /** The buffers behind `kept` are dropped: what is left is in order. */
  lemma OrderedDrop(before: seq<Package>, accepted: seq<Package>, sent: seq<Package>, kept: seq<Buffer>,
                    dropped: seq<Buffer>, waiting: seq<Package>, arrived: seq<Package>)
    requires InOrder(accepted, sent, kept + dropped) && Ordered(before, accepted + waiting, arrived)
    ensures InOrder(sent + Packages(kept), sent, kept)
    ensures Ordered(before, sent + Packages(kept) + waiting, arrived)
  {
    hide Within, Of;
    PackagesJoin(kept, dropped);
    var k, d := Packages(kept), Packages(dropped);
    forall high
      ensures Of(sent + k, high) == Of(sent, high) + Of(k, high)
      ensures Of(sent + k + d + waiting, high) == Of(accepted + waiting, high)
    {
      OfFour(accepted, sent, k, d, waiting, high);
    }
    assert Ordered(before, sent + k + d + waiting, arrived);
    OrderedCut(before, sent + k, d, waiting, arrived);
  }

  lemma OfFour(accepted: seq<Package>, sent: seq<Package>, k: seq<Package>, d: seq<Package>, waiting: seq<Package>,
               high: bool)
    requires Of(accepted, high) == Of(sent, high) + Of(k + d, high)
    ensures Of(sent + k, high) == Of(sent, high) + Of(k, high)
    ensures Of(sent + k + d + waiting, high) == Of(accepted + waiting, high)
  {
    hide Of;
    OfJoin(sent, k, high);
    OfJoin(sent, k + d, high);
    AssocPackages(sent, k, d);
    OfJoin(accepted, waiting, high);
    OfJoin(sent + k + d, waiting, high);
  }

  lemma AssocPackages(a: seq<Package>, b: seq<Package>, c: seq<Package>)
    ensures a + (b + c) == a + b + c
  {
  }

  /** What was sent so far counts as sent before. */
  lemma OrderedPast(sent: seq<Package>, waiting: seq<Package>, arrived: seq<Package>)
    requires Ordered([], sent + waiting, arrived)
    ensures Ordered(sent, waiting, arrived)
  {
    hide Within, Of;
    forall high ensures Within(Of(sent, high) + Of(waiting, high), Of(arrived, high)) {
      OfJoin(sent, waiting, high);
      OfNone(high);
      assert [] + Of(sent + waiting, high) == Of(sent + waiting, high);
    }
  }

  lemma OfNone(high: bool)
    ensures Of([], high) == []
  {
  }

  /** What was sent, of one priority, was sent in the order in which it was handed in. */
  lemma SentInOrder(before: seq<Package>, accepted: seq<Package>, sent: seq<Package>, pending: seq<Buffer>,
                    waiting: seq<Package>, arrived: seq<Package>, high: bool)
    requires InOrder(accepted, sent, pending) && Ordered(before, accepted + waiting, arrived)
    ensures Within(Of(before + sent, high), Of(arrived, high))
  {
    hide Within, Of;
    OfJoin(accepted, waiting, high);
    OfJoin(before, sent, high);
    var x, y, z, w := Of(before, high), Of(sent, high), Of(Packages(pending), high), Of(waiting, high);
    assert x + (y + z + w) == (x + y) + (z + w);
    WithinPrefix(x + y, z + w, Of(arrived, high));
  }

  /** Whatever was taken and is not lost came from a sender. */
  lemma PendingArrived(before: seq<Package>, accepted: seq<Package>, sent: seq<Package>, pending: seq<Buffer>,
                       waiting: seq<Package>, arrived: seq<Package>, b: Buffer)
    requires InOrder(accepted, sent, pending) && Ordered(before, accepted + waiting, arrived) && b in pending
    ensures b.pkg in arrived
  {
    hide Within, Of;
    var high := b.pkg.high;
    InPackages(pending, b);
    OfIn(Packages(pending), b.pkg);
    OfIn(arrived, b.pkg);
    OfJoin(accepted, waiting, high);
    WithinIn(Of(before, high) + Of(accepted + waiting, high), Of(arrived, high), b.pkg);
  }

  // ---------------------------------------------------------------- what one round of writes delivers

  datatype Stop = Emptied | NoRoom | Failure

  datatype Delivery = Delivery(rest: seq<Buffer>, out: seq<Byte>, done: seq<Package>, left: seq<Io>, stop: Stop)

  /** What a buffer still has to send, and the next n bytes of it. */
  function Room(b: Buffer): nat { if b.off <= |b.pkg.bytes| then |b.pkg.bytes| - b.off else 0 }

  function Part(b: Buffer, n: nat): seq<Byte> {
    if b.off + n <= |b.pkg.bytes| then b.pkg.bytes[b.off..b.off + n] else []
  }

  /** The loop of send_list_tcp: buffers in order, until the list is empty, the descriptor takes no more or fails. */
  function Deliver(l: seq<Buffer>, io: seq<Io>): Delivery
    decreases |io|
  {
    if l == [] then Delivery(l, [], [], io, Emptied)
    else if io == [] || io[0] == Again then Delivery(l, [], [], io, NoRoom)
    else if io[0] == Interrupted then Deliver(l, io[1..])
    else if io[0] == Failed then Delivery(l, [], [], io[1..], Failure)
    else
      var b := l[0];
      var n := Taken(io[0], Room(b));
      if n < Room(b) then Delivery([Buffer(b.pkg, b.off + n)] + l[1..], Part(b, n), [], io[1..], NoRoom)
      else Then(Part(b, n), [b.pkg], Deliver(l[1..], io[1..]))
  }

  function Then(out: seq<Byte>, done: seq<Package>, d: Delivery): Delivery {
    d.(out := out + d.out, done := done + d.done)
  }

  lemma ThenThen(a: seq<Byte>, p: seq<Package>, b: seq<Byte>, q: seq<Package>, d: Delivery)
    ensures Then(a, p, Then(b, q, d)) == Then(a + b, p + q, d)
    ensures Then([], [], d) == d
  {
    assert a + (b + d.out) == a + b + d.out && p + (q + d.done) == p + q + d.done;
  }

  lemma ThenIs(out: seq<Byte>, done: seq<Package>, d: Delivery)
    ensures Then(out, done, d) == Delivery(d.rest, out + d.out, done + d.done, d.left, d.stop)
  {
  }

  lemma ThenStop(out: seq<Byte>, done: seq<Package>, rest: seq<Buffer>, more: seq<Byte>, left: seq<Io>, stop: Stop)
    ensures Then(out, done, Delivery(rest, more, [], left, stop)) == Delivery(rest, out + more, done, left, stop)
    ensures more == [] ==> out + more == out
  {
    assert done + [] == done;
  }

  // ---------------------------------------------------------------- the wire as pieces of packages

  /** The first n bytes of a package. */
  datatype Segment = Segment(pkg: Package, n: nat)

  /** What force_close left behind when it dropped a package that was begun. */
  datatype Past = Past(wire: seq<Byte>, sent: seq<Package>, torn: Buffer)

  function Bytes(segs: seq<Segment>): seq<Byte> {
    if segs == [] then [] else Bytes(segs[..|segs| - 1]) + Written(segs[|segs| - 1])
  }

  function Written(s: Segment): seq<Byte> { if s.n <= |s.pkg.bytes| then s.pkg.bytes[..s.n] else [] }

  function WholeSegs(ps: seq<Package>): (segs: seq<Segment>)
    ensures |segs| == |ps| && forall i :: 0 <= i < |ps| ==> segs[i] == Segment(ps[i], |ps[i].bytes|)
  {
    if ps == [] then [] else WholeSegs(ps[..|ps| - 1]) + [Segment(ps[|ps| - 1], |ps[|ps| - 1].bytes|)]
  }

  predicate Complete(s: Segment) { s.n == |s.pkg.bytes| }

  /** Whole packages back to back: nothing follows a package that was only begun. */
  predicate Unbroken(segs: seq<Segment>) {
    forall i, j :: 0 <= i < j < |segs| && segs[j].n > 0 ==> Complete(segs[i])
  }

  /** The packages that went out completely. */
  function Done(segs: seq<Segment>): seq<Package> {
    if segs == [] then []
    else
      var s := segs[|segs| - 1];
      Done(segs[..|segs| - 1]) + (if Complete(s) then [s.pkg] else [])
  }

  /** The last segment, when a package has been begun. */
  function Tail(pending: seq<Buffer>): seq<Segment> {
    if pending != [] && pending[0].off > 0 then [Segment(pending[0].pkg, pending[0].off)] else []
  }

  function Head(past: Option<Past>): seq<Segment> {
    if past.Some? then WholeSegs(past.value.sent) + [Segment(past.value.torn.pkg, past.value.torn.off)] else []
  }

  function Segments(past: Option<Past>, sent: seq<Package>, pending: seq<Buffer>): seq<Segment> {
    Head(past) + WholeSegs(sent) + Tail(pending)
  }

  lemma {:induction false} BytesJoin(a: seq<Segment>, b: seq<Segment>)
    ensures Bytes(a + b) == Bytes(a) + Bytes(b)
  {
    hide Written;
    if b == [] {
      assert a + b == a;
    } else {
      var c, x := b[..|b| - 1], b[|b| - 1];
      BytesJoin(a, c);
      assert (a + b)[..|a + b| - 1] == a + c && (a + b)[|a + b| - 1] == x;
      assert Bytes(a) + Bytes(c) + Written(x) == Bytes(a) + (Bytes(c) + Written(x));
    }
  }

  lemma {:induction false} DoneJoin(a: seq<Segment>, b: seq<Segment>)
    ensures Done(a + b) == Done(a) + Done(b)
  {
    if b == [] {
      assert a + b == a;
    } else {
      var c := b[..|b| - 1];
      DoneJoin(a, c);
      assert (a + b)[..|a + b| - 1] == a + c;
    }
  }

  lemma {:induction false} WholeBytes(ps: seq<Package>)
    ensures Bytes(WholeSegs(ps)) == Flatten(ps) && Done(WholeSegs(ps)) == ps
  {
    if ps != [] {
      var n := |ps| - 1;
      WholeBytes(ps[..n]);
      assert WholeSegs(ps)[..n] == WholeSegs(ps[..n]);
      assert ps[n].bytes[..|ps[n].bytes|] == ps[n].bytes;
    }
  }

  lemma OneSegment(s: Segment)
    requires s.n < |s.pkg.bytes|
    ensures Bytes([s]) == s.pkg.bytes[..s.n] && Done([s]) == []
  {
    assert [s][..0] == [];
  }

  ghost predicate PastOk(past: Option<Past>) {
    past.Some? ==>
      var t := past.value.torn;
      0 < t.off < |t.pkg.bytes| && past.value.wire == Flatten(past.value.sent) + t.pkg.bytes[..t.off]
  }

  function PastSent(past: Option<Past>): seq<Package> { if past.Some? then past.value.sent else [] }

  function PastWire(past: Option<Past>): seq<Byte> { if past.Some? then past.value.wire else [] }

  /** The whole wire, cut into segments. */
  lemma SegmentsAre(past: Option<Past>, wire: seq<Byte>, sent: seq<Package>, pending: seq<Buffer>)
    requires PastOk(past) && Framed(wire, sent, pending)
    ensures Bytes(Segments(past, sent, pending)) == PastWire(past) + wire
    ensures Done(Segments(past, sent, pending)) == PastSent(past) + sent
  {
    hide Bytes, Done, Flatten, WholeSegs;
    var h, w, t := Head(past), WholeSegs(sent), Tail(pending);
    BytesJoin(h + w, t);
    BytesJoin(h, w);
    DoneJoin(h + w, t);
    DoneJoin(h, w);
    WholeBytes(sent);
    NoSegments();
    if past.Some? {
      var g, x := WholeSegs(past.value.sent), Segment(past.value.torn.pkg, past.value.torn.off);
      BytesJoin(g, [x]);
      DoneJoin(g, [x]);
      WholeBytes(past.value.sent);
      OneSegment(x);
    }
    if t != [] { OneSegment(t[0]); }
    assert PastWire(past) + Flatten(sent) + Begun(pending) == PastWire(past) + (Flatten(sent) + Begun(pending));
  }

  lemma NoSegments()
    ensures Bytes([]) == [] && Done([]) == []
  {
  }

  /** Packages are back to back exactly when nothing followed a package that was dropped after it had been begun. */
  lemma UnbrokenIff(past: Option<Past>, wire: seq<Byte>, sent: seq<Package>, pending: seq<Buffer>)
    requires PastOk(past) && Framed(wire, sent, pending)
    ensures Unbroken(Segments(past, sent, pending)) <==> past.None? || wire == []
  {
    hide Bytes, Done, Flatten, Unbroken, Fresh;
    if past.None? {
      WholeUnbroken(sent, pending);
    } else if wire == [] {
      NoByte(wire, sent, pending);
      TornLast(past, sent, pending);
    } else {
      TornInside(past, wire, sent, pending);
    }
  }

  lemma WholeUnbroken(sent: seq<Package>, pending: seq<Buffer>)
    ensures Unbroken(Segments(None, sent, pending))
  {
    hide WholeSegs;
    var w, t := WholeSegs(sent), Tail(pending);
    assert [] + w + t == w + t;
    assert forall i :: 0 <= i < |w| ==> (w + t)[i] == w[i];
  }

  lemma TornLast(past: Option<Past>, sent: seq<Package>, pending: seq<Buffer>)
    requires past.Some? && Tail(pending) == [] && forall i :: 0 <= i < |sent| ==> sent[i].bytes == []
    ensures Unbroken(Segments(past, sent, pending))
  {
    hide WholeSegs;
    var g, w := WholeSegs(past.value.sent), WholeSegs(sent);
    var segs := Segments(past, sent, pending);
    assert forall i :: 0 <= i < |g| ==> segs[i] == g[i];
    assert forall i :: |g| < i < |segs| ==> segs[i] == w[i - |g| - 1];
  }

  lemma TornInside(past: Option<Past>, wire: seq<Byte>, sent: seq<Package>, pending: seq<Buffer>)
    requires past.Some? && PastOk(past) && Framed(wire, sent, pending) && wire != []
    ensures !Unbroken(Segments(past, sent, pending))
  {
    hide Bytes, Done, Flatten, WholeSegs, Fresh, Framed;
    var g, h, w, t := WholeSegs(past.value.sent), Head(past), WholeSegs(sent), Tail(pending);
    var segs := Segments(past, sent, pending);
    assert segs[|g|] == h[|g|] && !Complete(segs[|g|]);
    if t != [] {
      assert segs[|h| + |w|] == t[0];
    } else {
      LaterByte(wire, sent, pending);
      var i :| 0 <= i < |sent| && sent[i].bytes != [];
      assert segs[|h| + i] == w[i];
    }
  }

  lemma LaterByte(wire: seq<Byte>, sent: seq<Package>, pending: seq<Buffer>)
    requires Framed(wire, sent, pending) && wire != [] && Tail(pending) == []
    ensures exists i :: 0 <= i < |sent| && sent[i].bytes != []
  {
    SomeByte(sent);
  }

  lemma NoByte(wire: seq<Byte>, sent: seq<Package>, pending: seq<Buffer>)
    requires Framed(wire, sent, pending) && wire == []
    ensures Tail(pending) == [] && forall i :: 0 <= i < |sent| ==> sent[i].bytes == []
  {
    SomeByte(sent);
  }

  lemma {:induction false} SomeByte(ps: seq<Package>)
    ensures Flatten(ps) == [] <==> forall i :: 0 <= i < |ps| ==> ps[i].bytes == []
  {
    if ps != [] {
      var n := |ps| - 1;
      SomeByte(ps[..n]);
      assert forall i :: 0 <= i < n ==> ps[..n][i] == ps[i];
    }
  }

  // ---------------------------------------------------------------- the lists are dropped

  /** Lists whose first package was not begun go without a trace on the wire. */
  lemma DropKept(wire: seq<Byte>, sent: seq<Package>, accepted: seq<Package>, front: seq<Buffer>, high: seq<Buffer>,
                 low: seq<Buffer>, size: int, before: seq<Package>, waiting: seq<Package>, arrived: seq<Package>)
    requires Lists(wire, sent, accepted, front, high, low, size) && Ordered(before, accepted + waiting, arrived)
    requires (high != [] ==> high[0].off == 0) && (low != [] ==> low[0].off == 0)
    ensures Lists(wire, sent, sent + Packages(front), front, [], [], 0)
    ensures Ordered(before, sent + Packages(front) + waiting, arrived)
  {
    hide InOrder, Ordered, Flatten, Unsent;
    assert front + high + low == front + (high + low);
    OrderedDrop(before, accepted, sent, front, high + low, waiting, arrived);
    assert front + [] + [] == front;
    var l := front + high + low;
    assert forall i :: 0 <= i < |front| ==> l[i] == front[i];
    assert front == [] && l != [] ==> l[0].off == 0;
    NothingUnsent();
  }

  lemma NothingUnsent()
    ensures Unsent([]) == 0
  {
  }

  /** Lists whose first package was begun leave its first bytes on the wire. */
  lemma DropTorn(wire: seq<Byte>, sent: seq<Package>, accepted: seq<Package>, front: seq<Buffer>, high: seq<Buffer>,
                 low: seq<Buffer>, size: int, waiting: seq<Package>, arrived: seq<Package>)
    requires Lists(wire, sent, accepted, front, high, low, size) && Ordered([], accepted + waiting, arrived)
    requires high != [] && high[0].off > 0
    ensures front == [] && PastIs(Some(Past(wire, sent, high[0])), arrived, true)
    ensures Lists([], [], [], [], [], [], 0) && Ordered(sent, [] + waiting, arrived)
  {
    hide InOrder, Ordered, Flatten, Unsent;
    var l := front + high + low;
    assert l[|front|] == high[0] && high[0] in l;
    PendingArrived([], accepted, sent, l, waiting, arrived, high[0]);
    assert l == [] + l;
    OrderedDrop([], accepted, sent, [], l, waiting, arrived);
    assert Packages([]) == [] && sent + [] == sent && [] + waiting == waiting;
    OrderedPast(sent, waiting, arrived);
    NoLists();
  }

  lemma NoOrder()
    ensures Ordered([], [], []) && PastOk(None) && [] + InPipe([]) == []
  {
  }

  lemma ListsOrder(wire: seq<Byte>, sent: seq<Package>, accepted: seq<Package>, front: seq<Buffer>,
                   high: seq<Buffer>, low: seq<Buffer>, size: int)
    requires Lists(wire, sent, accepted, front, high, low, size)
    ensures InOrder(accepted, sent, front + high + low) && Framed(wire, sent, front + high + low)
  {
  }

  lemma AllArrived(ps: seq<Package>, arrived: seq<Package>)
    requires forall high :: Within(Of(ps, high), Of(arrived, high))
    ensures forall p :: p in ps ==> p in arrived
  {
    hide Within, Of;
    forall p | p in ps ensures p in arrived {
      OfIn(ps, p);
      OfIn(arrived, p);
      WithinIn(Of(ps, p.high), Of(arrived, p.high), p);
    }
  }

  /** What is known of the time before lists were dropped; `gone` when they were. */
  ghost predicate PastIs(past: Option<Past>, arrived: seq<Package>, gone: bool) {
    PastOk(past) && (past.Some? ==> past.value.torn.pkg in arrived && gone)
  }

  lemma PastGrows(past: Option<Past>, arrived: seq<Package>, gone: bool, more: seq<Package>)
    requires PastIs(past, arrived, gone)
    ensures PastIs(past, arrived + more, gone) && PastIs(past, arrived, true) && (!gone ==> past == None)
  {
  }

  lemma NoPast(arrived: seq<Package>, gone: bool)
    ensures PastIs(None, arrived, gone)
  {
  }

  /** The first step of Deliver. */
  lemma DeliverStep(l: seq<Buffer>, io: seq<Io>)
    ensures l == [] ==> Deliver(l, io) == Delivery(l, [], [], io, Emptied)
    ensures l != [] && (io == [] || io[0] == Again) ==> Deliver(l, io) == Delivery(l, [], [], io, NoRoom)
    ensures l != [] && io != [] && io[0] == Interrupted ==> Deliver(l, io) == Deliver(l, io[1..])
    ensures l != [] && io != [] && io[0] == Failed ==> Deliver(l, io) == Delivery(l, [], [], io[1..], Failure)
    ensures l != [] && io != [] && io[0].Moved? && l[0].off <= |l[0].pkg.bytes| ==>
              var b, n := l[0], Taken(io[0], Size(l[0]));
              Deliver(l, io) == if n < Size(b) then Delivery(Advance(l, n), Part(b, n), [], io[1..], NoRoom)
                                else Then(Part(b, n), [b.pkg], Deliver(Advance(l, n), io[1..]))
  {
    hide Part, Then;
    if l != [] && l[0].off <= |l[0].pkg.bytes| {
      assert Room(l[0]) == Size(l[0]);
    }
  }
}
