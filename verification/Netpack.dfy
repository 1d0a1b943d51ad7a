/**
 * lua-netpack.c: reassembly of packages from the chunks of many sockets, with one
 * unfinished record per socket and a growing ring of finished packages.
 */
module Netpack {
  import opened Basics
  import opened Frames

  datatype Pack = Pack(id: int, buffer: seq<Byte>)

  // struct uncomplete: read is -1 while only the first length byte is known; otherwise
  // buffer is the part received of size bytes.
  datatype Uncomplete = Uncomplete(id: int, size: int, buffer: seq<Byte>, read: int, header: Byte)

  datatype Result = Nothing | Data(pack: Pack) | More

  // hash_fd
  function HashFd(fd: int): (h: nat)
    ensures h < 4096
  { (fd / 0x100_0000 + fd / 0x1000 + fd) % 0x1_0000_0000 % 4096 }

  // The bytes of the stream that a record stands for.
  ghost function Residue(u: Uncomplete): seq<Byte>
    requires Proper(u)
  { if u.read < 0 then [u.header] else [u.size / 256, u.size % 256] + u.buffer }

  ghost predicate Proper(u: Uncomplete) {
    u.read == -1 || (0 <= u.read == |u.buffer| < u.size < 0x1_0000)
  }

  // The hash of records holds exactly one record for each socket with a residue.
  ghost predicate Table(b: seq<seq<Uncomplete>>, held: map<int, seq<Byte>>) {
    |b| == 4096 &&
    (forall h, i :: 0 <= h < 4096 && 0 <= i < |b[h]| ==>
      var u := b[h][i]; Proper(u) && HashFd(u.id) == h && u.id in held && held[u.id] == Residue(u)) &&
    (forall h, i, j :: 0 <= h < 4096 && 0 <= i < j < |b[h]| ==> b[h][i].id != b[h][j].id) &&
    (forall fd :: fd in held ==> HasId(b[HashFd(fd)], fd))
  }

  ghost predicate HasId(l: seq<Uncomplete>, fd: int) { exists i :: 0 <= i < |l| && l[i].id == fd }

  function Drop(l: seq<Uncomplete>, i: int): (m: seq<Uncomplete>)
    requires 0 <= i < |l|
    ensures |m| == |l| - 1 && forall j :: 0 <= j < |m| ==> m[j] == l[Before(i, j)]
  { l[..i] + l[i + 1..] }

  // Where entry j was before entry i was dropped.
  function Before(i: int, j: int): int { if j < i then j else j + 1 }

  lemma TableRemove(b: seq<seq<Uncomplete>>, held: map<int, seq<Byte>>, h: int, i: int)
    requires Table(b, held) && 0 <= h < 4096 && 0 <= i < |b[h]|
    ensures Table(b[h := Drop(b[h], i)], held - {b[h][i].id})
  {
    hide HashFd, Residue, Drop, Proper;
    var fd, l, m := b[h][i].id, b[h], Drop(b[h], i);
    var c, left := b[h := m], held - {fd};
    forall f | f in left
      ensures HasId(c[HashFd(f)], f)
    {
      assert HasId(b[HashFd(f)], f);
      if HashFd(f) == h {
        var j :| 0 <= j < |l| && l[j].id == f;
        var j' := if j < i then j else j - 1;
        assert m[j'] == l[Before(i, j')];
      }
    }
    forall g, j | 0 <= g < 4096 && 0 <= j < |c[g]|
      ensures var u := c[g][j]; Proper(u) && HashFd(u.id) == g && u.id in left && left[u.id] == Residue(u)
    {
      if g == h { assert c[g][j] == b[h][Before(i, j)]; }
    }
    forall g, j, k | 0 <= g < 4096 && 0 <= j < k < |c[g]|
      ensures c[g][j].id != c[g][k].id
    {
      if g == h { assert c[g][j] == b[h][Before(i, j)] && c[g][k] == b[h][Before(i, k)]; }
    }
  }

  lemma TableAdd(b: seq<seq<Uncomplete>>, held: map<int, seq<Byte>>, u: Uncomplete)
    requires Table(b, held) && Proper(u) && u.id !in held
    ensures var h := HashFd(u.id); Table(b[h := [u] + b[h]], held[u.id := Residue(u)])
  {
    hide HashFd, Residue;
    var h := HashFd(u.id);
    var l, m := b[h], [u] + b[h];
    var c, more := b[h := m], held[u.id := Residue(u)];
    forall f | f in more
      ensures HasId(c[HashFd(f)], f)
    {
      if f == u.id {
        assert m[0].id == f;
      } else {
        assert HasId(b[HashFd(f)], f);
        if HashFd(f) == h {
          var j :| 0 <= j < |l| && l[j].id == f;
          assert m[j + 1].id == f;
        }
      }
    }
    forall g, j | 0 <= g < 4096 && 0 <= j < |c[g]|
      ensures var v := c[g][j]; Proper(v) && HashFd(v.id) == g && v.id in more && more[v.id] == Residue(v)
    {
      if g == h && j > 0 { assert c[g][j] == b[h][j - 1]; }
    }
  }

  // The ring of finished packages.
  ghost predicate Ring(q: seq<Pack>, head: int, tail: int, items: seq<Pack>) {
    0 <= head < |q| && |items| < |q| && tail == Slot(head + |items|, |q|) &&
    forall i :: 0 <= i < |items| ==> items[i] == q[Slot(head + i, |q|)]
  }

  function Slot(i: int, cap: int): (r: int)
    requires 0 <= i < 2 * cap
    ensures 0 <= r < cap
  { if i < cap then i else i - cap }

  lemma SlotMod(i: int, cap: int)
    requires 0 <= i < 2 * cap
    ensures i % cap == Slot(i, cap)
  { ModOnce(i, cap); }

  // A push leaves room, or fills the ring; tail' == head tells which.
  lemma RingPush(q: seq<Pack>, head: int, tail: int, items: seq<Pack>, p: Pack)
    requires Ring(q, head, tail, items)
    ensures 0 <= tail < |q|
    ensures var t, q' := Slot(tail + 1, |q|), q[tail := p];
      (t == head <==> |items| + 1 == |q|) && (t != head ==> Ring(q', head, t, items + [p])) &&
      forall i :: 0 <= i < |items| + 1 ==> (items + [p])[i] == q'[Slot(head + i, |q|)]
  {}

  lemma RingPop(q: seq<Pack>, head: int, tail: int, items: seq<Pack>)
    requires Ring(q, head, tail, items)
    ensures head == tail <==> items == []
    ensures items != [] ==> q[head] == items[0] && Ring(q, Slot(head + 1, |q|), tail, items[1..])
  {}

  ghost function Tagged(fd: int, packs: seq<seq<Byte>>): (r: seq<Pack>)
    ensures |r| == |packs|
  { if packs == [] then [] else [Pack(fd, packs[0])] + Tagged(fd, packs[1..]) }

  class Queue {
    const hash: array<seq<Uncomplete>>
    var queue: array<Pack>
    var head: int
    var tail: int
    // The residue of each socket that has one, and the packages in the ring.
    ghost var held: map<int, seq<Byte>>
    ghost var items: seq<Pack>

    ghost predicate Valid() reads this, hash, queue {
      Table(hash[..], held) && Ring(queue[..], head, tail, items)
    }

    ghost function Rest(fd: int): seq<Byte> reads this { Residual(held, fd) }

    // get_queue
    constructor()
      ensures Valid() && held == map[] && items == [] && fresh(hash) && fresh(queue)
    {
      hash := new seq<Uncomplete>[4096](_ => []);
      queue := new Pack[1024](_ => Pack(0, []));
      head, tail, held, items := 0, 0, map[], [];
    }

    method FindUncomplete(fd: int) returns (found: bool, u: Uncomplete)
      requires Valid()
      modifies this`held, hash
      ensures Valid() && items == old(items) && held == old(held) - {fd}
      ensures found <==> fd in old(held)
      ensures found ==> Proper(u) && u.id == fd && Residue(u) == old(held)[fd]
    {
      hide HashFd, Residue, Ring, Table, Proper;
      var h := HashFd(fd);
      found, u := false, Uncomplete(fd, 0, [], -1, 0);
      InTable(hash[..], held, fd);
      var i := 0;
      while i < |hash[h]| && hash[h][i].id != fd
        invariant 0 <= i <= |hash[h]| && forall j :: 0 <= j < i ==> hash[h][j].id != fd
      {
        i := i + 1;
      }
      if i < |hash[h]| {
        found, u := true, hash[h][i];
        EntryOf(hash[..], held, h, i);
        TableRemove(hash[..], held, h, i);
        ghost var b := hash[..][h := Drop(hash[h], i)];
        hash[h] := Drop(hash[h], i);
        assert hash[..] == b;
        held := held - {fd};
      } else {
        assert held - {fd} == held;
      }
    }

    // Hangs a record into its bucket; the socket has none there.
    method Hang(u: Uncomplete)
      requires Valid() && Proper(u) && u.id !in held
      modifies this`held, hash
      ensures Valid() && items == old(items) && held == old(held)[u.id := Residue(u)]
    {
      hide HashFd, Residue, Ring, Table, Proper;
      var h := HashFd(u.id);
      HasTable(hash[..], held);
      TableAdd(hash[..], held, u);
      ghost var b := hash[..][h := [u] + hash[h]];
      hash[h] := [u] + hash[h];
      assert hash[..] == b;
      held := held[u.id := Residue(u)];
    }

    method PushData(p: Pack)
      requires Valid()
      modifies this, queue
      ensures Valid() && items == old(items) + [p] && held == old(held) && (queue == old(queue) || fresh(queue))
    {
      hide Table;
      RingPush(queue[..], head, tail, items, p);
      ghost var q := queue[..][tail := p];
      queue[tail] := p;
      assert queue[..] == q;
      tail := tail + 1;
      if tail >= queue.Length { tail := tail - queue.Length; }
      items := items + [p];
      if head == tail { Expand(); }
    }

    // expand_queue: a full ring moves to the front of a larger one.
    method Expand()
      requires Table(hash[..], held) && 0 <= head < queue.Length == |items|
      requires forall i :: 0 <= i < |items| ==> items[i] == queue[Slot(head + i, queue.Length)]
      modifies this
      ensures Valid() && items == old(items) && held == old(held) && fresh(queue)
    {
      hide Table;
      var cap := queue.Length;
      var nq := new Pack[cap + 1024](_ => Pack(0, []));
      var i := 0;
      while i < cap
        invariant 0 <= i <= cap
        invariant forall j :: 0 <= j < i ==> nq[j] == items[j]
        modifies nq
      {
        SlotMod(head + i, cap);
        nq[i] := queue[(head + i) % cap];
        i := i + 1;
      }
      queue, head, tail := nq, 0, cap;
    }

    // lpop
    method Pop() returns (some: bool, p: Pack)
      requires Valid()
      modifies this`head, this`items
      ensures Valid() && held == old(held)
      ensures some <==> old(items) != []
      ensures if some then old(items) == [p] + items else items == []
    {
      hide Table;
      RingPop(queue[..], head, tail, items);
      if head == tail { return false, Pack(0, []); }
      some, p := true, queue[head];
      head := head + 1;
      if head >= queue.Length { head := 0; }
      items := items[1..];
    }

    // close_uncomplete
    method Close(fd: int)
      requires Valid()
      modifies this`held, hash
      ensures Valid() && items == old(items) && held == old(held) - {fd}
    {
      var found, u := FindUncomplete(fd);
    }

    // push_more: packages go to the ring, what is left to a record.
    method PushMore(fd: int, buffer: seq<Byte>)
      requires Valid() && |buffer| > 0 && fd !in held
      modifies this, hash, queue
      ensures Valid() && (queue == old(queue) || fresh(queue))
      ensures items == old(items) + Tagged(fd, Cut(buffer).packs)
      ensures held == Now(old(held), fd, Cut(buffer).rest)
      decreases |buffer|
    {
      hide Valid, Residue, Size, Cut;
      if |buffer| == 1 {
        CutNone(buffer);
        assert buffer == [buffer[0]];
        SaveHeader(fd, buffer[0]);
        return;
      }
      var size := Size(buffer[0], buffer[1]);
      var body := buffer[2..];
      if |body| < size {
        CutNone(buffer);
        SizeParts(buffer[0], buffer[1]);
        SavePart(fd, size, body);
        assert buffer == [buffer[0], buffer[1]] + body;
        return;
      }
      ghost var t := body[size..];
      assert buffer == [buffer[0], buffer[1]] + body[..size] + t;
      CutOne(buffer[0], buffer[1], body[..size], t);
      PushData(Pack(fd, body[..size]));
      if |body| > size {
        PushMore(fd, body[size..]);
        TaggedFirst(old(items), fd, body[..size], Cut(t).packs);
      } else {
        CutEmpty(t);
        TaggedFirst(old(items), fd, body[..size], []);
      }
    }

    // save_uncomplete with the first length byte only.
    method SaveHeader(fd: int, b: Byte)
      requires Valid() && fd !in held
      modifies this`held, hash
      ensures Valid() && items == old(items) && held == Now(old(held), fd, [b])
    {
      hide Valid;
      Hang(Uncomplete(fd, 0, [], -1, b));
    }

    // save_uncomplete with part of the body.
    method SavePart(fd: int, size: int, body: seq<Byte>)
      requires Valid() && fd !in held && |body| < size < 0x1_0000
      modifies this`held, hash
      ensures Valid() && items == old(items) && held == Now(old(held), fd, [size / 256, size % 256] + body)
    {
      hide Valid;
      Hang(Uncomplete(fd, size, body, |body|, 0));
    }

    // filter_data: one chunk of a socket's stream.
    method Filter(fd: int, buffer: seq<Byte>) returns (r: Result)
      requires Valid() && |buffer| > 0
      modifies this, hash, queue
      ensures Valid() && (queue == old(queue) || fresh(queue))
      ensures var c := Cut(old(Rest(fd)) + buffer);
        held == Now(old(held), fd, c.rest) &&
        match r
        case Nothing => c.packs == [] && items == old(items)
        case Data(p) => c.packs == [p.buffer] && p.id == fd && c.rest == [] && items == old(items)
        case More => |c.packs| > 0 && !Single(c) && items == old(items) + Tagged(fd, c.packs)
    {
      hide Valid, Cut;
      var found, u := FindUncomplete(fd);
      ghost var gone := held;
      NowAgain(old(held), fd);
      if found {
        r := Fill(fd, u, buffer);
      } else {
        assert old(Rest(fd)) + buffer == buffer;
        r := Fresh(fd, buffer);
      }
    }

    // No record: the chunk begins a package.
    method Fresh(fd: int, buffer: seq<Byte>) returns (r: Result)
      requires Valid() && |buffer| > 0 && fd !in held
      modifies this, hash, queue
      ensures Valid() && (queue == old(queue) || fresh(queue))
      ensures held == Now(old(held), fd, Cut(buffer).rest)
      ensures var c := Cut(buffer);
        match r
        case Nothing => c.packs == [] && items == old(items)
        case Data(p) => c.packs == [p.buffer] && p.id == fd && c.rest == [] && items == old(items)
        case More => |c.packs| > 0 && !Single(c) && items == old(items) + Tagged(fd, c.packs)
    {
      hide Valid, Size, Cut;
      if |buffer| == 1 {
        CutNone(buffer);
        assert buffer == [buffer[0]];
        SaveHeader(fd, buffer[0]);
        return Nothing;
      }
      var size := Size(buffer[0], buffer[1]);
      var body := buffer[2..];
      if |body| < size {
        CutNone(buffer);
        SizeParts(buffer[0], buffer[1]);
        SavePart(fd, size, body);
        assert buffer == [buffer[0], buffer[1]] + body;
        return Nothing;
      }
      r := Rest1(fd, buffer[0], buffer[1], body[..size], body[size..]);
      assert buffer == [buffer[0], buffer[1]] + body[..size] + body[size..];
    }

    // A finished package: returned when it ends the chunk, queued when more follows.
    method Rest1(fd: int, ghost hi: Byte, ghost lo: Byte, pack: seq<Byte>, t: seq<Byte>) returns (r: Result)
      requires Valid() && fd !in held && |pack| == Size(hi, lo)
      modifies this, hash, queue
      ensures Valid() && (queue == old(queue) || fresh(queue))
      ensures var c := Cut([hi, lo] + pack + t);
        held == Now(old(held), fd, c.rest) &&
        match r
        case Nothing => false
        case Data(p) => c.packs == [p.buffer] && p.id == fd && c.rest == [] && items == old(items)
        case More => |c.packs| > 0 && !Single(c) && items == old(items) + Tagged(fd, c.packs)
    {
      hide Valid, Size, Cut;
      CutOne(hi, lo, pack, t);
      if t == [] {
        CutEmpty(t);
        return Data(Pack(fd, pack));
      }
      PushData(Pack(fd, pack));
      PushMore(fd, t);
      TaggedFirst(old(items), fd, pack, Cut(t).packs);
      CutSomething(t);
      return More;
    }

    // A record: the chunk goes on with its package.
    method Fill(fd: int, u: Uncomplete, buffer: seq<Byte>) returns (r: Result)
      requires Valid() && |buffer| > 0 && fd !in held && Proper(u) && u.id == fd
      modifies this, hash, queue
      ensures Valid() && (queue == old(queue) || fresh(queue))
      ensures var c := Cut(Residue(u) + buffer);
        held == Now(old(held), fd, c.rest) &&
        match r
        case Nothing => c.packs == [] && items == old(items)
        case Data(p) => c.packs == [p.buffer] && p.id == fd && c.rest == [] && items == old(items)
        case More => |c.packs| > 0 && !Single(c) && items == old(items) + Tagged(fd, c.packs)
    {
      hide Valid, Cut;
      var size, got, more := u.size, u.buffer, buffer;
      if u.read < 0 {
        size := u.header * 256 + buffer[0];
        got, more := [], buffer[1..];
      }
      ghost var hi, lo := size / 256, size % 256;
      assert Size(hi, lo) == size && Residue(u) + buffer == [hi, lo] + (got + more);
      var need := size - |got|;
      if |more| < need {
        CutNone([hi, lo] + (got + more));
        SavePart(fd, size, got + more);
        return Nothing;
      }
      assert [hi, lo] + (got + more) == [hi, lo] + (got + more[..need]) + more[need..];
      r := Rest1(fd, hi, lo, got + more[..need], more[need..]);
    }
  }

  // The residues once a socket's is rest.
  ghost function Now(held: map<int, seq<Byte>>, fd: int, rest: seq<Byte>): map<int, seq<Byte>> {
    if rest == [] then held - {fd} else held[fd := rest]
  }

  lemma NowAgain(held: map<int, seq<Byte>>, fd: int)
    ensures forall rest :: Now(held - {fd}, fd, rest) == Now(held, fd, rest)
  {
    assert held - {fd} - {fd} == held - {fd};
    forall rest: seq<Byte>
      ensures Now(held - {fd}, fd, rest) == Now(held, fd, rest)
    { assert (held - {fd})[fd := rest] == held[fd := rest]; }
  }

  lemma SizeParts(hi: Byte, lo: Byte)
    ensures Size(hi, lo) / 256 == hi && Size(hi, lo) % 256 == lo
  {}

  lemma CutEmpty(t: seq<Byte>)
    requires t == []
    ensures Cut(t) == Parse([], [])
  {}

  // One package and nothing else: it is returned at once.
  predicate Single(c: Parse) { |c.packs| == 1 && c.rest == [] }

  lemma CutSomething(t: seq<Byte>)
    requires t != []
    ensures Cut(t).packs != [] || Cut(t).rest != []
  {}

  lemma TaggedFirst(items: seq<Pack>, fd: int, p: seq<Byte>, packs: seq<seq<Byte>>)
    ensures items + Tagged(fd, [p] + packs) == (items + [Pack(fd, p)]) + Tagged(fd, packs)
    ensures packs == [] ==> (items + [Pack(fd, p)]) + Tagged(fd, packs) == items + [Pack(fd, p)]
  {
    assert ([p] + packs)[1..] == packs;
  }

  lemma HasTable(b: seq<seq<Uncomplete>>, held: map<int, seq<Byte>>)
    requires Table(b, held)
    ensures |b| == 4096
  {}

  lemma InTable(b: seq<seq<Uncomplete>>, held: map<int, seq<Byte>>, fd: int)
    requires Table(b, held)
    ensures |b| == 4096
    ensures fd in held <==> HasId(b[HashFd(fd)], fd)
  {}

  lemma EntryOf(b: seq<seq<Uncomplete>>, held: map<int, seq<Byte>>, h: int, i: int)
    requires Table(b, held) && 0 <= h < 4096 && 0 <= i < |b[h]|
    ensures Proper(b[h][i]) && b[h][i].id in held && held[b[h][i].id] == Residue(b[h][i])
  {}

  datatype Event = Chunk(fd: int, bytes: seq<Byte>) | Take | Shut(fd: int)

  // What the events so far should have made of one socket's bytes.
  ghost function Expect(es: seq<Event>, fd: int): Parse {
    if es == [] then Parse([], [])
    else
      var p, e := Expect(es[..|es| - 1], fd), es[|es| - 1];
      match e
      case Chunk(f, b) => if f != fd then p else var c := Cut(p.rest + b); Parse(p.packs + c.packs, c.rest)
      case Take => p
      case Shut(f) => if f != fd then p else Parse(p.packs, [])
  }

  // All bytes of one socket.
  ghost function Stream(es: seq<Event>, fd: int): seq<Byte> {
    if es == [] then []
    else
      var s, e := Stream(es[..|es| - 1], fd), es[|es| - 1];
      if e.Chunk? && e.fd == fd then s + e.bytes else s
  }

  // However the stream was cut into chunks, and whatever came in between.
  lemma {:induction false} ExpectIsCut(es: seq<Event>, fd: int)
    requires forall i :: 0 <= i < |es| ==> es[i] != Shut(fd)
    ensures Expect(es, fd) == Cut(Stream(es, fd))
  {
    hide Cut;
    if es == [] {
      CutEmpty([]);
    } else {
      var pre, e := es[..|es| - 1], es[|es| - 1];
      ExpectIsCut(pre, fd);
      if e.Chunk? && e.fd == fd { CutAppend(Stream(pre, fd), e.bytes); }
    }
  }

  // The packages of one socket among all.
  ghost function Of(made: seq<Pack>, fd: int): seq<seq<Byte>> {
    if made == [] then []
    else Of(made[..|made| - 1], fd) + (if made[|made| - 1].id == fd then [made[|made| - 1].buffer] else [])
  }

  lemma {:induction false} OfAppend(a: seq<Pack>, b: seq<Pack>, fd: int)
    ensures Of(a + b, fd) == Of(a, fd) + Of(b, fd)
  {
    if b == [] {
      assert a + b == a;
    } else {
      var c := b[..|b| - 1];
      OfAppend(a, c, fd);
      assert (a + b)[..|a + b| - 1] == a + c;
    }
  }

  lemma {:induction false} OfTagged(f: int, packs: seq<seq<Byte>>, fd: int)
    ensures Of(Tagged(f, packs), fd) == if f == fd then packs else []
  {
    if packs != [] {
      OfTagged(f, packs[1..], fd);
      OfAppend([Pack(f, packs[0])], Tagged(f, packs[1..]), fd);
      assert [Pack(f, packs[0])][..0] == [];
    }
  }

  // The packages that an event makes, and whether it returns them at once.
  ghost function New(es: seq<Event>, e: Event): seq<Pack> {
    if e.Chunk? then Tagged(e.fd, Cut(Expect(es, e.fd).rest + e.bytes).packs) else []
  }

  ghost predicate AtOnce(es: seq<Event>, e: Event) {
    e.Chunk? && Single(Cut(Expect(es, e.fd).rest + e.bytes))
  }

  // All packages of a run, in the order in which they were made.
  ghost function Made(es: seq<Event>): seq<Pack> {
    if es == [] then [] else Made(es[..|es| - 1]) + New(es[..|es| - 1], es[|es| - 1])
  }

  // A package and its number among all packages made.
  datatype Item = Item(serial: nat, pack: Pack)

  ghost function Numbered(packs: seq<Pack>, n: nat): (r: seq<Item>)
    ensures |r| == |packs| && forall i :: 0 <= i < |r| ==> r[i] == Item(n + i, packs[i])
  { seq(|packs|, i requires 0 <= i < |packs| => Item(n + i, packs[i])) }

  ghost function Packs(items: seq<Item>): (r: seq<Pack>)
    ensures |r| == |items| && forall i :: 0 <= i < |r| ==> r[i] == items[i].pack
  { seq(|items|, i requires 0 <= i < |items| => items[i].pack) }

  // What a run has handed out, and what waits in the ring.
  datatype Hands = Hands(out: seq<Item>, queue: seq<Item>)

  ghost function Plan(es: seq<Event>): Hands {
    if es == [] then Hands([], [])
    else
      var pre, e := es[..|es| - 1], es[|es| - 1];
      Moved(Plan(pre), e, Numbered(New(pre, e), |Made(pre)|), AtOnce(pre, e))
  }

  ghost function Moved(p: Hands, e: Event, more: seq<Item>, atOnce: bool): Hands {
    match e
    case Chunk(_, _) => if atOnce then Hands(p.out + more, p.queue) else Hands(p.out, p.queue + more)
    case Take => if p.queue == [] then p else Hands(p.out + [p.queue[0]], p.queue[1..])
    case Shut(_) => p
  }

  // The residues of all sockets are what their events call for.
  ghost predicate Meets(es: seq<Event>, held: map<int, seq<Byte>>) {
    forall fd :: Residual(held, fd) == Expect(es, fd).rest
  }

  // One event: given are the packages it hands out.
  method Happen(q: Queue, e: Event, ghost es: seq<Event>) returns (given: seq<Pack>)
    requires q.Valid() && (e.Chunk? ==> |e.bytes| > 0) && Meets(es, q.held)
    modifies q, q.hash, q.queue
    ensures q.Valid() && (q.queue == old(q.queue) || fresh(q.queue))
    ensures Meets(es + [e], q.held)
    ensures match e
      case Chunk(_, _) =>
        if AtOnce(es, e) then given == New(es, e) && q.items == old(q.items)
        else given == [] && q.items == old(q.items) + New(es, e)
      case Take => given + q.items == old(q.items) && |given| == if old(q.items) == [] then 0 else 1
      case Shut(_) => given == [] && q.items == old(q.items)
  {
    hide Cut, Queue.Valid, Expect, Meets;
    given := [];
    match e {
    case Chunk(fd, b) =>
      ghost var c := Cut(Residual(q.held, fd) + b);
      RestIs(es, q.held, fd);
      var r := q.Filter(fd, b);
      Logged(r, fd, c.packs);
      if r.Data? { given := [r.pack]; }
      MeetsChunk(es, e, old(q.held), q.held);
    case Take =>
      var some, p := q.Pop();
      if some { given := [p]; }
      MeetsOther(es, e, old(q.held), q.held);
    case Shut(fd) =>
      q.Close(fd);
      MeetsOther(es, e, old(q.held), q.held);
    }
  }

  // Any run: what is handed out, what waits and what is left of each socket's bytes are what
  // the events alone determine.
  method Run(es: seq<Event>) returns (q: Queue, out: seq<Pack>)
    requires forall i :: 0 <= i < |es| && es[i].Chunk? ==> |es[i].bytes| > 0
    ensures q.Valid() && Meets(es, q.held)
    ensures out == Packs(Plan(es).out) && q.items == Packs(Plan(es).queue)
  {
    hide Meets, Cut, Queue.Valid, AtOnce, New, Moved;
    q := new Queue();
    out := [];
    var n := 0;
    StartRun();
    assert es[..0] == [];
    while n < |es|
      invariant 0 <= n <= |es| && q.Valid() && fresh(q) && fresh(q.hash) && fresh(q.queue)
      invariant Meets(es[..n], q.held)
      invariant out == Packs(Plan(es[..n]).out) && q.items == Packs(Plan(es[..n]).queue)
    {
      ghost var items := q.items;
      var given := Happen(q, es[n], es[..n]);
      assert es[..n + 1] == es[..n] + [es[n]];
      PlanStep(es[..n], es[n], out, items, given, q.items);
      out := out + given;
      n := n + 1;
    }
    assert es[..n] == es;
  }

  lemma PlanStep(es: seq<Event>, e: Event, out: seq<Pack>, items: seq<Pack>, given: seq<Pack>, items': seq<Pack>)
    requires out == Packs(Plan(es).out) && items == Packs(Plan(es).queue)
    requires match e
      case Chunk(_, _) =>
        if AtOnce(es, e) then given == New(es, e) && items' == items else given == [] && items' == items + New(es, e)
      case Take => given + items' == items && |given| == if items == [] then 0 else 1
      case Shut(_) => given == [] && items' == items
    ensures out + given == Packs(Plan(es + [e]).out) && items' == Packs(Plan(es + [e]).queue)
  {
    hide AtOnce, New, Made;
    assert (es + [e])[..|es|] == es;
    var p := Plan(es);
    var more := Numbered(New(es, e), |Made(es)|);
    assert Packs(more) == New(es, e);
    PacksJoin(p.out, more);
    PacksJoin(p.queue, more);
    if e.Take? && p.queue != [] {
      PacksJoin(p.out, [p.queue[0]]);
      PacksJoin([p.queue[0]], p.queue[1..]);
      assert p.queue == [p.queue[0]] + p.queue[1..];
      assert given == [items[0]] && items' == items[1..];
    }
  }

  lemma PacksJoin(a: seq<Item>, b: seq<Item>)
    ensures Packs(a + b) == Packs(a) + Packs(b)
  {}

  ghost function Residual(held: map<int, seq<Byte>>, fd: int): seq<Byte> { if fd in held then held[fd] else [] }

  lemma StartRun()
    ensures Meets([], map[]) && Plan([]) == Hands([], [])
  {}

  lemma RestIs(es: seq<Event>, held: map<int, seq<Byte>>, fd: int)
    requires Meets(es, held)
    ensures Residual(held, fd) == Expect(es, fd).rest
  {}

  lemma Logged(r: Result, fd: int, packs: seq<seq<Byte>>)
    ensures r.Data? && packs == [r.pack.buffer] && r.pack.id == fd ==> Tagged(fd, packs) == [r.pack]
    ensures packs == [] ==> Tagged(fd, packs) == []
  {
    if r.Data? && packs == [r.pack.buffer] { assert packs[1..] == []; }
  }

  lemma MeetsChunk(es: seq<Event>, e: Event, held: map<int, seq<Byte>>, held': map<int, seq<Byte>>)
    requires Meets(es, held) && e.Chunk? && held' == Now(held, e.fd, Cut(Residual(held, e.fd) + e.bytes).rest)
    ensures Meets(es + [e], held')
  {
    hide Cut;
    assert (es + [e])[..|es|] == es;
    forall fd
      ensures Residual(held', fd) == Expect(es + [e], fd).rest
    { assert Residual(held, fd) == Expect(es, fd).rest; }
  }

  lemma MeetsOther(es: seq<Event>, e: Event, held: map<int, seq<Byte>>, held': map<int, seq<Byte>>)
    requires Meets(es, held) && !e.Chunk? && held' == if e.Shut? then held - {e.fd} else held
    ensures Meets(es + [e], held')
  {
    assert (es + [e])[..|es|] == es;
  }

  // The packages made of one socket are those its bytes hold.
  lemma {:induction false} MadeIs(es: seq<Event>, fd: int)
    ensures Of(Made(es), fd) == Expect(es, fd).packs
  {
    hide Cut, Of;
    if es == [] {
      OfNone(fd);
    } else {
      var pre, e := es[..|es| - 1], es[|es| - 1];
      MadeIs(pre, fd);
      OfAppend(Made(pre), New(pre, e), fd);
      if e.Chunk? { OfTagged(e.fd, Cut(Expect(pre, e.fd).rest + e.bytes).packs, fd); } else { OfNone(fd); }
    }
  }

  lemma OfNone(fd: int)
    ensures Of([], fd) == []
  {}

  // Every package made is handed out or waits, once.
  lemma {:induction false} Conserved(es: seq<Event>)
    ensures multiset(Plan(es).out + Plan(es).queue) == multiset(Numbered(Made(es), 0))
  {
    hide AtOnce, New, Numbered, Moved;
    if es == [] {
      StartRun();
    } else {
      var pre, e := es[..|es| - 1], es[|es| - 1];
      Conserved(pre);
      var p, n := Plan(pre), Numbered(New(pre, e), |Made(pre)|);
      NumberedJoin(Made(pre), New(pre, e));
      NewIs(pre, e);
      Handled(p, e, n, AtOnce(pre, e));
      var all := p.out + p.queue;
      if e.Chunk? && AtOnce(pre, e) { Swapped(p.out, n, p.queue); }
      assert multiset(all + n) == multiset(all) + multiset(n);
    }
  }

  lemma NumberedJoin(a: seq<Pack>, b: seq<Pack>)
    ensures Numbered(a + b, 0) == Numbered(a, 0) + Numbered(b, |a|)
  {}

  lemma Swapped(a: seq<Item>, b: seq<Item>, c: seq<Item>)
    ensures multiset(a + b + c) == multiset(a + c + b)
  {}

  lemma Handled(p: Hands, e: Event, n: seq<Item>, atOnce: bool)
    requires !e.Chunk? ==> n == []
    ensures var q := Moved(p, e, n, atOnce);
      q.out + q.queue == if e.Chunk? && atOnce then p.out + n + p.queue else p.out + p.queue + n
  {
    if e.Take? && p.queue != [] {
      Reassociate(p.out, [p.queue[0]], p.queue[1..]);
      assert p.queue == [p.queue[0]] + p.queue[1..];
    }
    Reassociate(p.out, p.queue, n);
    if n == [] { assert p.out + p.queue + n == p.out + p.queue; }
  }

  lemma Reassociate(a: seq<Item>, b: seq<Item>, c: seq<Item>)
    ensures a + b + c == a + (b + c)
  {}

  // The items of one socket.
  ghost function Mine(items: seq<Item>, fd: int): seq<Item> {
    if items == [] then [] else Mine(items[..|items| - 1], fd) + Own(items[|items| - 1], fd)
  }

  ghost function Own(x: Item, fd: int): seq<Item> { if x.pack.id == fd then [x] else [] }

  ghost predicate Ascending(s: seq<Item>) { forall i, j :: 0 <= i < j < |s| ==> s[i].serial < s[j].serial }

  // A package that is returned at once finds an older one of its socket still waiting.
  ghost predicate Overtakes(es: seq<Event>, e: Event, fd: int) {
    e.Chunk? && e.fd == fd && AtOnce(es, e) && Mine(Plan(es).queue, fd) != []
  }

  // The packages of one socket come out in the order in which they were made exactly when none
  // that is returned at once finds an older one waiting.
  lemma {:induction false} OrderIff(es: seq<Event>, fd: int)
    ensures Ascending(Mine(Plan(es).out + Plan(es).queue, fd)) <==>
      forall n :: 0 <= n < |es| ==> !Overtakes(es[..n], es[n], fd)
    ensures Ascending(Mine(Plan(es).queue, fd))
    ensures forall x :: x in Mine(Plan(es).out + Plan(es).queue, fd) ==> x.serial < |Made(es)|
  {
    hide AtOnce, New, Made, Mine, Plan;
    if es == [] {
      OrderStart(fd);
    } else {
      var pre, e := es[..|es| - 1], es[|es| - 1];
      OrderIff(pre, fd);
      OrderStep(pre, e, fd);
      assert es == pre + [e];
      assert forall n :: 0 <= n < |pre| ==> es[..n] == pre[..n] && es[n] == pre[n];
      assert es[..|pre|] == pre;
      var all := forall n :: 0 <= n < |pre| ==> !Overtakes(pre[..n], pre[n], fd);
      assert (forall n :: 0 <= n < |es| ==> !Overtakes(es[..n], es[n], fd)) <==> all && !Overtakes(pre, e, fd);
    }
  }

  lemma OrderStart(fd: int)
    ensures Mine(Plan([]).out + Plan([]).queue, fd) == [] && Mine(Plan([]).queue, fd) == []
  {}

  lemma {:induction false} MineJoin(a: seq<Item>, b: seq<Item>, fd: int)
    ensures Mine(a + b, fd) == Mine(a, fd) + Mine(b, fd)
  {
    if b == [] {
      assert a + b == a;
    } else {
      var c, x := b[..|b| - 1], b[|b| - 1];
      MineJoin(a, c, fd);
      assert (a + b)[..|a + b| - 1] == a + c;
      Reassociate(Mine(a, fd), Mine(c, fd), Own(x, fd));
    }
  }

  // The items of one socket among freshly numbered ones.
  lemma {:induction false} MineNumbered(packs: seq<Pack>, n: nat, fd: int)
    ensures Ascending(Mine(Numbered(packs, n), fd))
    ensures forall x :: x in Mine(Numbered(packs, n), fd) ==> n <= x.serial < n + |packs|
    ensures (forall i :: 0 <= i < |packs| ==> packs[i].id != fd) ==> Mine(Numbered(packs, n), fd) == []
    ensures |packs| == 1 && packs[0].id == fd ==> Mine(Numbered(packs, n), fd) == [Item(n, packs[0])]
  {
    hide Ascending;
    if packs == [] {
      AscendingNone();
    } else {
      var m := |packs| - 1;
      MineNumbered(packs[..m], n, fd);
      assert Numbered(packs, n)[..m] == Numbered(packs[..m], n);
      var x := Item(n + m, packs[m]);
      AscendingOne(x, fd);
      AscendingJoin(Mine(Numbered(packs[..m], n), fd), Own(x, fd), n + m);
      if m == 0 { assert packs[..0] == [] && Numbered([], n) == []; }
    }
  }

  lemma AscendingNone()
    ensures Ascending([])
  {}

  lemma AscendingOne(x: Item, fd: int)
    ensures Ascending(Own(x, fd))
  {}

  lemma AscendingJoin(a: seq<Item>, b: seq<Item>, n: nat)
    requires (forall x :: x in a ==> x.serial < n) && (forall x :: x in b ==> n <= x.serial) && Ascending(b)
    ensures Ascending(a + b) <==> Ascending(a)
  {
    var s := a + b;
    if Ascending(s) {
      forall i, j | 0 <= i < j < |a| ensures a[i].serial < a[j].serial { assert s[i] == a[i] && s[j] == a[j]; }
    }
  }

  lemma NotAscending(a: seq<Item>, x: Item, b: seq<Item>)
    requires b != [] && b[0].serial < x.serial
    ensures !Ascending(a + [x] + b)
  {
    var s := a + [x] + b;
    assert s[|a|] == x && s[|a| + 1] == b[0];
  }

  lemma {:induction false} TaggedIds(fd: int, packs: seq<seq<Byte>>)
    ensures forall i :: 0 <= i < |packs| ==> Tagged(fd, packs)[i].id == fd
  {
    if packs != [] { TaggedIds(fd, packs[1..]); }
  }

  lemma NewIs(es: seq<Event>, e: Event)
    ensures !e.Chunk? ==> New(es, e) == []
    ensures forall i :: 0 <= i < |New(es, e)| ==> e.Chunk? && New(es, e)[i].id == e.fd
    ensures AtOnce(es, e) ==> e.Chunk? && |New(es, e)| == 1
  {
    hide Cut;
    if e.Chunk? { TaggedIds(e.fd, Cut(Expect(es, e.fd).rest + e.bytes).packs); }
  }

  lemma OrderStep(es: seq<Event>, e: Event, fd: int)
    requires Ascending(Mine(Plan(es).queue, fd))
    requires forall x :: x in Mine(Plan(es).out + Plan(es).queue, fd) ==> x.serial < |Made(es)|
    ensures var p, q := Plan(es), Plan(es + [e]);
      && (Ascending(Mine(q.out + q.queue, fd)) <==> Ascending(Mine(p.out + p.queue, fd)) && !Overtakes(es, e, fd))
      && Ascending(Mine(q.queue, fd))
      && forall x :: x in Mine(q.out + q.queue, fd) ==> x.serial < |Made(es + [e])|
  {
    hide AtOnce, New, Mine, Ascending, Cut;
    assert (es + [e])[..|es|] == es;
    var p, packs, n := Plan(es), New(es, e), |Made(es)|;
    var more, at := Numbered(packs, n), AtOnce(es, e);
    var a, b, c := Mine(p.out, fd), Mine(p.queue, fd), Mine(more, fd);
    NewIs(es, e);
    MineNumbered(packs, n, fd);
    MineJoin(p.out, p.queue, fd);
    MineJoin(p.out + p.queue, more, fd);
    MineJoin(p.out, more, fd);
    MineJoin(p.out + more, p.queue, fd);
    MineJoin(p.queue, more, fd);
    Handled(p, e, more, at);
    AscendingJoin(b, c, n);
    AscendingJoin(a + b, c, n);
    AscendingTail(a, b);
    if e.Take? && p.queue != [] {
      assert p.queue == [p.queue[0]] + p.queue[1..];
      MineJoin([p.queue[0]], p.queue[1..], fd);
      AscendingTail(Mine([p.queue[0]], fd), Mine(p.queue[1..], fd));
    }
    if at {
      if e.fd != fd {
        assert c == [];
        assert a + c == a;
      } else if b != [] {
        NotAscending(a, c[0], b);
        assert c == [c[0]];
      } else {
        assert a + c + b == a + b + c;
      }
    }
  }

  lemma AscendingTail(a: seq<Item>, b: seq<Item>)
    ensures Ascending(a + b) ==> Ascending(b)
  {
    var s := a + b;
    if Ascending(s) {
      forall i, j | 0 <= i < j < |b| ensures b[i].serial < b[j].serial {
        assert s[|a| + i] == b[i] && s[|a| + j] == b[j];
      }
    }
  }

  // Then what was handed out and what waits are, in order, the packages of the socket's bytes.
  lemma {:induction false} HandedInOrder(es: seq<Event>, fd: int)
    requires forall n :: 0 <= n < |es| ==> !Overtakes(es[..n], es[n], fd)
    ensures Of(Packs(Plan(es).out + Plan(es).queue), fd) == Expect(es, fd).packs
  {
    hide AtOnce, New, Mine, Cut, Of, Packs, Expect, Moved;
    if es == [] {
      StartRun();
      NoPacks();
      OfNone(fd);
      MadeIs([], fd);
    } else {
      var pre, e := es[..|es| - 1], es[|es| - 1];
      assert forall n :: 0 <= n < |pre| ==> es[..n] == pre[..n] && es[n] == pre[n];
      HandedInOrder(pre, fd);
      assert es[..|pre|] == pre;
      var p, more := Plan(pre), Numbered(New(pre, e), |Made(pre)|);
      NewIs(pre, e);
      Handled(p, e, more, AtOnce(pre, e));
      MadeIs(pre, fd);
      MadeIs(es, fd);
      OfAppend(Made(pre), New(pre, e), fd);
      NumberedPacks(New(pre, e), |Made(pre)|);
      Parts(p.out, p.queue, more, fd);
      if e.Chunk? && AtOnce(pre, e) {
        if e.fd == fd { MineOf(p.queue, fd); } else { OfOther(New(pre, e), fd); }
      }
    }
  }

  lemma NumberedPacks(packs: seq<Pack>, n: nat)
    ensures Packs(Numbered(packs, n)) == packs
  {}

  lemma Parts(a: seq<Item>, b: seq<Item>, c: seq<Item>, fd: int)
    ensures Of(Packs(a + b), fd) == Of(Packs(a), fd) + Of(Packs(b), fd)
    ensures Of(Packs(a + b + c), fd) == Of(Packs(a), fd) + Of(Packs(b), fd) + Of(Packs(c), fd)
    ensures Of(Packs(a + c + b), fd) == Of(Packs(a), fd) + Of(Packs(c), fd) + Of(Packs(b), fd)
  {
    hide Of, Packs;
    PacksJoin(a, b);
    PacksJoin(a + b, c);
    PacksJoin(a, c);
    PacksJoin(a + c, b);
    OfAppend(Packs(a), Packs(b), fd);
    OfAppend(Packs(a + b), Packs(c), fd);
    OfAppend(Packs(a), Packs(c), fd);
    OfAppend(Packs(a + c), Packs(b), fd);
  }

  lemma {:induction false} MineOf(items: seq<Item>, fd: int)
    ensures Mine(items, fd) == [] ==> Of(Packs(items), fd) == []
  {
    if items != [] {
      var n := |items| - 1;
      MineOf(items[..n], fd);
      assert Packs(items)[..n] == Packs(items[..n]);
    }
  }

  lemma {:induction false} OfOther(packs: seq<Pack>, fd: int)
    requires forall i :: 0 <= i < |packs| ==> packs[i].id != fd
    ensures Of(packs, fd) == []
  {
    if packs != [] { OfOther(packs[..|packs| - 1], fd); }
  }

  // Two packages in one chunk, which wait, and a third that ends its own: it is handed out first.
  lemma Overtaken(fd: int)
    ensures var es := [Chunk(fd, [0, 1, 7, 0, 1, 8]), Chunk(fd, [0, 1, 9])];
      Packs(Plan(es).out) == [Pack(fd, [9])] && Packs(Plan(es).queue) == [Pack(fd, [7]), Pack(fd, [8])]
  {
    hide Plan, Packs, Cut, Tagged;
    var a, b := Chunk(fd, [0, 1, 7, 0, 1, 8]), Chunk(fd, [0, 1, 9]);
    CutExample();
    assert [] + a.bytes == a.bytes && [] + b.bytes == b.bytes && [a][..0] == [];
    assert Expect([a], fd) == Parse([] + [[7], [8]], []);
    TaggedTwo(fd, [7], [8]);
    TaggedTwo(fd, [9], []);
    var two, one := [Pack(fd, [7]), Pack(fd, [8])], [Pack(fd, [9])];
    assert New([], a) == two && New([a], b) == one;
    StartRun();
    NoPacks();
    PlanStep([], a, [], [], [], two);
    assert [] + [a] == [a] && [a] + [b] == [a, b];
    PlanStep([a], b, [], two, one, two);
  }

  lemma CutExample()
    ensures Cut([0, 1, 7, 0, 1, 8]) == Parse([[7], [8]], []) && Cut([0, 1, 9]) == Parse([[9]], [])
  {
    hide Cut;
    CutEmpty([]);
    CutOne(0, 1, [9], []);
    CutOne(0, 1, [8], []);
    CutOne(0, 1, [7], [0, 1, 8]);
    assert [0, 1] + [9] + [] == [0, 1, 9] && [0, 1] + [8] + [] == [0, 1, 8];
    assert [0, 1] + [7] + [0, 1, 8] == [0, 1, 7, 0, 1, 8];
  }

  lemma TaggedTwo(fd: int, x: seq<Byte>, y: seq<Byte>)
    ensures Tagged(fd, [x]) == [Pack(fd, x)] && Tagged(fd, [x, y]) == [Pack(fd, x), Pack(fd, y)]
  {
    assert [x][1..] == [] && [x, y][1..] == [y] && [y][1..] == [];
  }

  lemma NoPacks()
    ensures Packs([]) == []
  {}
}
