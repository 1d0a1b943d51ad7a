/**
 * The wire format of lua-netpack.c: packages behind a big-endian 16-bit length.
 */
module Frames {
  import opened Basics

  datatype Parse = Parse(packs: seq<seq<Byte>>, rest: seq<Byte>)

  // read_size
  function Size(hi: Byte, lo: Byte): (n: nat)
    ensures n < 0x1_0000
  { hi * 256 + lo }

  // The whole packages of a stream, and what is left of it.
  function Cut(s: seq<Byte>): Parse
    decreases |s|
  {
    if |s| < 2 || |s| - 2 < Size(s[0], s[1]) then Parse([], s)
    else
      var n := Size(s[0], s[1]);
      var r := Cut(s[2 + n..]);
      Parse([s[2..2 + n]] + r.packs, r.rest)
  }

  // One package at the front.
  lemma CutOne(hi: Byte, lo: Byte, body: seq<Byte>, t: seq<Byte>)
    requires |body| == Size(hi, lo)
    ensures Cut([hi, lo] + body + t) == Parse([body] + Cut(t).packs, Cut(t).rest)
  {
    var s := [hi, lo] + body + t;
    assert s[2 + |body|..] == t;
    assert s[2..2 + |body|] == body;
  }

  predicate Whole(s: seq<Byte>) { |s| >= 2 && |s| - 2 >= Size(s[0], s[1]) }

  lemma CutNone(s: seq<Byte>)
    requires !Whole(s)
    ensures Cut(s) == Parse([], s)
  {}

  lemma Apart(s: seq<Byte>) returns (body: seq<Byte>, t: seq<Byte>)
    requires Whole(s)
    ensures |body| == Size(s[0], s[1]) && s == [s[0], s[1]] + body + t
  {
    var n := Size(s[0], s[1]);
    body, t := s[2..2 + n], s[2 + n..];
  }

  // Feeding a stream in two parts: the rest of the first goes in front of the second.
  lemma {:induction false} CutAppend(a: seq<Byte>, b: seq<Byte>)
    ensures Cut(a + b) == Parse(Cut(a).packs + Cut(Cut(a).rest + b).packs, Cut(Cut(a).rest + b).rest)
    decreases |a|
  {
    hide Cut;
    if Whole(a) {
      var body, t := Apart(a);
      CutAppend(t, b);
      assert a + b == [a[0], a[1]] + body + (t + b);
      CutOne(a[0], a[1], body, t);
      CutOne(a[0], a[1], body, t + b);
      Join([body], Cut(t).packs, Cut(Cut(t).rest + b).packs);
    } else {
      CutNone(a);
      Join([], [], Cut(a + b).packs);
    }
  }

  lemma Join(p: seq<seq<Byte>>, q: seq<seq<Byte>>, r: seq<seq<Byte>>)
    ensures p + (q + r) == (p + q) + r
    ensures p == [] ==> p + r == r
  {}

  // The packages written one after the other, in front of an unfinished one.
  function Wire(packs: seq<seq<Byte>>): seq<Byte>
    requires forall i :: 0 <= i < |packs| ==> |packs[i]| < 0x1_0000
  {
    if packs == [] then []
    else [|packs[0]| / 256, |packs[0]| % 256] + packs[0] + Wire(packs[1..])
  }

  // Cutting undoes writing.
  lemma {:induction false} CutWire(packs: seq<seq<Byte>>)
    requires forall i :: 0 <= i < |packs| ==> |packs[i]| < 0x1_0000
    ensures Cut(Wire(packs)) == Parse(packs, [])
  {
    if packs != [] {
      CutWire(packs[1..]);
      CutOne(|packs[0]| / 256, |packs[0]| % 256, packs[0], Wire(packs[1..]));
    }
  }
}
