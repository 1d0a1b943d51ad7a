/**
 * The wiring of DES in lua-crypt.c against the tables of FIPS 46-3: the initial permutation, the expansion and the
 * subkey bits in front of each box, and the sixteen rounds.  Bits are numbered from 1, most significant first: bit 1
 * of a word is the mask 0x80000000, bit 32 the mask 1, and bits 33 to 64 of a block are its second word.
 */
module DesTables {
  import opened Des

  // ---------------------------------------------------------------- the initial permutation

  // The steps of DES_IP as exchanges of bits between the two words.
  function Nibbles(p: Pair): Pair {
    Pair((p.x & 0x0F0F0F0F) | ((p.y & 0x0F0F0F0F) << 4), (p.y & 0xF0F0F0F0) | ((p.x >> 4) & 0x0F0F0F0F))
  }

  function Halves(p: Pair): Pair {
    Pair((p.x & 0x0000FFFF) | (p.y << 16), (p.y & 0xFFFF0000) | (p.x >> 16))
  }

  function Twos(p: Pair): Pair {
    Pair((p.x & 0xCCCCCCCC) | ((p.y >> 2) & 0x33333333), (p.y & 0x33333333) | ((p.x & 0x33333333) << 2))
  }

  function Bytes(p: Pair): Pair {
    Pair((p.x & 0xFF00FF00) | ((p.y >> 8) & 0x00FF00FF), (p.y & 0x00FF00FF) | ((p.x & 0x00FF00FF) << 8))
  }

  function Ones(p: Pair): Pair {
    Pair((p.x & 0x55555555) | (p.y & 0xAAAAAAAA), (p.y & 0x55555555) | (p.x & 0xAAAAAAAA))
  }

  lemma NibbleX(x: bv32, y: bv32)
    ensures Xor(x, Left4(T4(x, y))) == (x & 0x0F0F0F0F) | ((y & 0x0F0F0F0F) << 4)
  {}

  lemma NibbleY(x: bv32, y: bv32)
    ensures Xor(y, T4(x, y)) == (y & 0xF0F0F0F0) | ((x >> 4) & 0x0F0F0F0F)
  {}

  lemma HalfX(x: bv32, y: bv32)
    ensures Xor(x, Left16(T16(x, y))) == (x & 0x0000FFFF) | (y << 16)
  {}

  lemma HalfY(x: bv32, y: bv32)
    ensures Xor(y, T16(x, y)) == (y & 0xFFFF0000) | (x >> 16)
  {}

  lemma TwoX(x: bv32, y: bv32)
    ensures Xor(x, T2(y, x)) == (x & 0xCCCCCCCC) | ((y >> 2) & 0x33333333)
  {}

  lemma TwoY(x: bv32, y: bv32)
    ensures Xor(y, Left2(T2(y, x))) == (y & 0x33333333) | ((x & 0x33333333) << 2)
  {}

  lemma ByteX(x: bv32, y: bv32)
    ensures Xor(x, T8(y, x)) == (x & 0xFF00FF00) | ((y >> 8) & 0x00FF00FF)
  {}

  lemma ByteY(x: bv32, y: bv32)
    ensures Xor(y, Left8(T8(y, x))) == (y & 0x00FF00FF) | ((x & 0x00FF00FF) << 8)
  {}

  lemma OneX(x: bv32, y: bv32)
    ensures Xor(x, TMix(x, y)) == (x & 0x55555555) | (y & 0xAAAAAAAA)
  {}

  lemma OneY(x: bv32, y: bv32)
    ensures Xor(y, TMix(x, y)) == (y & 0x55555555) | (x & 0xAAAAAAAA)
  {}

  lemma Step1(p: Pair)
    ensures IP1(p) == Nibbles(p)
  {
    hide Xor, T4, Left4;
    NibbleX(p.x, p.y);
    NibbleY(p.x, p.y);
  }

  lemma Step2(p: Pair)
    ensures IP2(p) == Halves(p)
  {
    hide Xor, T16, Left16;
    HalfX(p.x, p.y);
    HalfY(p.x, p.y);
  }

  lemma Step3(p: Pair)
    ensures IP3(p) == Twos(p)
  {
    hide Xor, T2, Left2;
    TwoX(p.x, p.y);
    TwoY(p.x, p.y);
  }

  lemma Step4(p: Pair)
    ensures IP4(p) == Bytes(p)
  {
    hide Xor, T8, Left8;
    ByteX(p.x, p.y);
    ByteY(p.x, p.y);
  }

  lemma LastStep(p: Pair)
    ensures Mix(p) == Ones(p)
  {
    hide Xor, TMix;
    OneX(p.x, p.y);
    OneY(p.x, p.y);
  }

  function Exchanges(p: Pair): Pair {
    var q := Bytes(Twos(Halves(Nibbles(p))));
    var r := Ones(Pair(q.x, Up(q.y)));
    Pair(Up(r.x), r.y)
  }

  lemma Exchanged(p: Pair)
    ensures IP(p) == Exchanges(p)
  {
    hide IP1, IP2, IP3, IP4, Mix, Nibbles, Halves, Twos, Bytes, Ones, Up;
    Step1(p);
    Step2(Nibbles(p));
    Step3(Halves(Nibbles(p)));
    Step4(Twos(Halves(Nibbles(p))));
    var q := Bytes(Twos(Halves(Nibbles(p))));
    LastStep(Pair(q.x, Up(q.y)));
  }

  // The eight rows of the table IP: where the bits of the permuted block come from.  Between the permutations both
  // halves are kept rotated by one bit.

  // 58 50 42 34 26 18 10 2
  lemma InitialRow1(p: Pair)
    ensures (Down(IP(p).x) & 0x80000000 != 0) == (p.y & 0x40 != 0)
    ensures (Down(IP(p).x) & 0x40000000 != 0) == (p.y & 0x4000 != 0)
    ensures (Down(IP(p).x) & 0x20000000 != 0) == (p.y & 0x400000 != 0)
    ensures (Down(IP(p).x) & 0x10000000 != 0) == (p.y & 0x40000000 != 0)
    ensures (Down(IP(p).x) & 0x8000000 != 0) == (p.x & 0x40 != 0)
    ensures (Down(IP(p).x) & 0x4000000 != 0) == (p.x & 0x4000 != 0)
    ensures (Down(IP(p).x) & 0x2000000 != 0) == (p.x & 0x400000 != 0)
    ensures (Down(IP(p).x) & 0x1000000 != 0) == (p.x & 0x40000000 != 0)
  {
    hide IP;
    Exchanged(p);
  }

  // 60 52 44 36 28 20 12 4
  lemma InitialRow2(p: Pair)
    ensures (Down(IP(p).x) & 0x800000 != 0) == (p.y & 0x10 != 0)
    ensures (Down(IP(p).x) & 0x400000 != 0) == (p.y & 0x1000 != 0)
    ensures (Down(IP(p).x) & 0x200000 != 0) == (p.y & 0x100000 != 0)
    ensures (Down(IP(p).x) & 0x100000 != 0) == (p.y & 0x10000000 != 0)
    ensures (Down(IP(p).x) & 0x80000 != 0) == (p.x & 0x10 != 0)
    ensures (Down(IP(p).x) & 0x40000 != 0) == (p.x & 0x1000 != 0)
    ensures (Down(IP(p).x) & 0x20000 != 0) == (p.x & 0x100000 != 0)
    ensures (Down(IP(p).x) & 0x10000 != 0) == (p.x & 0x10000000 != 0)
  {
    hide IP;
    Exchanged(p);
  }

  // 62 54 46 38 30 22 14 6
  lemma InitialRow3(p: Pair)
    ensures (Down(IP(p).x) & 0x8000 != 0) == (p.y & 0x4 != 0)
    ensures (Down(IP(p).x) & 0x4000 != 0) == (p.y & 0x400 != 0)
    ensures (Down(IP(p).x) & 0x2000 != 0) == (p.y & 0x40000 != 0)
    ensures (Down(IP(p).x) & 0x1000 != 0) == (p.y & 0x4000000 != 0)
    ensures (Down(IP(p).x) & 0x800 != 0) == (p.x & 0x4 != 0)
    ensures (Down(IP(p).x) & 0x400 != 0) == (p.x & 0x400 != 0)
    ensures (Down(IP(p).x) & 0x200 != 0) == (p.x & 0x40000 != 0)
    ensures (Down(IP(p).x) & 0x100 != 0) == (p.x & 0x4000000 != 0)
  {
    hide IP;
    Exchanged(p);
  }

  // 64 56 48 40 32 24 16 8
  lemma InitialRow4(p: Pair)
    ensures (Down(IP(p).x) & 0x80 != 0) == (p.y & 0x1 != 0)
    ensures (Down(IP(p).x) & 0x40 != 0) == (p.y & 0x100 != 0)
    ensures (Down(IP(p).x) & 0x20 != 0) == (p.y & 0x10000 != 0)
    ensures (Down(IP(p).x) & 0x10 != 0) == (p.y & 0x1000000 != 0)
    ensures (Down(IP(p).x) & 0x8 != 0) == (p.x & 0x1 != 0)
    ensures (Down(IP(p).x) & 0x4 != 0) == (p.x & 0x100 != 0)
    ensures (Down(IP(p).x) & 0x2 != 0) == (p.x & 0x10000 != 0)
    ensures (Down(IP(p).x) & 0x1 != 0) == (p.x & 0x1000000 != 0)
  {
    hide IP;
    Exchanged(p);
  }

  // 57 49 41 33 25 17 9 1
  lemma InitialRow5(p: Pair)
    ensures (Down(IP(p).y) & 0x80000000 != 0) == (p.y & 0x80 != 0)
    ensures (Down(IP(p).y) & 0x40000000 != 0) == (p.y & 0x8000 != 0)
    ensures (Down(IP(p).y) & 0x20000000 != 0) == (p.y & 0x800000 != 0)
    ensures (Down(IP(p).y) & 0x10000000 != 0) == (p.y & 0x80000000 != 0)
    ensures (Down(IP(p).y) & 0x8000000 != 0) == (p.x & 0x80 != 0)
    ensures (Down(IP(p).y) & 0x4000000 != 0) == (p.x & 0x8000 != 0)
    ensures (Down(IP(p).y) & 0x2000000 != 0) == (p.x & 0x800000 != 0)
    ensures (Down(IP(p).y) & 0x1000000 != 0) == (p.x & 0x80000000 != 0)
  {
    hide IP;
    Exchanged(p);
  }

  // 59 51 43 35 27 19 11 3
  lemma InitialRow6(p: Pair)
    ensures (Down(IP(p).y) & 0x800000 != 0) == (p.y & 0x20 != 0)
    ensures (Down(IP(p).y) & 0x400000 != 0) == (p.y & 0x2000 != 0)
    ensures (Down(IP(p).y) & 0x200000 != 0) == (p.y & 0x200000 != 0)
    ensures (Down(IP(p).y) & 0x100000 != 0) == (p.y & 0x20000000 != 0)
    ensures (Down(IP(p).y) & 0x80000 != 0) == (p.x & 0x20 != 0)
    ensures (Down(IP(p).y) & 0x40000 != 0) == (p.x & 0x2000 != 0)
    ensures (Down(IP(p).y) & 0x20000 != 0) == (p.x & 0x200000 != 0)
    ensures (Down(IP(p).y) & 0x10000 != 0) == (p.x & 0x20000000 != 0)
  {
    hide IP;
    Exchanged(p);
  }

  // 61 53 45 37 29 21 13 5
  lemma InitialRow7(p: Pair)
    ensures (Down(IP(p).y) & 0x8000 != 0) == (p.y & 0x8 != 0)
    ensures (Down(IP(p).y) & 0x4000 != 0) == (p.y & 0x800 != 0)
    ensures (Down(IP(p).y) & 0x2000 != 0) == (p.y & 0x80000 != 0)
    ensures (Down(IP(p).y) & 0x1000 != 0) == (p.y & 0x8000000 != 0)
    ensures (Down(IP(p).y) & 0x800 != 0) == (p.x & 0x8 != 0)
    ensures (Down(IP(p).y) & 0x400 != 0) == (p.x & 0x800 != 0)
    ensures (Down(IP(p).y) & 0x200 != 0) == (p.x & 0x80000 != 0)
    ensures (Down(IP(p).y) & 0x100 != 0) == (p.x & 0x8000000 != 0)
  {
    hide IP;
    Exchanged(p);
  }

  // 63 55 47 39 31 23 15 7
  lemma InitialRow8(p: Pair)
    ensures (Down(IP(p).y) & 0x80 != 0) == (p.y & 0x2 != 0)
    ensures (Down(IP(p).y) & 0x40 != 0) == (p.y & 0x200 != 0)
    ensures (Down(IP(p).y) & 0x20 != 0) == (p.y & 0x20000 != 0)
    ensures (Down(IP(p).y) & 0x10 != 0) == (p.y & 0x2000000 != 0)
    ensures (Down(IP(p).y) & 0x8 != 0) == (p.x & 0x2 != 0)
    ensures (Down(IP(p).y) & 0x4 != 0) == (p.x & 0x200 != 0)
    ensures (Down(IP(p).y) & 0x2 != 0) == (p.x & 0x20000 != 0)
    ensures (Down(IP(p).y) & 0x1 != 0) == (p.x & 0x2000000 != 0)
  {
    hide IP;
    Exchanged(p);
  }

  // ---------------------------------------------------------------- a round

  // The bit selection E: the six bits of a half that go to box i, in this order.
  //   1: 32 1 2 3 4 5      2: 4 5 6 7 8 9         3: 8 9 10 11 12 13      4: 12 13 14 15 16 17
  //   5: 16 17 18 19 20 21 6: 20 21 22 23 24 25   7: 24 25 26 27 28 29    8: 28 29 30 31 32 1
  function Expanded(r: bv32, i: int): bv32
    requires 1 <= i <= 8
  {
    match i
    case 1 => Six(r, 0x1, 0x80000000, 0x40000000, 0x20000000, 0x10000000, 0x8000000)
    case 2 => Six(r, 0x10000000, 0x8000000, 0x4000000, 0x2000000, 0x1000000, 0x800000)
    case 3 => Six(r, 0x1000000, 0x800000, 0x400000, 0x200000, 0x100000, 0x80000)
    case 4 => Six(r, 0x100000, 0x80000, 0x40000, 0x20000, 0x10000, 0x8000)
    case 5 => Six(r, 0x10000, 0x8000, 0x4000, 0x2000, 0x1000, 0x800)
    case 6 => Six(r, 0x1000, 0x800, 0x400, 0x200, 0x100, 0x80)
    case 7 => Six(r, 0x100, 0x80, 0x40, 0x20, 0x10, 0x8)
    case 8 => Six(r, 0x10, 0x8, 0x4, 0x2, 0x1, 0x80000000)
  }

  // Six bits, as the number that they are.
  function Six(r: bv32, a: bv32, b: bv32, c: bv32, d: bv32, e: bv32, f: bv32): bv32 {
    (if r & a != 0 then 32 else 0) | (if r & b != 0 then 16 else 0) | (if r & c != 0 then 8 else 0) |
    (if r & d != 0 then 4 else 0) | (if r & e != 0 then 2 else 0) | (if r & f != 0 then 1 else 0)
  }

  // The subkey bits of box i: the even boxes have theirs in the first word, the odd ones in the second.
  function KeyBits(k0: bv32, k1: bv32, i: int): bv32
    requires 1 <= i <= 8
  {
    match i
    case 1 => At24(k1)
    case 2 => At24(k0)
    case 3 => At16(k1)
    case 4 => At16(k0)
    case 5 => At8(k1)
    case 6 => At8(k0)
    case 7 => At0(k1)
    case 8 => At0(k0)
  }

  // What box i is asked for: its bits of the expanded half, with its bits of the subkey.
  function Asked(x: bv32, k0: bv32, k1: bv32, i: int): bv32
    requires 1 <= i <= 8
  { Xor(Expanded(Down(x), i), KeyBits(k0, k1, i)) }

  lemma Taken1(x: bv32, r: bv32)
    requires r == (x << 31) | (x >> 1)
    ensures ((if r & 0x1 != 0 then 32 else 0) | (if r & 0x80000000 != 0 then 16 else 0) |
      (if r & 0x40000000 != 0 then 8 else 0) | (if r & 0x20000000 != 0 then 4 else 0) |
      (if r & 0x10000000 != 0 then 2 else 0) | (if r & 0x8000000 != 0 then 1 else 0)) ==
      (((x << 28) | (x >> 4)) >> 24) & 0x3F
  {}

  lemma Expanded1(x: bv32)
    ensures Expanded(Down(x), 1) == At24(Turned(x))
  {
    Taken1(x, Down(x));
  }

  lemma Taken2(x: bv32, r: bv32)
    requires r == (x << 31) | (x >> 1)
    ensures ((if r & 0x10000000 != 0 then 32 else 0) | (if r & 0x8000000 != 0 then 16 else 0) |
      (if r & 0x4000000 != 0 then 8 else 0) | (if r & 0x2000000 != 0 then 4 else 0) |
      (if r & 0x1000000 != 0 then 2 else 0) | (if r & 0x800000 != 0 then 1 else 0)) ==
      (x >> 24) & 0x3F
  {}

  lemma Expanded2(x: bv32)
    ensures Expanded(Down(x), 2) == At24(x)
  {
    Taken2(x, Down(x));
  }

  lemma Taken3(x: bv32, r: bv32)
    requires r == (x << 31) | (x >> 1)
    ensures ((if r & 0x1000000 != 0 then 32 else 0) | (if r & 0x800000 != 0 then 16 else 0) |
      (if r & 0x400000 != 0 then 8 else 0) | (if r & 0x200000 != 0 then 4 else 0) |
      (if r & 0x100000 != 0 then 2 else 0) | (if r & 0x80000 != 0 then 1 else 0)) ==
      (((x << 28) | (x >> 4)) >> 16) & 0x3F
  {}

  lemma Expanded3(x: bv32)
    ensures Expanded(Down(x), 3) == At16(Turned(x))
  {
    Taken3(x, Down(x));
  }

  lemma Taken4(x: bv32, r: bv32)
    requires r == (x << 31) | (x >> 1)
    ensures ((if r & 0x100000 != 0 then 32 else 0) | (if r & 0x80000 != 0 then 16 else 0) |
      (if r & 0x40000 != 0 then 8 else 0) | (if r & 0x20000 != 0 then 4 else 0) |
      (if r & 0x10000 != 0 then 2 else 0) | (if r & 0x8000 != 0 then 1 else 0)) ==
      (x >> 16) & 0x3F
  {}

  lemma Expanded4(x: bv32)
    ensures Expanded(Down(x), 4) == At16(x)
  {
    Taken4(x, Down(x));
  }

  lemma Taken5(x: bv32, r: bv32)
    requires r == (x << 31) | (x >> 1)
    ensures ((if r & 0x10000 != 0 then 32 else 0) | (if r & 0x8000 != 0 then 16 else 0) |
      (if r & 0x4000 != 0 then 8 else 0) | (if r & 0x2000 != 0 then 4 else 0) |
      (if r & 0x1000 != 0 then 2 else 0) | (if r & 0x800 != 0 then 1 else 0)) ==
      (((x << 28) | (x >> 4)) >> 8) & 0x3F
  {}

  lemma Expanded5(x: bv32)
    ensures Expanded(Down(x), 5) == At8(Turned(x))
  {
    Taken5(x, Down(x));
  }

  lemma Taken6(x: bv32, r: bv32)
    requires r == (x << 31) | (x >> 1)
    ensures ((if r & 0x1000 != 0 then 32 else 0) | (if r & 0x800 != 0 then 16 else 0) |
      (if r & 0x400 != 0 then 8 else 0) | (if r & 0x200 != 0 then 4 else 0) |
      (if r & 0x100 != 0 then 2 else 0) | (if r & 0x80 != 0 then 1 else 0)) ==
      (x >> 8) & 0x3F
  {}

  lemma Expanded6(x: bv32)
    ensures Expanded(Down(x), 6) == At8(x)
  {
    Taken6(x, Down(x));
  }

  lemma Taken7(x: bv32, r: bv32)
    requires r == (x << 31) | (x >> 1)
    ensures ((if r & 0x100 != 0 then 32 else 0) | (if r & 0x80 != 0 then 16 else 0) |
      (if r & 0x40 != 0 then 8 else 0) | (if r & 0x20 != 0 then 4 else 0) |
      (if r & 0x10 != 0 then 2 else 0) | (if r & 0x8 != 0 then 1 else 0)) ==
      ((x << 28) | (x >> 4)) & 0x3F
  {}

  lemma Expanded7(x: bv32)
    ensures Expanded(Down(x), 7) == At0(Turned(x))
  {
    Taken7(x, Down(x));
  }

  lemma Taken8(x: bv32, r: bv32)
    requires r == (x << 31) | (x >> 1)
    ensures ((if r & 0x10 != 0 then 32 else 0) | (if r & 0x8 != 0 then 16 else 0) |
      (if r & 0x4 != 0 then 8 else 0) | (if r & 0x2 != 0 then 4 else 0) |
      (if r & 0x1 != 0 then 2 else 0) | (if r & 0x80000000 != 0 then 1 else 0)) ==
      x & 0x3F
  {}

  lemma Expanded8(x: bv32)
    ensures Expanded(Down(x), 8) == At0(x)
  {
    Taken8(x, Down(x));
  }

  lemma Mixed24(x: bv32, k: bv32)
    ensures At24(Xor(k, x)) == Xor(At24(x), At24(k))
  {}

  lemma Mixed16(x: bv32, k: bv32)
    ensures At16(Xor(k, x)) == Xor(At16(x), At16(k))
  {}

  lemma Mixed8(x: bv32, k: bv32)
    ensures At8(Xor(k, x)) == Xor(At8(x), At8(k))
  {}

  lemma Mixed0(x: bv32, k: bv32)
    ensures At0(Xor(k, x)) == Xor(At0(x), At0(k))
  {}

  // The eight boxes, each with its own bits; the order in which they are folded together does not matter.
  function Boxed(sb: Boxes, x: bv32, k0: bv32, k1: bv32): bv32 {
    Fold(sb(8, Asked(x, k0, k1, 8)), sb(6, Asked(x, k0, k1, 6)), sb(4, Asked(x, k0, k1, 4)),
         sb(2, Asked(x, k0, k1, 2)), sb(7, Asked(x, k0, k1, 7)), sb(5, Asked(x, k0, k1, 5)),
         sb(3, Asked(x, k0, k1, 3)), sb(1, Asked(x, k0, k1, 1)))
  }

  lemma EvenAsked(x: bv32, k0: bv32, k1: bv32)
    ensures var t := Xor(k0, x);
      At24(t) == Asked(x, k0, k1, 2) && At16(t) == Asked(x, k0, k1, 4) && At8(t) == Asked(x, k0, k1, 6) &&
      At0(t) == Asked(x, k0, k1, 8)
  {
    hide Expanded, Down, At24, At16, At8, At0, Xor;
    Expanded2(x);
    Expanded4(x);
    Expanded6(x);
    Expanded8(x);
    Mixed24(x, k0);
    Mixed16(x, k0);
    Mixed8(x, k0);
    Mixed0(x, k0);
  }

  lemma OddAsked(x: bv32, k0: bv32, k1: bv32)
    ensures var u := Xor(k1, Turned(x));
      At24(u) == Asked(x, k0, k1, 1) && At16(u) == Asked(x, k0, k1, 3) && At8(u) == Asked(x, k0, k1, 5) &&
      At0(u) == Asked(x, k0, k1, 7)
  {
    hide Expanded, Down, At24, At16, At8, At0, Xor, Turned;
    Expanded1(x);
    Expanded3(x);
    Expanded5(x);
    Expanded7(x);
    Mixed24(Turned(x), k1);
    Mixed16(Turned(x), k1);
    Mixed8(Turned(x), k1);
    Mixed0(Turned(x), k1);
  }

  // DES_ROUND folds them into the other half.
  lemma RoundIs(sb: Boxes, x: bv32, k0: bv32, k1: bv32)
    ensures Feistel(sb, x, k0, k1) == Boxed(sb, x, k0, k1)
  {
    hide Asked, At24, At16, At8, At0, Xor, Turned, Fold;
    EvenAsked(x, k0, k1);
    OddAsked(x, k0, k1);
  }

  // ---------------------------------------------------------------- sixteen rounds

  // The halves, one after the other: each is the last but one with the round function of the last folded in.
  function Half(sb: Boxes, sk: seq<bv32>, p: Pair, n: nat): bv32
    requires 2 * n <= |sk| + 2
  {
    if n == 0 then p.x
    else if n == 1 then p.y
    else Xor(Half(sb, sk, p, n - 2), Boxed(sb, Half(sb, sk, p, n - 1), sk[2 * (n - 2)], sk[2 * (n - 2) + 1]))
  }

  // Two rounds on, with the subkeys that are left.
  lemma {:induction false} HalfLater(sb: Boxes, sk: seq<bv32>, p: Pair, q: Pair, n: nat)
    requires |sk| >= 4 && 2 * n <= |sk| - 2 && q == Pair(Half(sb, sk, p, 2), Half(sb, sk, p, 3))
    ensures Half(sb, sk[4..], q, n) == Half(sb, sk, p, n + 2)
  {
    hide Boxed, Xor;
    if n >= 2 {
      HalfLater(sb, sk, p, q, n - 1);
      HalfLater(sb, sk, p, q, n - 2);
    }
  }

  // The rounds of des_crypt, two at a time, are these: after 16 of them the halves are the 16th and the 17th.
  lemma {:induction false} RoundsAre(sb: Boxes, sk: seq<bv32>, p: Pair)
    requires |sk| % 4 == 0
    ensures Rounds(sb, sk, p) == Pair(Half(sb, sk, p, |sk| / 2), Half(sb, sk, p, |sk| / 2 + 1))
    decreases |sk|
  {
    hide Boxed, Feistel, Xor, Half;
    HalfFirst(sb, sk, p);
    if |sk| >= 4 {
      var q := TwoRounds(sb, p, sk[0], sk[1], sk[2], sk[3]);
      RoundIs(sb, p.y, sk[0], sk[1]);
      RoundIs(sb, q.x, sk[2], sk[3]);
      HalfStart(sb, sk, p);
      RoundsAre(sb, sk[4..], q);
      var n := |sk[4..]| / 2;
      HalfLater(sb, sk, p, q, n);
      HalfLater(sb, sk, p, q, n + 1);
    }
  }

  lemma HalfFirst(sb: Boxes, sk: seq<bv32>, p: Pair)
    ensures Half(sb, sk, p, 0) == p.x && Half(sb, sk, p, 1) == p.y
  {}

  lemma HalfStart(sb: Boxes, sk: seq<bv32>, p: Pair)
    requires |sk| >= 4
    ensures Half(sb, sk, p, 2) == Xor(p.x, Boxed(sb, p.y, sk[0], sk[1]))
    ensures Half(sb, sk, p, 3) == Xor(p.y, Boxed(sb, Half(sb, sk, p, 2), sk[2], sk[3]))
  {
    hide Boxed, Xor;
  }

  // A block: permuted, sixteen rounds under thirty-two subkey words, halves exchanged, permuted back.
  lemma BlockIs(sb: Boxes, sk: seq<bv32>, p: Pair)
    requires |sk| == 32
    ensures IP(CryptWords(sb, sk, p)) == Pair(Half(sb, sk, IP(p), 17), Half(sb, sk, IP(p), 16))
  {
    hide IP, FP, Rounds, Half;
    RoundsAre(sb, sk, IP(p));
    FinalUndoesInitial(Flip(Rounds(sb, sk, IP(p))));
  }

  // ---------------------------------------------------------------- the subkeys count

  function And(a: bv32, m: bv32): bv32 { a & m }

  // Each box has its own bits of the result, and tells all its entries apart.
  ghost predicate Proper(sb: Boxes, own: int -> bv32) {
    && (forall i, a :: 1 <= i <= 8 ==> And(sb(i, a), own(i)) == sb(i, a))
    && (forall i, j :: 1 <= i <= 8 && 1 <= j <= 8 && i != j ==> And(own(i), own(j)) == 0)
    && (forall i, a, b :: 1 <= i <= 8 && And(a, 0x3F) == a && And(b, 0x3F) == b && sb(i, a) == sb(i, b) ==> a == b)
  }

  lemma Apart(w: bv32, n: bv32, m: bv32)
    requires And(w, n) == w && And(n, m) == 0
    ensures And(w, m) == 0
  {}

  lemma SplitTwo(a: bv32, b: bv32, m: bv32)
    ensures And(Xor(a, b), m) == Xor(And(a, m), And(b, m))
  {}

  lemma Split(m: bv32, a: bv32, b: bv32, c: bv32, d: bv32, e: bv32, f: bv32, g: bv32, h: bv32)
    ensures And(Fold(a, b, c, d, e, f, g, h), m) ==
      Fold(And(a, m), And(b, m), And(c, m), And(d, m), And(e, m), And(f, m), And(g, m), And(h, m))
  {
    hide And, Xor;
    var b' := Xor(a, b);
    var c' := Xor(b', c);
    var d' := Xor(c', d);
    var e' := Xor(d', e);
    var f' := Xor(e', f);
    SplitTwo(a, b, m);
    SplitTwo(b', c, m);
    SplitTwo(c', d, m);
    SplitTwo(d', e, m);
    SplitTwo(e', f, m);
    SplitTwo(f', g, m);
    SplitTwo(Xor(f', g), h, m);
  }

  function Pick(i: int, j: int, v: bv32): bv32 { if i == j then v else 0 }

  lemma Zero(v: bv32)
    ensures Xor(v, 0) == v && Xor(0, v) == v && Xor(0, 0) == 0
  {}

  lemma PickOne(i: int, v: bv32)
    requires 1 <= i <= 8
    ensures Fold(Pick(i, 8, v), Pick(i, 6, v), Pick(i, 4, v), Pick(i, 2, v),
                 Pick(i, 7, v), Pick(i, 5, v), Pick(i, 3, v), Pick(i, 1, v)) == v
  {
    hide Xor;
    Zero(v);
  }

  // The bits of box i in the result are what it was asked for.
  lemma Answer(sb: Boxes, own: int -> bv32, x: bv32, k0: bv32, k1: bv32, i: int)
    requires Proper(sb, own) && 1 <= i <= 8
    ensures And(Boxed(sb, x, k0, k1), own(i)) == sb(i, Asked(x, k0, k1, i))
  {
    hide And, Fold, Asked, Pick, Proper;
    forall j | 1 <= j <= 8
      ensures And(sb(j, Asked(x, k0, k1, j)), own(i)) == Pick(i, j, sb(i, Asked(x, k0, k1, i)))
    {
      Belongs(sb, own, i, j, Asked(x, k0, k1, i), Asked(x, k0, k1, j));
    }
    Split(own(i), sb(8, Asked(x, k0, k1, 8)), sb(6, Asked(x, k0, k1, 6)), sb(4, Asked(x, k0, k1, 4)),
          sb(2, Asked(x, k0, k1, 2)), sb(7, Asked(x, k0, k1, 7)), sb(5, Asked(x, k0, k1, 5)),
          sb(3, Asked(x, k0, k1, 3)), sb(1, Asked(x, k0, k1, 1)));
    PickOne(i, sb(i, Asked(x, k0, k1, i)));
  }

  lemma Belongs(sb: Boxes, own: int -> bv32, i: int, j: int, a: bv32, b: bv32)
    requires Proper(sb, own) && 1 <= i <= 8 && 1 <= j <= 8 && (i == j ==> a == b)
    ensures And(sb(j, b), own(i)) == Pick(i, j, sb(i, a))
  {
    hide And;
    if i != j { Apart(sb(j, b), own(j), own(i)); }
  }

  lemma Cancels(e: bv32, k: bv32, l: bv32)
    ensures Xor(e, k) == Xor(e, l) ==> k == l
  {}

  lemma SixBits(x: bv32, k0: bv32, k1: bv32, i: int)
    requires 1 <= i <= 8
    ensures And(Asked(x, k0, k1, i), 0x3F) == Asked(x, k0, k1, i)
  {
    hide Expanded, Down, At24, At16, At8, At0, Xor, Turned, And, Asked;
    EvenAsked(x, k0, k1);
    OddAsked(x, k0, k1);
    Groups(Xor(k0, x));
    Groups(Xor(k1, Turned(x)));
  }

  lemma Groups(t: bv32)
    ensures And(At24(t), 0x3F) == At24(t) && And(At16(t), 0x3F) == At16(t)
    ensures And(At8(t), 0x3F) == At8(t) && And(At0(t), 0x3F) == At0(t)
  {}

  // Two subkeys that give the same result on some half agree on all the bits that the boxes use.
  lemma SubkeysCount(sb: Boxes, own: int -> bv32, x: bv32, k0: bv32, k1: bv32, l0: bv32, l1: bv32, i: int)
    requires Proper(sb, own) && 1 <= i <= 8 && Feistel(sb, x, k0, k1) == Feistel(sb, x, l0, l1)
    ensures KeyBits(k0, k1, i) == KeyBits(l0, l1, i)
  {
    hide And, Fold, Expanded, KeyBits, Xor, Boxed, Feistel;
    RoundIs(sb, x, k0, k1);
    RoundIs(sb, x, l0, l1);
    Answer(sb, own, x, k0, k1, i);
    Answer(sb, own, x, l0, l1, i);
    SixBits(x, k0, k1, i);
    SixBits(x, l0, l1, i);
    Cancels(Expanded(Down(x), i), KeyBits(k0, k1, i), KeyBits(l0, l1, i));
  }

  // ---------------------------------------------------------------- bytes and blocks

  // Bytes are taken most significant first.
  lemma BigEndian(b: seq<bv8>)
    requires |b| == 4
    ensures (Get(b, 0) >> 24) & 0xFF == b[0] as bv32 && (Get(b, 0) >> 16) & 0xFF == b[1] as bv32
    ensures (Get(b, 0) >> 8) & 0xFF == b[2] as bv32 && Get(b, 0) & 0xFF == b[3] as bv32
  {}

  // Every block is encrypted on its own.
  lemma {:induction false} BlockByBlock(sb: Boxes, sk: seq<bv32>, text: seq<bv8>, k: nat)
    requires |text| % 8 == 0 && 8 * k + 8 <= |text|
    ensures CryptAll(sb, sk, text)[8 * k..8 * k + 8] == Crypt(sb, sk, text[8 * k..8 * k + 8])
    decreases |text|
  {
    hide Crypt;
    var c, rest := Crypt(sb, sk, text[..8]), text[8..];
    if k > 0 {
      BlockByBlock(sb, sk, rest, k - 1);
      assert rest[8 * (k - 1)..8 * (k - 1) + 8] == text[8 * k..8 * k + 8];
      assert (c + CryptAll(sb, sk, rest))[8 * k..8 * k + 8] == CryptAll(sb, sk, rest)[8 * (k - 1)..8 * (k - 1) + 8];
    }
  }

  // The bytes of a padding: 0x80 and zeroes, or its length over and over.
  lemma PaddingIs(mode: Mode, offset: nat, j: nat)
    requires offset < 8 && j < 8 - offset
    ensures mode.Iso7816? ==> Padding(mode, offset)[j] == if j == 0 then 0x80 else 0
    ensures !mode.Iso7816? ==> Padding(mode, offset)[j] as int == 8 - offset
  {
    CountIs(Count(8 - offset), 8 - offset);
  }
}
