/**
 * The DES part of lua-crypt.c: the permutations, sixteen Feistel rounds, the two
 * padding modes, and that decoding undoes encoding.  The substitution boxes and the
 * key schedule are parameters.
 */
module Des {
  type Boxes = (int, bv32) -> bv32

  datatype Pair = Pair(x: bv32, y: bv32)

  // The bits of x >> k and y that a step of the permutations exchanges.
  function T4(x: bv32, y: bv32): bv32 { ((x >> 4) ^ y) & 0x0F0F0F0F }
  function T16(x: bv32, y: bv32): bv32 { ((x >> 16) ^ y) & 0x0000FFFF }
  function T2(x: bv32, y: bv32): bv32 { ((x >> 2) ^ y) & 0x33333333 }
  function T8(x: bv32, y: bv32): bv32 { ((x >> 8) ^ y) & 0x00FF00FF }
  function Xor(a: bv32, b: bv32): bv32 { a ^ b }
  function Left4(t: bv32): bv32 { t << 4 }
  function Left16(t: bv32): bv32 { t << 16 }
  function Left2(t: bv32): bv32 { t << 2 }
  function Left8(t: bv32): bv32 { t << 8 }

  // DES_IP
  function IP1(p: Pair): Pair { var t := T4(p.x, p.y); Pair(Xor(p.x, Left4(t)), Xor(p.y, t)) }
  function IP2(p: Pair): Pair { var t := T16(p.x, p.y); Pair(Xor(p.x, Left16(t)), Xor(p.y, t)) }
  function IP3(p: Pair): Pair { var t := T2(p.y, p.x); Pair(Xor(p.x, t), Xor(p.y, Left2(t))) }
  function IP4(p: Pair): Pair { var t := T8(p.y, p.x); Pair(Xor(p.x, t), Xor(p.y, Left8(t))) }
  function Up(v: bv32): bv32 { (v << 1) | (v >> 31) }
  function Down(v: bv32): bv32 { (v << 31) | (v >> 1) }
  function TMix(x: bv32, y: bv32): bv32 { (x ^ y) & 0xAAAAAAAA }
  function Mix(p: Pair): Pair { var t := TMix(p.x, p.y); Pair(Xor(p.x, t), Xor(p.y, t)) }

  function IP(p: Pair): Pair {
    var q := IP4(IP3(IP2(IP1(p))));
    var r := Mix(Pair(q.x, Up(q.y)));
    Pair(Up(r.x), r.y)
  }

  // DES_FP
  function FP(p: Pair): Pair {
    var q := Mix(Pair(Down(p.x), p.y));
    IP1(IP2(IP3(IP4(Pair(q.x, Down(q.y))))))
  }

  // The bits exchanged are the same the second time.
  lemma Same4(x: bv32, y: bv32)
    ensures T4(Xor(x, Left4(T4(x, y))), Xor(y, T4(x, y))) == T4(x, y)
  {}

  lemma Same16(x: bv32, y: bv32)
    ensures T16(Xor(x, Left16(T16(x, y))), Xor(y, T16(x, y))) == T16(x, y)
  {}

  lemma Same2(x: bv32, y: bv32)
    ensures T2(Xor(x, Left2(T2(x, y))), Xor(y, T2(x, y))) == T2(x, y)
  {}

  lemma Same8(x: bv32, y: bv32)
    ensures T8(Xor(x, Left8(T8(x, y))), Xor(y, T8(x, y))) == T8(x, y)
  {}

  lemma SameMix(x: bv32, y: bv32)
    ensures TMix(Xor(x, TMix(x, y)), Xor(y, TMix(x, y))) == TMix(x, y)
  {}

  lemma Back(x: bv32, t: bv32)
    ensures Xor(Xor(x, t), t) == x
  {}

  lemma Involutions(p: Pair)
    ensures IP1(IP1(p)) == p && IP2(IP2(p)) == p && IP3(IP3(p)) == p && IP4(IP4(p)) == p && Mix(Mix(p)) == p
  {
    Involution1(p);
    Involution2(p);
    Involution3(p);
    Involution4(p);
    InvolutionMix(p);
  }

  lemma Involution1(p: Pair)
    ensures IP1(IP1(p)) == p
  {
    hide T4, Left4, Xor;
    var t := T4(p.x, p.y);
    Same4(p.x, p.y);
    Back(p.x, Left4(t));
    Back(p.y, t);
  }

  lemma Involution2(p: Pair)
    ensures IP2(IP2(p)) == p
  {
    hide T16, Left16, Xor;
    var t := T16(p.x, p.y);
    Same16(p.x, p.y);
    Back(p.x, Left16(t));
    Back(p.y, t);
  }

  lemma Involution3(p: Pair)
    ensures IP3(IP3(p)) == p
  {
    hide T2, Left2, Xor;
    var t := T2(p.y, p.x);
    Same2(p.y, p.x);
    Back(p.y, Left2(t));
    Back(p.x, t);
  }

  lemma Involution4(p: Pair)
    ensures IP4(IP4(p)) == p
  {
    hide T8, Left8, Xor;
    var t := T8(p.y, p.x);
    Same8(p.y, p.x);
    Back(p.y, Left8(t));
    Back(p.x, t);
  }

  lemma InvolutionMix(p: Pair)
    ensures Mix(Mix(p)) == p
  {
    hide TMix, Xor;
    var t := TMix(p.x, p.y);
    SameMix(p.x, p.y);
    Back(p.x, t);
    Back(p.y, t);
  }

  lemma Rotations(v: bv32)
    ensures Up(Down(v)) == v && Down(Up(v)) == v
  {}

  // Each permutation undoes the other.
  lemma FinalUndoesInitial(p: Pair)
    ensures FP(IP(p)) == p && IP(FP(p)) == p
  {
    hide IP1, IP2, IP3, IP4, Mix, Up, Down;
    var a := IP1(p);
    var b := IP2(a);
    var c := IP3(b);
    var q := IP4(c);
    Involutions(p);
    Involutions(a);
    Involutions(b);
    Involutions(c);
    Rotations(q.y);
    Involutions(Pair(q.x, Up(q.y)));
    var r := Mix(Pair(q.x, Up(q.y)));
    Rotations(r.x);
    var e := Mix(Pair(Down(p.x), p.y));
    Rotations(p.x);
    Involutions(Pair(Down(p.x), p.y));
    Rotations(e.y);
    var f := Pair(e.x, Down(e.y));
    Involutions(f);
    Involutions(IP4(f));
    Involutions(IP3(IP4(f)));
    Involutions(IP2(IP3(IP4(f))));
  }

  // The four groups of six bits in a word, and a word turned by four bits.
  function At24(x: bv32): bv32 { (x >> 24) & 0x3F }
  function At16(x: bv32): bv32 { (x >> 16) & 0x3F }
  function At8(x: bv32): bv32 { (x >> 8) & 0x3F }
  function At0(x: bv32): bv32 { x & 0x3F }
  function Turned(x: bv32): bv32 { (x << 28) | (x >> 4) }

  function Fold(a: bv32, b: bv32, c: bv32, d: bv32, e: bv32, f: bv32, g: bv32, h: bv32): bv32 {
    Xor(Xor(Xor(Xor(Xor(Xor(Xor(a, b), c), d), e), f), g), h)
  }

  // What DES_ROUND folds into the other half.
  function Feistel(sb: Boxes, x: bv32, k0: bv32, k1: bv32): bv32 {
    var t := Xor(k0, x);
    var u := Xor(k1, Turned(x));
    Fold(sb(8, At0(t)), sb(6, At8(t)), sb(4, At16(t)), sb(2, At24(t)),
         sb(7, At0(u)), sb(5, At8(u)), sb(3, At16(u)), sb(1, At24(u)))
  }

  // DES_ROUND(Y, X); DES_ROUND(X, Y);
  function TwoRounds(sb: Boxes, p: Pair, k0: bv32, k1: bv32, k2: bv32, k3: bv32): Pair {
    var x := Xor(p.x, Feistel(sb, p.y, k0, k1));
    Pair(x, Xor(p.y, Feistel(sb, x, k2, k3)))
  }

  function Rounds(sb: Boxes, sk: seq<bv32>, p: Pair): Pair
    decreases |sk|
  { if |sk| < 4 then p else Rounds(sb, sk[4..], TwoRounds(sb, p, sk[0], sk[1], sk[2], sk[3])) }

  function Flip(p: Pair): Pair { Pair(p.y, p.x) }

  // The subkey pairs in reverse order.
  function Reversed(sk: seq<bv32>): (r: seq<bv32>)
    ensures |r| == |sk|
    decreases |sk|
  { if |sk| < 2 then sk else Reversed(sk[2..]) + sk[..2] }

  lemma {:induction false} RoundsAppend(sb: Boxes, a: seq<bv32>, b: seq<bv32>, p: Pair)
    requires |a| % 4 == 0
    ensures Rounds(sb, a + b, p) == Rounds(sb, b, Rounds(sb, a, p))
    decreases |a|
  {
    hide TwoRounds;
    if |a| < 4 {
      assert a + b == b;
    } else {
      assert (a + b)[4..] == a[4..] + b;
      RoundsAppend(sb, a[4..], b, TwoRounds(sb, p, a[0], a[1], a[2], a[3]));
    }
  }

  lemma ReversedFour(sk: seq<bv32>)
    requires |sk| >= 4
    ensures Reversed(sk) == Reversed(sk[4..]) + [sk[2], sk[3], sk[0], sk[1]]
  {
    hide Reversed;
    ReversedTwo(sk);
    ReversedTwo(sk[2..]);
    assert sk[2..][2..] == sk[4..];
    Assoc(Reversed(sk[4..]), sk[2..][..2], sk[..2]);
    FirstTwo(sk);
  }

  lemma FirstTwo<T>(s: seq<T>)
    requires |s| >= 4
    ensures s[2..][..2] + s[..2] == [s[2], s[3], s[0], s[1]]
  {}

  lemma ReversedTwo(sk: seq<bv32>)
    requires |sk| >= 2
    ensures Reversed(sk) == Reversed(sk[2..]) + sk[..2]
  {}

  lemma Assoc<T>(a: seq<T>, b: seq<T>, c: seq<T>)
    ensures (a + b) + c == a + (b + c)
  {}

  lemma TwoBack(sb: Boxes, p: Pair, k0: bv32, k1: bv32, k2: bv32, k3: bv32)
    ensures TwoRounds(sb, Flip(TwoRounds(sb, p, k0, k1, k2, k3)), k2, k3, k0, k1) == Flip(p)
  {
    hide Xor, Feistel;
    var f := Feistel(sb, p.y, k0, k1);
    var x := Xor(p.x, f);
    Back(p.x, f);
    Back(p.y, Feistel(sb, x, k2, k3));
  }

  // The rounds under the reversed subkeys, with the halves exchanged, run backwards.
  lemma {:induction false} RoundsBack(sb: Boxes, sk: seq<bv32>, p: Pair)
    requires |sk| % 4 == 0
    ensures Rounds(sb, Reversed(sk), Flip(Rounds(sb, sk, p))) == Flip(p)
    decreases |sk|
  {
    hide TwoRounds, Flip, Reversed;
    if |sk| >= 4 {
      var q := TwoRounds(sb, p, sk[0], sk[1], sk[2], sk[3]);
      var rest := sk[4..];
      RoundsBack(sb, rest, q);
      ReversedFour(sk);
      var back := [sk[2], sk[3], sk[0], sk[1]];
      RoundsAppend(sb, Reversed(rest), back, Flip(Rounds(sb, sk, p)));
      TwoBack(sb, p, sk[0], sk[1], sk[2], sk[3]);
      LastFour(sb, back, Flip(q));
    } else {
      assert Rounds(sb, Reversed(sk), Flip(p)) == Flip(p);
    }
  }

  lemma LastFour(sb: Boxes, k: seq<bv32>, p: Pair)
    requires |k| == 4
    ensures Rounds(sb, k, p) == TwoRounds(sb, p, k[0], k[1], k[2], k[3])
  {
    hide TwoRounds;
    assert k[4..] == [];
  }

  // des_crypt on the two words of a block.
  function CryptWords(sb: Boxes, sk: seq<bv32>, p: Pair): Pair { FP(Flip(Rounds(sb, sk, IP(p)))) }

  lemma CryptBack(sb: Boxes, sk: seq<bv32>, p: Pair)
    requires |sk| == 32
    ensures CryptWords(sb, Reversed(sk), CryptWords(sb, sk, p)) == p
  {
    hide IP, FP, Rounds, Reversed;
    var q := Rounds(sb, sk, IP(p));
    FinalUndoesInitial(Flip(q));
    RoundsBack(sb, sk, IP(p));
    FinalUndoesInitial(p);
    FlipFlip(IP(p));
  }

  lemma FlipFlip(p: Pair)
    ensures Flip(Flip(p)) == p
  {}

  // GET_UINT32 and PUT_UINT32
  function Get(b: seq<bv8>, i: int): bv32
    requires 0 <= i && i + 4 <= |b|
  { ((b[i] as bv32) << 24) | ((b[i + 1] as bv32) << 16) | ((b[i + 2] as bv32) << 8) | (b[i + 3] as bv32) }

  function Put(n: bv32): (b: seq<bv8>)
    ensures |b| == 4
  { [((n >> 24) & 0xFF) as bv8, ((n >> 16) & 0xFF) as bv8, ((n >> 8) & 0xFF) as bv8, (n & 0xFF) as bv8] }

  lemma GetPut(n: bv32, m: bv32)
    ensures Get(Put(n) + Put(m), 0) == n && Get(Put(n) + Put(m), 4) == m
  {}

  lemma PutGet(b: seq<bv8>)
    requires |b| == 8
    ensures Put(Get(b, 0)) + Put(Get(b, 4)) == b
  {}

  // des_crypt
  function Crypt(sb: Boxes, sk: seq<bv32>, block: seq<bv8>): (r: seq<bv8>)
    requires |block| == 8
    ensures |r| == 8
  {
    var p := CryptWords(sb, sk, Pair(Get(block, 0), Get(block, 4)));
    Put(p.x) + Put(p.y)
  }

  lemma BlockBack(sb: Boxes, sk: seq<bv32>, block: seq<bv8>)
    requires |sk| == 32 && |block| == 8
    ensures Crypt(sb, Reversed(sk), Crypt(sb, sk, block)) == block
  {
    hide CryptWords, Get, Put, Reversed;
    var p := Pair(Get(block, 0), Get(block, 4));
    var q := CryptWords(sb, sk, p);
    GetPut(q.x, q.y);
    CryptBack(sb, sk, p);
    PutGet(block);
  }

  // Every eight bytes of a text on their own.
  function CryptAll(sb: Boxes, sk: seq<bv32>, text: seq<bv8>): (r: seq<bv8>)
    requires |text| % 8 == 0
    ensures |r| == |text|
    decreases |text|
  { if text == [] then [] else Crypt(sb, sk, text[..8]) + CryptAll(sb, sk, text[8..]) }

  lemma {:induction false} AllBack(sb: Boxes, sk: seq<bv32>, text: seq<bv8>)
    requires |sk| == 32 && |text| % 8 == 0
    ensures CryptAll(sb, Reversed(sk), CryptAll(sb, sk, text)) == text
    decreases |text|
  {
    hide Crypt, Reversed;
    if text != [] {
      var a, b := Crypt(sb, sk, text[..8]), CryptAll(sb, sk, text[8..]);
      assert (a + b)[..8] == a && (a + b)[8..] == b;
      BlockBack(sb, sk, text[..8]);
      AllBack(sb, sk, text[8..]);
      assert text == text[..8] + text[8..];
    }
  }

  lemma {:induction false} CryptAllSnoc(sb: Boxes, sk: seq<bv32>, text: seq<bv8>, block: seq<bv8>)
    requires |text| % 8 == 0 && |block| == 8
    ensures CryptAll(sb, sk, text + block) == CryptAll(sb, sk, text) + Crypt(sb, sk, block)
    decreases |text|
  {
    hide Crypt;
    if text == [] {
      assert block[..8] == block && block[8..] == [] && text + block == block;
      assert CryptAll(sb, sk, []) == [];
    } else {
      assert (text + block)[..8] == text[..8] && (text + block)[8..] == text[8..] + block;
      CryptAllSnoc(sb, sk, text[8..], block);
      Assoc(Crypt(sb, sk, text[..8]), CryptAll(sb, sk, text[8..]), Crypt(sb, sk, block));
    }
  }

  datatype Mode = Iso7816 | Pkcs7

  // The byte that says n, for a padding of n bytes.
  function Count(n: nat): (b: bv8)
    requires 1 <= n <= 8
    ensures b != 0
  {
    match n case 1 => 1 case 2 => 2 case 3 => 3 case 4 => 4 case 5 => 5 case 6 => 6 case 7 => 7 case 8 => 8
  }

  function Fill(b: bv8, n: nat): (s: seq<bv8>)
    ensures |s| == n && forall i :: 0 <= i < n ==> s[i] == b
  { if n == 0 then [] else [b] + Fill(b, n - 1) }

  // padding_add_*: what fills a block behind offset bytes.
  function Padding(mode: Mode, offset: nat): (s: seq<bv8>)
    requires offset < 8
    ensures |s| == 8 - offset
  { if mode.Iso7816? then [0x80] + Fill(0, 7 - offset) else Fill(Count(8 - offset), 8 - offset) }

  // padding_remove_iso7816_4: the size of the padding at the end of a text, 0 if there is none.
  method RemoveIso(text: seq<bv8>) returns (padding: int)
    requires |text| >= 8
    ensures 0 <= padding <= 8
    ensures forall n :: 1 <= n <= 8 ==> (padding == n <==> IsoEnd(text, n))
  {
    padding := 1;
    var i := 0;
    while i < 8
      invariant 0 <= i <= 8 && padding == i + 1
      invariant forall j :: |text| - i <= j < |text| ==> text[j] == 0
    {
      var b := text[|text| - 1 - i];
      if b == 0 {
        padding := padding + 1;
      } else if b == 0x80 {
        return padding;
      } else {
        return 0;
      }
      i := i + 1;
    }
    return 0;
  }

  predicate IsoEnd(text: seq<bv8>, n: int)
    requires 1 <= n <= 8 <= |text|
  { text[|text| - n] == 0x80 && forall j :: |text| - n < j < |text| ==> text[j] == 0 }

  // What lies in front of a buffer, from its end back.
  type Front = nat -> bv8

  // padding_remove_pkcs7: looked is the number of bytes, from the last one back, that were looked at.  The search
  // leaves the text exactly when the text is one byte over and over whose value is larger than its length; what
  // lies in front of the text can then make the result 0 or that value, but never the size of a padding.
  method RemovePkcs(text: seq<bv8>, front: Front) returns (padding: int, looked: nat)
    requires |text| >= 8
    ensures 0 <= padding
    ensures forall n :: 1 <= n <= 8 ==> (padding == n <==> PkcsEnd(text, n))
    ensures looked > |text| <==> Overreads(text)
    ensures padding in {0, text[|text| - 1] as int}
  {
    padding, looked := text[|text| - 1] as int, 1;
    var i := 1;
    while i < padding
      invariant 1 <= i <= (if padding > 0 then padding else 1) && looked == i && padding == text[|text| - 1] as int
      invariant forall j :: |text| - i <= j < |text| && 0 <= j ==> text[j] == text[|text| - 1]
    {
      looked := looked + 1;
      var b := if i < |text| then text[|text| - 1 - i] else front(i - |text|);
      if b != text[|text| - 1] {
        NoEnd(text, i, padding);
        return 0, looked;
      }
      i := i + 1;
    }
    AnEnd(text, padding);
  }

  predicate Overreads(text: seq<bv8>)
    requires |text| > 0
  { text[|text| - 1] as int > |text| && forall j :: 0 <= j < |text| ==> text[j] == text[|text| - 1] }

  lemma CountIs(b: bv8, n: nat)
    requires 1 <= n <= 8
    ensures b as int == n <==> b == Count(n)
  {}

  lemma NoEnd(text: seq<bv8>, i: int, padding: int)
    requires |text| >= 8 && padding == text[|text| - 1] as int && 1 <= i < padding
    requires i >= |text| || text[|text| - 1 - i] != text[|text| - 1]
    ensures forall n :: 1 <= n <= 8 ==> !PkcsEnd(text, n)
  {
    forall n | 1 <= n <= 8 ensures !PkcsEnd(text, n) { CountIs(text[|text| - 1], n); }
  }

  lemma AnEnd(text: seq<bv8>, padding: int)
    requires |text| >= 8 && padding == text[|text| - 1] as int
    requires forall j :: |text| - padding <= j < |text| && 0 <= j ==> text[j] == text[|text| - 1]
    ensures forall n :: 1 <= n <= 8 ==> (padding == n <==> PkcsEnd(text, n))
  {
    forall n | 1 <= n <= 8 ensures padding == n <==> PkcsEnd(text, n) { CountIs(text[|text| - 1], n); }
  }

  predicate PkcsEnd(text: seq<bv8>, n: int)
    requires 1 <= n <= 8 <= |text|
  { forall j :: |text| - n <= j < |text| ==> text[j] == Count(n) }

  // The text ends in a padding of n bytes.
  predicate Ends(mode: Mode, text: seq<bv8>, n: int)
    requires 1 <= n <= 8 <= |text|
  { if mode.Iso7816? then IsoEnd(text, n) else PkcsEnd(text, n) }

  method RemovePadding(mode: Mode, text: seq<bv8>, front: Front) returns (padding: int)
    requires |text| >= 8
    ensures forall n :: 1 <= n <= 8 ==> (padding == n <==> Ends(mode, text, n))
  {
    if mode.Iso7816? { padding := RemoveIso(text); } else { var looked; padding, looked := RemovePkcs(text, front); }
  }

  // What was padded ends in its padding.
  lemma PaddedEnds(mode: Mode, text: seq<bv8>)
    ensures var r := |text| % 8; Ends(mode, text + Padding(mode, r), 8 - r) && |text + Padding(mode, r)| % 8 == 0
  {
    var r := |text| % 8;
    var s := text + Padding(mode, r);
    assert |s| - (8 - r) == |text|;
    assert forall j :: |text| <= j < |s| ==> s[j] == Padding(mode, r)[j - |text|];
  }

  // ldesencode
  method Encode(sb: Boxes, sk: seq<bv32>, text: seq<bv8>, mode: Mode) returns (r: seq<bv8>)
    ensures (|text| + |Padding(mode, |text| % 8)|) % 8 == 0
    ensures r == CryptAll(sb, sk, text + Padding(mode, |text| % 8))
  {
    hide Crypt, CryptAll, Padding;
    r := [];
    var i := 0;
    NoBlocks(sb, sk);
    assert text[..0] == [];
    while i < |text| - 7
      invariant 0 <= i <= |text| && i % 8 == 0 && r == CryptAll(sb, sk, text[..i])
    {
      CryptAllSnoc(sb, sk, text[..i], text[i..i + 8]);
      assert text[..i + 8] == text[..i] + text[i..i + 8];
      r := r + Crypt(sb, sk, text[i..i + 8]);
      i := i + 8;
    }
    var tail := text[i..] + Padding(mode, |text| - i);
    assert |text| - i == |text| % 8;
    CryptAllSnoc(sb, sk, text[..i], tail);
    assert text + Padding(mode, |text| % 8) == text[..i] + tail;
    r := r + Crypt(sb, sk, tail);
  }

  lemma NoBlocks(sb: Boxes, sk: seq<bv32>)
    ensures CryptAll(sb, sk, []) == []
  {}

  // The loop that turns the subkeys of encoding into those of decoding.
  method ReverseKeys(esk: seq<bv32>) returns (sk: seq<bv32>)
    requires |esk| == 32
    ensures sk == Reversed(esk)
  {
    hide Reversed;
    sk := [];
    var i := 0;
    Fewest(esk[32..]);
    while i < 32
      invariant 0 <= i <= 32 && i % 2 == 0 && |sk| == i
      invariant sk == Reversed(esk[32 - i..])
    {
      sk := sk + [esk[30 - i], esk[31 - i]];
      ReversedTwo(esk[30 - i..]);
      assert esk[30 - i..][2..] == esk[32 - i..] && esk[30 - i..][..2] == [esk[30 - i], esk[31 - i]];
      i := i + 2;
    }
    assert esk[0..] == esk;
  }

  lemma Fewest(s: seq<bv32>)
    ensures s == [] ==> Reversed(s) == []
  {}

  datatype Result = Bad | Ok(text: seq<bv8>)

  // ldesdecode, for whatever lies in front of its buffer.
  method Decode(sb: Boxes, esk: seq<bv32>, text: seq<bv8>, mode: Mode, front: Front) returns (r: Result)
    requires |esk| == 32
    ensures |text| % 8 != 0 || text == [] ==> r == Bad
    ensures |text| % 8 == 0 && text != [] ==>
      var plain := CryptAll(sb, Reversed(esk), text);
      (forall n :: 1 <= n <= 8 && Ends(mode, plain, n) ==> r == Ok(plain[..|plain| - n])) &&
      ((forall n :: 1 <= n <= 8 ==> !Ends(mode, plain, n)) ==> r == Bad)
  {
    hide Crypt, CryptAll, Reversed, Ends;
    var sk := ReverseKeys(esk);
    if |text| % 8 != 0 || |text| == 0 { return Bad; }
    var plain := [];
    var i := 0;
    NoBlocks(sb, sk);
    assert text[..0] == [];
    while i < |text|
      invariant 0 <= i <= |text| && i % 8 == 0 && plain == CryptAll(sb, sk, text[..i])
    {
      CryptAllSnoc(sb, sk, text[..i], text[i..i + 8]);
      assert text[..i + 8] == text[..i] + text[i..i + 8];
      plain := plain + Crypt(sb, sk, text[i..i + 8]);
      i := i + 8;
    }
    assert text[..i] == text;
    var padding := RemovePadding(mode, plain, front);
    if padding <= 0 || padding > 8 { return Bad; }
    assert Ends(mode, plain, padding);
    return Ok(plain[..|plain| - padding]);
  }

  // Decoding what was encoded gives the text, for every text and both modes.
  method EncodeDecode(sb: Boxes, sk: seq<bv32>, text: seq<bv8>, mode: Mode, front: Front) returns (r: Result)
    requires |sk| == 32
    ensures r == Ok(text)
  {
    hide CryptAll, Reversed, Ends, Padding;
    var c := Encode(sb, sk, text, mode);
    ghost var padded := text + Padding(mode, |text| % 8);
    PaddedEnds(mode, text);
    AllBack(sb, sk, padded);
    r := Decode(sb, sk, c, mode, front);
    assert padded[..|padded| - (8 - |text| % 8)] == text;
  }
}
