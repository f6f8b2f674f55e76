/** lib/bits.c: the population count of one word.

    The proofs about words hide the functions that operate on bits, and leave them visible only in small lemmas,
    most of which relate just two expressions. */
module Bitmask {

  /** The copies of the sign bit that an arithmetic shift right of a signed 64-bit value puts into the places
      named by top. */
  function Fill(v: bv64, top: bv64): bv64 {
    if v & 0x8000_0000_0000_0000 == 0 then 0 else top
  }

  /** bit_weight on the two's-complement representation of its argument, and its four steps. */
  function BitWeight(v: bv64): bv64 {
    AddBytes(FoldBytes(FoldNibbles(FoldPairs(v))))
  }

  function FoldPairs(v: bv64): bv64 { v - SignedOdd(v) }
  function SignedOdd(v: bv64): bv64 { ((v >> 1) | Fill(v, 0x8000_0000_0000_0000)) & 0x5555_5555_5555_5555 }

  function FoldNibbles(v: bv64): bv64 { (v & 0x3333_3333_3333_3333) + SignedHigh(v) }
  function SignedHigh(v: bv64): bv64 { ((v >> 2) | Fill(v, 0xc000_0000_0000_0000)) & 0x3333_3333_3333_3333 }

  function FoldBytes(v: bv64): bv64 { (v + SignedQuarter(v)) & 0x0f0f_0f0f_0f0f_0f0f }
  function SignedQuarter(v: bv64): bv64 { (v >> 4) | Fill(v, 0xf000_0000_0000_0000) }

  function AddBytes(v: bv64): bv64 { (v * 0x0101_0101_0101_0101) >> 56 }

  /** The number of ones among the lowest n bits. */
  function Ones(v: bv64, n: nat): nat {
    if n == 0 then 0 else (if v & 1 == 1 then 1 else 0) + Ones(v >> 1, n - 1)
  }

  // ---------- Values ----------

  function Val(b: bv64): nat { b as int }
  function Add(x: bv64, y: bv64): bv64 { x + y }
  function Minus(x: bv64, y: bv64): bv64 { x - y }

  lemma {:induction false} AddSmall(x: bv64, y: bv64)
    requires Val(x) + Val(y) <= 510
    ensures Val(Add(x, y)) == Val(x) + Val(y)
    decreases Val(y)
  {
    hide Val, Add;
    Zero(y);
    Carry(x, y);
    if y != 0 {
      Successor(x);
      Predecessor(y);
      AddSmall(x + 1, y - 1);
    }
  }

  lemma Carry(x: bv64, y: bv64)
    ensures Add(x + 1, y - 1) == Add(x, y) && Add(x, 0) == x
  {
  }

  lemma Zero(y: bv64)
    ensures Val(y) == 0 <==> y == 0
  {
  }

  lemma Successor(b: bv64)
    requires Val(b) <= 510
    ensures Val(b + 1) == Val(b) + 1
  {
    assert b <= 510;
  }

  lemma Predecessor(y: bv64)
    requires y != 0 && Val(y) <= 510
    ensures Val(y - 1) + 1 == Val(y)
  {
    assert y <= 510;
  }

  /** The values of the lowest n fields of two, four and eight bits, added up. */
  function TwoBits(v: bv64, n: nat): nat {
    if n == 0 then 0 else Val(v & 3) + TwoBits(v >> 2, n - 1)
  }

  function FourBits(v: bv64, n: nat): nat {
    if n == 0 then 0 else Val(v & 15) + FourBits(v >> 4, n - 1)
  }

  function EightBits(v: bv64, n: nat): nat {
    if n == 0 then 0 else Val(v & 255) + EightBits(v >> 8, n - 1)
  }

  // ---------- The folding steps without signs and borrows ----------

  function Pairs(v: bv64): bv64 { (v & 0x5555_5555_5555_5555) + ((v >> 1) & 0x5555_5555_5555_5555) }
  function Nibbles(v: bv64): bv64 { (v & 0x3333_3333_3333_3333) + ((v >> 2) & 0x3333_3333_3333_3333) }
  function Bytes(v: bv64): bv64 { (v + (v >> 4)) & 0x0f0f_0f0f_0f0f_0f0f }

  function Even(v: bv64): bv64 { v & 0x5555_5555_5555_5555 }
  function Odd(v: bv64): bv64 { (v >> 1) & 0x5555_5555_5555_5555 }
  function Low(v: bv64): bv64 { v & 0x3333_3333_3333_3333 }
  function High(v: bv64): bv64 { (v >> 2) & 0x3333_3333_3333_3333 }
  function Quarter(v: bv64): bv64 { v >> 4 }
  function Masked(v: bv64): bv64 { v & 0x0f0f_0f0f_0f0f_0f0f }

  /** The sign bits are masked away, and the subtraction of the first step borrows nothing across fields. */
  lemma FoldPairsAdds(v: bv64)
    ensures FoldPairs(v) == Pairs(v)
  {
    hide FoldPairs, SignedOdd, Pairs, Minus, Even, Odd;
    FoldPairsParts(v);
    OddUnsigned(v);
    EvenAndOdd(v);
    Cancel(Even(v), Odd(v));
  }

  lemma FoldPairsParts(v: bv64)
    ensures FoldPairs(v) == Minus(v, SignedOdd(v)) && Pairs(v) == Even(v) + Odd(v)
  {
    hide SignedOdd;
  }

  lemma OddUnsigned(v: bv64)
    ensures SignedOdd(v) == Odd(v)
  {
    OddMasked(v);
    hide Fill;
  }

  lemma OddMasked(v: bv64)
    ensures ((v >> 1) | Fill(v, 0x8000_0000_0000_0000)) & 0x5555_5555_5555_5555 == (v >> 1) & 0x5555_5555_5555_5555
  {
  }

  lemma EvenAndOdd(v: bv64)
    ensures v == Even(v) + Odd(v) + Odd(v)
  {
  }

  lemma Cancel(e: bv64, o: bv64)
    ensures Minus(e + o + o, o) == e + o
  {
  }

  lemma FoldNibblesAdds(v: bv64)
    ensures FoldNibbles(v) == Nibbles(v)
  {
    hide FoldNibbles, Nibbles, SignedHigh, Add, Low, High;
    FoldNibblesParts(v);
    HighUnsigned(v);
  }

  lemma FoldNibblesParts(v: bv64)
    ensures FoldNibbles(v) == Add(Low(v), SignedHigh(v)) && Nibbles(v) == Add(Low(v), High(v))
  {
    hide SignedHigh;
  }

  lemma HighUnsigned(v: bv64)
    ensures SignedHigh(v) == High(v)
  {
    HighMasked(v);
    hide Fill;
  }

  lemma HighMasked(v: bv64)
    ensures ((v >> 2) | Fill(v, 0xc000_0000_0000_0000)) & 0x3333_3333_3333_3333 == (v >> 2) & 0x3333_3333_3333_3333
  {
  }

  /** In the third step the sign bit is clear. */
  lemma FoldBytesAdds(v: bv64)
    requires v & 0x8888_8888_8888_8888 == 0
    ensures FoldBytes(v) == Bytes(v)
  {
    hide FoldBytes, Bytes, SignedQuarter, Add, Quarter, Masked;
    FoldBytesParts(v);
    QuarterUnsigned(v);
  }

  lemma FoldBytesParts(v: bv64)
    ensures FoldBytes(v) == Masked(Add(v, SignedQuarter(v))) && Bytes(v) == Masked(Add(v, Quarter(v)))
  {
    hide SignedQuarter;
  }

  lemma QuarterUnsigned(v: bv64)
    requires v & 0x8888_8888_8888_8888 == 0
    ensures SignedQuarter(v) == Quarter(v)
  {
    QuarterMasked(v);
    hide Fill;
  }

  lemma QuarterMasked(v: bv64)
    requires v & 0x8888_8888_8888_8888 == 0
    ensures (v >> 4) | Fill(v, 0xf000_0000_0000_0000) == v >> 4
  {
  }

  // ---------- Each step adds neighbouring fields ----------

  lemma PairsField(v: bv64)
    ensures Pairs(v) >> 2 == Pairs(v >> 2) && Pairs(v) & 3 == Add(v & 1, (v >> 1) & 1)
  {
  }

  lemma NibblesField(v: bv64)
    ensures Nibbles(v) >> 4 == Nibbles(v >> 4) && Nibbles(v) & 15 == Add(v & 3, (v >> 2) & 3)
  {
  }

  /** Every field of four bits is below 8, so that two of them fit in four bits. */
  lemma NibblesSmall(v: bv64)
    ensures Nibbles(v) & 0x8888_8888_8888_8888 == 0
  {
  }

  lemma BytesField(v: bv64)
    requires v & 0x8888_8888_8888_8888 == 0
    ensures (v >> 8) & 0x8888_8888_8888_8888 == 0 && Bytes(v) >> 8 == Bytes(v >> 8)
    ensures Bytes(v) & 255 == Add(v & 15, (v >> 4) & 15) && Bytes(v) & 0xf0f0_f0f0_f0f0_f0f0 == 0
  {
  }

  lemma ShiftTwice(v: bv64)
    ensures (v >> 1) >> 1 == v >> 2 && (v >> 2) >> 2 == v >> 4 && (v >> 4) >> 4 == v >> 8
  {
  }

  lemma MaskSmall(v: bv64)
    ensures Val(v & 1) == (if v & 1 == 1 then 1 else 0) && Val(v & 3) <= 15 && Val(v & 15) <= 15
  {
    assert (v & 1 == 0 || v & 1 == 1) && v & 3 <= 15 && v & 15 <= 15;
  }

  lemma {:induction false} PairsSum(v: bv64, n: nat)
    ensures TwoBits(Pairs(v), n) == Ones(v, 2 * n)
  {
    hide Pairs, Val, Add;
    if n > 0 {
      PairsSum(v >> 2, n - 1);
      PairsField(v);
      ShiftTwice(v);
      MaskSmall(v);
      MaskSmall(v >> 1);
      AddSmall(v & 1, (v >> 1) & 1);
      assert Ones(v >> 1, 2 * n - 1) == (if (v >> 1) & 1 == 1 then 1 else 0) + Ones((v >> 1) >> 1, 2 * n - 2);
    }
  }

  lemma {:induction false} NibblesSum(v: bv64, n: nat)
    ensures FourBits(Nibbles(v), n) == TwoBits(v, 2 * n)
  {
    hide Nibbles, Val, Add;
    if n > 0 {
      NibblesSum(v >> 4, n - 1);
      NibblesField(v);
      ShiftTwice(v);
      MaskSmall(v);
      MaskSmall(v >> 2);
      AddSmall(v & 3, (v >> 2) & 3);
      assert TwoBits(v >> 2, 2 * n - 1) == Val((v >> 2) & 3) + TwoBits((v >> 2) >> 2, 2 * n - 2);
    }
  }

  lemma {:induction false} BytesSum(v: bv64, n: nat)
    requires v & 0x8888_8888_8888_8888 == 0
    ensures EightBits(Bytes(v), n) == FourBits(v, 2 * n)
  {
    hide Bytes, Val, Add;
    if n > 0 {
      BytesField(v);
      BytesSum(v >> 8, n - 1);
      ShiftTwice(v);
      MaskSmall(v);
      MaskSmall(v >> 4);
      AddSmall(v & 15, (v >> 4) & 15);
      assert FourBits(v >> 4, 2 * n - 1) == Val((v >> 4) & 15) + FourBits((v >> 4) >> 4, 2 * n - 2);
    }
  }

  // ---------- The multiplication ----------

  function Up8(c: bv64): bv64 { c + 0x100 * c }
  function Up16(c: bv64): bv64 { c + 0x1_0000 * c }
  function Up32(c: bv64): bv64 { c + 0x1_0000_0000 * c }

  /** Multiplying adds a word to itself shifted by one, then by two, then by four bytes. */
  lemma Product(c: bv64)
    ensures c * 0x0101_0101_0101_0101 == Up32(Up16(Up8(c)))
  {
    hide Up8, Up16, Up32;
    ProductOnce(c);
    ProductTwice(c);
    ProductLast(c);
  }

  lemma ProductOnce(c: bv64)
    ensures Up8(c) == 0x101 * c
  {
  }

  lemma ProductTwice(c: bv64)
    ensures Up16(0x101 * c) == 0x101_0101 * c
  {
  }

  lemma ProductLast(c: bv64)
    ensures Up32(0x101_0101 * c) == c * 0x0101_0101_0101_0101
  {
  }

  /** The eight bytes, added in the order in which the multiplication adds them. */
  function ByteTree(c: bv64): bv64 {
    Add(Add(Add(c >> 56, (c >> 48) & 255), Add((c >> 40) & 255, (c >> 32) & 255)),
        Add(Add((c >> 24) & 255, (c >> 16) & 255), Add((c >> 8) & 255, c & 255)))
  }

  /** The multiplication adds the eight bytes into the top one; no byte overflows on the way. */
  lemma TopByte(c: bv64)
    requires c & 0xf0f0_f0f0_f0f0_f0f0 == 0
    ensures AddBytes(c) == ByteTree(c)
  {
    Product(c);
    hide Add, Up8, Up16, Up32;
    FoldOnce(c);
    FoldTwice(Up8(c));
    FoldLast(Up16(Up8(c)));
  }

  lemma FoldOnce(c: bv64)
    requires c & 0xf0f0_f0f0_f0f0_f0f0 == 0
    ensures Up8(c) & 0xe0e0_e0e0_e0e0_e0e0 == 0 && Up8(c) >> 56 == Add(c >> 56, (c >> 48) & 255)
    ensures (Up8(c) >> 40) & 255 == Add((c >> 40) & 255, (c >> 32) & 255)
    ensures (Up8(c) >> 24) & 255 == Add((c >> 24) & 255, (c >> 16) & 255)
    ensures (Up8(c) >> 8) & 255 == Add((c >> 8) & 255, c & 255)
  {
  }

  lemma FoldTwice(t: bv64)
    requires t & 0xe0e0_e0e0_e0e0_e0e0 == 0
    ensures Up16(t) & 0xc0c0_c0c0_c0c0_c0c0 == 0 && Up16(t) >> 56 == Add(t >> 56, (t >> 40) & 255)
    ensures (Up16(t) >> 24) & 255 == Add((t >> 24) & 255, (t >> 8) & 255)
  {
  }

  lemma FoldLast(t: bv64)
    requires t & 0xc0c0_c0c0_c0c0_c0c0 == 0
    ensures Up32(t) >> 56 == Add(t >> 56, (t >> 24) & 255)
  {
  }

  lemma ByteTreeIsSum(c: bv64)
    requires c & 0xf0f0_f0f0_f0f0_f0f0 == 0
    ensures Val(ByteTree(c)) == EightBits(c, 8)
  {
    hide Val, Add;
    Unrolled(c);
    BytesBelow16(c);
    SumOfEight(c >> 56, (c >> 48) & 255, (c >> 40) & 255, (c >> 32) & 255, (c >> 24) & 255, (c >> 16) & 255,
               (c >> 8) & 255, c & 255);
  }

  lemma SumOfEight(a: bv64, b: bv64, c: bv64, d: bv64, e: bv64, f: bv64, g: bv64, h: bv64)
    requires Val(a) + Val(b) + Val(c) + Val(d) + Val(e) + Val(f) + Val(g) + Val(h) <= 510
    ensures Val(Add(Add(Add(a, b), Add(c, d)), Add(Add(e, f), Add(g, h))))
         == Val(a) + Val(b) + Val(c) + Val(d) + Val(e) + Val(f) + Val(g) + Val(h)
  {
    hide Val, Add;
    AddSmall(a, b);
    AddSmall(c, d);
    AddSmall(e, f);
    AddSmall(g, h);
    AddSmall(Add(a, b), Add(c, d));
    AddSmall(Add(e, f), Add(g, h));
    AddSmall(Add(Add(a, b), Add(c, d)), Add(Add(e, f), Add(g, h)));
  }

  lemma BytesBelow16(c: bv64)
    requires c & 0xf0f0_f0f0_f0f0_f0f0 == 0
    ensures Val(c >> 56) <= 15 && Val((c >> 48) & 255) <= 15 && Val((c >> 40) & 255) <= 15 && Val((c >> 32) & 255) <= 15
    ensures Val((c >> 24) & 255) <= 15 && Val((c >> 16) & 255) <= 15 && Val((c >> 8) & 255) <= 15 && Val(c & 255) <= 15
  {
    assert c >> 56 <= 15 && (c >> 48) & 255 <= 15 && (c >> 40) & 255 <= 15 && (c >> 32) & 255 <= 15;
    assert (c >> 24) & 255 <= 15 && (c >> 16) & 255 <= 15 && (c >> 8) & 255 <= 15 && c & 255 <= 15;
  }

  lemma ByteShifts(c: bv64)
    ensures (c >> 8) >> 8 == c >> 16 && (c >> 16) >> 8 == c >> 24 && (c >> 24) >> 8 == c >> 32
    ensures (c >> 32) >> 8 == c >> 40
    ensures (c >> 40) >> 8 == c >> 48 && (c >> 48) >> 8 == c >> 56 && (c >> 56) & 255 == c >> 56
  {
  }

  lemma Unrolled(c: bv64)
    ensures EightBits(c, 8) == Val(c & 255) + Val((c >> 8) & 255) + Val((c >> 16) & 255) + Val((c >> 24) & 255)
                             + Val((c >> 32) & 255) + Val((c >> 40) & 255) + Val((c >> 48) & 255) + Val(c >> 56)
  {
    hide Val, EightBits;
    FourFields(c, 4);
    FourFields(c >> 32, 0);
    ByteShifts(c);
    FirstFieldsOfHalf(c);
  }

  lemma FirstFieldsOfHalf(c: bv64)
    ensures ((c >> 32) >> 8) & 255 == (c >> 40) & 255
    ensures ((c >> 32) >> 16) & 255 == (c >> 48) & 255 && ((c >> 32) >> 24) & 255 == c >> 56
  {
  }

  lemma FourFields(c: bv64, n: nat)
    ensures EightBits(c, n + 4)
              == Val(c & 255) + Val((c >> 8) & 255) + Val((c >> 16) & 255) + Val((c >> 24) & 255)
                  + EightBits(c >> 32, n)
    ensures EightBits(c >> 32, 0) == 0
  {
    hide Val;
    ByteShifts(c);
    assert EightBits(c >> 24, n + 1) == Val((c >> 24) & 255) + EightBits((c >> 24) >> 8, n);
    assert EightBits(c >> 16, n + 2) == Val((c >> 16) & 255) + EightBits((c >> 16) >> 8, n + 1);
    assert EightBits(c >> 8, n + 3) == Val((c >> 8) & 255) + EightBits((c >> 8) >> 8, n + 2);
  }

  /** The three steps make the eight bytes hold the numbers of ones in the eight bytes of v. */
  lemma Folded(v: bv64)
    ensures var c := FoldBytes(FoldNibbles(FoldPairs(v)));
            c & 0xf0f0_f0f0_f0f0_f0f0 == 0 && EightBits(c, 8) == Ones(v, 64)
  {
    hide FoldPairs, FoldNibbles, FoldBytes, Pairs, Nibbles, Bytes, EightBits, FourBits, TwoBits, Ones, Add;
    var a := Pairs(v);
    var b := Nibbles(a);
    FoldPairsAdds(v);
    FoldNibblesAdds(a);
    NibblesSmall(a);
    FoldBytesAdds(b);
    BytesField(b);
    BytesSum(b, 8);
    NibblesSum(a, 16);
    PairsSum(v, 32);
  }

  /** bit_weight counts all 64 bits, whatever the sign of its argument. */
  lemma BitWeightCounts(v: bv64)
    ensures Val(BitWeight(v)) == Ones(v, 64)
  {
    hide FoldPairs, FoldNibbles, FoldBytes, AddBytes, EightBits, Ones, Val, ByteTree;
    var c := FoldBytes(FoldNibbles(FoldPairs(v)));
    Folded(v);
    TopByte(c);
    ByteTreeIsSum(c);
  }
}
