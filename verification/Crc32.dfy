/** ns_crc32: a table, and the division of polynomials it stands for. */
module Crc32 {
  import opened Basics
  import opened CrcTable

  // ---- Words ----

  function Xor(a: bv32, b: bv32): bv32 {
    a ^ b
  }

  function Half(a: bv32): bv32 {
    a >> 1
  }

  function BitOf(b: bool): bv32 {
    if b then 1 else 0
  }

  predicate Odd(a: bv32) {
    a & 1 == 1
  }

  lemma BitCases(a: bv32, b: bv32)
    ensures Odd(Xor(a, b)) <==> Odd(a) != Odd(b)
  {
  }

  lemma XorCancels(x: bv32, y: bv32, p: bv32)
    ensures Xor(Xor(x, p), Xor(y, p)) == Xor(x, y) && Xor(x, 0) == x
  {
  }

  lemma XorRegroups(x: bv32, y: bv32, p: bv32)
    ensures Xor(Xor(x, p), y) == Xor(Xor(x, y), p)
  {
  }

  lemma XorAssociates(x: bv32, y: bv32, p: bv32)
    ensures Xor(x, Xor(y, p)) == Xor(Xor(x, y), p)
  {
  }

  lemma HalfLinear(x: bv32, y: bv32)
    ensures Half(Xor(x, y)) == Xor(Half(x), Half(y))
  {
  }

  lemma StepCases(r: bv32)
    ensures Step(r) == if Odd(r) then Xor(Half(r), CRCPOLY) else Half(r)
  {
  }

  /** Division is linear. */
  lemma StepLinear(a: bv32, b: bv32)
    ensures Step(Xor(a, b)) == Xor(Step(a), Step(b))
  {
    hide Step, Xor, Half, Odd;
    BitCases(a, b);
    HalfLinear(a, b);
    XorCancels(Half(a), Half(b), CRCPOLY);
    XorRegroups(Half(a), Half(b), CRCPOLY);
    XorAssociates(Half(a), Half(b), CRCPOLY);
    StepCases(a);
    StepCases(b);
    StepCases(Xor(a, b));
  }

  lemma Steps8Linear(a: bv32, b: bv32)
    ensures Steps8(Xor(a, b)) == Xor(Steps8(a), Steps8(b))
  {
    hide Step, Xor;
    var a1, b1 := Step(a), Step(b);
    var a2, b2 := Step(a1), Step(b1);
    var a3, b3 := Step(a2), Step(b2);
    var a4, b4 := Step(a3), Step(b3);
    var a5, b5 := Step(a4), Step(b4);
    var a6, b6 := Step(a5), Step(b5);
    StepLinear(a, b);
    StepLinear(a1, b1);
    StepLinear(a2, b2);
    StepLinear(a3, b3);
    StepLinear(a4, b4);
    StepLinear(a5, b5);
    StepLinear(a6, b6);
    StepLinear(Step(a6), Step(b6));
  }

  // ---- The checksum by definition ----

  /** The n lowest bits of a word, lowest first. */
  function LowBits(c: bv32, n: nat): seq<bool> {
    if n == 0 then [] else [Odd(c)] + LowBits(Half(c), n - 1)
  }

  /** A message as a stream of bits, the lowest bit of each byte first. */
  function Bits(s: seq<byte>): seq<bool> {
    if s == [] then [] else LowBits(Wide(s[0]), 8) + Bits(s[1..])
  }

  function Wide(b: byte): bv32 {
    b as bv8 as bv32
  }

  /** The remainder after bringing down the bits one by one. */
  function Divide(r: bv32, bits: seq<bool>): bv32
    decreases |bits|
  {
    if bits == [] then r else Divide(Step(Xor(r, BitOf(bits[0]))), bits[1..])
  }

  /** The complement of the remainder of the whole stream. */
  function Checksum(s: seq<byte>): bv32 {
    !Divide(CRC_MASK, Bits(s))
  }

  // ---- A byte at a time is a bit at a time ----

  function StepsN(r: bv32, n: nat): bv32
    decreases n
  {
    if n == 0 then r else StepsN(Step(r), n - 1)
  }

  predicate Fits(c: bv32, n: nat)
    decreases n
  {
    if n == 0 then c == 0 else Fits(Half(c), n - 1)
  }

  /** A word is its lowest bit and the rest, which a step just shifts. */
  lemma LowBitApart(c: bv32)
    ensures var even := c & 0xFFFF_FFFE;
      c == Xor(BitOf(Odd(c)), even) && Step(even) == Half(c)
  {
  }

  /** Bringing a bit down, and then the others, is bringing all down at once. */
  lemma BitDown(r: bv32, c: bv32)
    ensures Step(Xor(r, c)) == Xor(Step(Xor(r, BitOf(Odd(c)))), Half(c))
  {
    hide Step, Xor, Half, Odd, BitOf;
    var even := c & 0xFFFF_FFFE;
    LowBitApart(c);
    XorAssociates(r, BitOf(Odd(c)), even);
    StepLinear(Xor(r, BitOf(Odd(c))), even);
  }

  lemma {:induction false} DivideBits(r: bv32, c: bv32, n: nat, rest: seq<bool>)
    requires Fits(c, n)
    ensures Divide(r, LowBits(c, n) + rest) == Divide(StepsN(Xor(r, c), n), rest)
    decreases n
  {
    hide Step, Xor, Half, Odd, BitOf;
    if n == 0 {
      XorCancels(r, c, c);
      assert LowBits(c, n) + rest == rest;
    } else {
      var bits := LowBits(c, n) + rest;
      assert bits[0] == Odd(c) && bits[1..] == LowBits(Half(c), n - 1) + rest;
      BitDown(r, c);
      DivideBits(Step(Xor(r, BitOf(Odd(c)))), Half(c), n - 1, rest);
    }
  }

  lemma EightHalves(b: bv8)
    ensures Half(Half(Half(Half(Half(Half(Half(Half(b as bv32)))))))) == 0
  {
  }

  lemma ByteFits(b: bv8)
    ensures Fits(b as bv32, 8)
  {
    hide Half;
    EightHalves(b);
    var c := b as bv32;
    var c4 := Half(Half(Half(Half(c))));
    assert Fits(Half(Half(Half(Half(c4)))), 0);
    assert Fits(Half(Half(c4)), 2);
    assert Fits(c4, 4);
    assert Fits(Half(Half(c)), 6);
  }

  lemma Steps8IsN(r: bv32)
    ensures StepsN(r, 8) == Steps8(r)
  {
    hide Step;
    var r4 := Step(Step(Step(Step(r))));
    assert StepsN(r4, 4) == StepsN(Step(Step(r4)), 2) == Step(Step(Step(Step(r4))));
    assert StepsN(r, 8) == StepsN(Step(Step(r)), 6) == StepsN(r4, 4);
  }

  function LowByte(x: bv32): bv8 {
    (x & 0xFF) as bv8
  }

  function HighBytes(x: bv32): bv32 {
    x & 0xFFFF_FF00
  }

  function Shift8(x: bv32): bv32 {
    x >> 8
  }

  /** UPDATE_CRC. */
  function Update(crc: bv32, c: bv8): bv32 {
    Xor(TableEntry(LowByte(crc) ^ c), Shift8(crc))
  }

  lemma HighPart(x: bv32)
    ensures Steps8(HighBytes(x)) == Shift8(x)
  {
  }

  lemma Halves(crc: bv32, c: bv8)
    ensures var x := Xor(crc, c as bv32);
      x == Xor((LowByte(crc) ^ c) as bv32, HighBytes(x)) && Shift8(x) == Shift8(crc)
  {
  }

  /** The table's step is eight steps of the division. */
  lemma UpdateRight(crc: bv32, c: bv8)
    ensures Update(crc, c) == Steps8(Xor(crc, c as bv32))
  {
    hide Steps8, TableEntry, Xor, LowByte, HighBytes, Shift8;
    var x := Xor(crc, c as bv32);
    var i := LowByte(crc) ^ c;
    Halves(crc, c);
    TableRight(i);
    HighPart(x);
    Steps8Linear(i as bv32, HighBytes(x));
  }

  /** ns_crc32: going through the table byte by byte gives the checksum of the bit stream. */
  method NsCrc32(buffer: seq<byte>) returns (r: bv32)
    ensures r == Checksum(buffer)
  {
    hide Update, Divide, Bits;
    var crc := CRC_MASK;
    var i := 0;
    assert buffer[0..] == buffer;
    while i < |buffer|
      invariant 0 <= i <= |buffer| && Divide(crc, Bits(buffer[i..])) == Divide(CRC_MASK, Bits(buffer))
    {
      ByteDivided(crc, buffer[i..]);
      assert buffer[i..][1..] == buffer[i + 1..];
      crc := Update(crc, buffer[i] as bv8);
      i := i + 1;
    }
    NothingLeft(crc);
    r := !crc;
  }

  lemma NothingLeft(crc: bv32)
    ensures Divide(crc, Bits([])) == crc
  {
  }

  lemma ByteDivided(crc: bv32, s: seq<byte>)
    requires s != []
    ensures Divide(crc, Bits(s)) == Divide(Update(crc, s[0] as bv8), Bits(s[1..]))
  {
    hide Update, Divide, Steps8, StepsN, Fits, LowBits, Xor;
    ByteFits(s[0] as bv8);
    DivideBits(crc, Wide(s[0]), 8, Bits(s[1..]));
    Steps8IsN(Xor(crc, Wide(s[0])));
    UpdateRight(crc, s[0] as bv8);
  }
}
