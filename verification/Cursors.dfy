/** The cursor with which the radix tree walks the bits of a network: a single
    set bit, moved right through the current 64-bit word, and the index of that
    word (NRadix.cpp). */
module Cursors {
  import opened Words
  import opened Addresses

  datatype Cursor = Cursor(bit: Word, p: nat, i: nat)

  const START: Cursor := Cursor(OneHot(0), 0, 0)

  /** One step: shift, and on leaving a word count it and move to the next one.
      After 128 bits the bit stays zero, which ends every walk. */
  function Advance(c: Cursor, bits: nat): Cursor {
    var bit := Shr(c.bit, 1);
    if !IsZero(bit) then c.(bit := bit)
    else if c.i + 1 >= 2 then Cursor(bit, c.p, c.i + 1)
    else Cursor(OneHot(0), if bits >= 64 then c.p + 1 else c.p, c.i + 1)
  }

  /** `net_mask_array`: the bits that belong to the network. */
  function NetMaskWord(bits: nat, p: nat): Word
    requires bits <= 128 && p < 2
  {
    if bits < 64 then (if p == 0 then HighMask(bits) else ZERO)
    else if bits == 128 then ALL
    else if p == 0 then ALL
    else HighMask(bits % 64)
  }

  predicate InsideMask(c: Cursor, bits: nat)
    requires bits <= 128 && c.p < 2
  {
    !IsZero(And(NetMaskWord(bits, c.p), c.bit))
  }

  predicate GoRight(c: Cursor, address: Address)
    requires c.p < 2
  {
    !IsZero(And(address.WordAt(c.p), c.bit))
  }

  /** The cursor stands on bit `d` of the address. */
  ghost predicate At(c: Cursor, d: nat) {
    if d < 64 then c == Cursor(OneHot(d), 0, 0)
    else if d < 128 then c == Cursor(OneHot(d - 64), 1, 1)
    else d == 128 && c.p < 2 && IsZero(c.bit)
  }

  lemma AdvanceMoves(c: Cursor, bits: nat, d: nat)
    requires At(c, d) && d < bits <= 128
    ensures At(Advance(c, bits), d + 1)
  {
    OneHotShifts(if d < 64 then d else d - 64);
  }

  lemma GuardTells(c: Cursor, bits: nat, d: nat)
    requires At(c, d) && d <= bits <= 128
    ensures InsideMask(c, bits) <==> d < bits
  {
    if d < 128 {
      TestBit(NetMaskWord(bits, c.p), if d < 64 then d else d - 64);
      HighMaskBits(bits % 64);
    } else {
      AndAt(NetMaskWord(bits, c.p), c.bit);
    }
  }

  lemma DirectionTells(c: Cursor, a: Address, d: nat)
    requires At(c, d) && d < 128
    ensures GoRight(c, a) <==> a.Bits()[d]
  {
    TestBit(a.WordAt(c.p), if d < 64 then d else d - 64);
  }

  // ----- the cursor operations as the loops use them

  method Inside(c: Cursor, bits: nat, ghost d: nat) returns (inside: bool)
    requires At(c, d) && d <= bits <= 128
    ensures inside <==> d < bits
  {
    GuardTells(c, bits, d);
    inside := InsideMask(c, bits);
  }

  method TurnsRight(c: Cursor, a: Address, ghost d: nat) returns (right: bool)
    requires At(c, d) && d < 128
    ensures right == a.Bits()[d]
  {
    DirectionTells(c, a, d);
    right := GoRight(c, a);
  }

  method Exhausted(c: Cursor, ghost d: nat) returns (b: bool)
    requires At(c, d)
    ensures b <==> d == 128
  {
    if d < 128 {
      assert OneHot(if d < 64 then d else d - 64)[if d < 64 then d else d - 64];
    }
    b := IsZero(c.bit);
  }

  method Moved(c: Cursor, bits: nat, ghost d: nat) returns (next: Cursor)
    requires At(c, d) && d < bits <= 128
    ensures At(next, d + 1)
  {
    AdvanceMoves(c, bits, d);
    next := Advance(c, bits);
  }
}
