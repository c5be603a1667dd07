/** 64-bit machine words as 64 bits, most significant first, with the bitwise
    operations the network code performs on them.  Words are always in host
    order: the byte swaps of the C++ code (ntohll, htonll) only move between
    this order and the wire. */
module Words {

  type Byte = b: int | 0 <= b < 256

  type Word = s: seq<bool> | |s| == 64 witness Fill(64, false)

  function Fill(n: nat, b: bool): (s: seq<bool>)
    ensures |s| == n && forall i :: 0 <= i < n ==> s[i] == b
  {
    seq(n, _ => b)
  }

  function AndBits(x: seq<bool>, y: seq<bool>): (r: seq<bool>)
    requires |x| == |y|
    ensures |r| == |x|
  {
    if x == [] then [] else [x[0] && y[0]] + AndBits(x[1..], y[1..])
  }

  lemma {:induction false} AndBitsAt(x: seq<bool>, y: seq<bool>, i: nat)
    requires |x| == |y| && i < |x|
    ensures AndBits(x, y)[i] == (x[i] && y[i])
  {
    if i > 0 {
      AndBitsAt(x[1..], y[1..], i - 1);
    }
  }

  function NotBits(x: seq<bool>): (r: seq<bool>)
    ensures |r| == |x|
  {
    if x == [] then [] else [!x[0]] + NotBits(x[1..])
  }

  lemma {:induction false} NotBitsAt(x: seq<bool>, i: nat)
    requires i < |x|
    ensures NotBits(x)[i] == !x[i]
  {
    if i > 0 {
      NotBitsAt(x[1..], i - 1);
    }
  }

  const ZERO: Word := Fill(64, false)
  const ALL: Word := Fill(64, true)

  function And(x: Word, y: Word): Word {
    AndBits(x, y)
  }

  function Not(x: Word): Word {
    NotBits(x)
  }

  /** Logical shift towards the least significant bit. */
  function Shr(x: Word, n: nat): Word
    requires n <= 64
  {
    Fill(n, false) + x[..64 - n]
  }

  predicate IsZero(x: Word) {
    forall i :: 0 <= i < 64 ==> !x[i]
  }

  /** The word whose only set bit is the one with index `j` from the top; for
      `j == 64` the bit has been shifted out. */
  function OneHot(j: nat): Word
    requires j <= 64
  {
    Shr([true] + Fill(63, false), j)
  }

  /** `~(~0 >> n)`: the mask of the `n` top bits. */
  function HighMask(n: nat): Word
    requires n <= 64
  {
    Not(Shr(ALL, n))
  }

  lemma AndAt(x: Word, y: Word)
    ensures forall i :: 0 <= i < 64 ==> And(x, y)[i] == (x[i] && y[i])
  {
    forall i | 0 <= i < 64 ensures And(x, y)[i] == (x[i] && y[i]) {
      AndBitsAt(x, y, i);
    }
  }

  lemma TestBit(x: Word, j: nat)
    requires j < 64
    ensures IsZero(And(x, OneHot(j))) <==> !x[j]
  {
    AndAt(x, OneHot(j));
    assert And(x, OneHot(j))[j] == x[j];
  }

  lemma OneHotShifts(j: nat)
    requires j < 64
    ensures Shr(OneHot(j), 1) == OneHot(j + 1)
    ensures IsZero(OneHot(j + 1)) <==> j == 63
  {
    if j < 63 {
      assert OneHot(j + 1)[j + 1];
    }
  }

  lemma HighMaskBits(n: nat)
    requires n <= 64
    ensures forall i :: 0 <= i < 64 ==> (HighMask(n)[i] <==> i < n)
  {
    forall i | 0 <= i < 64 ensures HighMask(n)[i] <==> i < n {
      NotBitsAt(Shr(ALL, n), i);
    }
  }

  lemma FullMasks(x: Word)
    ensures And(x, HighMask(64)) == x && And(x, HighMask(0)) == ZERO
  {
    HighMaskBits(0);
    HighMaskBits(64);
    AndAt(x, HighMask(0));
    AndAt(x, HighMask(64));
  }

  /** Two words agree under the mask of their top bits iff those bits agree. */
  lemma MaskedEqual(x: Word, y: Word, n: nat)
    requires n <= 64
    ensures And(x, HighMask(n)) == And(y, HighMask(n)) <==> x[..n] == y[..n]
  {
    HighMaskBits(n);
    AndAt(x, HighMask(n));
    AndAt(y, HighMask(n));
    var mx, my := And(x, HighMask(n)), And(y, HighMask(n));
    if mx == my {
      forall i | 0 <= i < n ensures x[..n][i] == y[..n][i] {
        assert mx[i] == my[i];
      }
    }
    if x[..n] == y[..n] {
      forall i | 0 <= i < 64 ensures mx[i] == my[i] {
        if i < n {
          assert x[..n][i] == y[..n][i];
        }
      }
    }
  }
}
