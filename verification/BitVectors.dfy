/** util/bit_vector.h and util/bit_vector.cc: booleans packed into 64-bit words. */
module BitVectors {
  import opened Words

  /** The bit at a position of a vector of words. */
  predicate BitAt(words: seq<nat>, pos: nat)
    requires pos / BITS < |words|
  {
    Bit(words[pos / BITS], pos % BITS)
  }

  /** `size` bits fill the words but for a tail that is zero. */
  ghost predicate Packed(words: seq<nat>, size: nat) {
    && |words| == (size + BITS - 1) / BITS
    && (forall i :: 0 <= i < |words| ==> IsWord(words[i]))
    && (forall pos: nat :: size <= pos < BITS * |words| ==> !BitAt(words, pos))
  }

  /** The booleans that the words stand for. */
  ghost function Unpacked(words: seq<nat>, size: nat): (bits: seq<bool>)
    requires |words| == (size + BITS - 1) / BITS
    ensures |bits| == size && forall pos :: 0 <= pos < size ==> (bits[pos] <==> BitAt(words, pos))
  {
    seq(size, pos requires 0 <= pos < size => BitAt(words, pos))
  }

  /** Two packed vectors with the same booleans are the same words: nothing else is stored. */
  lemma PackedIsUnique(u: seq<nat>, v: seq<nat>, size: nat)
    requires Packed(u, size) && Packed(v, size) && Unpacked(u, size) == Unpacked(v, size)
    ensures u == v
  {
    forall i | 0 <= i < |u|
      ensures u[i] == v[i]
    {
      forall k: nat | k < BITS
        ensures Bit(u[i], k) <==> Bit(v[i], k)
      {
        var pos := BITS * i + k;
        assert pos / BITS == i && pos % BITS == k;
        assert BitAt(u, pos) <==> BitAt(v, pos) by {
          if pos < size {
            assert Unpacked(u, size)[pos] == Unpacked(v, size)[pos];
          }
        }
      }
      SameBits(u[i], v[i], BITS);
    }
  }

  lemma {:induction false} SameBits(x: nat, y: nat, m: nat)
    requires x < Pow2(m) && y < Pow2(m)
    requires forall k: nat :: k < m ==> (Bit(x, k) <==> Bit(y, k))
    ensures x == y
    decreases m
  {
    if m > 0 {
      assert Bit(x, 0) <==> Bit(y, 0);
      forall k: nat | k < m - 1
        ensures Bit(x / 2, k) <==> Bit(y / 2, k)
      {
        assert Bit(x, k + 1) <==> Bit(y, k + 1);
      }
      SameBits(x / 2, y / 2, m - 1);
    }
  }

  /** One word's bit is changed; all other positions keep theirs. */
  lemma UpdateOneBit(words: seq<nat>, size: nat, pos: nat, w: nat, value: bool)
    requires Packed(words, size) && pos < size && IsWord(w)
    requires forall k: nat :: k < BITS ==> (Bit(w, k) <==> if k == pos % BITS then value else Bit(words[pos / BITS], k))
    ensures Packed(words[pos / BITS := w], size)
    ensures Unpacked(words[pos / BITS := w], size) == Unpacked(words, size)[pos := value]
  {
    var words' := words[pos / BITS := w];
    forall p: nat | p < BITS * |words|
      ensures BitAt(words', p) <==> if p == pos then value else BitAt(words, p)
    {
      assert p == BITS * (p / BITS) + p % BITS && pos == BITS * (pos / BITS) + pos % BITS;
    }
  }

  class BitVector {
    var words: seq<nat>
    var size: nat

    ghost predicate Valid()
      reads this
    {
      Packed(words, size)
    }

    ghost function Contents(): seq<bool>
      requires Valid()
      reads this
    {
      Unpacked(words, size)
    }

    constructor (size: nat, fill: bool)
      ensures Valid() && Contents() == seq(size, _ => fill)
    {
      this.size := 0;
      this.words := [];
      new;
      Resize(size, fill);
    }

    method Resize(size: nat, fill: bool)
      modifies this
      ensures Valid() && Contents() == seq(size, _ => fill)
    {
      this.size := size;
      var count := (size + BITS - 1) / BITS;
      words := seq(count, _ => if fill then Not(0) else 0);
      if fill && size % BITS != 0 {
        var last := |words| - 1;
        words := words[last := And(words[last], Pow2(size % BITS) - 1)];
      }
      FilledIsPacked(words, size, fill);
    }

    method Set(pos: nat)
      requires Valid() && pos < size
      modifies this
      ensures Valid() && size == old(size)
      ensures Contents() == old(Contents())[pos := true]
    {
      var w := words[pos / BITS];
      SetBit(w, pos % BITS);
      UpdateOneBit(words, size, pos, Or(w, Pow2(pos % BITS)), true);
      words := words[pos / BITS := Or(w, Pow2(pos % BITS))];
    }

    method Clear(pos: nat)
      requires Valid() && pos < size
      modifies this
      ensures Valid() && size == old(size)
      ensures Contents() == old(Contents())[pos := false]
    {
      var w := words[pos / BITS];
      ClearBit(w, pos % BITS);
      Pow2Grows(pos % BITS, BITS);
      UpdateOneBit(words, size, pos, And(w, Not(Pow2(pos % BITS))), false);
      words := words[pos / BITS := And(w, Not(Pow2(pos % BITS)))];
    }

    method IsSet(pos: nat) returns (isSet: bool)
      requires Valid() && pos < size
      ensures isSet == Contents()[pos]
    {
      isSet := Bit(words[pos / BITS], pos % BITS);
    }

    /** The least set position, or the size if there is none. */
    method FindFirstSet() returns (pos: nat)
      requires Valid()
      ensures pos <= size
      ensures pos < size ==> Contents()[pos]
      ensures forall p :: 0 <= p < pos ==> !Contents()[p]
    {
      for i := 0 to |words|
        invariant forall p: nat :: p < BITS * i ==> !BitAt(words, p)
      {
        if words[i] != 0 {
          var first := i * BITS + CountTrailingZeros(words[i]);
          pos := if first < size then first else size;
          FirstInWord(words, i);
          return;
        }
        ZeroWord(words, i);
      }
      return size;
    }
  }

  lemma SetBit(w: nat, m: nat)
    requires IsWord(w) && m < BITS
    ensures IsWord(Or(w, Pow2(m)))
    ensures forall k: nat :: k < BITS ==> (Bit(Or(w, Pow2(m)), k) <==> if k == m then true else Bit(w, k))
  {
    Pow2Grows(m, BITS);
    OrIsBounded(w, Pow2(m), BITS);
    forall k: nat | k < BITS
      ensures Bit(Or(w, Pow2(m)), k) <==> if k == m then true else Bit(w, k)
    {
      BitOfOr(w, Pow2(m), k);
      BitOfPow2(m, k);
    }
  }

  lemma ClearBit(w: nat, m: nat)
    requires IsWord(w) && m < BITS
    ensures IsWord(Pow2(m)) && IsWord(And(w, Not(Pow2(m))))
    ensures forall k: nat :: k < BITS ==> (Bit(And(w, Not(Pow2(m))), k) <==> if k == m then false else Bit(w, k))
  {
    Pow2Grows(m, BITS);
    AndIsBounded(w, Not(Pow2(m)));
    forall k: nat | k < BITS
      ensures Bit(And(w, Not(Pow2(m))), k) <==> if k == m then false else Bit(w, k)
    {
      BitOfAnd(w, Not(Pow2(m)), k);
      BitOfComplement(Pow2(m), BITS, k);
      BitOfPow2(m, k);
    }
  }

  /** The words that Resize makes are packed and stand for `size` times the fill. */
  lemma FilledIsPacked(words: seq<nat>, size: nat, fill: bool)
    requires |words| == (size + BITS - 1) / BITS
    requires forall i :: 0 <= i < |words| ==> words[i] == FilledWord(size, i, fill)
    ensures Packed(words, size) && Unpacked(words, size) == seq(size, _ => fill)
  {
    forall i | 0 <= i < |words|
      ensures IsWord(words[i])
    {
      AndIsBounded(Not(0), Pow2(size % BITS) - 1);
    }
    forall pos: nat | pos < BITS * |words|
      ensures BitAt(words, pos) <==> fill && pos < size
    {
      FilledBit(size, pos, fill);
    }
  }

  ghost function FilledWord(size: nat, i: nat, fill: bool): nat {
    if !fill then 0
    else if size % BITS != 0 && i == (size + BITS - 1) / BITS - 1 then And(Not(0), Pow2(size % BITS) - 1)
    else Not(0)
  }

  lemma FilledBit(size: nat, pos: nat, fill: bool)
    requires pos / BITS < (size + BITS - 1) / BITS
    ensures Bit(FilledWord(size, pos / BITS, fill), pos % BITS) <==> fill && pos < size
  {
    FullBit(pos % BITS);
    MaskedBit(size % BITS, pos % BITS);
    BeforeTheEnd(size, pos);
  }

  lemma FullBit(k: nat)
    requires k < BITS
    ensures Bit(Not(0), k) && !Bit(0, k)
  {
    BitOfZero(k);
    BitOfComplement(0, BITS, k);
  }

  lemma MaskedBit(m: nat, k: nat)
    requires k < BITS
    ensures Bit(And(Not(0), Pow2(m) - 1), k) <==> k < m
  {
    FullBit(k);
    BitOfAnd(Not(0), Pow2(m) - 1, k);
    BitOfMask(m, k);
  }

  /** Whether a position of some word lies before the end depends only on the last word. */
  lemma BeforeTheEnd(size: nat, pos: nat)
    requires pos / BITS < (size + BITS - 1) / BITS
    ensures pos < size <==>
              (size % BITS != 0 && pos / BITS == (size + BITS - 1) / BITS - 1 ==> pos % BITS < size % BITS)
  {
  }

  lemma FirstInWord(words: seq<nat>, i: nat)
    requires i < |words| && words[i] != 0 && IsWord(words[i])
    requires forall p: nat :: p < BITS * i ==> !BitAt(words, p)
    ensures var pos := i * BITS + CountTrailingZeros(words[i]);
            && pos < BITS * |words|
            && BitAt(words, pos)
            && forall p: nat :: p < pos ==> !BitAt(words, p)
  {
    TrailingZeros(words[i]);
    TrailingZerosInWord(words[i]);
    var pos := i * BITS + CountTrailingZeros(words[i]);
    assert pos / BITS == i && pos % BITS == CountTrailingZeros(words[i]);
    forall p: nat | p < pos
      ensures !BitAt(words, p)
    {
      if p >= BITS * i {
        assert p / BITS == i && p % BITS == p - BITS * i;
      }
    }
  }

  lemma ZeroWord(words: seq<nat>, i: nat)
    requires i < |words| && words[i] == 0
    requires forall p: nat :: p < BITS * i ==> !BitAt(words, p)
    ensures forall p: nat :: p < BITS * (i + 1) ==> !BitAt(words, p)
  {
    forall p: nat | p < BITS * (i + 1)
      ensures !BitAt(words, p)
    {
      if p >= BITS * i {
        BitOfZero(p % BITS);
      }
    }
  }
}
