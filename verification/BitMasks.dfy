/** Sets of small numbers as arrays of 24-bit words (database-jones/Adapter/common/BitMask.js). */
module BitMasks {
  import opened Options

  const RADIX: nat := 24

  // ---------------------------------------------------------------- words

  /** A word is its bits, the lowest first. */
  type Word = w: seq<bool> | |w| == RADIX witness NONE

  const NONE: seq<bool> :=
    [false, false, false, false, false, false, false, false, false, false, false, false,
     false, false, false, false, false, false, false, false, false, false, false, false]

  const ZERO: Word := NONE

  /** Two to the power of k. */
  function Bit(k: nat): Word
    requires k < RADIX
  {
    ZERO[k := true]
  }

  datatype Op = And | Or | Xor

  predicate Combined(op: Op, x: bool, y: bool) {
    match op
    case And => x && y
    case Or => x || y
    case Xor => x != y
  }

  /** The bitwise operators. */
  function Apply(op: Op, x: Word, y: Word): Word {
    seq(RADIX, k requires 0 <= k < RADIX => Combined(op, x[k], y[k]))
  }

  // ---------------------------------------------------------------- masks as sets

  predicate Contains(mask: seq<Word>, bit: nat) {
    bit / RADIX < |mask| && mask[bit / RADIX][bit % RADIX]
  }

  /** The recorded size covers the words, except that a bit just past the end adds a word
      without changing it. */
  predicate Sized(mask: seq<Word>, size: nat) {
    size == RADIX * |mask| || Stale(mask, size)
  }

  predicate Stale(mask: seq<Word>, size: nat) {
    mask != [] && size == RADIX * (|mask| - 1) && mask[|mask| - 1] == Bit(0)
  }

  function Part(mask: seq<Word>, n: nat): Word {
    if n < |mask| then mask[n] else ZERO
  }

  lemma {:induction false} PartHas(mask: seq<Word>, bit: nat)
    ensures Contains(mask, bit) <==> Part(mask, bit / RADIX)[bit % RADIX]
  {
  }

  lemma {:induction false} LastOfStale(mask: seq<Word>, size: nat, bit: nat)
    requires Sized(mask, size)
    ensures Contains(mask, bit) ==> bit < size || (Stale(mask, size) && bit == size)
    ensures Stale(mask, size) ==> Contains(mask, size)
  {
  }

  function Greater(x: nat, y: nat): nat {
    if x > y then x else y
  }

  /** The result of an operation has every bit it should exactly if the sizes it is given cover the
      words that matter: both for or, the shorter for and; for xor the words past them may cancel. */
  lemma {:induction false} ExactIff(op: Op, a: seq<Word>, sizeA: nat, b: seq<Word>, sizeB: nat)
    requires Sized(a, sizeA) && Sized(b, sizeB)
    ensures var size := Greater(sizeA, sizeB);
            (forall bit: nat :: Combined(op, Contains(a, bit), Contains(b, bit)) ==> bit < size) <==>
              match op
              case Or => RADIX * |a| <= size && RADIX * |b| <= size
              case And => RADIX * |a| <= size || RADIX * |b| <= size
              case Xor => (RADIX * |a| <= size && RADIX * |b| <= size) || |a| == |b|
  {
    var size := Greater(sizeA, sizeB);
    forall bit: nat
      ensures Contains(a, bit) ==> bit < sizeA || (Stale(a, sizeA) && bit == sizeA)
      ensures Contains(b, bit) ==> bit < sizeB || (Stale(b, sizeB) && bit == sizeB)
    {
      LastOfStale(a, sizeA, bit);
      LastOfStale(b, sizeB, bit);
    }
    LastOfStale(a, sizeA, size);
    LastOfStale(b, sizeB, size);
    if Combined(op, Contains(a, size), Contains(b, size)) {
      assert !(forall bit: nat :: Combined(op, Contains(a, bit), Contains(b, bit)) ==> bit < size);
    }
  }

  class BitMask {
    var mask: seq<Word>
    var size: nat

    ghost predicate Valid()
      reads this
    {
      Sized(mask, size)
    }

    /** With no size given, a mask has one word. */
    constructor (size: Option<nat>)
      ensures Valid() && this.size == RADIX * |mask| && forall bit: nat :: !Contains(mask, bit)
      ensures size.Some? ==> size.value <= this.size < size.value + RADIX
      ensures size.None? ==> |mask| == 1
    {
      mask, this.size := [], 0;
      new;
      Grow(match size case Some(n) => n case None => RADIX);
    }

    /** Words are added until the mask has at least this size. */
    method Grow(size: nat)
      modifies this
      ensures this.size == RADIX * |mask| && |old(mask)| <= |mask| && mask[..|old(mask)|] == old(mask)
      ensures forall i :: |old(mask)| <= i < |mask| ==> mask[i] == ZERO
      ensures size <= this.size && (mask == old(mask) || this.size < size + RADIX)
      ensures forall bit: nat :: Contains(mask, bit) <==> Contains(old(mask), bit)
    {
      this.size := |mask| * RADIX;
      var left: int := size - this.size;
      while left > 0
        invariant |old(mask)| <= |mask| && mask[..|old(mask)|] == old(mask)
        invariant forall i :: |old(mask)| <= i < |mask| ==> mask[i] == ZERO
        invariant this.size == RADIX * |mask| && left == size - this.size
        invariant mask == old(mask) || left + RADIX > 0
      {
        mask := mask + [ZERO];
        this.size := this.size + RADIX;
        left := left - RADIX;
      }
      GrownSame(old(mask), mask);
    }

    method Set(bit: nat)
      requires Valid()
      modifies this
      ensures Valid() && forall b: nat :: Contains(mask, b) <==> b == bit || Contains(old(mask), b)
      ensures size == if bit < old(size) then old(size) else RADIX * Greater(|old(mask)|, (bit + RADIX - 1) / RADIX)
      ensures |mask| == Greater(|old(mask)|, bit / RADIX + 1)
    {
      if bit >= size {
        Grow(bit);
      }
      var offset := bit % RADIX;
      var loc := (bit - offset) / RADIX;
      assert loc == bit / RADIX <= |mask|;
      ghost var before := mask;
      if loc < |mask| {
        mask := mask[loc := Apply(Or, mask[loc], Bit(offset))];
        SetInWord(before, bit);
        StillStale(before, size, bit);
      } else {
        mask := mask + [Bit(offset)];
        SetInNewWord(before, bit);
      }
    }

    method BitIsSet(bit: nat) returns (isSet: bool)
      requires Valid()
      modifies this
      ensures Valid() && isSet == Contains(old(mask), bit)
      ensures forall b: nat :: Contains(mask, b) <==> Contains(old(mask), b)
    {
      if bit >= size {
        Grow(bit);
      }
      var offset := bit % RADIX;
      var loc := (bit - offset) / RADIX;
      assert loc == bit / RADIX;
      isSet := Apply(And, Part(mask, loc), Bit(offset)) != ZERO;
      AndBit(Part(mask, loc), offset);
      PartHas(mask, bit);
    }

    method BinaryOp(op: Op, that: BitMask) returns (m: BitMask)
      requires Valid() && that.Valid()
      ensures fresh(m) && m.Valid() && m.size == RADIX * |m.mask| == Greater(size, that.size)
      ensures forall bit: nat :: Contains(m.mask, bit) <==>
                bit < Greater(size, that.size) && Combined(op, Contains(mask, bit), Contains(that.mask, bit))
    {
      m := new BitMask(Some(Greater(size, that.size)));
      for i := 0 to |m.mask|
        invariant m.size == RADIX * |m.mask| == Greater(size, that.size)
        invariant mask == old(mask) && that.mask == old(that.mask)
        invariant forall k :: 0 <= k < i ==> m.mask[k] == Apply(op, Part(mask, k), Part(that.mask, k))
      {
        m.mask := m.mask[i := Apply(op, Part(mask, i), Part(that.mask, i))];
      }
      forall bit: nat
        ensures Contains(m.mask, bit) <==>
                  bit < Greater(size, that.size) && Combined(op, Contains(mask, bit), Contains(that.mask, bit))
      {
        PartHas(mask, bit);
        PartHas(that.mask, bit);
      }
    }

    /** Takes over the union, with its size. */
    method OrWith(that: BitMask)
      requires Valid() && that.Valid()
      modifies this
      ensures Valid() && size == RADIX * |mask| == Greater(old(size), old(that.size))
      ensures forall bit: nat :: Contains(mask, bit) <==>
                bit < Greater(old(size), old(that.size)) && (Contains(old(mask), bit) || Contains(old(that.mask), bit))
    {
      var or := BinaryOp(Or, that);
      size, mask := or.size, or.mask;
    }

    method IsNonZero() returns (nonZero: bool)
      ensures nonZero <==> exists bit: nat :: Contains(mask, bit)
    {
      for i := 0 to |mask|
        invariant forall k :: 0 <= k < i ==> mask[k] == ZERO
      {
        if mask[i] != ZERO {
          NotZero(mask[i]);
          ghost var k :| 0 <= k < RADIX && mask[i][k];
          assert Contains(mask, i * RADIX + k);
          return true;
        }
      }
      return false;
    }

    /** Masks of different lengths are equal if they have the same bits. */
    method IsEqualTo(that: BitMask) returns (equal: bool)
      ensures equal <==> forall bit: nat :: Contains(mask, bit) <==> Contains(that.mask, bit)
    {
      var len := Greater(|mask|, |that.mask|);
      for i := 0 to len
        invariant forall k :: 0 <= k < i ==> Part(mask, k) == Part(that.mask, k)
      {
        if Part(mask, i) != Part(that.mask, i) {
          Differ(mask, that.mask, i);
          return false;
        }
      }
      SameParts(mask, that.mask);
      return true;
    }

    /** Lists the bits in ascending order. */
    method ToArray() returns (list: seq<nat>)
      ensures forall i, j :: 0 <= i < j < |list| ==> list[i] < list[j]
      ensures forall bit: nat :: bit in list <==> Contains(mask, bit)
    {
      list := [];
      var offset := 0;
      for n := 0 to |mask|
        invariant offset == n * RADIX
        invariant forall i, j :: 0 <= i < j < |list| ==> list[i] < list[j]
        invariant forall bit: nat :: bit in list <==> bit < offset && Contains(mask, bit)
      {
        var bits := MaskToIntArray(mask[n], offset);
        forall i, j | 0 <= i < j < |list + bits|
          ensures (list + bits)[i] < (list + bits)[j]
        {
          assert if i < |list| then list[i] in list else bits[i - |list|] in bits;
          assert if j < |list| then list[j] in list else bits[j - |list|] in bits;
        }
        list := list + bits;
        offset := offset + RADIX;
      }
    }

    method MaskToIntArray(word: Word, offset: nat) returns (list: seq<nat>)
      ensures forall i, j :: 0 <= i < j < |list| ==> list[i] < list[j]
      ensures forall bit: nat :: bit in list <==> offset <= bit < offset + RADIX && word[bit - offset]
    {
      list := [];
      var i, rest := 0, word;
      while rest != ZERO
        invariant i <= RADIX && IsRest(rest, word, i) && ListsBits(list, word, offset, i)
        decreases RADIX - i
      {
        var v := Bit(i);
        TakeBit(rest, word, i);
        ListBit(list, word, offset, i);
        if Apply(And, rest, v) != ZERO {
          rest := Apply(Xor, rest, v);
          list := list + [i + offset];
        }
        i := i + 1;
      }
      AllListed(list, word, offset, i);
    }
  }

  /** The bits of the word from i on. */
  predicate IsRest(rest: Word, word: Word, i: nat) {
    forall k :: 0 <= k < RADIX ==> (rest[k] <==> k >= i && word[k])
  }

  predicate ListedAt(list: seq<nat>, word: Word, offset: nat, i: nat, bit: nat)
    requires i <= RADIX
  {
    bit in list <==> offset <= bit < offset + i && word[bit - offset]
  }

  /** The first i bits of the word in ascending order. */
  ghost predicate ListsBits(list: seq<nat>, word: Word, offset: nat, i: nat)
    requires i <= RADIX
  {
    && (forall k, j :: 0 <= k < j < |list| ==> list[k] < list[j])
    && (forall bit: nat {:trigger ListedAt(list, word, offset, i, bit)} :: ListedAt(list, word, offset, i, bit))
  }

  lemma {:induction false} TakeBit(rest: Word, word: Word, i: nat)
    requires i <= RADIX && IsRest(rest, word, i) && rest != ZERO
    ensures i < RADIX && (Apply(And, rest, Bit(i)) != ZERO <==> word[i])
    ensures IsRest(if word[i] then Apply(Xor, rest, Bit(i)) else rest, word, i + 1)
  {
    NotZero(rest);
    AndBit(rest, i);
  }

  lemma {:induction false} ListBit(list: seq<nat>, word: Word, offset: nat, i: nat)
    requires i < RADIX && ListsBits(list, word, offset, i)
    ensures ListsBits(if word[i] then list + [i + offset] else list, word, offset, i + 1)
  {
    var after, n := if word[i] then list + [i + offset] else list, i + 1;
    forall bit: nat
      ensures ListedAt(after, word, offset, n, bit)
    {
      assert ListedAt(list, word, offset, i, bit);
    }
    forall k | 0 <= k < |list|
      ensures list[k] < i + offset
    {
      assert ListedAt(list, word, offset, i, list[k]);
    }
  }

  lemma {:induction false} AllListed(list: seq<nat>, word: Word, offset: nat, i: nat)
    requires i <= RADIX && ListsBits(list, word, offset, i) && IsRest(ZERO, word, i)
    ensures forall k, j :: 0 <= k < j < |list| ==> list[k] < list[j]
    ensures forall bit: nat :: bit in list <==> offset <= bit < offset + RADIX && word[bit - offset]
  {
    forall bit: nat
      ensures bit in list <==> offset <= bit < offset + RADIX && word[bit - offset]
    {
      assert ListedAt(list, word, offset, i, bit);
      assert offset + i <= bit < offset + RADIX ==> !ZERO[bit - offset];
    }
  }

  lemma {:induction false} GrownSame(before: seq<Word>, after: seq<Word>)
    requires |before| <= |after| && after[..|before|] == before && forall i :: |before| <= i < |after| ==>
               after[i] == ZERO
    ensures forall bit: nat :: Contains(after, bit) <==> Contains(before, bit)
  {
    forall bit: nat
      ensures Contains(after, bit) <==> Contains(before, bit)
    {
      assert bit / RADIX < |before| ==> after[bit / RADIX] == after[..|before|][bit / RADIX];
    }
  }

  lemma {:induction false} SetInWord(mask: seq<Word>, bit: nat)
    requires bit / RADIX < |mask|
    ensures var after := mask[bit / RADIX := Apply(Or, mask[bit / RADIX], Bit(bit % RADIX))];
            forall b: nat :: Contains(after, b) <==> b == bit || Contains(mask, b)
  {
    var after := mask[bit / RADIX := Apply(Or, mask[bit / RADIX], Bit(bit % RADIX))];
    forall b: nat
      ensures Contains(after, b) <==> b == bit || Contains(mask, b)
    {
    }
  }

  lemma {:induction false} SetInNewWord(mask: seq<Word>, bit: nat)
    requires bit / RADIX == |mask|
    ensures forall b: nat :: Contains(mask + [Bit(bit % RADIX)], b) <==> b == bit || Contains(mask, b)
  {
    forall b: nat
      ensures Contains(mask + [Bit(bit % RADIX)], b) <==> b == bit || Contains(mask, b)
    {
    }
  }

  /** A bit below the size is not in the last word of a stale mask. */
  lemma {:induction false} StillStale(mask: seq<Word>, size: nat, bit: nat)
    requires Sized(mask, size) && bit < size
    ensures bit / RADIX < |mask|
    ensures Sized(mask[bit / RADIX := Apply(Or, mask[bit / RADIX], Bit(bit % RADIX))], size)
  {
  }

  lemma {:induction false} NotZero(w: Word)
    ensures w != ZERO <==> exists k :: 0 <= k < RADIX && w[k]
  {
  }

  /** Testing a bit. */
  lemma {:induction false} AndBit(w: Word, k: nat)
    requires k < RADIX
    ensures Apply(And, w, Bit(k)) != ZERO <==> w[k]
  {
    NotZero(Apply(And, w, Bit(k)));
    assert w[k] ==> Apply(And, w, Bit(k))[k];
  }

  lemma {:induction false} Differ(a: seq<Word>, b: seq<Word>, i: nat)
    requires Part(a, i) != Part(b, i)
    ensures exists bit: nat :: Contains(a, bit) != Contains(b, bit)
  {
    var k :| 0 <= k < RADIX && Part(a, i)[k] != Part(b, i)[k];
    PartHas(a, i * RADIX + k);
    PartHas(b, i * RADIX + k);
  }

  lemma {:induction false} SameParts(a: seq<Word>, b: seq<Word>)
    requires forall k :: 0 <= k < Greater(|a|, |b|) ==> Part(a, k) == Part(b, k)
    ensures forall bit: nat :: Contains(a, bit) <==> Contains(b, bit)
  {
    forall bit: nat
      ensures Contains(a, bit) <==> Contains(b, bit)
    {
      PartHas(a, bit);
      PartHas(b, bit);
      assert Part(a, bit / RADIX) == Part(b, bit / RADIX);
    }
  }
}
