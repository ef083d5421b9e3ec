/**
 `CBloomFilter` and `CRollingBloomFilter`. The hash family is a parameter: nothing is assumed
 about it. Sizes are derived over the reals, with the logarithm of the false positive rate
 given. A filter is related to the sequence of keys that it has taken since it was cleared,
 and the rolling pair to the whole history of keys: the two filters are cleared half a
 period apart, so that one of them always holds the most recent keys.
 */
module Bloom {
  import opened Bits
  import opened Powers

  type Key = seq<bv8>

  const LN2SQUARED := 0.4804530139182014246671025263266649717305529515945455
  const LN2 := 0.6931471805599453094172321214581765680755001343602552
  const MAX_BLOOM_FILTER_SIZE: nat := 36000
  const MAX_HASH_FUNCS: nat := 50

  predicate BitIn(data: seq<bv8>, index: nat)
    requires index < 8 * |data|
  {
    Bit(data[index / 8], index % 8)
  }

  function SetBit(data: seq<bv8>, index: nat): (r: seq<bv8>)
    requires index < 8 * |data|
    ensures |r| == |data|
  {
    data[index / 8 := data[index / 8] | Mask(index % 8)]
  }

  lemma {:induction false} SetBitSetsOne(data: seq<bv8>, index: nat, j: nat)
    requires index < 8 * |data| && j < 8 * |data|
    ensures BitIn(SetBit(data, index), j) == (BitIn(data, j) || j == index)
  {
    hide Bit, Mask;
    SetOneBit(data[index / 8], index % 8, j % 8);
  }

  function Zeros(size: nat): (data: seq<bv8>)
    ensures |data| == size
  {
    seq(size, _ => 0)
  }

  /** The hash functions of a filter. A filter without data has none: both sizes come from one number. */
  datatype Hashing = Hashing(size: nat, nHashFuncs: nat, murmurHash: (nat, Key) -> nat) {

    ghost predicate Valid() {
      nHashFuncs > 0 ==> size > 0
    }

    function Hash(nHashNum: nat, key: Key): (index: nat)
      requires size > 0
      ensures index < 8 * size
    {
      murmurHash(nHashNum, key) % (8 * size)
    }

    /** The data after the bits of the first `n` hash functions have been set. */
    function AddBits(data: seq<bv8>, key: Key, n: nat): (r: seq<bv8>)
      requires |data| == size && (n > 0 ==> size > 0)
      ensures |r| == size
    {
      if n == 0 then data else SetBit(AddBits(data, key, n - 1), Hash(n - 1, key))
    }

    /** The data of a filter that has taken these keys since it was cleared. */
    function Filled(keys: seq<Key>): (data: seq<bv8>)
      requires nHashFuncs > 0 ==> size > 0
      ensures |data| == size
    {
      if keys == [] then Zeros(size) else AddBits(Filled(keys[..|keys| - 1]), keys[|keys| - 1], nHashFuncs)
    }

    /** All bits of the key are set. */
    predicate HasBits(data: seq<bv8>, key: Key)
      requires |data| == size && (nHashFuncs > 0 ==> size > 0)
    {
      forall i :: 0 <= i < nHashFuncs ==> BitIn(data, Hash(i, key))
    }

    /** Adding a key clears no bit. */
    lemma {:induction false} BitsStay(data: seq<bv8>, key: Key, n: nat, j: nat)
      requires |data| == size && (n > 0 ==> size > 0) && j < 8 * size && BitIn(data, j)
      ensures BitIn(AddBits(data, key, n), j)
    {
      hide BitIn, SetBit;
      if n > 0 {
        BitsStay(data, key, n - 1, j);
        SetBitSetsOne(AddBits(data, key, n - 1), Hash(n - 1, key), j);
      }
    }

    /** Adding a key sets all its bits. */
    lemma {:induction false} BitsAreSet(data: seq<bv8>, key: Key, n: nat, i: nat)
      requires |data| == size && i < n && size > 0
      ensures BitIn(AddBits(data, key, n), Hash(i, key))
    {
      hide BitIn, SetBit;
      SetBitSetsOne(AddBits(data, key, n - 1), Hash(n - 1, key), Hash(i, key));
      if i < n - 1 {
        BitsAreSet(data, key, n - 1, i);
      }
    }

    /** A clear bit stays clear unless the key is hashed to it. */
    lemma {:induction false} OnlyHashedBits(data: seq<bv8>, key: Key, n: nat, j: nat)
      requires |data| == size && (n > 0 ==> size > 0) && j < 8 * size && !BitIn(data, j)
      requires forall i :: 0 <= i < n ==> Hash(i, key) != j
      ensures !BitIn(AddBits(data, key, n), j)
    {
      hide BitIn, SetBit;
      if n > 0 {
        OnlyHashedBits(data, key, n - 1, j);
        SetBitSetsOne(AddBits(data, key, n - 1), Hash(n - 1, key), j);
      }
    }

    /** A filter has the bits of every key it has taken. */
    lemma {:induction false} TakenKeysAreThere(keys: seq<Key>, key: Key)
      requires Valid() && key in keys
      ensures HasBits(Filled(keys), key)
    {
      hide BitIn, AddBits, Hash;
      var front, last := keys[..|keys| - 1], keys[|keys| - 1];
      if key in front {
        TakenKeysAreThere(front, key);
      }
      forall i | 0 <= i < nHashFuncs ensures BitIn(Filled(keys), Hash(i, key)) {
        if key in front {
          BitsStay(Filled(front), last, nHashFuncs, Hash(i, key));
        } else {
          BitsAreSet(Filled(front), last, nHashFuncs, i);
        }
      }
    }
  }

  // The sizes of a filter, from the number of elements and the logarithm of the rate of false positives.

  /** The ideal number of bits: that many for each element. */
  function IdealBits(nElements: nat, logRate: real): real {
    -1.0 / LN2SQUARED * nElements as real * logRate
  }

  /** What an unsigned word can be converted from: other numbers have no defined result. */
  predicate FitsWord(x: real) { 0.0 <= x < 4294967296.0 }

  function Least(a: nat, b: nat): nat { if a < b then a else b }

  /** Both sizes; `limited` for filters that must respect the limits of the protocol. */
  function Sized(nElements: nat, logRate: real, limited: bool, murmurHash: (nat, Key) -> nat): Hashing
    requires nElements > 0 && FitsWord(IdealBits(nElements, logRate))
  {
    var bits: nat := IdealBits(nElements, logRate).Floor;
    var size := (if limited then Least(bits, MAX_BLOOM_FILTER_SIZE * 8) else bits) / 8;
    var funcs := HashFuncs(size, nElements);
    Hashing(size, if limited then Least(funcs, MAX_HASH_FUNCS) else funcs, murmurHash)
  }

  /** The ideal number of hash functions for a size. */
  function HashFuncs(size: nat, nElements: nat): nat
    requires nElements > 0
  {
    FloorOfScaled(size * 8 / nElements);
    ((size * 8 / nElements) as real * LN2).Floor
  }

  lemma {:induction false} FloorOfScaled(n: nat)
    ensures 0 <= (n as real * LN2).Floor <= n
    ensures n > 0 ==> (n as real * LN2).Floor < n
  {
  }

  /**
   The sizes are right: limited filters respect the limits, a filter has hash functions only if it has data
   for them to point into, and fewer of them than it has bits for each element.
   */
  lemma {:induction false} SizedIsValid(nElements: nat, logRate: real, limited: bool, murmurHash: (nat, Key) -> nat)
    requires nElements > 0 && FitsWord(IdealBits(nElements, logRate))
    ensures var h := Sized(nElements, logRate, limited, murmurHash);
            && h.Valid() && (limited ==> h.size <= MAX_BLOOM_FILTER_SIZE && h.nHashFuncs <= MAX_HASH_FUNCS)
            && (h.nHashFuncs > 0 ==> h.nHashFuncs * nElements < 8 * h.size)
            && (8 * h.size) as real <= IdealBits(nElements, logRate)
            && (!limited || IdealBits(nElements, logRate) < (8 * MAX_BLOOM_FILTER_SIZE) as real ==>
                IdealBits(nElements, logRate) < (8 * h.size + 8) as real)
  {
    hide IdealBits;
    var h := Sized(nElements, logRate, limited, murmurHash);
    var perElement := h.size * 8 / nElements;
    FloorOfScaled(perElement);
    FewerThanBits(h.nHashFuncs, perElement, nElements, 8 * h.size);
  }

  /**
   The filter of the tests, three elements at a rate of one percent, has 3 bytes and 5 hash functions; and the limit of
   size is just enough for 20000 elements at a rate of one in a thousand. The intervals contain the two logarithms.
   */
  lemma {:induction false} KnownSizes(percent: real, perMille: real, murmurHash: (nat, Key) -> nat)
    requires -4.60518 <= percent <= -4.60517 && -6.90776 <= perMille <= -6.90775
    ensures FitsWord(IdealBits(3, percent)) && FitsWord(IdealBits(20000, perMille))
    ensures Sized(3, percent, true, murmurHash) == Hashing(3, 5, murmurHash)
    ensures Sized(20000, perMille, true, murmurHash) == Hashing(35943, 9, murmurHash)
    ensures IdealBits(20000, perMille) < (8 * MAX_BLOOM_FILTER_SIZE) as real < IdealBits(20032, perMille)
  {
    assert 28.75 < IdealBits(3, percent) < 28.76;
    assert 287550.0 < IdealBits(20000, perMille) < 287552.0;
  }

  lemma {:induction false} FewerThanBits(funcs: nat, perElement: nat, nElements: nat, bits: nat)
    requires nElements > 0 && perElement == bits / nElements && (funcs > 0 ==> funcs < perElement)
    ensures funcs > 0 ==> funcs * nElements < bits
  {
    assert bits == nElements * perElement + bits % nElements;
    if funcs > 0 {
      MulMonotone(nElements, funcs + 1, perElement);
      assert nElements * (funcs + 1) == funcs * nElements + nElements;
    }
  }

  class CBloomFilter {
    const h: Hashing
    var vData: seq<bv8>
    var isFull: bool
    var isEmpty: bool

    ghost predicate Valid()
      reads this
    {
      h.Valid() && |vData| == h.size
    }

    /** What the filter answers. */
    ghost predicate Answers(key: Key)
      requires Valid()
      reads this
    {
      isFull || (!isEmpty && h.HasBits(vData, key))
    }

    /** A filter within the limits. It does not pass for empty: without hash functions it answers every question. */
    constructor (nElements: nat, logRate: real, murmurHash: (nat, Key) -> nat)
      requires nElements > 0 && FitsWord(IdealBits(nElements, logRate))
      ensures Valid() && h == Sized(nElements, logRate, true, murmurHash) && IsWithinSizeConstraints()
      ensures vData == Zeros(h.size) && !isFull && !isEmpty && forall key :: Answers(key) <==> h.nHashFuncs == 0
    {
      var sized := Sized(nElements, logRate, true, murmurHash);
      SizedIsValid(nElements, logRate, true, murmurHash);
      h, vData, isFull, isEmpty := sized, Zeros(sized.size), false, false;
      new;
      ZerosHaveNoBits(h);
    }

    /** One of the pair of a rolling filter. */
    constructor Rolling(nElements: nat, logRate: real, murmurHash: (nat, Key) -> nat)
      requires nElements > 0 && FitsWord(IdealBits(nElements, logRate))
      ensures Valid() && h == Sized(nElements, logRate, false, murmurHash)
      ensures vData == Zeros(h.size) && !isFull && isEmpty
    {
      var sized := Sized(nElements, logRate, false, murmurHash);
      SizedIsValid(nElements, logRate, false, murmurHash);
      h, vData, isFull, isEmpty := sized, Zeros(sized.size), false, true;
    }

    static lemma {:induction false} ZerosHaveNoBits(h: Hashing)
      requires h.Valid()
      ensures forall key :: h.HasBits(Zeros(h.size), key) <==> h.nHashFuncs == 0
    {
      hide Bit;
      forall key ensures h.HasBits(Zeros(h.size), key) <==> h.nHashFuncs == 0 {
        if h.nHashFuncs > 0 {
          ZeroHasNoBits(h.Hash(0, key) % 8);
          assert !BitIn(Zeros(h.size), h.Hash(0, key));
        }
      }
    }

    predicate IsWithinSizeConstraints()
      reads this
    {
      |vData| <= MAX_BLOOM_FILTER_SIZE && h.nHashFuncs <= MAX_HASH_FUNCS
    }

    /** Exactly the key's bits are added, unless the filter is full. */
    method Insert(key: Key)
      requires Valid()
      modifies this
      ensures Valid() && isFull == old(isFull)
      ensures isFull ==> vData == old(vData) && isEmpty == old(isEmpty)
      ensures !isFull ==> vData == h.AddBits(old(vData), key, h.nHashFuncs) && !isEmpty
    {
      if isFull {
        return;
      }
      for i := 0 to h.nHashFuncs
        invariant |vData| == h.size && !isFull && vData == h.AddBits(old(vData), key, i)
      {
        var nIndex := h.Hash(i, key);
        vData := vData[nIndex / 8 := vData[nIndex / 8] | Mask(nIndex % 8)];
      }
      isEmpty := false;
    }

    method Contains(key: Key) returns (found: bool)
      requires Valid()
      ensures found == Answers(key)
    {
      if isFull {
        return true;
      }
      if isEmpty {
        return false;
      }
      for i := 0 to h.nHashFuncs
        invariant forall k :: 0 <= k < i ==> BitIn(vData, h.Hash(k, key))
      {
        var nIndex := h.Hash(i, key);
        if !Bit(vData[nIndex / 8], nIndex % 8) {
          return false;
        }
      }
      return true;
    }

    method Clear()
      requires Valid()
      modifies this
      ensures Valid() && vData == Zeros(h.size) && !isFull && isEmpty
    {
      vData, isFull, isEmpty := Zeros(|vData|), false, true;
    }
  }

  /** The last `n` keys of a history, or all of them. */
  function LastOf(history: seq<Key>, n: nat): seq<Key> {
    if n >= |history| then history else history[|history| - n..]
  }

  lemma {:induction false} LastOfPush(history: seq<Key>, n: nat, key: Key)
    ensures LastOf(history + [key], n + 1) == LastOf(history, n) + [key]
    ensures LastOf(history, 0) == []
  {
  }

  lemma {:induction false} LastOfFewer(history: seq<Key>, m: nat, n: nat, key: Key)
    requires m <= n && key in LastOf(history, m)
    ensures key in LastOf(history, n)
  {
  }

  class CRollingBloomFilter {
    const nBloomSize: nat
    var nInsertions: nat
    const b1: CBloomFilter
    const b2: CBloomFilter
    /** The keys inserted since the last clear. */
    ghost var history: seq<Key>

    /** The filter holds exactly the last `n` keys. */
    ghost predicate Holds(b: CBloomFilter, n: nat)
      reads this, b
    {
      var keys := LastOf(history, n);
      b.Valid() && b.vData == b.h.Filled(keys) && !b.isFull && (b.isEmpty <==> keys == [])
    }

    /** How many keys the filters hold: the clears are half a period apart. */
    ghost function Age1(): nat
      reads this
    {
      if nInsertions == 0 then nBloomSize else nInsertions
    }

    ghost function Age2(): nat
      reads this
    {
      var half := nBloomSize / 2;
      if nInsertions > half then nInsertions - half else nInsertions + half
    }

    ghost predicate Valid()
      reads this, b1, b2
    {
      && b1 != b2 && nBloomSize == 2 * (nBloomSize / 2) && nInsertions < nBloomSize
      && Holds(b1, Age1()) && Holds(b2, Age2())
    }

    constructor (nElements: nat, logRate: real, murmurHash: (nat, Key) -> nat)
      requires 0 < nElements && nElements * 2 <= 0xFFFF_FFFF && FitsWord(IdealBits(nElements * 2, logRate))
      ensures Valid() && history == [] && nBloomSize == 2 * nElements && nInsertions == 0 && fresh(b1) && fresh(b2)
    {
      b1 := new CBloomFilter.Rolling(nElements * 2, logRate, murmurHash);
      b2 := new CBloomFilter.Rolling(nElements * 2, logRate, murmurHash);
      nBloomSize, nInsertions, history := nElements * 2, 0, [];
    }

    static method InsertInto(b: CBloomFilter, ghost taken: seq<Key>, vKey: Key)
      requires b.Valid() && b.vData == b.h.Filled(taken) && !b.isFull
      modifies b
      ensures b.Valid() && b.vData == b.h.Filled(taken + [vKey]) && !b.isFull && !b.isEmpty
    {
      b.Insert(vKey);
      assert (taken + [vKey])[..|taken|] == taken;
    }

    /** Both filters take the key; at the turn of its half period a filter starts anew. */
    method Insert(vKey: Key)
      requires Valid()
      modifies this, b1, b2
      ensures Valid() && history == old(history) + [vKey]
      ensures nInsertions == if old(nInsertions) + 1 == nBloomSize then 0 else old(nInsertions) + 1
    {
      hide LastOf, Hashing.Filled, Zeros;
      ghost var half := nBloomSize / 2;
      ghost var age1 := if nInsertions == 0 then 0 else nInsertions;
      ghost var age2 := if nInsertions >= half then nInsertions - half else nInsertions + half;
      LastOfPush(history, age1, vKey);
      LastOfPush(history, age2, vKey);
      LastOfPush(history, 0, vKey);
      NothingFilled(b1.h);
      NothingFilled(b2.h);
      if nInsertions == 0 {
        b1.Clear();
      } else if nInsertions == nBloomSize / 2 {
        b2.Clear();
      }
      InsertInto(b1, LastOf(history, age1), vKey);
      InsertInto(b2, LastOf(history, age2), vKey);
      history := history + [vKey];
      nInsertions := nInsertions + 1;
      if nInsertions == nBloomSize {
        nInsertions := 0;
      }
    }

    static lemma {:induction false} NothingFilled(h: Hashing)
      requires h.Valid()
      ensures h.Filled([]) == Zeros(h.size)
    {
    }

    /**
     The answer is that of the filter that is at least half a period old, so there are no false negatives
     for any of the last `nBloomSize / 2` keys, whatever was inserted before and since.
     */
    method Contains(vKey: Key) returns (found: bool)
      requires Valid()
      ensures found == if nInsertions < nBloomSize / 2 then b2.Answers(vKey) else b1.Answers(vKey)
      ensures vKey in LastOf(history, nBloomSize / 2) ==> found
    {
      if nInsertions < nBloomSize / 2 {
        found := b2.Contains(vKey);
        if vKey in LastOf(history, nBloomSize / 2) {
          LastOfFewer(history, nBloomSize / 2, Age2(), vKey);
          b2.h.TakenKeysAreThere(LastOf(history, Age2()), vKey);
        }
      } else {
        found := b1.Contains(vKey);
        if vKey in LastOf(history, nBloomSize / 2) {
          LastOfFewer(history, nBloomSize / 2, Age1(), vKey);
          b1.h.TakenKeysAreThere(LastOf(history, Age1()), vKey);
        }
      }
    }

    method Clear()
      requires Valid()
      modifies this, b1, b2
      ensures Valid() && history == [] && nInsertions == 0
      ensures forall k :: !b1.Answers(k) && !b2.Answers(k)
    {
      b1.Clear();
      b2.Clear();
      nInsertions, history := 0, [];
    }
  }
}
