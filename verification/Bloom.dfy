/** The classes BloomFilter and CountingBloomFilter of packages/bloom/src/index.ts, with their packed arrays.

    Bit i lives in bit i % 32 of word i / 32, counter i in one half of byte i / 2. The two hash functions are arbitrary
    functions, and so are the sizes that are computed in floating point. */
module Bloom {
  import opened Common
  import opened BloomCounts

  type Hash = string -> nat

  /** Probe k of an item falls on (index + k * bit) % bits. */
  function DoubleHashing(bits: nat, hashFunctions: nat, hash1: Hash, hash2: Hash): (s: Shape)
    requires bits > 0
    ensures s.bits == bits && s.hashFunctions == hashFunctions
    ensures forall item: string, k: nat :: s.probe(item, k) == (hash1(item) % bits + k * (hash2(item) % bits)) % bits
  {
    Layout(bits, hashFunctions, (item, k) => (hash1(item) % bits + k * (hash2(item) % bits)) % bits)
  }

  /** optimalBits and optimalHashFunctions. */
  datatype Sizing = Sizing(bits: (real, real) -> nat, hashFunctions: (real, real) -> nat)

  const DEFAULT_RATE: real := 0.01

  predicate Accepts(expectedItems: real, rate: real) {
    expectedItems > 0.0 && 0.0 < rate < 1.0
  }

  /** Every filter that can be constructed gets at least one bit. */
  ghost predicate Positive(sizing: Sizing) {
    forall n, p :: Accepts(n, p) ==> sizing.bits(n, p) > 0
  }

  /** What constructing a filter comes to: one of two errors, or the filter. */
  datatype Construction<+F> = ItemsNotPositive | RateOutOfRange | Built(filter: F)

  function Shaped(sizing: Sizing, expectedItems: real, rate: real, hash1: Hash, hash2: Hash): Shape
    requires Positive(sizing) && Accepts(expectedItems, rate)
  {
    DoubleHashing(sizing.bits(expectedItems, rate), sizing.hashFunctions(expectedItems, rate), hash1, hash2)
  }

  // ---------------------------------------------------------------- packed words

  function Mask(k: nat): bv32
    requires k < 32
  {
    (1 as bv32) << k
  }

  predicate Test(word: bv32, mask: bv32) { word & mask != 0 }

  lemma OrOther(word: bv32, a: bv32, b: bv32)
    requires a & b == 0
    ensures Test(word | a, b) <==> Test(word, b)
  {
  }

  lemma AndNotOther(word: bv32, a: bv32, b: bv32)
    requires a & b == 0
    ensures Test(word & !a, b) <==> Test(word, b)
  {
  }

  lemma SetBit(word: bv32, mask: bv32, k: nat, j: nat)
    requires k < 32 && j < 32 && mask == Mask(k)
    ensures Test(word | mask, Mask(j)) <==> j == k || Test(word, Mask(j))
  {
    if j != k {
      OrOther(word, mask, Mask(j));
    }
  }

  lemma ClearBit(word: bv32, mask: bv32, k: nat, j: nat)
    requires k < 32 && j < 32 && mask == Mask(k)
    ensures Test(word & !mask, Mask(j)) <==> j != k && Test(word, Mask(j))
  {
    if j != k {
      AndNotOther(word, mask, Mask(j));
    }
  }

  /** word is was with bit k replaced. */
  predicate BitSetTo(was: bv32, word: bv32, k: nat, value: bool) {
    forall j: nat :: j < 32 ==> (Test(word, Mask(j)) <==> if j == k then value else Test(was, Mask(j)))
  }

  lemma SetWord(was: bv32, mask: bv32, k: nat)
    requires k < 32 && mask == Mask(k)
    ensures BitSetTo(was, was | mask, k, true)
  {
    forall j: nat | j < 32 ensures Test(was | mask, Mask(j)) <==> j == k || Test(was, Mask(j)) {
      SetBit(was, mask, k, j);
    }
  }

  lemma ClearWord(was: bv32, mask: bv32, k: nat)
    requires k < 32 && mask == Mask(k)
    ensures BitSetTo(was, was & !mask, k, false)
  {
    forall j: nat | j < 32 ensures Test(was & !mask, Mask(j)) <==> j != k && Test(was, Mask(j)) {
      ClearBit(was, mask, k, j);
    }
  }

  function Nibble(byte: bv8, high: bool): bv8 {
    if high then (byte >> 4) & 0x0f else byte & 0x0f
  }

  function WithNibble(byte: bv8, high: bool, value: bv8): bv8 {
    if high then (byte & 0x0f) | ((value & 0x0f) << 4) else (byte & 0xf0) | (value & 0x0f)
  }

  lemma NibbleOfWith(byte: bv8, high: bool, value: bv8, other: bool)
    requires value <= 15
    ensures Nibble(WithNibble(byte, high, value), other) == if other == high then value else Nibble(byte, other)
  {
  }

  // ---------------------------------------------------------------- packed arrays

  /** As many words as hold the bits, and as many bytes as hold the counters, and no more. */
  function Words(bits: nat): (n: nat)
    ensures bits <= 32 * n < bits + 32
  {
    (bits + 31) / 32
  }

  function Bytes(bits: nat): (n: nat)
    ensures bits <= 2 * n < bits + 2
  {
    (bits + 1) / 2
  }

  predicate BitAt(data: seq<bv32>, i: nat)
    requires i / 32 < |data|
  {
    Test(data[i / 32], Mask(i % 32))
  }

  function CounterAt(counters: seq<bv8>, i: nat): nat
    requires i / 2 < |counters|
  {
    Nibble(counters[i / 2], i % 2 == 0) as nat
  }

  lemma CounterAtWith(counters: seq<bv8>, i: nat, value: bv8, j: nat)
    requires i / 2 < |counters| && j / 2 < |counters| && value <= 15
    ensures CounterAt(counters[i / 2 := WithNibble(counters[i / 2], i % 2 == 0, value)], j)
         == if j == i then value as nat else CounterAt(counters, j)
  {
    NibbleOfWith(counters[i / 2], i % 2 == 0, value, j % 2 == 0);
  }

  /** The counters, unpacked. */
  function Unpack(counters: seq<bv8>, bits: nat): (r: seq<nat>)
    requires Bytes(bits) <= |counters|
    ensures |r| == bits && forall i: nat :: i < bits ==> r[i] == CounterAt(counters, i)
  {
    seq(bits, i requires 0 <= i < bits => CounterAt(counters, i))
  }

  /** A bit is set exactly where the counter is not zero. */
  ghost predicate Linked(data: seq<bv32>, counters: seq<bv8>, bits: nat)
    requires Words(bits) <= |data| && Bytes(bits) <= |counters|
  {
    forall i: nat :: i < bits ==> (BitAt(data, i) <==> CounterAt(counters, i) != 0)
  }

  // ---------------------------------------------------------------- the plain filter

  /** The bits, unpacked. */
  function UnpackBits(data: seq<bv32>, bits: nat): (r: seq<bool>)
    requires Words(bits) <= |data|
    ensures |r| == bits && forall i: nat :: i < bits ==> (r[i] <==> BitAt(data, i))
  {
    seq(bits, i requires 0 <= i < bits => BitAt(data, i))
  }

  class BloomFilter {
    const shape: Shape
    const data: array<bv32>
    var size: int

    ghost predicate Valid()
      reads this, data
    {
      data.Length == Words(shape.bits)
    }

    ghost function Bits(): (r: seq<bool>)
      requires Valid()
      reads this, data
      ensures |r| == shape.bits
    {
      UnpackBits(data[..], shape.bits)
    }

    constructor (bits: nat, hashFunctions: nat, hash1: Hash, hash2: Hash)
      requires bits > 0
      ensures Valid() && shape == DoubleHashing(bits, hashFunctions, hash1, hash2) && fresh(data) && size == 0
      ensures Bits() == seq(shape.bits, _ => false)
    {
      shape := DoubleHashing(bits, hashFunctions, hash1, hash2);
      data := new bv32[Words(bits)](_ => 0);
      size := 0;
    }

    method Add(item: string)
      requires Valid()
      modifies this`size, data
      ensures Valid() && Bits() == SetProbes(shape, old(Bits()), item, shape.hashFunctions) && size == old(size) + 1
    {
      ghost var bits := Bits();
      for i := 0 to shape.hashFunctions
        invariant Valid() && size == old(size) && Bits() == SetProbes(shape, bits, item, i)
      {
        var bitIndex := Probe(shape, item, i);
        var mask := Mask(bitIndex % 32);
        ghost var before := data[..];
        SetWord(data[bitIndex / 32], mask, bitIndex % 32);
        data[bitIndex / 32] := data[bitIndex / 32] | mask;
        UnpackUpdate(before, data[..], shape.bits, bitIndex);
      }
      size := size + 1;
    }

    method Has(item: string) returns (r: bool)
      requires Valid()
      ensures r == AllProbesSet(shape, Bits(), item)
    {
      for i := 0 to shape.hashFunctions
        invariant forall k :: 0 <= k < i ==> Bits()[Probe(shape, item, k)]
      {
        var bitIndex := Probe(shape, item, i);
        if !Test(data[bitIndex / 32], Mask(bitIndex % 32)) {
          assert !Bits()[bitIndex];
          return false;
        }
      }
      return true;
    }
  }

  /** new BloomFilter(expectedItems, falsePositiveRate) */
  method NewBloomFilter(sizing: Sizing, expectedItems: real, falsePositiveRate: Option<real>, hash1: Hash, hash2: Hash)
      returns (r: Construction<BloomFilter>)
    requires Positive(sizing)
    ensures r.ItemsNotPositive? <==> expectedItems <= 0.0
    ensures var rate := if falsePositiveRate.Some? then falsePositiveRate.value else 0.01;
      && (r.RateOutOfRange? <==> expectedItems > 0.0 && (rate <= 0.0 || rate >= 1.0))
      && (r.Built? ==> r.filter.Valid() && fresh(r.filter) && fresh(r.filter.data) && r.filter.size == 0
                       && r.filter.shape == Shaped(sizing, expectedItems, rate, hash1, hash2)
                       && r.filter.Bits() == seq(r.filter.shape.bits, _ => false))
  {
    var rate := if falsePositiveRate.Some? then falsePositiveRate.value else DEFAULT_RATE;
    if expectedItems <= 0.0 {
      return ItemsNotPositive;
    }
    if rate <= 0.0 || rate >= 1.0 {
      return RateOutOfRange;
    }
    var filter := new BloomFilter(sizing.bits(expectedItems, rate), sizing.hashFunctions(expectedItems, rate),
      hash1, hash2);
    return Built(filter);
  }

  lemma UnpackUpdate(data: seq<bv32>, data': seq<bv32>, bits: nat, i: nat)
    requires |data| == |data'| == Words(bits) && i < bits
    requires BitSetTo(data[i / 32], data'[i / 32], i % 32, true) && data' == data[i / 32 := data'[i / 32]]
    ensures UnpackBits(data', bits) == UnpackBits(data, bits)[i := true]
  {
    forall j: nat | j < bits ensures UnpackBits(data', bits)[j] == UnpackBits(data, bits)[i := true][j] {
    }
  }

  // ---------------------------------------------------------------- the counting filter

  datatype Serialized =
    Serialized(bits: nat, hashFunctions: nat, size: int, data: seq<bv32>, countingData: Option<seq<bv8>>)

  /** The counters a restored filter gets: those recorded, or those of the filter it was made from. */
  function RestoredCounters(s: Serialized, dummyBytes: nat): seq<bv8> {
    if s.countingData.Some? then s.countingData.value else seq(dummyBytes, _ => 0)
  }

  /** The record is one that a filter could have written. */
  ghost predicate Consistent(s: Serialized, dummyBytes: nat) {
    var counters := RestoredCounters(s, dummyBytes);
    |s.data| == Words(s.bits) && |counters| == Bytes(s.bits) && Linked(s.data, counters, s.bits)
  }

  class CountingBloomFilter {
    const shape: Shape
    const data: array<bv32>
    const counters: array<bv8>
    var size: int

    ghost predicate Valid()
      reads this, data, counters
    {
      && data.Length == Words(shape.bits) && counters.Length == Bytes(shape.bits)
      && Linked(data[..], counters[..], shape.bits)
    }

    ghost function Counts(): (r: seq<nat>)
      requires Valid()
      reads this, data, counters
      ensures |r| == shape.bits
    {
      Unpack(counters[..], shape.bits)
    }

    constructor (bits: nat, hashFunctions: nat, hash1: Hash, hash2: Hash)
      requires bits > 0
      ensures Valid() && shape == DoubleHashing(bits, hashFunctions, hash1, hash2) && fresh(data)
        && fresh(counters) && size == 0
      ensures Counts() == seq(shape.bits, _ => 0)
    {
      shape := DoubleHashing(bits, hashFunctions, hash1, hash2);
      data := new bv32[Words(bits)](_ => 0);
      counters := new bv8[Bytes(bits)](_ => 0);
      size := 0;
    }

    /** A filter restored from s, whatever it records. dummyBytes is the number of counter bytes of the filter for one
        item that deserialize starts from. */
    constructor Deserialize(s: Serialized, dummyBytes: nat, hash1: Hash, hash2: Hash)
      requires s.bits > 0
      ensures shape == DoubleHashing(s.bits, s.hashFunctions, hash1, hash2) && fresh(data) && fresh(counters)
      ensures size == s.size && data[..] == s.data && counters[..] == RestoredCounters(s, dummyBytes)
      ensures if s.countingData.Some? then counters[..] == s.countingData.value
              else counters.Length == dummyBytes && forall i :: 0 <= i < dummyBytes ==> counters[i] == 0
      ensures Valid() <==> Consistent(s, dummyBytes)
      ensures Valid() ==> Counts() == Unpack(RestoredCounters(s, dummyBytes), s.bits)
    {
      shape := DoubleHashing(s.bits, s.hashFunctions, hash1, hash2);
      data := new bv32[|s.data|](i requires 0 <= i < |s.data| => s.data[i]);
      var restored := RestoredCounters(s, dummyBytes);
      counters := new bv8[|restored|](i requires 0 <= i < |restored| => restored[i]);
      size := s.size;
      new;
      assert data[..] == s.data && counters[..] == restored;
    }

    method Serialize() returns (s: Serialized)
      requires Valid()
      ensures s == Serialized(shape.bits, shape.hashFunctions, size, data[..], Some(counters[..]))
      ensures forall dummyBytes :: Consistent(s, dummyBytes)
    {
      s := Serialized(shape.bits, shape.hashFunctions, size, data[..], Some(counters[..]));
    }

    method Add(item: string)
      requires Valid()
      modifies this`size, data, counters
      ensures Valid() && Counts() == Next(shape, old(Counts()), Op.Add(item)) && size == old(size) + 1
    {
      ghost var counts := Counts();
      for i := 0 to shape.hashFunctions
        invariant Valid() && size == old(size) && Counts() == AddProbes(shape, counts, item, i)
      {
        IncrementCounter(Probe(shape, item, i));
      }
      size := size + 1;
    }

    method Remove(item: string) returns (removed: bool)
      requires Valid()
      modifies this`size, data, counters
      ensures Valid() && Counts() == Next(shape, old(Counts()), Op.Remove(item))
      ensures removed == MightContain(shape, old(Counts()), item) && size == old(size) - (if removed then 1 else 0)
    {
      var contained := Has(item);
      if !contained {
        return false;
      }
      DecrementProbes(item);
      size := size - 1;
      return true;
    }

    /** The loop of remove. */
    method DecrementProbes(item: string)
      requires Valid()
      modifies data, counters
      ensures Valid() && Counts() == RemoveProbes(shape, old(Counts()), item, shape.hashFunctions)
    {
      ghost var counts := Counts();
      for i := 0 to shape.hashFunctions
        invariant Valid() && Counts() == RemoveProbes(shape, counts, item, i)
      {
        DecrementCounter(Probe(shape, item, i));
      }
    }

    /** Looks at the bits only. */
    method Has(item: string) returns (r: bool)
      requires Valid()
      ensures r == MightContain(shape, Counts(), item)
    {
      for i := 0 to shape.hashFunctions
        invariant forall k :: 0 <= k < i ==> Counts()[Probe(shape, item, k)] != 0
      {
        var bitIndex := Probe(shape, item, i);
        assert BitAt(data[..], bitIndex) <==> CounterAt(counters[..], bitIndex) != 0;
        if !Test(data[bitIndex / 32], Mask(bitIndex % 32)) {
          return false;
        }
      }
      return true;
    }

    method IncrementCounter(bitIndex: nat)
      requires Valid() && bitIndex < shape.bits
      modifies data, counters
      ensures Valid() && Counts() == Increment(old(Counts()), bitIndex)
    {
      var byteIndex := bitIndex / 2;
      var isHighNibble := bitIndex % 2 == 0;
      var currentValue := Nibble(counters[byteIndex], isHighNibble);
      ghost var data0, counters0 := data[..], counters[..];
      if currentValue < 15 {
        counters[byteIndex] := WithNibble(counters[byteIndex], isHighNibble, currentValue + 1);
      }
      var mask := Mask(bitIndex % 32);
      SetWord(data[bitIndex / 32], mask, bitIndex % 32);
      data[bitIndex / 32] := data[bitIndex / 32] | mask;
      Incremented(data0, counters0, data[..], counters[..], shape.bits, bitIndex);
    }

    method DecrementCounter(bitIndex: nat)
      requires Valid() && bitIndex < shape.bits
      modifies data, counters
      ensures Valid() && Counts() == Decrement(old(Counts()), bitIndex)
    {
      var byteIndex := bitIndex / 2;
      var isHighNibble := bitIndex % 2 == 0;
      var currentValue := Nibble(counters[byteIndex], isHighNibble);
      ghost var data0, counters0 := data[..], counters[..];
      if currentValue > 0 {
        counters[byteIndex] := WithNibble(counters[byteIndex], isHighNibble, currentValue - 1);
        if currentValue - 1 == 0 {
          var mask := Mask(bitIndex % 32);
          ClearWord(data[bitIndex / 32], mask, bitIndex % 32);
          data[bitIndex / 32] := data[bitIndex / 32] & !mask;
        }
      }
      Decremented(data0, counters0, data[..], counters[..], shape.bits, bitIndex);
    }
  }

  lemma Incremented(data: seq<bv32>, counters: seq<bv8>, data': seq<bv32>, counters': seq<bv8>, bits: nat, i: nat)
    requires |data| == Words(bits) && |counters| == Bytes(bits) && i < bits && Linked(data, counters, bits)
    requires |data'| == |data| && BitSetTo(data[i / 32], data'[i / 32], i % 32, true)
      && data' == data[i / 32 := data'[i / 32]]
    requires var value := Nibble(counters[i / 2], i % 2 == 0);
      counters' == if value < 15
        then counters[i / 2 := WithNibble(counters[i / 2], i % 2 == 0, value + 1)] else counters
    ensures Linked(data', counters', bits) && Unpack(counters', bits) == Increment(Unpack(counters, bits), i)
  {
    var value := Nibble(counters[i / 2], i % 2 == 0);
    forall j: nat | j < bits
      ensures BitAt(data', j) <==> CounterAt(counters', j) != 0
      ensures CounterAt(counters', j) == Increment(Unpack(counters, bits), i)[j]
    {
      assert BitAt(data, j) <==> CounterAt(counters, j) != 0;
      if value < 15 {
        CounterAtWith(counters, i, value + 1, j);
      }
    }
  }

  lemma Decremented(data: seq<bv32>, counters: seq<bv8>, data': seq<bv32>, counters': seq<bv8>, bits: nat, i: nat)
    requires |data| == Words(bits) && |counters| == Bytes(bits) && i < bits && Linked(data, counters, bits)
    requires var value := Nibble(counters[i / 2], i % 2 == 0);
      && (if value == 1
          then |data'| == |data| && BitSetTo(data[i / 32], data'[i / 32], i % 32, false)
               && data' == data[i / 32 := data'[i / 32]]
          else data' == data)
      && counters' == if value > 0
                      then counters[i / 2 := WithNibble(counters[i / 2], i % 2 == 0, value - 1)] else counters
    ensures Linked(data', counters', bits) && Unpack(counters', bits) == Decrement(Unpack(counters, bits), i)
  {
    var value := Nibble(counters[i / 2], i % 2 == 0);
    forall j: nat | j < bits
      ensures BitAt(data', j) <==> CounterAt(counters', j) != 0
      ensures CounterAt(counters', j) == Decrement(Unpack(counters, bits), i)[j]
    {
      if value > 0 {
        CounterAtWith(counters, i, value - 1, j);
      }
    }
  }

  /** A filter restored from its serialized form is a separate object with the same probes, counters and size, so it
      answers every query and follows every operation as the original does. hash1 and hash2 are the program's two hash
      functions. */
  method Copy(
      filter: CountingBloomFilter, dummyBytes: nat, hash1: Hash, hash2: Hash) returns (copy: CountingBloomFilter)
    requires filter.Valid() && filter.shape
      == DoubleHashing(filter.shape.bits, filter.shape.hashFunctions, hash1, hash2)
    ensures copy.Valid() && fresh(copy) && fresh(copy.data) && fresh(copy.counters)
    ensures copy.shape == filter.shape && copy.Counts() == filter.Counts() && copy.size == filter.size
  {
    var s := filter.Serialize();
    assert Consistent(s, dummyBytes);
    copy := new CountingBloomFilter.Deserialize(s, dummyBytes, hash1, hash2);
  }

  /** new CountingBloomFilter(expectedItems, falsePositiveRate) */
  method NewCountingBloomFilter(
      sizing: Sizing, expectedItems: real, falsePositiveRate: Option<real>, hash1: Hash, hash2: Hash)
      returns (r: Construction<CountingBloomFilter>)
    requires Positive(sizing)
    ensures r.ItemsNotPositive? <==> expectedItems <= 0.0
    ensures var rate := if falsePositiveRate.Some? then falsePositiveRate.value else 0.01;
      && (r.RateOutOfRange? <==> expectedItems > 0.0 && (rate <= 0.0 || rate >= 1.0))
      && (r.Built? ==> r.filter.Valid() && fresh(r.filter) && fresh(r.filter.data) && fresh(r.filter.counters)
                       && r.filter.size == 0 && r.filter.shape == Shaped(sizing, expectedItems, rate, hash1, hash2)
                       && r.filter.Counts() == seq(r.filter.shape.bits, _ => 0))
  {
    var rate := if falsePositiveRate.Some? then falsePositiveRate.value else DEFAULT_RATE;
    if expectedItems <= 0.0 {
      return ItemsNotPositive;
    }
    if rate <= 0.0 || rate >= 1.0 {
      return RateOutOfRange;
    }
    var filter := new CountingBloomFilter(
      sizing.bits(expectedItems, rate), sizing.hashFunctions(expectedItems, rate), hash1, hash2);
    return Built(filter);
  }

  // ---------------------------------------------------------------- the filters in terms of the two hashes

  /** Where probe k of item falls. */
  function Place(bits: nat, hash1: Hash, hash2: Hash, item: string, k: nat): nat
    requires bits > 0
  {
    (hash1(item) % bits + k * (hash2(item) % bits)) % bits
  }

  /** A plain filter answers true if and only if every probe of the item falls where a probe of some added item fell. */
  lemma HasIff(bits: nat, hashFunctions: nat, hash1: Hash, hash2: Hash, items: seq<string>, item: string)
    requires bits > 0
    ensures var shape := DoubleHashing(bits, hashFunctions, hash1, hash2);
      AllProbesSet(shape, BitsAfter(shape, items), item)
      <==> (forall k: nat :: k < hashFunctions ==>
              exists y: string, j: nat ::
                y in items && j < hashFunctions &&
                Place(bits, hash1, hash2, item, k) == Place(bits, hash1, hash2, y, j))
  {
    var shape := DoubleHashing(bits, hashFunctions, hash1, hash2);
    forall y: string, j: nat ensures Probe(shape, y, j) == Place(bits, hash1, hash2, y, j) {
      assert shape.probe(y, j) == (hash1(y) % bits + j * (hash2(y) % bits)) % bits;
    }
    forall k: nat | k < hashFunctions
      ensures BitsAfter(shape, items)[Probe(shape, item, k)]
          <==> exists y: string, j: nat ::
                 y in items && j < hashFunctions &&
                 Place(bits, hash1, hash2, item, k) == Place(bits, hash1, hash2, y, j)
    {
      BitIff(shape, items, Probe(shape, item, k));
    }
  }

  lemma BitIff(shape: Shape, items: seq<string>, i: nat)
    requires i < shape.bits
    ensures BitsAfter(shape, items)[i]
        <==> exists y: string, j: nat :: y in items && j < shape.hashFunctions && i == Probe(shape, y, j)
  {
    BitsAreLoads(shape, items, i);
    LoadsAreLoadSet(shape, items, i);
    var falls := LoadSet(shape, items, i);
    if falls != {} {
      var at :| at in falls;
      assert items[at.0] in items && i == Probe(shape, items[at.0], at.1);
    }
    if y: string, j: nat :| y in items && j < shape.hashFunctions && i == Probe(shape, y, j) {
      var a :| 0 <= a < |items| && items[a] == y;
      assert (a, j) in falls;
    }
  }

  /** The load of position i is the number of probes, counted by item and probe number, that fall there. */
  lemma LoadIs(bits: nat, hashFunctions: nat, hash1: Hash, hash2: Hash, items: seq<string>, i: nat)
    requires bits > 0
    ensures Load(DoubleHashing(bits, hashFunctions, hash1, hash2), items, i)
         == |set a: nat, j: nat | a < |items| && j < hashFunctions && Place(bits, hash1, hash2, items[a], j) == i
               :: (a, j)|
  {
    var shape := DoubleHashing(bits, hashFunctions, hash1, hash2);
    LoadsAreLoadSet(shape, items, i);
    assert LoadSet(shape, items, i)
        == set a: nat, j: nat | a < |items| && j < hashFunctions && Place(bits, hash1, hash2, items[a], j) == i
             :: (a, j);
  }
}
