/** The Bloom payload of one basket: buffered and streaming construction, the
    serialized form, and the probe. The two hash rounds are parameters. */
module Bloom {
  import opened Numbers

  const TWO64: int := U64_MAX + 1
  const HEADER_SIZE: int := 24
  const MAGIC: seq<Byte> := [0x52, 0x34, 0x42, 0x46]
  const VERSION: Byte := 1

  type Byte = x: int | 0 <= x < 256

  /** `bits` hashes the bit pattern of a double; `second` derives the probe step from that hash. */
  datatype Hashing = Hashing(bits: Num -> u64, second: u64 -> u64)

  /** Both zeros are hashed as the positive one. */
  function CanonicalHash(h: Hashing, v: Num): u64 {
    h.bits(if IsFinite(v) && Real(v) == 0.0 then Fin(0.0) else v)
  }

  lemma {:induction false} EqualValuesHashAlike(h: Hashing, v: Num, w: Num)
    requires IsFinite(v) && IsFinite(w) && Real(v) == Real(w)
    ensures CanonicalHash(h, v) == CanonicalHash(h, w)
  {
  }

  // ----- Bits of a payload -----

  function Mask(k: int): bv8 {
    if k == 0 then 1 else if k == 1 then 2 else if k == 2 then 4 else if k == 3 then 8
    else if k == 4 then 16 else if k == 5 then 32 else if k == 6 then 64 else 128
  }

  predicate BitSet(b: bv8, k: int) {
    b & Mask(k) != 0
  }

  predicate HasBit(x: Byte, k: int) {
    BitSet(x as bv8, k)
  }

  function WithBit(x: Byte, k: int): Byte {
    ((x as bv8) | Mask(k)) as int
  }

  lemma {:induction false} BackToBits(b: bv8)
    ensures (b as int) as bv8 == b
  {
  }

  lemma {:induction false} MaskOr(y: bv8, x: bv8, k: int, j: int)
    requires 0 <= k < 8 && 0 <= j < 8 && y == x | Mask(k)
    ensures BitSet(y, j) <==> j == k || BitSet(x, j)
  {
  }

  lemma {:induction false} WithBitAdds(x: Byte, k: int, j: int)
    requires 0 <= k < 8 && 0 <= j < 8
    ensures HasBit(WithBit(x, k), j) <==> j == k || HasBit(x, j)
  {
    BackToBits((x as bv8) | Mask(k));
    MaskOr(WithBit(x, k) as bv8, x as bv8, k, j);
  }

  predicate TestBit(payload: seq<Byte>, bit: int) {
    0 <= bit < 8 * |payload| && HasBit(payload[bit / 8], bit % 8)
  }

  function SetBit(payload: seq<Byte>, bit: int): seq<Byte>
    requires 0 <= bit < 8 * |payload|
  {
    payload[bit / 8 := WithBit(payload[bit / 8], bit % 8)]
  }

  lemma {:induction false} SetBitAdds(payload: seq<Byte>, bit: int, other: int)
    requires 0 <= bit < 8 * |payload|
    ensures TestBit(SetBit(payload, bit), other) <==> other == bit || TestBit(payload, other)
  {
    if 0 <= other < 8 * |payload| && other / 8 == bit / 8 {
      WithBitAdds(payload[bit / 8], bit % 8, other % 8);
    }
  }

  /** The second hash with its lowest bit set. */
  function Odd(n: u64): (r: u64)
    ensures r % 2 == 1
  {
    if n % 2 == 0 then n + 1 else n
  }

  /** A 64-bit sum, cut to a bit of the payload. */
  function Wrap(n: nat, bitCount: nat): (bit: nat)
    requires bitCount > 0
    ensures bit < bitCount
  {
    n % TWO64 % bitCount
  }

  /** The i-th probe of a hash; the sum wraps at 64 bits before the modulus. */
  function BitIndex(h: Hashing, hash: u64, i: int, bitCount: int): (bit: int)
    requires i >= 0 && bitCount > 0
    ensures 0 <= bit < bitCount
  {
    Wrap(hash + i * Odd(h.second(hash)), bitCount)
  }

  lemma {:induction false} EvenModulus(n: nat, m: nat)
    requires m > 0 && m % 2 == 0
    ensures n % m % 2 == n % 2
  {
    assert n == m * (n / m) + n % m;
    assert m * (n / m) == 2 * ((m / 2) * (n / m));
  }

  lemma {:induction false} WrapKeepsParity(n: nat, bitCount: nat)
    requires bitCount > 0 && bitCount % 2 == 0
    ensures Wrap(n, bitCount) % 2 == n % 2
  {
    EvenModulus(n, TWO64);
    EvenModulus(n % TWO64, bitCount);
  }

  lemma {:induction false} WrappedApart(a: nat, step: nat, bitCount: nat)
    requires bitCount > 0 && bitCount % 2 == 0 && step % 2 == 1
    ensures Wrap(a, bitCount) != Wrap(a + step, bitCount)
  {
    WrapKeepsParity(a, bitCount);
    WrapKeepsParity(a + step, bitCount);
  }

  lemma {:induction false} NextMultiple(i: nat, step: nat)
    ensures (i + 1) * step == i * step + step
  {
  }

  /** Successive probes of a hash never fall on the same bit: every payload has an even number of bits. */
  lemma {:induction false} SuccessiveProbesDiffer(h: Hashing, hash: u64, i: nat, bitCount: nat)
    requires bitCount > 0 && bitCount % 2 == 0
    ensures BitIndex(h, hash, i, bitCount) != BitIndex(h, hash, i + 1, bitCount)
  {
    NextMultiple(i, Odd(h.second(hash)));
    WrappedApart(hash + i * Odd(h.second(hash)), Odd(h.second(hash)), bitCount);
  }

  predicate Probed(h: Hashing, hash: u64, count: int, bitCount: int, bit: int)
    requires bitCount > 0
  {
    exists i :: 0 <= i < count && BitIndex(h, hash, i, bitCount) == bit
  }

  /** Sets exactly the probe bits of one hash and clears none. */
  method SetBloomBits(payload: seq<Byte>, h: Hashing, hash: u64, count: nat) returns (out: seq<Byte>)
    requires |payload| > 0
    ensures |out| == |payload|
    ensures forall bit :: TestBit(out, bit) <==> TestBit(payload, bit) || Probed(h, hash, count, 8 * |payload|, bit)
  {
    out := payload;
    var bitCount := 8 * |payload|;
    for i := 0 to count
      invariant |out| == |payload|
      invariant forall bit :: TestBit(out, bit) <==> TestBit(payload, bit) || Probed(h, hash, i, bitCount, bit)
    {
      var bit := BitIndex(h, hash, i, bitCount);
      ghost var before := out;
      out := SetBit(out, bit);
      forall other
        ensures TestBit(out, other) <==> TestBit(payload, other) || Probed(h, hash, i + 1, bitCount, other)
      {
        SetBitAdds(before, bit, other);
        if Probed(h, hash, i, bitCount, other) {
          var j :| 0 <= j < i && BitIndex(h, hash, j, bitCount) == other;
          assert 0 <= j < i + 1;
        }
      }
    }
  }

  /** Every probe bit of every hash in the list is set. */
  predicate AllProbesSet(h: Hashing, payload: seq<Byte>, hashes: seq<u64>, count: int) {
    |payload| > 0 &&
    forall k, i :: 0 <= k < |hashes| && 0 <= i < count ==>
      TestBit(payload, BitIndex(h, hashes[k], i, 8 * |payload|))
  }

  predicate ProbedByAny(h: Hashing, hashes: seq<u64>, count: int, bitCount: int, bit: int)
    requires bitCount > 0
  {
    exists k :: 0 <= k < |hashes| && Probed(h, hashes[k], count, bitCount, bit)
  }

  lemma {:induction false} ProbedByNext(h: Hashing, hashes: seq<u64>, hash: u64, count: int, bitCount: int, bit: int)
    requires bitCount > 0
    ensures ProbedByAny(h, hashes + [hash], count, bitCount, bit) <==>
            ProbedByAny(h, hashes, count, bitCount, bit) || Probed(h, hash, count, bitCount, bit)
  {
    var more := hashes + [hash];
    assert more[|hashes|] == hash;
    if ProbedByAny(h, hashes, count, bitCount, bit) {
      var k :| 0 <= k < |hashes| && Probed(h, hashes[k], count, bitCount, bit);
      assert more[k] == hashes[k];
    }
    if ProbedByAny(h, more, count, bitCount, bit) {
      var k :| 0 <= k < |more| && Probed(h, more[k], count, bitCount, bit);
      assert k < |hashes| ==> more[k] == hashes[k];
    }
  }

  /** The bits set are exactly the probe bits of the hashes. */
  ghost predicate ProbesExactly(h: Hashing, payload: seq<Byte>, hashes: seq<u64>, count: int) {
    |payload| > 0 && forall bit :: TestBit(payload, bit) <==> ProbedByAny(h, hashes, count, 8 * |payload|, bit)
  }

  lemma {:induction false} ExactSetsAll(h: Hashing, payload: seq<Byte>, hashes: seq<u64>, count: int)
    requires ProbesExactly(h, payload, hashes, count)
    ensures AllProbesSet(h, payload, hashes, count)
  {
    forall k, i | 0 <= k < |hashes| && 0 <= i < count
      ensures TestBit(payload, BitIndex(h, hashes[k], i, 8 * |payload|))
    {
      assert Probed(h, hashes[k], count, 8 * |payload|, BitIndex(h, hashes[k], i, 8 * |payload|));
    }
  }

  /** Replays a list of hashes into a payload: exactly their probe bits are added. */
  method SetAllBits(payload: seq<Byte>, h: Hashing, hashes: seq<u64>, count: nat) returns (out: seq<Byte>)
    requires |payload| > 0
    ensures |out| == |payload|
    ensures forall bit ::
      TestBit(out, bit) <==> TestBit(payload, bit) || ProbedByAny(h, hashes, count, 8 * |payload|, bit)
  {
    out := payload;
    for k := 0 to |hashes|
      invariant |out| == |payload|
      invariant forall bit ::
        TestBit(out, bit) <==> TestBit(payload, bit) || ProbedByAny(h, hashes[..k], count, 8 * |payload|, bit)
    {
      ghost var before := out;
      out := SetBloomBits(out, h, hashes[k], count);
      assert hashes[..k + 1] == hashes[..k] + [hashes[k]];
      forall bit
        ensures TestBit(out, bit) <==>
          TestBit(payload, bit) || ProbedByAny(h, hashes[..k + 1], count, 8 * |payload|, bit)
      {
        ProbedByNext(h, hashes[..k], hashes[k], count, 8 * |payload|, bit);
        assert TestBit(before, bit) <==>
          TestBit(payload, bit) || ProbedByAny(h, hashes[..k], count, 8 * |payload|, bit);
      }
    }
    assert hashes[..|hashes|] == hashes;
  }

  /** A payload of zeros has no bit set. */
  function Cleared(size: nat): (payload: seq<Byte>)
    ensures |payload| == size && forall bit :: !TestBit(payload, bit)
  {
    var payload := seq(size, _ => 0);
    assert forall bit :: !TestBit(payload, bit) by {
      ZeroHasNoBit();
    }
    payload
  }

  lemma {:induction false} ZeroHasNoBit()
    ensures forall k :: !HasBit(0, k)
  {
  }

  // ----- Little-endian integers -----

  function Pow256(n: nat): nat {
    if n == 0 then 1 else 256 * Pow256(n - 1)
  }

  function LittleEndian(v: nat, n: nat): (bytes: seq<Byte>)
    ensures |bytes| == n
  {
    if n == 0 then [] else [v % 256] + LittleEndian(v / 256, n - 1)
  }

  function ReadLittleEndian(bytes: seq<Byte>): nat {
    if bytes == [] then 0 else bytes[0] + 256 * ReadLittleEndian(bytes[1..])
  }

  lemma {:induction false} LittleEndianRoundTrip(v: nat, n: nat)
    requires v < Pow256(n)
    ensures ReadLittleEndian(LittleEndian(v, n)) == v
  {
    if n > 0 {
      LittleEndianRoundTrip(v / 256, n - 1);
      var bytes := LittleEndian(v, n);
      assert bytes[0] == v % 256;
      assert bytes[1..] == LittleEndian(v / 256, n - 1);
    }
  }

  // ----- The serialized form -----

  function Header(hashCount: nat, bitCount: nat, valueCount: nat): (bytes: seq<Byte>)
    requires hashCount < 256
    ensures |bytes| == HEADER_SIZE
  {
    MAGIC + [VERSION, hashCount] + LittleEndian(HEADER_SIZE, 2) +
    LittleEndian(bitCount, 8) + LittleEndian(valueCount, 8)
  }

  function HashCount(bytes: seq<Byte>): int
    requires |bytes| >= HEADER_SIZE
  {
    bytes[5]
  }

  function HeaderSize(bytes: seq<Byte>): nat
    requires |bytes| >= HEADER_SIZE
  {
    ReadLittleEndian(bytes[6..8])
  }

  function BitCount(bytes: seq<Byte>): nat
    requires |bytes| >= HEADER_SIZE
  {
    ReadLittleEndian(bytes[8..16])
  }

  predicate WellFormedHeader(bytes: seq<Byte>) {
    |bytes| >= HEADER_SIZE && bytes[..4] == MAGIC && bytes[4] == VERSION &&
    0 < HashCount(bytes) <= 16 && HEADER_SIZE <= HeaderSize(bytes) <= |bytes| &&
    0 < BitCount(bytes) <= (|bytes| - HeaderSize(bytes)) * 8
  }

  predicate ProbesSet(h: Hashing, payload: seq<Byte>, hash: u64, count: int, bitCount: int)
    requires bitCount > 0
  {
    forall i :: 0 <= i < count ==> TestBit(payload, BitIndex(h, hash, i, bitCount))
  }

  /** The reader's test: every unsupported payload, and every value that is not finite, may match. */
  predicate MayContain(h: Hashing, bytes: seq<Byte>, v: Num) {
    !IsFinite(v) || !WellFormedHeader(bytes) ||
    ProbesSet(h, bytes[HeaderSize(bytes)..], CanonicalHash(h, v), HashCount(bytes), BitCount(bytes))
  }

  /** The probe loop with its early exit. */
  method ProbeLoop(h: Hashing, bytes: seq<Byte>, headerSize: nat, hash: u64, count: nat, bitCount: nat)
    returns (found: bool)
    requires headerSize <= |bytes| && 0 < bitCount <= (|bytes| - headerSize) * 8
    ensures found <==> ProbesSet(h, bytes[headerSize..], hash, count, bitCount)
  {
    ghost var payload := bytes[headerSize..];
    for i := 0 to count
      invariant ProbesSet(h, payload, hash, i, bitCount)
    {
      var bit := BitIndex(h, hash, i, bitCount);
      assert payload[bit / 8] == bytes[headerSize + bit / 8];
      if !HasBit(bytes[headerSize + bit / 8], bit % 8) {
        assert !TestBit(payload, BitIndex(h, hash, i, bitCount));
        return false;
      }
    }
    return true;
  }

  method Probe(h: Hashing, bytes: seq<Byte>, v: Num) returns (mayContain: bool)
    ensures mayContain <==> MayContain(h, bytes, v)
  {
    if bytes == [] || !IsFinite(v) || !WellFormedHeader(bytes) {
      return true;
    }
    mayContain := ProbeLoop(h, bytes, HeaderSize(bytes), CanonicalHash(h, v), HashCount(bytes), BitCount(bytes));
  }

  lemma {:induction false} Pow256Values()
    ensures Pow256(2) == 65536 && Pow256(8) == TWO64
  {
    assert Pow256(4) == 256 * 256 * 256 * 256;
    assert Pow256(6) == 256 * 256 * Pow256(4);
    assert Pow256(8) == 256 * 256 * Pow256(6);
  }

  /** What the reader parses back out of a header written by the builder. */
  lemma {:induction false} HeaderRoundTrip(hashCount: nat, bitCount: nat, valueCount: nat, payload: seq<Byte>)
    requires 1 <= hashCount <= 16
    requires 0 < bitCount == 8 * |payload| < TWO64
    ensures var bytes := Header(hashCount, bitCount, valueCount) + payload;
      WellFormedHeader(bytes) && HashCount(bytes) == hashCount &&
      BitCount(bytes) == bitCount && bytes[HeaderSize(bytes)..] == payload
  {
    var bytes := Header(hashCount, bitCount, valueCount) + payload;
    Pow256Values();
    LittleEndianRoundTrip(HEADER_SIZE, 2);
    LittleEndianRoundTrip(bitCount, 8);
    assert bytes[..4] == MAGIC;
    assert bytes[6..8] == LittleEndian(HEADER_SIZE, 2);
    assert bytes[8..16] == LittleEndian(bitCount, 8);
    assert bytes[HEADER_SIZE..] == payload;
  }

  /** No hash whose probes are all set can be rejected after serialization. */
  lemma {:induction false} SerializedNeverRejects(h: Hashing, payload: seq<Byte>, hashes: seq<u64>, count: nat,
                                                  valueCount: nat, v: Num)
    requires AllProbesSet(h, payload, hashes, count)
    requires 1 <= count <= 16 && 8 * |payload| < TWO64
    requires CanonicalHash(h, v) in hashes
    ensures MayContain(h, Header(count, 8 * |payload|, valueCount) + payload, v)
  {
    HeaderRoundTrip(count, 8 * |payload|, valueCount, payload);
    var k :| 0 <= k < |hashes| && hashes[k] == CanonicalHash(h, v);
  }

  /** What a reader makes of a filter whose bits are exactly the probe bits of some hashes. */
  ghost predicate FilterOf(h: Hashing, bytes: seq<Byte>, hashes: seq<u64>) {
    WellFormedHeader(bytes) && BitCount(bytes) == 8 * (|bytes| - HeaderSize(bytes)) &&
    ProbesExactly(h, bytes[HeaderSize(bytes)..], hashes, HashCount(bytes))
  }

  /** The serialized filter answers "maybe" exactly for values all of whose probe bits some added value has. */
  lemma {:induction false} MayContainExactly(h: Hashing, bytes: seq<Byte>, hashes: seq<u64>, v: Num)
    requires FilterOf(h, bytes, hashes) && IsFinite(v)
    ensures MayContain(h, bytes, v) <==>
      forall i :: 0 <= i < HashCount(bytes) ==>
        ProbedByAny(h, hashes, HashCount(bytes), BitCount(bytes), BitIndex(h, CanonicalHash(h, v), i, BitCount(bytes)))
  {
    var payload := bytes[HeaderSize(bytes)..];
    forall i | 0 <= i < HashCount(bytes)
      ensures var bit := BitIndex(h, CanonicalHash(h, v), i, BitCount(bytes));
        TestBit(payload, bit) <==> ProbedByAny(h, hashes, HashCount(bytes), BitCount(bytes), bit)
    {
    }
  }

  // ----- The builder -----

  /** The 64-bit value counter after n additions. */
  function Wrapped(n: nat): nat {
    n % TWO64
  }

  lemma {:induction false} WrappedStep(n: nat)
    ensures (Wrapped(n) + 1) % TWO64 == Wrapped(n + 1)
  {
    assert n == n / TWO64 * TWO64 + Wrapped(n);
  }

  /** Buffers hashes until they would outgrow the payload bound, then streams bits. */
  class RootBloomBuilder {
    const h: Hashing
    const maxPayloadBytes: nat
    const streamingHashes: nat
    var hashes: seq<u64>
    var streamingBits: seq<Byte>
    var valueCount: nat
    /** Canonical hashes of the finite values added since the last serialization. */
    ghost var added: seq<u64>

    ghost predicate Valid()
      reads this
    {
      && 1 <= streamingHashes <= 16
      && maxPayloadBytes <= U32_MAX
      && valueCount == Wrapped(|added|)
      && (maxPayloadBytes == 0 ==> added == [])
      && (if streamingBits == [] then hashes == added
          else |streamingBits| == maxPayloadBytes && ProbesExactly(h, streamingBits, added, streamingHashes))
    }

    constructor (h: Hashing, maxPayloadBytes: nat, streamingHashes: nat)
      requires maxPayloadBytes <= U32_MAX && 1 <= streamingHashes <= 16
      ensures Valid() && added == [] && this.h == h && this.maxPayloadBytes == maxPayloadBytes
    {
      this.h, this.maxPayloadBytes, this.streamingHashes := h, maxPayloadBytes, streamingHashes;
      hashes, streamingBits, valueCount, added := [], [], 0, [];
    }

    method Add(v: Num)
      requires Valid()
      modifies this
      ensures Valid()
      ensures added == if maxPayloadBytes == 0 || !IsFinite(v) then old(added)
                       else old(added) + [CanonicalHash(h, v)]
    {
      if maxPayloadBytes == 0 || !IsFinite(v) {
        return;
      }
      var hash := CanonicalHash(h, v);
      ghost var earlier := added;
      WrappedStep(|earlier|);
      added := added + [hash];
      if streamingBits == [] {
        var hashLimit := Max(1, maxPayloadBytes / 8);
        if |hashes| < hashLimit {
          hashes := hashes + [hash];
          valueCount := (valueCount + 1) % TWO64;
          return;
        }
        streamingBits := SetAllBits(Cleared(maxPayloadBytes), h, hashes, streamingHashes);
        hashes := [];
      }
      ghost var before := streamingBits;
      streamingBits := SetBloomBits(streamingBits, h, hash, streamingHashes);
      forall bit
        ensures TestBit(streamingBits, bit) <==>
          ProbedByAny(h, added, streamingHashes, 8 * |streamingBits|, bit)
      {
        ProbedByNext(h, earlier, hash, streamingHashes, 8 * |streamingBits|, bit);
        assert TestBit(before, bit) <==> ProbedByAny(h, earlier, streamingHashes, 8 * |before|, bit);
      }
      valueCount := (valueCount + 1) % TWO64;
    }

    /** `payloadBytes` and `hashCount` are what the floating-point sizing formulas yield for a buffered filter. */
    method SerializeAndRelease(payloadBytes: nat, hashCount: nat) returns (bytes: seq<Byte>)
      requires Valid()
      requires 1 <= payloadBytes <= Max(1, maxPayloadBytes) && 1 <= hashCount <= 16
      modifies this
      ensures Valid() && added == if old(valueCount) == 0 then old(added) else []
      ensures old(valueCount) == 0 ==> bytes == []
      ensures |bytes| <= Max(1, maxPayloadBytes) + HEADER_SIZE
      ensures old(valueCount) != 0 ==> FilterOf(h, bytes, old(added))
      ensures forall v :: IsFinite(v) && CanonicalHash(h, v) in old(added) ==> MayContain(h, bytes, v)
    {
      if valueCount == 0 {
        return [];
      }
      var payload, count := streamingBits, streamingHashes;
      if streamingBits == [] {
        payload := SetAllBits(Cleared(payloadBytes), h, hashes, hashCount);
        count := hashCount;
      }
      bytes := Header(count, 8 * |payload|, valueCount) + payload;
      HeaderRoundTrip(count, 8 * |payload|, valueCount, payload);
      ExactSetsAll(h, payload, added, count);
      forall v | IsFinite(v) && CanonicalHash(h, v) in added
        ensures MayContain(h, bytes, v)
      {
        SerializedNeverRejects(h, payload, added, count, valueCount, v);
      }
      hashes, streamingBits, valueCount, added := [], [], 0, [];
    }
  }

  /** What the rest of the index relies on: no value equal to an indexed finite one is rejected. */
  ghost predicate Covers(h: Hashing, bytes: seq<Byte>, values: seq<Num>) {
    forall v, w :: v in values && IsFinite(v) && IsFinite(w) && Real(v) == Real(w) ==> MayContain(h, bytes, w)
  }

  ghost predicate AllHashed(h: Hashing, values: seq<Num>, hashed: seq<u64>) {
    forall j :: 0 <= j < |values| && IsFinite(values[j]) ==> CanonicalHash(h, values[j]) in hashed
  }

  lemma {:induction false} CoversByHash(h: Hashing, bytes: seq<Byte>, values: seq<Num>, hashed: seq<u64>)
    requires AllHashed(h, values, hashed)
    requires forall v :: IsFinite(v) && CanonicalHash(h, v) in hashed ==> MayContain(h, bytes, v)
    ensures Covers(h, bytes, values)
  {
    forall v, w | v in values && IsFinite(v) && IsFinite(w) && Real(v) == Real(w)
      ensures MayContain(h, bytes, w)
    {
      EqualValuesHashAlike(h, v, w);
    }
  }

  /** The canonical hashes of the finite values, in order. */
  function HashesOf(h: Hashing, values: seq<Num>): seq<u64> {
    if values == [] then []
    else
      HashesOf(h, values[..|values| - 1]) +
      if IsFinite(values[|values| - 1]) then [CanonicalHash(h, values[|values| - 1])] else []
  }

  lemma {:induction false} HashesOfAll(h: Hashing, values: seq<Num>)
    ensures AllHashed(h, values, HashesOf(h, values))
  {
    if values != [] {
      var n := |values| - 1;
      HashesOfAll(h, values[..n]);
      forall j | 0 <= j < |values| && IsFinite(values[j])
        ensures CanonicalHash(h, values[j]) in HashesOf(h, values)
      {
        assert j < n ==> values[..n][j] == values[j];
      }
    }
  }

  method AddAll(builder: RootBloomBuilder, values: seq<Num>)
    requires builder.Valid() && builder.added == []
    modifies builder
    ensures builder.Valid()
    ensures builder.added == if builder.maxPayloadBytes == 0 then [] else HashesOf(builder.h, values)
  {
    for k := 0 to |values|
      invariant builder.Valid()
      invariant builder.added == if builder.maxPayloadBytes == 0 then [] else HashesOf(builder.h, values[..k])
    {
      builder.Add(values[k]);
      assert values[..k + 1][..k] == values[..k];
      assert HashesOf(builder.h, values[..k]) + [] == HashesOf(builder.h, values[..k]);
    }
    assert values[..|values|] == values;
  }

  /** The whole life of one basket's filter, over every sequence of values and
      across the switch from buffered hashes to streamed bits. */
  method BuildFilter(h: Hashing, maxPayloadBytes: nat, streamingHashes: nat,
                     payloadBytes: nat, hashCount: nat, values: seq<Num>) returns (bytes: seq<Byte>)
    requires maxPayloadBytes <= U32_MAX && 1 <= streamingHashes <= 16
    requires 1 <= payloadBytes <= Max(1, maxPayloadBytes) && 1 <= hashCount <= 16
    ensures Covers(h, bytes, values)
    ensures maxPayloadBytes > 0 && 0 < |HashesOf(h, values)| < TWO64 ==> FilterOf(h, bytes, HashesOf(h, values))
    ensures maxPayloadBytes == 0 || HashesOf(h, values) == [] ==> bytes == []
    ensures |bytes| <= Max(1, maxPayloadBytes) + HEADER_SIZE
  {
    var builder := new RootBloomBuilder(h, maxPayloadBytes, streamingHashes);
    AddAll(builder, values);
    ghost var hashed := builder.added;
    bytes := builder.SerializeAndRelease(payloadBytes, hashCount);
    if maxPayloadBytes == 0 {
      assert hashed == [];
    } else {
      HashesOfAll(h, values);
      CoversByHash(h, bytes, values, hashed);
    }
  }
}
