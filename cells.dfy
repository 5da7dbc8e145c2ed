/** TON cells and the part of the cell builder the envelope uses:
    `beginCell`, `storeUint`, `storeBit`, `storeMaybeRef`, `storeRef`, `endCell`.

    A cell holds at most 1023 bits and 4 references; a builder call that would
    exceed either, or an unsigned value that does not fit its width, throws. */
module Cells {
  import opened Wrappers
  import opened Addresses

  const MaxBits := 1023
  const MaxRefs := 4

  /** A cell is a bit string with child cells. A cell holding one stored address
      (`beginCell().storeAddress(a).endCell()`) is kept as its address: its
      bit layout is not part of this model. */
  datatype Cell =
    | Ordinary(bits: seq<bool>, refs: seq<Cell>)
    | AddressCell(address: Address)

  datatype Builder = Builder(bits: seq<bool>, refs: seq<Cell>)

  /** Why a builder call throws. */
  datatype CellError = ValueOutOfRange | BitOverflow | RefOverflow

  function Pow2(n: nat): (r: nat)
    ensures r >= 1
  {
    if n == 0 then 1 else 2 * Pow2(n - 1)
  }

  lemma Pow2Of32()
    ensures Pow2(32) == 0x1_0000_0000
  {
    assert Pow2(8) == 0x100;
    assert Pow2(16) == 0x1_0000;
    assert Pow2(24) == 0x100_0000;
  }

  /** The n-bit unsigned big-endian encoding of v. */
  function UintBits(v: nat, n: nat): (b: seq<bool>)
    requires v < Pow2(n)
    ensures |b| == n
  {
    if n == 0 then [] else UintBits(v / 2, n - 1) + [v % 2 == 1]
  }

  /** The unsigned value of a big-endian bit string. */
  function ReadUint(b: seq<bool>): (v: nat)
    ensures v < Pow2(|b|)
  {
    if b == [] then 0 else 2 * ReadUint(b[..|b| - 1]) + (if b[|b| - 1] then 1 else 0)
  }

  /** Reading back an encoded value gives the value. */
  lemma {:induction false} ReadUintOfUintBits(v: nat, n: nat)
    requires v < Pow2(n)
    ensures ReadUint(UintBits(v, n)) == v
  {
    if n > 0 {
      var b := UintBits(v, n);
      assert b[..n - 1] == UintBits(v / 2, n - 1);
      ReadUintOfUintBits(v / 2, n - 1);
    }
  }

  /** Encoding a read value at its own width gives back the bit string. */
  lemma {:induction false} UintBitsOfReadUint(b: seq<bool>)
    ensures UintBits(ReadUint(b), |b|) == b
  {
    if b != [] {
      var n := |b|;
      var v := ReadUint(b);
      var prefix := b[..n - 1];
      assert v / 2 == ReadUint(prefix) && (v % 2 == 1) == b[n - 1];
      UintBitsOfReadUint(prefix);
      assert b == prefix + [b[n - 1]];
    }
  }

  function BeginCell(): (b: Builder)
    ensures b.bits == [] && b.refs == []
  {
    Builder([], [])
  }

  /** Appends v as an n-bit unsigned integer; throws when v does not fit. */
  function StoreUint(b: Builder, v: int, n: nat): (r: Result<Builder, CellError>)
    ensures r.Success? <==> 0 <= v < Pow2(n) && |b.bits| + n <= MaxBits
    ensures r.Failure? && !(0 <= v < Pow2(n)) ==> r.error == ValueOutOfRange
    ensures r.Success? ==> r.value == Builder(b.bits + UintBits(v, n), b.refs)
  {
    if !(0 <= v < Pow2(n)) then Failure(ValueOutOfRange)
    else if |b.bits| + n > MaxBits then Failure(BitOverflow)
    else Success(Builder(b.bits + UintBits(v, n), b.refs))
  }

  /** Appends one bit. */
  function StoreBit(b: Builder, bit: bool): (r: Result<Builder, CellError>)
    ensures r.Success? <==> |b.bits| < MaxBits
    ensures r.Success? ==> r.value == Builder(b.bits + [bit], b.refs)
  {
    if |b.bits| + 1 > MaxBits then Failure(BitOverflow) else Success(Builder(b.bits + [bit], b.refs))
  }

  /** Appends a reference to a child cell. */
  function StoreRef(b: Builder, c: Cell): (r: Result<Builder, CellError>)
    ensures r.Success? <==> |b.refs| < MaxRefs
    ensures r.Success? ==> r.value == Builder(b.bits, b.refs + [c])
  {
    if |b.refs| >= MaxRefs then Failure(RefOverflow) else Success(Builder(b.bits, b.refs + [c]))
  }

  /** TL-B `Maybe ^Cell`: bit 0 for an absent cell; bit 1 and a reference for a present one. */
  function StoreMaybeRef(b: Builder, c: Option<Cell>): (r: Result<Builder, CellError>)
    ensures r.Success? ==> r.value == Builder(b.bits + [c.Some?], b.refs + OptionalRef(c))
    ensures r.Success? <==> |b.bits| < MaxBits && (c.Some? ==> |b.refs| < MaxRefs)
  {
    match c
    case None => StoreBit(b, false)
    case Some(cell) =>
      var b' :- StoreBit(b, true);
      StoreRef(b', cell)
  }

  /** The references a `Maybe ^Cell` field contributes. */
  function OptionalRef(c: Option<Cell>): seq<Cell> {
    if c.Some? then [c.value] else []
  }

  function EndCell(b: Builder): (c: Cell)
    ensures c.Ordinary? && c.bits == b.bits && c.refs == b.refs
  {
    Ordinary(b.bits, b.refs)
  }
}
