/** The forward payload a token transfer carries to a vault
    (`createJettonVaultMessage`) and the swap request built on it
    (`createJettonVaultSwapRequest`).

    Layout, in order: one 0 bit (the `Either` tag), `Maybe ^Cell` proof code,
    `Maybe ^Cell` proof data, a 32-bit opcode, and one reference to the payload. */
module VaultMessages {
  import opened Wrappers
  import opened Addresses
  import opened Cells

  type Uint32 = x: int | 0 <= x < 0x1_0000_0000

  /** Opcode of a swap request; its value is fixed by the generated pool bindings,
      which are not part of this model. */
  const SwapRequestOpcode: Uint32

  /** Number of bits in an envelope: the tag, two presence bits and the opcode. */
  const EnvelopeBits := 35

  /** What an envelope carries. */
  datatype VaultMessage = VaultMessage(opcode: nat, payload: Cell, proofCode: Option<Cell>, proofData: Option<Cell>)

  function CreateJettonVaultMessage(opcode: int, payload: Cell, proofCode: Option<Cell>, proofData: Option<Cell>)
    : (r: Result<Cell, CellError>)
    ensures r.Success? <==> 0 <= opcode < Pow2(32)
    ensures r.Failure? ==> r.error == ValueOutOfRange
    ensures r.Success? ==>
      && r.value.Ordinary?
      && |r.value.bits| == EnvelopeBits
      && !r.value.bits[0]
      && r.value.bits[1] == proofCode.Some?
      && r.value.bits[2] == proofData.Some?
      && ReadUint(r.value.bits[3..]) == opcode
      && r.value.refs == OptionalRef(proofCode) + OptionalRef(proofData) + [payload]
  {
    // Only the opcode store can throw: the envelope stays far below a cell's
    // capacity, so the other calls are proved to succeed.
    var b0 := BeginCell();
    var b1 := StoreUint(b0, 0, 1).value;
    var b2 := StoreMaybeRef(b1, proofCode).value;
    var b3 := StoreMaybeRef(b2, proofData).value;
    var b4 :- StoreUint(b3, opcode, 32);
    var b5 := StoreRef(b4, payload).value;
    ChainLayout(b0, b1, b2, b3, b4, b5, proofCode, proofData, UintBits(opcode, 32), payload);
    ReadUintOfUintBits(opcode, 32);
    Success(EndCell(b5))
  }

  /** What the builder chain accumulates: the tag, the two presence bits and the
      opcode's bits; the present proofs and then the payload. */
  lemma ChainLayout(b0: Builder, b1: Builder, b2: Builder, b3: Builder, b4: Builder, b5: Builder,
                    proofCode: Option<Cell>, proofData: Option<Cell>, opcodeBits: seq<bool>, payload: Cell)
    requires b0 == Builder([], [])
    requires b1 == Builder(b0.bits + UintBits(0, 1), b0.refs)
    requires b2 == Builder(b1.bits + [proofCode.Some?], b1.refs + OptionalRef(proofCode))
    requires b3 == Builder(b2.bits + [proofData.Some?], b2.refs + OptionalRef(proofData))
    requires b4 == Builder(b3.bits + opcodeBits, b3.refs)
    requires b5 == Builder(b4.bits, b4.refs + [payload])
    ensures |b5.bits| == 3 + |opcodeBits| && b5.bits[3..] == opcodeBits
    ensures !b5.bits[0] && b5.bits[1] == proofCode.Some? && b5.bits[2] == proofData.Some?
    ensures b5.refs == OptionalRef(proofCode) + OptionalRef(proofData) + [payload]
  {
  }

  /** A swap request: no proofs, the swap opcode, and a payload holding only the
      destination vault. The amount is not used. */
  function CreateJettonVaultSwapRequest(amount: int, destinationVault: Address): (r: Result<Cell, CellError>)
    ensures r.Success?
    ensures ParseVaultMessage(r.value) == Some(VaultMessage(SwapRequestOpcode, AddressCell(destinationVault), None, None))
    ensures r.value.refs == [AddressCell(destinationVault)]
  {
    Pow2Of32();
    ParseCreated(SwapRequestOpcode, AddressCell(destinationVault), None, None);
    CreateJettonVaultMessage(SwapRequestOpcode, AddressCell(destinationVault), None, None)
  }

  /** Reads an envelope back. A cell with a set tag bit, the wrong number of bits,
      or references that do not match the presence bits is not an envelope. */
  function ParseVaultMessage(c: Cell): (m: Option<VaultMessage>)
    ensures m.Some? ==> m.value.opcode < Pow2(32)
  {
    match c
    case AddressCell(_) => None
    case Ordinary(bits, refs) =>
      if |bits| != EnvelopeBits || bits[0] then None
      else
        var codeRefs := if bits[1] then 1 else 0;
        var dataRefs := if bits[2] then 1 else 0;
        if |refs| != codeRefs + dataRefs + 1 then None
        else
          var proofCode := if bits[1] then Some(refs[0]) else None;
          var proofData := if bits[2] then Some(refs[codeRefs]) else None;
          Some(VaultMessage(ReadUint(bits[3..]), refs[|refs| - 1], proofCode, proofData))
  }

  /** Every envelope that is built reads back as the fields it was built from. */
  lemma ParseCreated(opcode: int, payload: Cell, proofCode: Option<Cell>, proofData: Option<Cell>)
    requires 0 <= opcode < Pow2(32)
    ensures var r := CreateJettonVaultMessage(opcode, payload, proofCode, proofData);
      r.Success? && ParseVaultMessage(r.value) == Some(VaultMessage(opcode, payload, proofCode, proofData))
  {
  }

  /** Every cell that reads as an envelope is the one built from what it reads as:
      the encoding is canonical. */
  lemma CreateParsed(c: Cell, m: VaultMessage)
    requires ParseVaultMessage(c) == Some(m)
    ensures CreateJettonVaultMessage(m.opcode, m.payload, m.proofCode, m.proofData) == Success(c)
  {
    var built := CreateJettonVaultMessage(m.opcode, m.payload, m.proofCode, m.proofData).value;
    SameHeaderAndValue(c.bits, built.bits, 32);
    ParsedRefs(c, m);
  }

  lemma ParsedRefs(c: Cell, m: VaultMessage)
    requires ParseVaultMessage(c) == Some(m)
    ensures c.Ordinary? && c.refs == OptionalRef(m.proofCode) + OptionalRef(m.proofData) + [m.payload]
  {
  }

  /** Two bit strings of one length that agree on their three leading bits and
      read as the same value after them are equal. */
  lemma SameHeaderAndValue(x: seq<bool>, y: seq<bool>, width: nat)
    requires |x| == 3 + width && |y| == 3 + width
    requires x[0] == y[0] && x[1] == y[1] && x[2] == y[2]
    requires ReadUint(x[3..]) == ReadUint(y[3..])
    ensures x == y
  {
    UintBitsOfReadUint(x[3..]);
    UintBitsOfReadUint(y[3..]);
    assert x == x[..3] + x[3..];
    assert y == y[..3] + y[3..];
  }

  /** Envelopes that differ in any field are different cells. */
  lemma CreateInjective(opcode1: int, payload1: Cell, proofCode1: Option<Cell>, proofData1: Option<Cell>,
                        opcode2: int, payload2: Cell, proofCode2: Option<Cell>, proofData2: Option<Cell>)
    requires CreateJettonVaultMessage(opcode1, payload1, proofCode1, proofData1).Success?
    requires CreateJettonVaultMessage(opcode1, payload1, proofCode1, proofData1)
          == CreateJettonVaultMessage(opcode2, payload2, proofCode2, proofData2)
    ensures opcode1 == opcode2 && payload1 == payload2 && proofCode1 == proofCode2 && proofData1 == proofData2
  {
    ParseCreated(opcode1, payload1, proofCode1, proofData1);
    ParseCreated(opcode2, payload2, proofCode2, proofData2);
  }

  /** The amount handed to the swap request builder has no effect on the envelope. */
  lemma SwapRequestIgnoresAmount(amount1: int, amount2: int, destinationVault: Address)
    ensures CreateJettonVaultSwapRequest(amount1, destinationVault) == CreateJettonVaultSwapRequest(amount2, destinationVault)
  {
  }
}
