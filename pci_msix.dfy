/** The MSI-X capability structure (PCI Local Bus Specification 3.0,
    section 6.8.2) as the `MSIXCapability` bit field sees it, and its `init`,
    which turns MSI-X on and walks the vector table. */
module PciMsix {
  import opened Bitfield
  import opened Packed
  import opened PciHeader
  import opened PciBar

  /** Field widths of MSIXCapability, least significant first:
      capability_id, next_pointer, table_size, reserved, function_mask,
      enable, bir, table_offset, pending_bit_bir, pending_bit_offset. */
  const MSIX_LAYOUT: seq<nat> := [8, 8, 11, 3, 1, 1, 3, 29, 3, 29]

  /** The capability structure is twelve bytes. */
  const MSIX_CAPABILITY_SIZE: nat := 12

  lemma MsixLayout()
    ensures Width(MSIX_LAYOUT) == 8 * MSIX_CAPABILITY_SIZE
    ensures Offset(MSIX_LAYOUT, 2) == 16 && Offset(MSIX_LAYOUT, 5) == 31
    ensures Offset(MSIX_LAYOUT, 6) == 32 && Offset(MSIX_LAYOUT, 7) == 35
    ensures Offset(MSIX_LAYOUT, 9) == 67
  {
    assert Offset(MSIX_LAYOUT, 2) == 16;
    assert Offset(MSIX_LAYOUT, 5) == 31;
    assert Offset(MSIX_LAYOUT, 7) == 35;
    assert Offset(MSIX_LAYOUT, 9) == 67;
    assert Offset(MSIX_LAYOUT, 10) == 96;
  }

  lemma MsixWidths()
    ensures Pow2(MSIX_LAYOUT[2]) == 0x800 && Pow2(MSIX_LAYOUT[5]) == 2
    ensures Pow2(MSIX_LAYOUT[6]) == 8 && Pow2(MSIX_LAYOUT[7]) == 0x2000_0000
    ensures Pow2(MSIX_LAYOUT[8]) == 8 && Pow2(MSIX_LAYOUT[9]) == 0x2000_0000
  {
    Pow2Small();
    Pow2Fields();
  }

  /** The address `init` computes for the low BAR register: for a bir that
      names one of the six BARs it is where the Type 0 layout puts bar_bir,
      past the device header. */
  function BarRegister(headerAddr: nat, bir: nat): (address: nat)
    ensures bir < 6 ==> address == headerAddr + DEVICE_HEADER_SIZE + Offset(TYPE0_TAIL, bir)
  {
    var address := headerAddr + bir * 4 + 0x10;
    if bir < 6 then PciHeader.BarLayout(bir); address else address
  }

  /** For bir below 6 the register read by `init` is the header's BAR bir. */
  lemma BarRegisterIsBar(mem: Memory, headerAddr: nat, bir: nat)
    requires bir < 6
    ensures ReadU32(mem, BarRegister(headerAddr, bir))
         == DecodeHeaderType0(Read(mem, headerAddr, TYPE0_SIZE)).BarAt(bir)
  {
    assert Read(mem, headerAddr, TYPE0_SIZE)[0x10 + 4 * bir..0x14 + 4 * bir]
        == Read(mem, BarRegister(headerAddr, bir), 4);
    BarBytes(Read(mem, headerAddr, TYPE0_SIZE), bir);
  }

  /** Entry i of the MSI-X table that starts at address table. */
  function TableEntry(mem: Memory, table: nat, i: nat): MsixTableEntry
  {
    MsixTableEntryLayout();
    DecodeMsixTableEntry(Read(mem, table + MSIX_TABLE_ENTRY_SIZE * i, MSIX_TABLE_ENTRY_SIZE))
  }

  /** An MSI-X capability in configuration space. */
  class MsixCapability {
    /** Its twelve bytes, read as one little-endian 96-bit integer. */
    var bits: nat

    predicate Valid()
      reads this
    {
      bits < Pow2(8 * MSIX_CAPABILITY_SIZE)
    }

    /** `from_address`: the capability whose bytes are bs. */
    constructor FromBytes(bs: seq<u8>)
      requires |bs| == MSIX_CAPABILITY_SIZE
      ensures Valid() && bits == LE(bs)
    {
      LEBound(bs);
      ByteLimitPow2(MSIX_CAPABILITY_SIZE);
      bits := LE(bs);
    }

    /** The fields, in the order of MSIX_LAYOUT. */
    function Fields(): (vs: seq<nat>)
      reads this
      ensures Fits(MSIX_LAYOUT, vs)
    {
      Unpack(MSIX_LAYOUT, bits)
    }

    function TableSize(): (n: nat)
      reads this
      ensures n < 0x800
    {
      MsixWidths();
      Fields()[2]
    }

    function FunctionMask(): bool
      reads this
    {
      Fields()[4] == 1
    }

    function Enable(): bool
      reads this
    {
      Fields()[5] == 1
    }

    function Bir(): (n: nat)
      reads this
      ensures n < 8
    {
      MsixWidths();
      Fields()[6]
    }

    function PendingBitBir(): (n: nat)
      reads this
      ensures n < 8
    {
      MsixWidths();
      Fields()[8]
    }

    /** `table_offset`: the 29-bit field shifted left by 3.  The result is
        8-byte aligned and fits a u32, so the shift loses no bits. */
    function TableOffset(): (off: nat)
      reads this
      ensures off % 8 == 0 && off < 0x1_0000_0000
      ensures off / 8 == Fields()[7]
    {
      MsixWidths();
      Fields()[7] * 8
    }

    /** `pending_bit_offset`, the same shift applied to its own field. */
    function PendingBitOffset(): (off: nat)
      reads this
      ensures off % 8 == 0 && off < 0x1_0000_0000
      ensures off / 8 == Fields()[9]
    {
      MsixWidths();
      Fields()[9] * 8
    }

    /** `init`: set the enable bit and leave every other field as it was,
        then locate the vector table through the BAR that bir names (its low
        register with the flag bits masked, and the register after it as the
        high half) and read its table_size entries. */
    method Init(headerAddr: nat, mem: Memory, pmo: nat) returns (tableAddr: nat, entries: seq<MsixTableEntry>)
      modifies this
      ensures Valid()
      ensures Fields() == Unpack(MSIX_LAYOUT, old(bits))[5 := 1]
      ensures tableAddr == BarToStruct64(MaskFlags(ReadU32(mem, BarRegister(headerAddr, Bir()))),
                                         ReadU32(mem, BarRegister(headerAddr, Bir()) + 4), pmo)
                           + TableOffset()
      ensures |entries| == TableSize()
      ensures forall i :: 0 <= i < |entries| ==> entries[i] == TableEntry(mem, tableAddr, i)
    {
      MsixLayout();
      MsixWidths();
      bits := With(MSIX_LAYOUT, bits, 5, 1);
      var barL := ReadU32(mem, BarRegister(headerAddr, Bir()));
      var barH := ReadU32(mem, BarRegister(headerAddr, Bir()) + 4);
      tableAddr := MaskFlags(barL) as int + barH as int * 0x1_0000_0000 + TableOffset() + pmo;
      assert tableAddr == BarToStruct64(MaskFlags(barL), barH, pmo) + TableOffset();
      entries := ReadTable(mem, tableAddr, TableSize());
    }
  }

  /** The loop of `init` over the vector table: entries 0 .. n - 1 of the
      table at address table, in order. */
  method ReadTable(mem: Memory, table: nat, n: nat) returns (entries: seq<MsixTableEntry>)
    ensures |entries| == n
    ensures forall i :: 0 <= i < n ==> entries[i] == TableEntry(mem, table, i)
  {
    entries := [];
    for i := 0 to n
      invariant |entries| == i
      invariant forall k :: 0 <= k < i ==> entries[k] == TableEntry(mem, table, k)
    {
      entries := entries + [TableEntry(mem, table, i)];
    }
  }

  /** Where each field sits in the 96-bit value. */
  lemma MsixFieldBits(x: nat)
    ensures Unpack(MSIX_LAYOUT, x)[2] == x / 0x1_0000 % 0x800
    ensures Unpack(MSIX_LAYOUT, x)[5] == x / 0x8000_0000 % 2
    ensures Unpack(MSIX_LAYOUT, x)[6] == x / 0x1_0000_0000 % 8
    ensures Unpack(MSIX_LAYOUT, x)[7] == x / 0x8_0000_0000 % 0x2000_0000
  {
    MsixLayout();
    MsixWidths();
    Pow2Word();
    Pow2Small();
    Pow2Fields();
    Pow2Add(28, 3);
    Pow2Add(32, 3);
    UnpackAt(MSIX_LAYOUT, x, 2);
    UnpackAt(MSIX_LAYOUT, x, 5);
    UnpackAt(MSIX_LAYOUT, x, 6);
    UnpackAt(MSIX_LAYOUT, x, 7);
  }
}
