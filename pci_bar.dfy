/** Base address registers.  A BAR is a 32-bit register read from the Type 0
    header and viewed through the `BAR` bit field: bit 0 says whether the
    region is in I/O space, bits 1-2 give its type (2 means 64-bit), bit 3
    says whether it is prefetchable, and bits 4-31 hold the upper 28 bits of
    its 16-byte aligned base address. */
module PciBar {
  import opened Bitfield
  import opened Packed

  /** Widths of the BAR fields, least significant first. */
  const BAR_LAYOUT: seq<nat> := [1, 2, 1, 28]

  type B2 = x: int | 0 <= x < 4
  type B28 = x: int | 0 <= x < 0x1000_0000

  datatype Bar = Bar(barSpace: bool, barType: B2, prefetchable: bool, address: B28)

  lemma BarLayout()
    ensures Width(BAR_LAYOUT) == 32
    ensures Offset(BAR_LAYOUT, 1) == 1 && Offset(BAR_LAYOUT, 2) == 3 && Offset(BAR_LAYOUT, 3) == 4
    ensures Pow2(Width(BAR_LAYOUT)) == 0x1_0000_0000
  {
    assert Offset(BAR_LAYOUT, 1) == 1;
    assert Offset(BAR_LAYOUT, 2) == 3;
    assert Offset(BAR_LAYOUT, 3) == 4;
    assert Offset(BAR_LAYOUT, 4) == 32;
    Pow2Word();
  }

  function BoolBit(b: bool): nat
  {
    if b then 1 else 0
  }

  /** The fields of a BAR view, least significant first. */
  function BarFields(b: Bar): seq<nat>
  {
    [BoolBit(b.barSpace), b.barType, BoolBit(b.prefetchable), b.address]
  }

  /** `From<&u32> for BAR`: the register reg seen as a BAR.  Each field is
      the bit range the layout gives it: bit 0, bits 1-2, bit 3 and bits
      4-31. */
  function DecodeBar(reg: u32): (b: Bar)
    ensures b.barSpace == (reg % 2 == 1)
    ensures b.barType == reg / 2 % 4
    ensures b.prefetchable == (reg / 8 % 2 == 1)
    ensures b.address == reg / 16
  {
    var vs := Unpack(BAR_LAYOUT, reg);
    Pow2Small();
    Pow2Fields();
    BarLayout();
    UnpackAt(BAR_LAYOUT, reg, 0);
    UnpackAt(BAR_LAYOUT, reg, 1);
    UnpackAt(BAR_LAYOUT, reg, 2);
    UnpackAt(BAR_LAYOUT, reg, 3);
    DivBound(reg, 16, 0x1000_0000);
    Bar(vs[0] == 1, vs[1], vs[2] == 1, vs[3])
  }

  /** The register whose BAR view is b. */
  function EncodeBar(b: Bar): (reg: u32)
  {
    Pow2Small();
    Pow2Fields();
    BarLayout();
    Pack(BAR_LAYOUT, BarFields(b))
  }

  lemma DecodeEncodeBar(b: Bar)
    ensures DecodeBar(EncodeBar(b)) == b
  {
    Pow2Small();
    Pow2Fields();
    UnpackPack(BAR_LAYOUT, BarFields(b));
  }

  lemma EncodeDecodeBar(reg: u32)
    ensures EncodeBar(DecodeBar(reg)) == reg
  {
    Pow2Small();
    Pow2Fields();
    BarLayout();
    var vs := Unpack(BAR_LAYOUT, reg);
    assert BarFields(DecodeBar(reg)) == vs;
    PackUnpack(BAR_LAYOUT, reg);
  }

  /** `bar & 0xFFFFFFF0`: the register with its four flag bits cleared. */
  function MaskFlags(reg: u32): (r: u32)
    ensures r % 16 == 0 && r <= reg < r + 16
  {
    reg - reg % 16
  }

  /** Masking the flag bits leaves the base address that the BAR's
      address field holds. */
  lemma MaskFlagsAddress(reg: u32)
    ensures MaskFlags(reg) == 16 * DecodeBar(reg).address
  {
    DivModBasics(reg, 16);
  }

  /** `bar_to_struct`: the virtual address of the region a 32-bit BAR value
      points at, given the offset pmo at which physical memory is mapped.
      The flag bits are not masked off, so they land in the low four bits
      of the base address the BAR holds. */
  function BarToStruct(bar: u32, pmo: nat): (virt: nat)
    ensures virt == pmo + 16 * DecodeBar(bar).address + bar % 16
  {
    MaskFlagsAddress(bar);
    bar + pmo
  }

  /** The physical address `(bar_h << 32) | bar_l`.  bar_l has no bits at or
      above bit 32, so the `|` of the two shifted halves is their sum. */
  function Bar64(barL: u32, barH: u32): (phys: u64)
    ensures phys % 0x1_0000_0000 == barL
    ensures phys / 0x1_0000_0000 == barH
  {
    MulBound(barL, 0x1_0000_0000, barH, 0x1_0000_0000);
    DivModUnique(barL, 0x1_0000_0000, barH);
    barH * 0x1_0000_0000 + barL
  }

  /** `bar_to_struct_64`: the virtual address of the region a pair of BAR
      values points at.  The low register is used as is, with its flag bits. */
  function BarToStruct64(barL: u32, barH: u32, pmo: nat): (virt: nat)
    ensures virt >= pmo && virt - pmo == Bar64(barL, barH)
  {
    Bar64(barL, barH) + pmo
  }

  /** The 64-bit address is the value whose two 32-bit fields, low first,
      are barL and barH. */
  lemma Bar64Words(barL: u32, barH: u32)
    ensures Unpack([32, 32], Bar64(barL, barH)) == [barL, barH]
  {
    Pow2Word();
    DivModUnique(barH, 0x1_0000_0000, 0);
    var ws: seq<nat> := [32, 32];
    assert ws[1..] == [32] && ws[1..][1..] == [];
    assert Unpack(ws[1..], barH) == [barH];
  }

  /** With a zero high register, bar_to_struct_64 agrees with bar_to_struct. */
  lemma BarToStruct64Low(barL: u32, pmo: nat)
    ensures BarToStruct64(barL, 0, pmo) == BarToStruct(barL, pmo)
  {
  }
}
