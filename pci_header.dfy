/** The packed configuration-space structures of PCI: the common device
    header, the Type 0 header that follows it (PCI Local Bus Specification
    3.0, section 6.1), an MCFG region record and an MSI-X table entry.
    Each is a `#[repr(C, packed)]` struct, so its layout is its list of field
    sizes in bytes. */
module PciHeader {
  import opened Bitfield
  import opened Packed

  /** Field sizes of PCIDeviceHeader, in declaration order: four u16 fields
      (vendor_id, device_id, command, status), then eight u8 fields. */
  const DEVICE_HEADER: seq<nat> := DeviceHeaderSizes()

  /** Field sizes of PCIHeaderType0 after its embedded PCIDeviceHeader: the
      u32 fields bar0..bar5, cardbus_cis_pointer, expansion_rom_base_address
      and reserved2 (indices 0-6, 9, 13), the u16 fields subsystem_vendor_id,
      subsystem_id and reserved1 (7, 8, 12), and u8 fields elsewhere. */
  const TYPE0_TAIL: seq<nat> := Type0TailSizes()

  function DeviceHeaderSizes(): seq<nat>
  {
    seq(12, i => if i < 4 then 2 else 1)
  }

  function Type0TailSizes(): seq<nat>
  {
    seq(18, i => if i < 7 || i == 9 || i == 13 then 4 else if i == 7 || i == 8 || i == 12 then 2 else 1)
  }

  /** Field sizes of PCIDeviceConfiguration (one MCFG region record). */
  const DEVICE_CONFIGURATION: seq<nat> := [8, 2, 1, 1, 4]

  /** Field sizes of MSIXTableEntry. */
  const MSIX_TABLE_ENTRY: seq<nat> := [8, 4, 4]

  /** `size_of` of each structure; the layout lemmas below derive these. */
  const DEVICE_HEADER_SIZE: nat := 16
  const TYPE0_SIZE: nat := 64
  const DEVICE_CONFIGURATION_SIZE: nat := 16
  const MSIX_TABLE_ENTRY_SIZE: nat := 16

  datatype DeviceHeader = DeviceHeader(
    vendorId: u16, deviceId: u16, command: u16, status: u16,
    revisionId: u8, progIf: u8, subclass: u8, classCode: u8,
    cacheLineSize: u8, latencyTimer: u8, headerType: u8, bist: u8)

  datatype HeaderType0 = HeaderType0(
    header: DeviceHeader,
    bar0: u32, bar1: u32, bar2: u32, bar3: u32, bar4: u32, bar5: u32,
    cardbusCisPointer: u32, subsystemVendorId: u16, subsystemId: u16,
    expansionRomBaseAddress: u32, capabilitiesPointer: u8,
    reserved0: u8, reserved1: u16, reserved2: u32,
    interruptLine: u8, interruptPin: u8, minGrant: u8, maxLatency: u8)
  {
    /** Base address register n. */
    function BarAt(n: nat): u32
      requires n < 6
    {
      match n
      case 0 => bar0
      case 1 => bar1
      case 2 => bar2
      case 3 => bar3
      case 4 => bar4
      case 5 => bar5
    }
  }

  datatype DeviceConfiguration = DeviceConfiguration(
    baseAddress: u64, segmentGroup: u16, startBus: u8, endBus: u8, reserved: u32)

  datatype MsixTableEntry = MsixTableEntry(messageAddress: u64, messageData: u32, vectorControl: u32)

  // Layout facts: sizes and field offsets.

  /** PCIDeviceHeader is 16 bytes; vendor_id, device_id, command and status
      sit at offsets 0, 2, 4 and 6, header_type at 0x0E. */
  lemma DeviceHeaderLayout()
    ensures Width(DEVICE_HEADER) == DEVICE_HEADER_SIZE
    ensures Offset(DEVICE_HEADER, 1) == 2 && Offset(DEVICE_HEADER, 2) == 4
    ensures Offset(DEVICE_HEADER, 3) == 6 && Offset(DEVICE_HEADER, 10) == 0x0E
  {
    var ws := DEVICE_HEADER;
    assert Offset(ws, 1) == 2;
    assert Offset(ws, 2) == 4;
    assert Offset(ws, 3) == 6;
    assert Offset(ws, 4) == 8;
    assert Offset(ws, 5) == 9;
    assert Offset(ws, 6) == 10;
    assert Offset(ws, 7) == 11;
    assert Offset(ws, 8) == 12;
    assert Offset(ws, 9) == 13;
    assert Offset(ws, 10) == 14;
    assert Offset(ws, 11) == 15;
    assert Offset(ws, 12) == 16;
  }

  /** PCIHeaderType0 is 64 bytes: the 16-byte device header and 48 more, with
      the capabilities pointer at 0x34 and the interrupt line at 0x3C. */
  lemma Type0Layout()
    ensures DEVICE_HEADER_SIZE + Width(TYPE0_TAIL) == TYPE0_SIZE
    ensures DEVICE_HEADER_SIZE + Offset(TYPE0_TAIL, 10) == 0x34
    ensures DEVICE_HEADER_SIZE + Offset(TYPE0_TAIL, 14) == 0x3C
  {
    var ws := TYPE0_TAIL;
    assert Offset(ws, 1) == 4;
    assert Offset(ws, 2) == 8;
    assert Offset(ws, 3) == 12;
    assert Offset(ws, 4) == 16;
    assert Offset(ws, 5) == 20;
    assert Offset(ws, 6) == 24;
    assert Offset(ws, 7) == 28;
    assert Offset(ws, 8) == 30;
    assert Offset(ws, 9) == 32;
    assert Offset(ws, 10) == 36;
    assert Offset(ws, 11) == 37;
    assert Offset(ws, 12) == 38;
    assert Offset(ws, 13) == 40;
    assert Offset(ws, 14) == 44;
    assert Offset(ws, 15) == 45;
    assert Offset(ws, 16) == 46;
    assert Offset(ws, 17) == 47;
    assert Offset(ws, 18) == 48;
  }

  /** bar_n is a u32 field at byte 0x10 + 4n of PCIHeaderType0. */
  lemma {:induction false} BarLayout(n: nat)
    requires n <= 6
    ensures Offset(TYPE0_TAIL, n) == 4 * n
    ensures n < 6 ==> TYPE0_TAIL[n] == 4
  {
    if n > 0 {
      BarLayout(n - 1);
    }
  }

  /** PCIDeviceConfiguration is 16 bytes, with start_bus at offset 10 and
      end_bus at offset 11. */
  lemma DeviceConfigurationLayout()
    ensures Width(DEVICE_CONFIGURATION) == DEVICE_CONFIGURATION_SIZE
    ensures Offset(DEVICE_CONFIGURATION, 2) == 10 && Offset(DEVICE_CONFIGURATION, 3) == 11
  {
    assert Offset(DEVICE_CONFIGURATION, 1) == 8;
    assert Offset(DEVICE_CONFIGURATION, 2) == 10;
    assert Offset(DEVICE_CONFIGURATION, 3) == 11;
    assert Offset(DEVICE_CONFIGURATION, 4) == 12;
    assert Offset(DEVICE_CONFIGURATION, 5) == 16;
  }

  /** MSIXTableEntry is 16 bytes. */
  lemma MsixTableEntryLayout()
    ensures Width(MSIX_TABLE_ENTRY) == MSIX_TABLE_ENTRY_SIZE
  {
    assert Offset(MSIX_TABLE_ENTRY, 1) == 8;
    assert Offset(MSIX_TABLE_ENTRY, 2) == 12;
    assert Offset(MSIX_TABLE_ENTRY, 3) == 16;
  }

  // PCIDeviceHeader

  /** The fields of a device header in declaration order. */
  function DeviceHeaderFields(h: DeviceHeader): seq<nat>
  {
    [h.vendorId, h.deviceId, h.command, h.status, h.revisionId, h.progIf,
     h.subclass, h.classCode, h.cacheLineSize, h.latencyTimer, h.headerType, h.bist]
  }

  /** The device header whose fields, in declaration order, are vs. */
  function MakeDeviceHeader(vs: seq<nat>): DeviceHeader
    requires FitsBytes(DEVICE_HEADER, vs)
  {
    DeviceHeaderRanges(vs);
    DeviceHeader(vs[0], vs[1], vs[2], vs[3], vs[4], vs[5], vs[6], vs[7], vs[8], vs[9], vs[10], vs[11])
  }

  /** The range of each field of a device header. */
  lemma DeviceHeaderRanges(vs: seq<nat>)
    requires FitsBytes(DEVICE_HEADER, vs)
    ensures |vs| == 12
    ensures vs[0] < 0x1_0000 && vs[1] < 0x1_0000 && vs[2] < 0x1_0000 && vs[3] < 0x1_0000
    ensures vs[4] < 0x100 && vs[5] < 0x100 && vs[6] < 0x100 && vs[7] < 0x100
    ensures vs[8] < 0x100 && vs[9] < 0x100 && vs[10] < 0x100 && vs[11] < 0x100
  {
    ByteLimitValues();
  }

  lemma DeviceHeaderFieldsMake(vs: seq<nat>)
    requires FitsBytes(DEVICE_HEADER, vs)
    ensures DeviceHeaderFields(MakeDeviceHeader(vs)) == vs
  {
    DeviceHeaderRanges(vs);
  }

  lemma MakeDeviceHeaderFields(h: DeviceHeader)
    ensures FitsBytes(DEVICE_HEADER, DeviceHeaderFields(h))
    ensures MakeDeviceHeader(DeviceHeaderFields(h)) == h
  {
    ByteLimitValues();
  }

  /** The header `PCIDeviceHeader::from_address` sees in the bytes bs. */
  function DecodeDeviceHeader(bs: seq<u8>): DeviceHeader
    requires |bs| == DEVICE_HEADER_SIZE
  {
    DeviceHeaderLayout();
    MakeDeviceHeader(DecodeFields(DEVICE_HEADER, bs))
  }

  function EncodeDeviceHeader(h: DeviceHeader): (bs: seq<u8>)
    ensures |bs| == DEVICE_HEADER_SIZE
  {
    DeviceHeaderLayout();
    EncodeFields(DEVICE_HEADER, DeviceHeaderFields(h))
  }

  lemma DecodeEncodeDeviceHeader(h: DeviceHeader)
    ensures DecodeDeviceHeader(EncodeDeviceHeader(h)) == h
  {
    DeviceHeaderLayout();
    MakeDeviceHeaderFields(h);
    DecodeEncode(DEVICE_HEADER, DeviceHeaderFields(h));
  }

  lemma EncodeDecodeDeviceHeader(bs: seq<u8>)
    requires |bs| == DEVICE_HEADER_SIZE
    ensures EncodeDeviceHeader(DecodeDeviceHeader(bs)) == bs
  {
    DeviceHeaderLayout();
    DeviceHeaderFieldsMake(DecodeFields(DEVICE_HEADER, bs));
    EncodeDecode(DEVICE_HEADER, bs);
  }

  /** device_id is the little-endian word in bytes 2 and 3 of the header. */
  lemma DeviceIdBytes(bs: seq<u8>)
    requires |bs| == DEVICE_HEADER_SIZE
    ensures DecodeDeviceHeader(bs).deviceId == bs[2] as int + 256 * bs[3] as int
  {
    DeviceHeaderLayout();
    var vs := DecodeFields(DEVICE_HEADER, bs);
    calc {
      DecodeDeviceHeader(bs).deviceId;
      { DeviceHeaderRanges(vs); }
      vs[1];
      { FieldAt(DEVICE_HEADER, bs, 1); }
      LE(bs[2..4]);
      { LETwo(bs[2..4]); }
      bs[2] as int + 256 * bs[3] as int;
    }
  }

  // PCIHeaderType0

  /** The fields of a Type 0 header after its device header. */
  function Type0TailFields(h: HeaderType0): seq<nat>
  {
    [h.bar0, h.bar1, h.bar2, h.bar3, h.bar4, h.bar5, h.cardbusCisPointer,
     h.subsystemVendorId, h.subsystemId, h.expansionRomBaseAddress,
     h.capabilitiesPointer, h.reserved0, h.reserved1, h.reserved2,
     h.interruptLine, h.interruptPin, h.minGrant, h.maxLatency]
  }

  /** The Type 0 header with device header header and remaining fields vs. */
  function MakeHeaderType0(header: DeviceHeader, vs: seq<nat>): HeaderType0
    requires FitsBytes(TYPE0_TAIL, vs)
  {
    Type0TailRanges(vs);
    HeaderType0(header,
      vs[0], vs[1], vs[2], vs[3], vs[4], vs[5], vs[6], vs[7], vs[8],
      vs[9], vs[10], vs[11], vs[12], vs[13], vs[14], vs[15], vs[16], vs[17])
  }

  /** The range of each field of a Type 0 header after its device header. */
  lemma Type0TailRanges(vs: seq<nat>)
    requires FitsBytes(TYPE0_TAIL, vs)
    ensures |vs| == 18
    ensures vs[0] < 0x1_0000_0000 && vs[1] < 0x1_0000_0000 && vs[2] < 0x1_0000_0000
    ensures vs[3] < 0x1_0000_0000 && vs[4] < 0x1_0000_0000 && vs[5] < 0x1_0000_0000
    ensures vs[6] < 0x1_0000_0000 && vs[7] < 0x1_0000 && vs[8] < 0x1_0000
    ensures vs[9] < 0x1_0000_0000 && vs[10] < 0x100 && vs[11] < 0x100
    ensures vs[12] < 0x1_0000 && vs[13] < 0x1_0000_0000 && vs[14] < 0x100
    ensures vs[15] < 0x100 && vs[16] < 0x100 && vs[17] < 0x100
  {
    ByteLimitValues();
  }

  lemma Type0TailFieldsMake(header: DeviceHeader, vs: seq<nat>)
    requires FitsBytes(TYPE0_TAIL, vs)
    ensures MakeHeaderType0(header, vs).header == header
    ensures Type0TailFields(MakeHeaderType0(header, vs)) == vs
  {
    Type0TailRanges(vs);
  }

  lemma MakeHeaderType0Fields(h: HeaderType0)
    ensures FitsBytes(TYPE0_TAIL, Type0TailFields(h))
    ensures MakeHeaderType0(h.header, Type0TailFields(h)) == h
  {
    ByteLimitValues();
  }

  /** The header `From<&PCIDeviceHeader> for &PCIHeaderType0` sees in the
      bytes bs: the device header, then the Type 0 fields. */
  function DecodeHeaderType0(bs: seq<u8>): (h: HeaderType0)
    requires |bs| == TYPE0_SIZE
    ensures h.header == DecodeDeviceHeader(bs[..DEVICE_HEADER_SIZE])
    ensures h.capabilitiesPointer == bs[0x34] && h.interruptLine == bs[0x3C]
  {
    Type0Layout();
    ByteField(TYPE0_TAIL, bs[DEVICE_HEADER_SIZE..], 10);
    ByteField(TYPE0_TAIL, bs[DEVICE_HEADER_SIZE..], 14);
    Type0TailRanges(DecodeFields(TYPE0_TAIL, bs[DEVICE_HEADER_SIZE..]));
    MakeHeaderType0(DecodeDeviceHeader(bs[..DEVICE_HEADER_SIZE]),
      DecodeFields(TYPE0_TAIL, bs[DEVICE_HEADER_SIZE..]))
  }

  function EncodeHeaderType0(h: HeaderType0): (bs: seq<u8>)
    ensures |bs| == TYPE0_SIZE
  {
    Type0Layout();
    EncodeDeviceHeader(h.header) + EncodeFields(TYPE0_TAIL, Type0TailFields(h))
  }

  lemma DecodeEncodeHeaderType0(h: HeaderType0)
    ensures DecodeHeaderType0(EncodeHeaderType0(h)) == h
  {
    Type0Layout();
    var hd, tl := EncodeDeviceHeader(h.header), EncodeFields(TYPE0_TAIL, Type0TailFields(h));
    var bs := hd + tl;
    assert bs[..DEVICE_HEADER_SIZE] == hd && bs[DEVICE_HEADER_SIZE..] == tl;
    DecodeEncodeDeviceHeader(h.header);
    MakeHeaderType0Fields(h);
    DecodeEncode(TYPE0_TAIL, Type0TailFields(h));
  }

  lemma EncodeMakeHeaderType0(header: DeviceHeader, vs: seq<nat>)
    requires FitsBytes(TYPE0_TAIL, vs)
    ensures EncodeHeaderType0(MakeHeaderType0(header, vs))
         == EncodeDeviceHeader(header) + EncodeFields(TYPE0_TAIL, vs)
  {
    Type0TailFieldsMake(header, vs);
  }

  lemma EncodeDecodeHeaderType0(bs: seq<u8>)
    requires |bs| == TYPE0_SIZE
    ensures EncodeHeaderType0(DecodeHeaderType0(bs)) == bs
  {
    Type0Layout();
    var hd, tl := bs[..DEVICE_HEADER_SIZE], bs[DEVICE_HEADER_SIZE..];
    var header, vs := DecodeDeviceHeader(hd), DecodeFields(TYPE0_TAIL, tl);
    calc {
      EncodeHeaderType0(DecodeHeaderType0(bs));
      { EncodeMakeHeaderType0(header, vs); }
      EncodeDeviceHeader(header) + EncodeFields(TYPE0_TAIL, vs);
      { EncodeDecodeDeviceHeader(hd); EncodeDecode(TYPE0_TAIL, tl); }
      hd + tl;
      { SplitJoin(bs, DEVICE_HEADER_SIZE); }
      bs;
    }
  }

  /** bar_n of the header built from vs is its field n. */
  lemma BarAtMake(header: DeviceHeader, vs: seq<nat>, n: nat)
    requires FitsBytes(TYPE0_TAIL, vs) && n < 6
    ensures MakeHeaderType0(header, vs).BarAt(n) == vs[n]
  {
    Type0TailRanges(vs);
  }

  /** bar_n is the little-endian double word at byte 0x10 + 4n of the header. */
  lemma BarBytes(bs: seq<u8>, n: nat)
    requires |bs| == TYPE0_SIZE && n < 6
    ensures DecodeHeaderType0(bs).BarAt(n) == LE(bs[0x10 + 4 * n..0x14 + 4 * n])
  {
    Type0Layout();
    BarLayout(n);
    var tl := bs[DEVICE_HEADER_SIZE..];
    var vs := DecodeFields(TYPE0_TAIL, tl);
    calc {
      DecodeHeaderType0(bs).BarAt(n);
      { BarAtMake(DecodeDeviceHeader(bs[..DEVICE_HEADER_SIZE]), vs, n); }
      vs[n];
      { FieldAt(TYPE0_TAIL, tl, n); }
      LE(tl[4 * n..4 * n + 4]);
      { SliceOfSuffix(bs, DEVICE_HEADER_SIZE, 4 * n, 4 * n + 4); }
      LE(bs[0x10 + 4 * n..0x14 + 4 * n]);
    }
  }

  // PCIDeviceConfiguration

  function DeviceConfigurationFields(c: DeviceConfiguration): seq<nat>
  {
    [c.baseAddress, c.segmentGroup, c.startBus, c.endBus, c.reserved]
  }

  function MakeDeviceConfiguration(vs: seq<nat>): DeviceConfiguration
    requires FitsBytes(DEVICE_CONFIGURATION, vs)
  {
    DeviceConfigurationRanges(vs);
    DeviceConfiguration(vs[0], vs[1], vs[2], vs[3], vs[4])
  }

  /** The range of each field of an MCFG region record. */
  lemma DeviceConfigurationRanges(vs: seq<nat>)
    requires FitsBytes(DEVICE_CONFIGURATION, vs)
    ensures |vs| == 5
    ensures vs[0] < 0x1_0000_0000_0000_0000 && vs[1] < 0x1_0000 && vs[2] < 0x100
    ensures vs[3] < 0x100 && vs[4] < 0x1_0000_0000
  {
    ByteLimitValues();
  }

  lemma DeviceConfigurationFieldsMake(vs: seq<nat>)
    requires FitsBytes(DEVICE_CONFIGURATION, vs)
    ensures DeviceConfigurationFields(MakeDeviceConfiguration(vs)) == vs
  {
    DeviceConfigurationRanges(vs);
  }

  lemma MakeDeviceConfigurationFields(c: DeviceConfiguration)
    ensures FitsBytes(DEVICE_CONFIGURATION, DeviceConfigurationFields(c))
    ensures MakeDeviceConfiguration(DeviceConfigurationFields(c)) == c
  {
    ByteLimitValues();
  }

  /** The record a `&PCIDeviceConfiguration` points at in the bytes bs. */
  function DecodeDeviceConfiguration(bs: seq<u8>): DeviceConfiguration
    requires |bs| == DEVICE_CONFIGURATION_SIZE
  {
    DeviceConfigurationLayout();
    MakeDeviceConfiguration(DecodeFields(DEVICE_CONFIGURATION, bs))
  }

  function EncodeDeviceConfiguration(c: DeviceConfiguration): (bs: seq<u8>)
    ensures |bs| == DEVICE_CONFIGURATION_SIZE
  {
    DeviceConfigurationLayout();
    EncodeFields(DEVICE_CONFIGURATION, DeviceConfigurationFields(c))
  }

  lemma DecodeEncodeDeviceConfiguration(c: DeviceConfiguration)
    ensures DecodeDeviceConfiguration(EncodeDeviceConfiguration(c)) == c
  {
    DeviceConfigurationLayout();
    MakeDeviceConfigurationFields(c);
    DecodeEncode(DEVICE_CONFIGURATION, DeviceConfigurationFields(c));
  }

  lemma EncodeDecodeDeviceConfiguration(bs: seq<u8>)
    requires |bs| == DEVICE_CONFIGURATION_SIZE
    ensures EncodeDeviceConfiguration(DecodeDeviceConfiguration(bs)) == bs
  {
    DeviceConfigurationLayout();
    DeviceConfigurationFieldsMake(DecodeFields(DEVICE_CONFIGURATION, bs));
    EncodeDecode(DEVICE_CONFIGURATION, bs);
  }

  // MSIXTableEntry

  function MsixTableEntryFields(e: MsixTableEntry): seq<nat>
  {
    [e.messageAddress, e.messageData, e.vectorControl]
  }

  function MakeMsixTableEntry(vs: seq<nat>): MsixTableEntry
    requires FitsBytes(MSIX_TABLE_ENTRY, vs)
  {
    MsixTableEntryRanges(vs);
    MsixTableEntry(vs[0], vs[1], vs[2])
  }

  /** The range of each field of an MSI-X table entry. */
  lemma MsixTableEntryRanges(vs: seq<nat>)
    requires FitsBytes(MSIX_TABLE_ENTRY, vs)
    ensures |vs| == 3
    ensures vs[0] < 0x1_0000_0000_0000_0000 && vs[1] < 0x1_0000_0000 && vs[2] < 0x1_0000_0000
  {
    ByteLimitValues();
  }

  lemma MsixTableEntryFieldsMake(vs: seq<nat>)
    requires FitsBytes(MSIX_TABLE_ENTRY, vs)
    ensures MsixTableEntryFields(MakeMsixTableEntry(vs)) == vs
  {
    MsixTableEntryRanges(vs);
  }

  lemma MakeMsixTableEntryFields(e: MsixTableEntry)
    ensures FitsBytes(MSIX_TABLE_ENTRY, MsixTableEntryFields(e))
    ensures MakeMsixTableEntry(MsixTableEntryFields(e)) == e
  {
    ByteLimitValues();
  }

  /** The entry `*table.offset(i)` reads from the bytes bs. */
  function DecodeMsixTableEntry(bs: seq<u8>): MsixTableEntry
    requires |bs| == MSIX_TABLE_ENTRY_SIZE
  {
    MsixTableEntryLayout();
    MakeMsixTableEntry(DecodeFields(MSIX_TABLE_ENTRY, bs))
  }

  function EncodeMsixTableEntry(e: MsixTableEntry): (bs: seq<u8>)
    ensures |bs| == MSIX_TABLE_ENTRY_SIZE
  {
    MsixTableEntryLayout();
    EncodeFields(MSIX_TABLE_ENTRY, MsixTableEntryFields(e))
  }

  lemma DecodeEncodeMsixTableEntry(e: MsixTableEntry)
    ensures DecodeMsixTableEntry(EncodeMsixTableEntry(e)) == e
  {
    MsixTableEntryLayout();
    MakeMsixTableEntryFields(e);
    DecodeEncode(MSIX_TABLE_ENTRY, MsixTableEntryFields(e));
  }

  lemma EncodeDecodeMsixTableEntry(bs: seq<u8>)
    requires |bs| == MSIX_TABLE_ENTRY_SIZE
    ensures EncodeMsixTableEntry(DecodeMsixTableEntry(bs)) == bs
  {
    MsixTableEntryLayout();
    MsixTableEntryFieldsMake(DecodeFields(MSIX_TABLE_ENTRY, bs));
    EncodeDecode(MSIX_TABLE_ENTRY, bs);
  }
}
