# NeutrinoCoreOS kernel core in Dafny

This project models three pieces of the NeutrinoCoreOS x86_64 kernel and proves properties about them.

**PCI Express configuration space** (`pci/mod.rs`)
- The packed layouts of `PCIDeviceHeader`, `PCIHeaderType0`, `PCIDeviceConfiguration` (one MCFG record) and `MSIXTableEntry`. Each has a decoder from bytes, an encoder back to bytes, and both round trips proved.
- The `BAR` bit field, the MSI-X capability bit field and its `table_offset` / `pending_bit_offset` accessors.
- `MSIXCapability::init`, and the `bar_to_struct` / `bar_to_struct_64` address arithmetic.
- The four lazy iterators that walk configuration space through ECAM (PCI Express Base Specification 3.0, section 7.2.2): MCFG records, then buses, then devices, then functions.
  - Each iterator is a class whose `Next` method mutates its cursor.
  - Each is specified against a function listing what it still has to yield.
- Configuration space is a parameter `mem: nat -> u8`: the byte at each virtual address.

**VGA text-mode console** (`vga_textmode/mod.rs`)
- A 4000-byte buffer (80 x 25 cells, each a character byte and a colour byte) written in place under an `offset` cursor.
- `WriteOne` is specified against the pure function `Written`, `Scroll` against `Scrolled`, and `ClearScreen` and `InitDevice` against `Blank`.
- `SetColor`, `ShiftRows`, `CopyRowUp` and `BlankLastRow` state their new buffer index by index, in terms of the old one.

**Resource paths** (`namespace.rs`)
- `split_resource_path`, `concat_resource_path` and the default `Resource::resource_path_string`, on strings of `char`.

## Representation choices

- **Integers and addresses.** `u8` .. `u64` are integer subset types. Addresses are unbounded naturals.
- **Bit fields.** A `#[bitfield]` struct is a list of field widths, least significant first, read by `Bitfield.Unpack` and written by `Bitfield.Pack`. `with_<field>` is `Bitfield.With`.
- **Packed structs.** A `#[repr(C, packed)]` struct is a list of field sizes in bytes, decoded little-endian by `Packed.DecodeFields`.
- **Underflow.** An unsigned subtraction that would underflow panics in a debug build. It is modelled as an explicit failure result, with the state reached at that point:
  - `Checked.Underflow` for the MCFG length;
  - `ok == false` for the VGA backspace.
- **`PHYSICAL_MEMORY_OFFSET`** is the parameter `pmo`.

## Model

| member | source | states |
|---|---|---|
| Bitfield.PackUnpack | kernel/src/dev/hal/x86_64/pci/mod.rs:229-237 | repacking the fields of a value below 2^width gives the value back |
| Bitfield.UnpackPack | kernel/src/dev/hal/x86_64/pci/mod.rs:229-237 | unpacking packed in-range fields gives the fields back |
| Bitfield.UnpackAt | kernel/src/dev/hal/x86_64/pci/mod.rs:255-269 | field i is the bits from its offset (the sum of the earlier widths) for its width |
| Bitfield.With | kernel/src/dev/hal/x86_64/pci/mod.rs:287 | replacing one field yields an in-range value whose fields are the old ones with only that field changed |
| Packed.Read | kernel/src/dev/hal/x86_64/pci/mod.rs:26-28 | size bytes, byte i being the memory at address + i |
| Packed.ReadU32 | kernel/src/dev/hal/x86_64/pci/mod.rs:291-292 | a u32 load is the little-endian value of the four bytes at the address |
| Packed.LEToLE | kernel/src/dev/hal/x86_64/pci/mod.rs:8-9 | decoding the n-byte little-endian encoding of a value below 256^n gives the value |
| Packed.ToLELE | kernel/src/dev/hal/x86_64/pci/mod.rs:8-9 | encoding the little-endian value of some bytes gives the bytes |
| Packed.FieldAt | kernel/src/dev/hal/x86_64/pci/mod.rs:8-9 | field i of a packed struct is the little-endian value of its bytes, which start at the sum of the earlier sizes |
| Packed.DecodeEncode | kernel/src/dev/hal/x86_64/pci/mod.rs:8-9 | decoding the encoding of in-range field values gives them back |
| Packed.EncodeDecode | kernel/src/dev/hal/x86_64/pci/mod.rs:8-9 | encoding the decoded fields of a struct's bytes gives the bytes back |
| PciHeader.DeviceHeaderLayout | kernel/src/dev/hal/x86_64/pci/mod.rs:10-23 | PCIDeviceHeader is 16 bytes; device_id at offset 2, command 4, status 6, header_type 0x0E |
| PciHeader.Type0Layout | kernel/src/dev/hal/x86_64/pci/mod.rs:33-53 | PCIHeaderType0 is 64 bytes; capabilities_pointer at 0x34, interrupt_line at 0x3C |
| PciHeader.BarLayout | kernel/src/dev/hal/x86_64/pci/mod.rs:35-40 | bar_n is a 4-byte field at 4n past the device header |
| PciHeader.DeviceConfigurationLayout | kernel/src/dev/hal/x86_64/pci/mod.rs:149-155 | PCIDeviceConfiguration is 16 bytes; start_bus at 10, end_bus at 11 |
| PciHeader.MsixTableEntryLayout | kernel/src/dev/hal/x86_64/pci/mod.rs:249-253 | MSIXTableEntry is 16 bytes |
| PciHeader.DecodeEncodeDeviceHeader | kernel/src/dev/hal/x86_64/pci/mod.rs:10-28 | decoding the bytes of a device header gives the header back |
| PciHeader.EncodeDecodeDeviceHeader | kernel/src/dev/hal/x86_64/pci/mod.rs:10-28 | every 16 bytes are the encoding of the header decoded from them |
| PciHeader.DeviceIdBytes | kernel/src/dev/hal/x86_64/pci/mod.rs:12 | device_id is the little-endian word in bytes 2 and 3 |
| PciHeader.DecodeEncodeHeaderType0 | kernel/src/dev/hal/x86_64/pci/mod.rs:33-59 | decoding the bytes of a Type 0 header gives the header back |
| PciHeader.EncodeDecodeHeaderType0 | kernel/src/dev/hal/x86_64/pci/mod.rs:33-59 | every 64 bytes are the encoding of the Type 0 header decoded from them |
| PciHeader.DecodeHeaderType0 | kernel/src/dev/hal/x86_64/pci/mod.rs:55-59 | the header part is the device header of the first 16 bytes; capabilities_pointer is byte 0x34 and interrupt_line byte 0x3C |
| PciHeader.BarBytes | kernel/src/dev/hal/x86_64/pci/mod.rs:35-40 | bar_n of a decoded Type 0 header is the little-endian u32 at bytes 0x10 + 4n .. 0x13 + 4n |
| PciHeader.DecodeEncodeDeviceConfiguration | kernel/src/dev/hal/x86_64/pci/mod.rs:149-155 | decoding the bytes of an MCFG record gives the record back |
| PciHeader.EncodeDecodeDeviceConfiguration | kernel/src/dev/hal/x86_64/pci/mod.rs:149-155 | every 16 bytes are the encoding of the record decoded from them |
| PciHeader.DecodeEncodeMsixTableEntry | kernel/src/dev/hal/x86_64/pci/mod.rs:249-253 | decoding the bytes of a table entry gives the entry back |
| PciHeader.EncodeDecodeMsixTableEntry | kernel/src/dev/hal/x86_64/pci/mod.rs:249-253 | every 16 bytes are the encoding of the entry decoded from them |
| PciBar.BarLayout | kernel/src/dev/hal/x86_64/pci/mod.rs:232-237 | the BAR fields fill 32 bits, at bits 0, 1, 3 and 4 |
| PciBar.DecodeEncodeBar | kernel/src/dev/hal/x86_64/pci/mod.rs:232-245 | viewing the register built from a BAR gives the BAR back |
| PciBar.EncodeDecodeBar | kernel/src/dev/hal/x86_64/pci/mod.rs:232-245 | repacking the fields of a register's BAR view reproduces the register |
| PciBar.DecodeBar | kernel/src/dev/hal/x86_64/pci/mod.rs:232-245 | `BAR::from(&reg)`: space is bit 0, bar_type bits 1-2, prefetchable bit 3, address bits 4-31 of the register |
| PciBar.MaskFlags | kernel/src/dev/hal/x86_64/pci/mod.rs:293 | `bar & 0xFFFFFFF0` is 16-byte aligned and within 15 below the register |
| PciBar.MaskFlagsAddress | kernel/src/dev/hal/x86_64/pci/mod.rs:293 | the masked register is 16 times the BAR's address field |
| PciBar.BarToStruct | kernel/src/dev/hal/x86_64/pci/mod.rs:304-308 | the virtual address is the offset plus 16 times the BAR's address field plus its four flag bits, which are not masked off |
| PciBar.BarToStruct64 | kernel/src/dev/hal/x86_64/pci/mod.rs:310-316 | the virtual address is the 64-bit value of the two registers, flag bits included, plus the offset |
| PciBar.Bar64 | kernel/src/dev/hal/x86_64/pci/mod.rs:312 | `(bar_h << 32) \| bar_l` is the u64 whose low 32 bits are bar_l and whose high 32 bits are bar_h |
| PciBar.Bar64Words | kernel/src/dev/hal/x86_64/pci/mod.rs:312 | unpacked as two 32-bit fields, the 64-bit value gives [bar_l, bar_h] |
| PciBar.BarToStruct64Low | kernel/src/dev/hal/x86_64/pci/mod.rs:304-316 | with a zero high register the 64-bit form agrees with bar_to_struct |
| PciMsix.MsixLayout | kernel/src/dev/hal/x86_64/pci/mod.rs:258-269 | the capability is 96 bits; table_size at bit 16, enable 31, bir 32, table offset 35, pending-bit offset 67 |
| PciMsix.MsixFieldBits | kernel/src/dev/hal/x86_64/pci/mod.rs:258-269 | table_size, enable, bir and the table-offset field are those bit ranges of the 96-bit value |
| PciMsix.BarRegister | kernel/src/dev/hal/x86_64/pci/mod.rs:288 | for bir below 6, the register read is at the offset of bar_bir in the Type 0 layout: the 16-byte device header plus the fields before bar_bir |
| PciMsix.BarRegisterIsBar | kernel/src/dev/hal/x86_64/pci/mod.rs:287-289 | for bir below 6 that register is bar_bir of the Type 0 header at header_addr |
| PciMsix.MsixCapability.FromBytes | kernel/src/dev/hal/x86_64/pci/mod.rs:272-276 | `MSIXCapability::from_address`: the capability's bits are the little-endian value of its twelve bytes, and it is Valid (below 2^96) |
| PciMsix.MsixCapability.Fields | kernel/src/dev/hal/x86_64/pci/mod.rs:258-269 | every field fits its width |
| PciMsix.MsixCapability.TableSize | kernel/src/dev/hal/x86_64/pci/mod.rs:261 | table_size is an 11-bit value |
| PciMsix.MsixCapability.Bir | kernel/src/dev/hal/x86_64/pci/mod.rs:265 | bir is a 3-bit value |
| PciMsix.MsixCapability.PendingBitBir | kernel/src/dev/hal/x86_64/pci/mod.rs:267 | pending_bit_bir is a 3-bit value |
| PciMsix.MsixCapability.TableOffset | kernel/src/dev/hal/x86_64/pci/mod.rs:278-280 | the offset is its 29-bit field times 8: divisible by 8, below 2^32 (no u32 overflow) |
| PciMsix.MsixCapability.PendingBitOffset | kernel/src/dev/hal/x86_64/pci/mod.rs:282-284 | the same for the pending-bit offset |
| PciMsix.MsixCapability.Init | kernel/src/dev/hal/x86_64/pci/mod.rs:286-301 | sets enable and leaves every other field; table address = masked bar_l + (bar_h << 32) + table_offset + offset; reads exactly table_size entries, entry i at table + 16i |
| PciMsix.ReadTable | kernel/src/dev/hal/x86_64/pci/mod.rs:297-299 | n entries, the i-th decoded from the 16 bytes at table + 16i |
| PciEnum.DeviceIdAt | kernel/src/dev/hal/x86_64/pci/mod.rs:84 | the probe's device_id is the little-endian u16 of the two bytes at offset 2 |
| PciEnum.DeviceIdAtHeader | kernel/src/dev/hal/x86_64/pci/mod.rs:83-84 | the probe reads the device_id field of the header at the address |
| PciEnum.LiveSlots | kernel/src/dev/hal/x86_64/pci/mod.rs:81-93 | at most limit - from slots remain to be yielded |
| PciEnum.LiveSlotsSound | kernel/src/dev/hal/x86_64/pci/mod.rs:81-93 | every listed slot is in range and its device_id is neither 0 nor 0xFFFF |
| PciEnum.LiveSlotsIncreasing | kernel/src/dev/hal/x86_64/pci/mod.rs:81-93 | the slots are listed in strictly increasing order |
| PciEnum.LiveSlotsComplete | kernel/src/dev/hal/x86_64/pci/mod.rs:81-93 | every populated slot in range is listed |
| PciEnum.ScanLive | kernel/src/dev/hal/x86_64/pci/mod.rs:81-93 | the scan stops at the first remaining populated slot, leaving the rest; or past the end when there is none |
| PciEnum.DeviceIterator.constructor | kernel/src/dev/hal/x86_64/pci/mod.rs:113-116 | a device iterator starts at function 0 |
| PciEnum.DeviceIterator.Next | kernel/src/dev/hal/x86_64/pci/mod.rs:80-95 | yields device_address + (f << 12) for the next populated function f and drops it from the remaining ones; None (and nothing left, for ever) once none remain, with the cursor past function 7 |
| PciEnum.BusIterator.constructor | kernel/src/dev/hal/x86_64/pci/mod.rs:136-139 | a bus iterator starts at the given bus address, device 0 |
| PciEnum.BusIterator.Next | kernel/src/dev/hal/x86_64/pci/mod.rs:106-122 | yields a fresh device iterator at bus_address + (d << 15), function 0, for the next populated device d; None once none remain, with the cursor past device 31 |
| PciEnum.BusAddresses | kernel/src/dev/hal/x86_64/pci/mod.rs:137 | end - cur addresses, the k-th base + ((cur + k) << 20), strictly increasing |
| PciEnum.ConfigurationIterator.FromConfiguration | kernel/src/dev/hal/x86_64/pci/mod.rs:160-166 | base address plus the offset, start and end bus of the record |
| PciEnum.ConfigurationIterator.Next | kernel/src/dev/hal/x86_64/pci/mod.rs:134-144 | yields a bus iterator for every bus below end_bus with no probe, at the next bus address and device 0; the u8 bus counter does not overflow |
| PciEnum.EntryCount | kernel/src/dev/hal/x86_64/pci/mod.rs:196 | underflow exactly when length < 44; otherwise the number of whole 16-byte records after the 44-byte header |
| PciEnum.RecordAddresses | kernel/src/dev/hal/x86_64/pci/mod.rs:218-226 | the k-th record visited is at address + 16k, below the end |
| PciEnum.RecordCount | kernel/src/dev/hal/x86_64/pci/mod.rs:218-226 | the iterator visits ceil((end - address) / 16) records |
| PciEnum.McfgIterator.constructor | kernel/src/dev/hal/x86_64/pci/mod.rs:197-200 | an MCFG iterator holds the given start and end addresses |
| PciEnum.McfgIterator.Next | kernel/src/dev/hal/x86_64/pci/mod.rs:218-226 | yields the next record address and steps 16 bytes; None at the end |
| PciEnum.McfgIntoIter | kernel/src/dev/hal/x86_64/pci/mod.rs:194-201 | fails exactly on underflow; starts after the 44-byte table and ends at start + entry count |
| PciEnum.McfgRecordsAsWritten | kernel/src/dev/hal/x86_64/pci/mod.rs:196-199 | as written, only ceil(entries / 16) records are visited |
| PciEnum.McfgTwoRecords | kernel/src/dev/hal/x86_64/pci/mod.rs:196-199 | a table of length 76 has 2 entries and only one is visited |
| PciEnum.McfgIntoIterCorrected | kernel/src/dev/hal/x86_64/pci/mod.rs:194-201 | the end address is start + 16 * entries |
| PciEnum.McfgRecordsCorrected | kernel/src/dev/hal/x86_64/pci/mod.rs:194-226 | with that end every record is visited once, the k-th at start + 16k |
| VgaText.ColorCode | kernel/src/dev/char/vga_textmode/mod.rs:14-16 | for a foreground below 16 the low nibble is the foreground and the high nibble the low nibble of the background |
| VgaText.ColorCodeNibbles | kernel/src/dev/char/vga_textmode/mod.rs:14-16 | for colours below 16 the low nibble is the foreground and the high nibble the background |
| VgaText.CalcOffset | kernel/src/dev/char/vga_textmode/mod.rs:39-41 | for x below WIDTH the offset is in row y at column x |
| VgaText.BlankRow | kernel/src/dev/char/vga_textmode/mod.rs:98-103 | a row of spaces in the colour |
| VgaText.Blank | kernel/src/dev/char/vga_textmode/mod.rs:123-133 | 4000 bytes, spaces at even positions and the colour at odd ones |
| VgaText.Scrolled | kernel/src/dev/char/vga_textmode/mod.rs:90-104 | each byte above the last row takes the byte one row below; the last row is blank |
| VgaText.Written | kernel/src/dev/char/vga_textmode/mod.rs:73-105 | the screen after one write keeps the offset even and at most 3998 |
| VgaText.Advance | kernel/src/dev/char/vga_textmode/mod.rs:88-105 | the cursor moves one cell on before the last cell; on the last cell the rows move up one, the last row becomes blank and the cursor goes to the start of the last row; an even cursor stays valid |
| VgaText.NewlineEffect | kernel/src/dev/char/vga_textmode/mod.rs:75-89 | a newline leaves the buffer and moves to the start of the next row, or scrolls on the last row |
| VgaText.CharEffect | kernel/src/dev/char/vga_textmode/mod.rs:83-89 | an ordinary byte is stored at the cursor with the colour next to it, then the cursor advances or the screen scrolls |
| VgaText.BackspaceErases | kernel/src/dev/char/vga_textmode/mod.rs:78-89 | a character then a backspace leaves its cell blank and the cursor where it was |
| VgaText.FirstCellBackspace | kernel/src/dev/char/vga_textmode/mod.rs:78-82 | at offset 2 the code underflows although there is a cell to erase |
| VgaText.VgaTextMode.constructor | kernel/src/dev/char/vga_textmode/mod.rs:29-37 | cursor at 0, white on black |
| VgaText.VgaTextMode.SetColor | kernel/src/dev/char/vga_textmode/mod.rs:135-137 | only the colour changes; the buffer and offset are untouched |
| VgaText.VgaTextMode.ClearScreen | kernel/src/dev/char/vga_textmode/mod.rs:123-133 | the buffer becomes blank in the current colour and the offset is 0 |
| VgaText.VgaTextMode.InitDevice | kernel/src/dev/char/vga_textmode/mod.rs:57-61 | white on black and a blank screen |
| VgaText.VgaTextMode.Scroll | kernel/src/dev/char/vga_textmode/mod.rs:90-104 | the buffer becomes its scrolled contents |
| VgaText.VgaTextMode.ShiftRows | kernel/src/dev/char/vga_textmode/mod.rs:91-97 | rows 0 .. 23 take the old contents of the row below; the last row is unchanged |
| VgaText.VgaTextMode.CopyRowUp | kernel/src/dev/char/vga_textmode/mod.rs:92-96 | row y - 1 takes the old row y and nothing else changes |
| VgaText.VgaTextMode.BlankLastRow | kernel/src/dev/char/vga_textmode/mod.rs:98-103 | the last row becomes blank and nothing above it changes |
| VgaText.VgaTextMode.WriteOne | kernel/src/dev/char/vga_textmode/mod.rs:73-108 | fails exactly on the backspace underflow; otherwise the new screen is Written of the old; the cursor stays valid |
| Namespace.Pieces | kernel/src/namespace.rs:50 | split("/") gives at least one piece, none containing "/" |
| Namespace.JoinPieces | kernel/src/namespace.rs:50 | joining the pieces with "/" gives the string back |
| Namespace.NonEmpty | kernel/src/namespace.rs:50 | the filter keeps only non-empty strings |
| Namespace.NonEmptyFrom | kernel/src/namespace.rs:50 | every string kept is one of the input |
| Namespace.SplitResourcePath | kernel/src/namespace.rs:49-51 | no component is empty or contains "/" |
| Namespace.FlattenPieces | kernel/src/namespace.rs:50 | the pieces, concatenated, are the string without its separators |
| Namespace.FlattenNonEmpty | kernel/src/namespace.rs:50 | dropping empty strings does not change the concatenation |
| Namespace.SplitKeepsOrder | kernel/src/namespace.rs:49-51 | the components in order spell the path without its separators |
| Namespace.ConcatResourcePath | kernel/src/namespace.rs:53-55 | empty exactly for no components; otherwise starts with "/"; at least one character per component |
| Namespace.ConcatLength | kernel/src/namespace.rs:53-55 | the length is the sum of the component lengths plus one per component |
| Namespace.PiecesPrefix | kernel/src/namespace.rs:50 | a slash-free prefix extends the first piece |
| Namespace.ConcatFirstPiece | kernel/src/namespace.rs:53-55 | a concatenated path starts with an empty piece |
| Namespace.SplitConcat | kernel/src/namespace.rs:49-55 | split of concat is the identity on non-empty, slash-free components |
| Namespace.NormalizeIdempotent | kernel/src/namespace.rs:49-55 | split-then-concat applied twice equals applying it once |
| Namespace.ResourcePathString | kernel/src/namespace.rs:13-19 | the loop builds concat_resource_path of the resource path |

## Left out

- **Wrap-around.** The u64 and usize wrap-around of address sums is not modelled, because addresses are unbounded naturals. The source never adds enough to wrap on real configuration-space addresses.
- **Memory-mapped I/O.** Raw pointer loads and MMIO volatility are left out. Memory is a pure function from address to byte, so a read never changes memory and two reads agree. The MSI-X capability is a separate object from the memory its BARs are read from, so aliasing between them is not modelled.
- **`PHYSICAL_MEMORY_OFFSET`** is a static set at boot. Here it is the parameter `pmo`.
- **`serial_println!` output** in `init` and `bar_to_struct_64` is output only and is dropped.
- **VGA port I/O.** `move_cursor` and `disable_cursor` are port writes and are left out.
- **The `unwrap()` panics** of `from_address` and `as_ref` are not modelled: the addresses are taken as mapped.
- **Panic state.** The VGA backspace underflow panics in a debug build. `WriteOne` instead returns false, with the buffer and offset at the point of the trap. Release-build wrap-around is not modelled.
- **`ACPITable`** is not part of this model. Its header is taken as the standard 36-byte ACPI header, so `size_of::<MCFGTable>()` is 44.
- **`ConsoleColor`** is not part of this model. White and black are taken as the standard palette indices 15 and 0.
- **Not part of this model:** the `modular_bitfield` macro, the `pci::id` submodule and any capability-list walk. Bit layouts are written out directly.
- **Trait plumbing** (`Device`, `fmt::Write`, `ConsoleDevice::buffer_size`) is not modelled. The resource's `resource_path` is a parameter of `ResourcePathString`.
- **The namespace tree** is left out: the `NAMESPACE` static, the `Tree` operations and the `get_resource*` / `subtree*` lookups.
- PciMsix.MsixCapability.Init: `with_enable` is specified at the level of fields: the enable field becomes 1 and the rest are unchanged. Only the enable field's bit position is stated (`MsixFieldBits`); there is no bit-level statement of the whole new value.
- PciEnum.BusIterator.Next: as in the code, only function 0 of each device is probed, and buses themselves are not probed at all.
- PciMsix.MsixCapability.Init: as in the code, it walks the raw `table_size` field (N - 1 in the MSI-X encoding), so the last vector is never read. It also always reads the high BAR half at +4, even for a 32-bit BAR.

## Findings

| source | as written | input that shows it | evidently intended | confidence | as-written member | corrected member |
|---|---|---|---|---|---|---|
| kernel/src/dev/hal/x86_64/pci/mod.rs:199 | `end_address = address + entries` adds the record count to a byte address | an MCFG length of 76 (two records): the iterator yields only the first | `end_address = address + entries * 16`, so that every record is yielded | not executed | PciEnum.McfgRecordsAsWritten | PciEnum.McfgRecordsCorrected |
| kernel/src/dev/char/vga_textmode/mod.rs:78-82 | backspace steps back 2, writes a space, which steps forward 2, then steps back 4; this underflows at offset 2 | a backspace right after the first character (offset 2) panics instead of erasing it | erase the previous cell whenever the offset is at least 2 | not executed | VgaText.FirstCellBackspace | VgaText.BackspaceErases |
