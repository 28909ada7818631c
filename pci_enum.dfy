/** Enumeration of PCI Express configuration space through the ECAM regions
    of the MCFG table (PCI Express Base Specification 3.0, section 7.2.2):
    bus b, device d, function f of a region lives at
    base + (b << 20) + (d << 15) + (f << 12).  Four nested lazy iterators walk
    MCFG records, buses, devices and functions. */
module PciEnum {
  import opened Packed
  import opened PciHeader

  datatype Option<T> = None | Some(value: T)

  /** `1 << 12`, `1 << 15`, `1 << 20`: the distance between functions,
      devices and buses in the ECAM window. */
  const FUNCTION_STRIDE: nat := 0x1000
  const DEVICE_STRIDE: nat := 0x8000
  const BUS_STRIDE: nat := 0x10_0000

  const FUNCTIONS_PER_DEVICE: nat := 8
  const DEVICES_PER_BUS: nat := 32

  /** The device header at address a of configuration space. */
  function HeaderAt(mem: Memory, a: nat): DeviceHeader
  {
    DeviceHeaderLayout();
    DecodeDeviceHeader(Read(mem, a, DEVICE_HEADER_SIZE))
  }

  /** The device_id register of the header at address a: the
      little-endian u16 at offset 2. */
  function DeviceIdAt(mem: Memory, a: nat): (id: u16)
    ensures id == LE(Read(mem, a + 2, 2))
  {
    LETwo(Read(mem, a + 2, 2));
    mem(a + 2) as int + 256 * mem(a + 3) as int
  }

  /** The device_id register is the header's deviceId field. */
  lemma DeviceIdAtHeader(mem: Memory, a: nat)
    ensures DeviceIdAt(mem, a) == HeaderAt(mem, a).deviceId
  {
    DeviceHeaderLayout();
    DeviceIdBytes(Read(mem, a, DEVICE_HEADER_SIZE));
  }

  /** A slot is populated unless its device_id reads as 0 or 0xFFFF. */
  predicate IsLive(mem: Memory, a: nat)
  {
    DeviceIdAt(mem, a) != 0 && DeviceIdAt(mem, a) != 0xFFFF
  }

  /** The populated slots with index in from .. limit - 1, in increasing
      order, where slot i is at base + stride * i. */
  function LiveSlots(mem: Memory, base: nat, stride: nat, limit: nat, from: nat): (slots: seq<nat>)
    ensures from <= limit ==> |slots| <= limit - from
    decreases limit - from
  {
    if from >= limit then []
    else if IsLive(mem, base + stride * from) then [from] + LiveSlots(mem, base, stride, limit, from + 1)
    else LiveSlots(mem, base, stride, limit, from + 1)
  }

  /** The scan both iterators' `next` performs: starting at slot from, skip
      slots until a populated one.  The result is that slot, or the place the
      scan stopped at when there is none (limit, or from if it is already
      past the limit). */
  method ScanLive(mem: Memory, base: nat, stride: nat, limit: nat, from: nat) returns (slot: nat)
    ensures slot < limit ==>
              LiveSlots(mem, base, stride, limit, from) != []
              && slot == LiveSlots(mem, base, stride, limit, from)[0]
              && LiveSlots(mem, base, stride, limit, slot + 1) == LiveSlots(mem, base, stride, limit, from)[1..]
    ensures slot >= limit ==>
              LiveSlots(mem, base, stride, limit, from) == []
              && slot == (if from < limit then limit else from)
  {
    slot := from;
    while slot < limit && !IsLive(mem, base + stride * slot)
      invariant from <= slot
      invariant from < limit ==> slot <= limit
      invariant from >= limit ==> slot == from
      invariant LiveSlots(mem, base, stride, limit, slot) == LiveSlots(mem, base, stride, limit, from)
      decreases limit - slot
    {
      slot := slot + 1;
    }
  }

  /** Only populated slots in range are listed. */
  lemma {:induction false} LiveSlotsSound(mem: Memory, base: nat, stride: nat, limit: nat, from: nat)
    ensures forall k :: 0 <= k < |LiveSlots(mem, base, stride, limit, from)| ==>
              from <= LiveSlots(mem, base, stride, limit, from)[k] < limit
              && IsLive(mem, base + stride * LiveSlots(mem, base, stride, limit, from)[k])
    decreases limit - from
  {
    if from < limit {
      LiveSlotsSound(mem, base, stride, limit, from + 1);
    }
  }

  /** The slots are listed in increasing order. */
  lemma {:induction false} LiveSlotsIncreasing(mem: Memory, base: nat, stride: nat, limit: nat, from: nat)
    ensures forall j, k :: 0 <= j < k < |LiveSlots(mem, base, stride, limit, from)| ==>
              LiveSlots(mem, base, stride, limit, from)[j] < LiveSlots(mem, base, stride, limit, from)[k]
    decreases limit - from
  {
    if from < limit {
      LiveSlotsIncreasing(mem, base, stride, limit, from + 1);
      LiveSlotsSound(mem, base, stride, limit, from + 1);
    }
  }

  /** Every populated slot in range is listed. */
  lemma {:induction false} LiveSlotsComplete(mem: Memory, base: nat, stride: nat, limit: nat, from: nat, i: nat)
    requires from <= i < limit && IsLive(mem, base + stride * i)
    ensures i in LiveSlots(mem, base, stride, limit, from)
    decreases i - from
  {
    if from < i {
      LiveSlotsComplete(mem, base, stride, limit, from + 1, i);
    }
  }

  /** A `PCIFunction`: the configuration-space address of one function. */
  datatype PciFunction = PciFunction(functionAddress: nat)

  /** `PCIDeviceIterator`: the functions of one device. */
  class DeviceIterator {
    var deviceAddress: nat
    var currentFunction: nat

    constructor (deviceAddress: nat)
      ensures this.deviceAddress == deviceAddress && currentFunction == 0
    {
      this.deviceAddress := deviceAddress;
      currentFunction := 0;
    }

    /** The function numbers still to be yielded. */
    function Remaining(mem: Memory): seq<nat>
      reads this
    {
      LiveSlots(mem, deviceAddress, FUNCTION_STRIDE, FUNCTIONS_PER_DEVICE, currentFunction)
    }

    /** `next`: skip empty functions and yield the next populated one. */
    method Next(mem: Memory) returns (r: Option<PciFunction>)
      modifies this
      ensures deviceAddress == old(deviceAddress)
      ensures old(Remaining(mem)) == [] <==> r == None
      ensures old(Remaining(mem)) == [] ==> Remaining(mem) == []
      ensures r.None? ==> currentFunction >= FUNCTIONS_PER_DEVICE
      ensures r.Some? ==> old(Remaining(mem)) != [] && r.value.functionAddress == deviceAddress + FUNCTION_STRIDE * old(Remaining(mem))[0]
      ensures r.Some? ==> Remaining(mem) == old(Remaining(mem))[1..]
    {
      var slot := ScanLive(mem, deviceAddress, FUNCTION_STRIDE, FUNCTIONS_PER_DEVICE, currentFunction);
      if slot < FUNCTIONS_PER_DEVICE {
        r := Some(PciFunction(deviceAddress + FUNCTION_STRIDE * slot));
        currentFunction := slot + 1;
      } else {
        r := None;
        currentFunction := slot;
      }
    }
  }

  /** `PCIBusIterator`: the devices of one bus.  Only function 0 of each
      device is probed. */
  class BusIterator {
    var busAddress: nat
    var currentDevice: nat

    constructor (busAddress: nat)
      ensures this.busAddress == busAddress && currentDevice == 0
    {
      this.busAddress := busAddress;
      currentDevice := 0;
    }

    /** The device numbers still to be yielded. */
    function Remaining(mem: Memory): seq<nat>
      reads this
    {
      LiveSlots(mem, busAddress, DEVICE_STRIDE, DEVICES_PER_BUS, currentDevice)
    }

    /** `next`: skip empty devices and yield an iterator over the functions
        of the next populated one, starting at function 0. */
    method Next(mem: Memory) returns (r: Option<DeviceIterator>)
      modifies this
      ensures busAddress == old(busAddress)
      ensures old(Remaining(mem)) == [] <==> r == None
      ensures old(Remaining(mem)) == [] ==> Remaining(mem) == []
      ensures r.None? ==> currentDevice >= DEVICES_PER_BUS
      ensures r.Some? ==>
                old(Remaining(mem)) != [] && fresh(r.value)
                && r.value.deviceAddress == busAddress + DEVICE_STRIDE * old(Remaining(mem))[0]
                && r.value.currentFunction == 0
      ensures r.Some? ==> Remaining(mem) == old(Remaining(mem))[1..]
    {
      var slot := ScanLive(mem, busAddress, DEVICE_STRIDE, DEVICES_PER_BUS, currentDevice);
      if slot < DEVICES_PER_BUS {
        var device := new DeviceIterator(busAddress + DEVICE_STRIDE * slot);
        r := Some(device);
        currentDevice := slot + 1;
      } else {
        r := None;
        currentDevice := slot;
      }
    }
  }

  /** The ECAM addresses of buses cur .. end - 1 of the region at base. */
  function BusAddresses(base: nat, cur: nat, end: nat): (addrs: seq<nat>)
    ensures |addrs| == if cur < end then end - cur else 0
    ensures forall k :: 0 <= k < |addrs| ==> addrs[k] == base + BUS_STRIDE * (cur + k)
    ensures forall j, k :: 0 <= j < k < |addrs| ==> addrs[j] < addrs[k]
    decreases end - cur
  {
    if cur >= end then [] else [base + BUS_STRIDE * cur] + BusAddresses(base, cur + 1, end)
  }

  /** `PCIConfigurationIterator`: the buses of one ECAM region. */
  class ConfigurationIterator {
    var baseAddress: nat
    var endBus: u8
    var currentBus: u8

    /** `into_iter` of a `PCIDeviceConfiguration`: its region mapped at pmo,
        from start_bus up to but excluding end_bus. */
    constructor FromConfiguration(conf: DeviceConfiguration, pmo: nat)
      ensures baseAddress == conf.baseAddress + pmo
      ensures currentBus == conf.startBus && endBus == conf.endBus
    {
      baseAddress := conf.baseAddress + pmo;
      currentBus := conf.startBus;
      endBus := conf.endBus;
    }

    /** The bus addresses still to be yielded. */
    function Remaining(): seq<nat>
      reads this
    {
      BusAddresses(baseAddress, currentBus, endBus)
    }

    /** `next`: yield an iterator over the next bus, with no liveness probe. */
    method Next() returns (r: Option<BusIterator>)
      modifies this
      ensures baseAddress == old(baseAddress) && endBus == old(endBus)
      ensures old(Remaining()) == [] ==> r == None && currentBus == old(currentBus)
      ensures old(Remaining()) != [] ==>
                r.Some? && fresh(r.value)
                && r.value.busAddress == old(Remaining())[0] && r.value.currentDevice == 0
                && Remaining() == old(Remaining())[1..]
    {
      if currentBus < endBus {
        var bus := new BusIterator(baseAddress + BUS_STRIDE * currentBus);
        r := Some(bus);
        currentBus := currentBus + 1;
        return;
      }
      r := None;
    }
  }

  /** The outcome of an unsigned subtraction that may underflow, which
      panics in a debug build. */
  datatype Checked<T> = Value(value: T) | Underflow

  /** `size_of::<MCFGTable>()`: the 36-byte ACPI table header followed by
      8 reserved bytes. */
  const ACPI_HEADER_SIZE: nat := 36
  const MCFG_TABLE_SIZE: nat := ACPI_HEADER_SIZE + 8

  /** The number of 16-byte records after the MCFG header, for a table
      whose header declares length bytes. */
  function EntryCount(length: u32): (n: Checked<nat>)
    ensures n.Underflow? <==> length < MCFG_TABLE_SIZE
    ensures n.Value? ==> MCFG_TABLE_SIZE + DEVICE_CONFIGURATION_SIZE * n.value <= length
                         < MCFG_TABLE_SIZE + DEVICE_CONFIGURATION_SIZE * (n.value + 1)
  {
    if length < MCFG_TABLE_SIZE then Underflow
    else Value((length - MCFG_TABLE_SIZE) / DEVICE_CONFIGURATION_SIZE)
  }

  /** The record addresses an MCFG iterator visits, stepping 16 bytes from
      address while below end. */
  function RecordAddresses(address: nat, end: nat): (addrs: seq<nat>)
    ensures forall k :: 0 <= k < |addrs| ==> addrs[k] == address + DEVICE_CONFIGURATION_SIZE * k < end
    decreases end - address
  {
    if address >= end then []
    else [address] + RecordAddresses(address + DEVICE_CONFIGURATION_SIZE, end)
  }

  /** The iterator visits the 16-byte steps below end: the distance divided
      by 16, rounded up. */
  lemma {:induction false} RecordCount(address: nat, end: nat)
    ensures |RecordAddresses(address, end)| == if address < end then (end - address + 15) / 16 else 0
    decreases end - address
  {
    if address < end {
      RecordCount(address + DEVICE_CONFIGURATION_SIZE, end);
    }
  }

  /** `MCFGIterator`: the region records that follow an MCFG header. */
  class McfgIterator {
    var address: nat
    var endAddress: nat

    constructor (address: nat, endAddress: nat)
      ensures this.address == address && this.endAddress == endAddress
    {
      this.address := address;
      this.endAddress := endAddress;
    }

    /** The record addresses still to be yielded. */
    function Remaining(): seq<nat>
      reads this
    {
      RecordAddresses(address, endAddress)
    }

    /** `next`: the address of the next record, or None once address has
        reached endAddress. */
    method Next() returns (r: Option<nat>)
      modifies this
      ensures endAddress == old(endAddress)
      ensures old(Remaining()) == [] ==> r == None && address == old(address)
      ensures old(Remaining()) != [] ==> r == Some(old(Remaining())[0]) && Remaining() == old(Remaining())[1..]
    {
      if address >= endAddress {
        r := None;
      } else {
        r := Some(address);
        address := address + DEVICE_CONFIGURATION_SIZE;
      }
    }
  }

  /** `into_iter` of the MCFG table at address table whose header declares
      length bytes: records start right after the table, and the end address
      adds the entry count, not the entries' size in bytes. */
  method McfgIntoIter(table: nat, length: u32) returns (r: Checked<McfgIterator>)
    ensures r.Underflow? <==> EntryCount(length).Underflow?
    ensures r.Value? ==> fresh(r.value) && r.value.address == table + MCFG_TABLE_SIZE
                         && r.value.endAddress == table + MCFG_TABLE_SIZE + EntryCount(length).value
  {
    var entries := EntryCount(length);
    if entries.Underflow? {
      return Underflow;
    }
    var it := new McfgIterator(table + MCFG_TABLE_SIZE, table + MCFG_TABLE_SIZE + entries.value);
    r := Value(it);
  }

  /** As written, an MCFG table with n records is walked for only
      ceil(n / 16) of them. */
  lemma McfgRecordsAsWritten(table: nat, length: u32)
    requires EntryCount(length).Value?
    ensures |RecordAddresses(table + MCFG_TABLE_SIZE, table + MCFG_TABLE_SIZE + EntryCount(length).value)|
         == (EntryCount(length).value + 15) / 16
  {
    RecordCount(table + MCFG_TABLE_SIZE, table + MCFG_TABLE_SIZE + EntryCount(length).value);
  }

  /** A table with two records (length 44 + 2 * 16) is walked for one. */
  lemma McfgTwoRecords(table: nat)
    ensures EntryCount(76) == Value(2)
    ensures |RecordAddresses(table + MCFG_TABLE_SIZE, table + MCFG_TABLE_SIZE + 2)| == 1
  {
    RecordCount(table + MCFG_TABLE_SIZE, table + MCFG_TABLE_SIZE + 2);
  }

  /** `into_iter` with the end address the records' size in bytes past
      their start. */
  method McfgIntoIterCorrected(table: nat, length: u32) returns (r: Checked<McfgIterator>)
    ensures r.Underflow? <==> EntryCount(length).Underflow?
    ensures r.Value? ==> fresh(r.value) && r.value.address == table + MCFG_TABLE_SIZE
                         && r.value.endAddress == table + MCFG_TABLE_SIZE
                                                  + DEVICE_CONFIGURATION_SIZE * EntryCount(length).value
  {
    var entries := EntryCount(length);
    if entries.Underflow? {
      return Underflow;
    }
    var it := new McfgIterator(table + MCFG_TABLE_SIZE, table + MCFG_TABLE_SIZE + DEVICE_CONFIGURATION_SIZE * entries.value);
    r := Value(it);
  }

  /** With the corrected end address every record is visited, each at its
      own 16-byte slot and in order. */
  lemma McfgRecordsCorrected(table: nat, length: u32)
    requires EntryCount(length).Value?
    ensures var start := table + MCFG_TABLE_SIZE;
            var n := EntryCount(length).value;
            var addrs := RecordAddresses(start, start + DEVICE_CONFIGURATION_SIZE * n);
            |addrs| == n && forall k :: 0 <= k < n ==> addrs[k] == start + DEVICE_CONFIGURATION_SIZE * k
  {
    var start := table + MCFG_TABLE_SIZE;
    var n := EntryCount(length).value;
    RecordCount(start, start + DEVICE_CONFIGURATION_SIZE * n);
  }
}
