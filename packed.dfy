/** Fixed-width unsigned integers, byte-addressed memory, and `#[repr(C, packed)]`
    structs read from it.  On x86_64 a multi-byte field is stored little-endian,
    and a packed struct has no padding, so field i starts at the sum of the
    sizes of the fields before it. */
module Packed {
  import opened Bitfield

  type u8 = x: int | 0 <= x < 0x100
  type u16 = x: int | 0 <= x < 0x1_0000
  type u32 = x: int | 0 <= x < 0x1_0000_0000
  type u64 = x: int | 0 <= x < 0x1_0000_0000_0000_0000

  /** Memory as the kernel sees it through its virtual addresses: one byte per
      address.  Configuration space, the firmware tables and the memory behind
      a BAR are all read through such a function. */
  type Memory = nat -> u8

  /** The size bytes starting at address. */
  function Read(mem: Memory, address: nat, size: nat): (bs: seq<u8>)
    ensures |bs| == size
    ensures forall i :: 0 <= i < size ==> bs[i] == mem(address + i)
  {
    seq(size, i requires 0 <= i < size => mem(address + i))
  }

  lemma ReadSlice(mem: Memory, address: nat, size: nat, lo: nat, hi: nat)
    requires lo <= hi <= size
    ensures Read(mem, address, size)[lo..hi] == Read(mem, address + lo, hi - lo)
  {
  }

  /** `*(address as *const u32)`: the u32 stored at address. */
  function ReadU32(mem: Memory, address: nat): (r: u32)
    ensures r == LE(Read(mem, address, 4))
  {
    LEBound(Read(mem, address, 4));
    ByteLimitValues();
    LE(Read(mem, address, 4))
  }

  /** The unsigned integer whose little-endian encoding is bs. */
  function LE(bs: seq<u8>): nat
  {
    if bs == [] then 0 else bs[0] + 256 * LE(bs[1..])
  }

  lemma {:induction false} LEBound(bs: seq<u8>)
    ensures LE(bs) < ByteLimit(|bs|)
  {
    if bs != [] {
      LEBound(bs[1..]);
      MulBound(bs[0], 256, LE(bs[1..]), ByteLimit(|bs| - 1));
    }
  }

  lemma LETwo(bs: seq<u8>)
    requires |bs| == 2
    ensures LE(bs) == bs[0] as int + 256 * bs[1] as int
  {
    assert bs[1..][1..] == [];
    assert LE(bs[1..]) == bs[1];
  }

  /** The n-byte little-endian encoding of x (its low 8n bits). */
  function ToLE(x: nat, n: nat): (bs: seq<u8>)
    ensures |bs| == n
  {
    if n == 0 then []
    else
      DivModBasics(x, 256);
      [x % 256] + ToLE(x / 256, n - 1)
  }

  lemma {:induction false} LEToLE(x: nat, n: nat)
    requires x < ByteLimit(n)
    ensures LE(ToLE(x, n)) == x
  {
    if n > 0 {
      DivModBasics(x, 256);
      DivBound(x, 256, ByteLimit(n - 1));
      LEToLE(x / 256, n - 1);
      assert ToLE(x, n)[1..] == ToLE(x / 256, n - 1);
    }
  }

  lemma {:induction false} ToLELE(bs: seq<u8>)
    ensures ToLE(LE(bs), |bs|) == bs
  {
    if bs != [] {
      DivModUnique(bs[0], 256, LE(bs[1..]));
      ToLELE(bs[1..]);
      assert ToLE(LE(bs), |bs|) == [bs[0]] + bs[1..];
    }
  }

  /** 256 to the power n: the number of values an n-byte field holds. */
  function ByteLimit(n: nat): (r: nat)
    ensures r >= 1
  {
    if n == 0 then 1 else 256 * ByteLimit(n - 1)
  }

  lemma ByteLimitValues()
    ensures ByteLimit(1) == 0x100 && ByteLimit(2) == 0x1_0000
    ensures ByteLimit(4) == 0x1_0000_0000 && ByteLimit(8) == 0x1_0000_0000_0000_0000
  {
  }

  /** An n-byte field holds exactly the values of an 8n-bit field. */
  lemma {:induction false} ByteLimitPow2(n: nat)
    ensures ByteLimit(n) == Pow2(8 * n)
  {
    if n > 0 {
      ByteLimitPow2(n - 1);
      Pow2Byte();
      Pow2Add(8, 8 * (n - 1));
    }
  }

  /** Every value fits the byte size of its field. */
  predicate FitsBytes(sizes: seq<nat>, vs: seq<nat>)
  {
    |vs| == |sizes| && forall i {:trigger vs[i]} :: 0 <= i < |sizes| ==> vs[i] < ByteLimit(sizes[i])
  }

  /** Field i lies inside the struct. */
  lemma FieldInBounds(sizes: seq<nat>, i: nat)
    requires i < |sizes|
    ensures Offset(sizes, i) + sizes[i] <= Width(sizes)
  {
    OffsetMonotone(sizes, i + 1, |sizes|);
  }

  /** Field i of a packed struct with field sizes sizes: the first field is
      the little-endian integer in the first sizes[0] bytes, and field i + 1
      is field i of the bytes after it. */
  function Field(sizes: seq<nat>, bs: seq<u8>, i: nat): nat
    requires |bs| == Width(sizes) && i < |sizes|
    decreases i
  {
    WidthTail(sizes);
    if i == 0 then LE(bs[..sizes[0]])
    else Field(sizes[1..], bs[sizes[0]..], i - 1)
  }

  lemma {:induction false} FieldFits(sizes: seq<nat>, bs: seq<u8>, i: nat)
    requires |bs| == Width(sizes) && i < |sizes|
    ensures Field(sizes, bs, i) < ByteLimit(sizes[i])
    decreases i
  {
    WidthTail(sizes);
    if i == 0 {
      LEBound(bs[..sizes[0]]);
    } else {
      FieldFits(sizes[1..], bs[sizes[0]..], i - 1);
    }
  }

  /** Field i occupies the sizes[i] bytes that start at byte Offset(sizes, i). */
  lemma {:induction false} FieldAt(sizes: seq<nat>, bs: seq<u8>, i: nat)
    requires |bs| == Width(sizes) && i < |sizes|
    ensures Offset(sizes, i) + sizes[i] <= |bs|
    ensures Field(sizes, bs, i) == LE(bs[Offset(sizes, i)..Offset(sizes, i) + sizes[i]])
    decreases i
  {
    FieldInBounds(sizes, i);
    WidthTail(sizes);
    if i > 0 {
      FieldAt(sizes[1..], bs[sizes[0]..], i - 1);
      OffsetTail(sizes, i);
      var o := Offset(sizes[1..], i - 1);
      SliceOfSuffix(bs, sizes[0], o, o + sizes[i]);
    }
  }

  /** A one-byte field is the byte at its offset. */
  lemma ByteField(sizes: seq<nat>, bs: seq<u8>, i: nat)
    requires |bs| == Width(sizes) && i < |sizes| && sizes[i] == 1
    ensures Offset(sizes, i) < |bs|
    ensures DecodeFields(sizes, bs)[i] == bs[Offset(sizes, i)]
  {
    FieldAt(sizes, bs, i);
    var o := Offset(sizes, i);
    assert bs[o..o + 1] == [bs[o]];
    assert LE([bs[o]]) == bs[o] + 256 * LE([]);
  }

  /** The fields of a packed struct whose field sizes, in bytes and in
      declaration order, are sizes. */
  function DecodeFields(sizes: seq<nat>, bs: seq<u8>): (vs: seq<nat>)
    requires |bs| == Width(sizes)
    ensures FitsBytes(sizes, vs)
  {
    forall i | 0 <= i < |sizes| ensures Field(sizes, bs, i) < ByteLimit(sizes[i]) {
      FieldFits(sizes, bs, i);
    }
    seq(|sizes|, i requires 0 <= i < |sizes| => Field(sizes, bs, i))
  }

  /** The bytes of a packed struct whose field values are vs. */
  function EncodeFields(sizes: seq<nat>, vs: seq<nat>): (bs: seq<u8>)
    requires |vs| == |sizes|
    ensures |bs| == Width(sizes)
  {
    if sizes == [] then []
    else
      WidthTail(sizes);
      ToLE(vs[0], sizes[0]) + EncodeFields(sizes[1..], vs[1..])
  }

  lemma {:induction false} DecodeEncode(sizes: seq<nat>, vs: seq<nat>)
    requires FitsBytes(sizes, vs)
    ensures DecodeFields(sizes, EncodeFields(sizes, vs)) == vs
  {
    if sizes != [] {
      EncodeFieldsCons(sizes, vs);
      var head, tail := ToLE(vs[0], sizes[0]), EncodeFields(sizes[1..], vs[1..]);
      var bs := head + tail;
      DecodeFieldsCons(sizes, bs);
      assert bs[..sizes[0]] == head && bs[sizes[0]..] == tail;
      calc {
        DecodeFields(sizes, bs);
        [LE(head)] + DecodeFields(sizes[1..], tail);
        { LEToLE(vs[0], sizes[0]); DecodeEncode(sizes[1..], vs[1..]); }
        [vs[0]] + vs[1..];
      }
      assert [vs[0]] + vs[1..] == vs;
    }
  }

  lemma {:induction false} EncodeDecode(sizes: seq<nat>, bs: seq<u8>)
    requires |bs| == Width(sizes)
    ensures EncodeFields(sizes, DecodeFields(sizes, bs)) == bs
  {
    if sizes != [] {
      DecodeFieldsCons(sizes, bs);
      var head, tail := bs[..sizes[0]], bs[sizes[0]..];
      var rest := DecodeFields(sizes[1..], tail);
      calc {
        EncodeFields(sizes, DecodeFields(sizes, bs));
        { EncodeFieldsCons(sizes, DecodeFields(sizes, bs)); }
        ToLE(LE(head), sizes[0]) + EncodeFields(sizes[1..], rest);
        { ToLELE(head); EncodeDecode(sizes[1..], tail); }
        head + tail;
      }
      assert head + tail == bs;
    }
  }

  lemma EncodeFieldsCons(sizes: seq<nat>, vs: seq<nat>)
    requires sizes != [] && |vs| == |sizes|
    ensures EncodeFields(sizes, vs) == ToLE(vs[0], sizes[0]) + EncodeFields(sizes[1..], vs[1..])
  {
  }

  lemma SplitJoin<T>(s: seq<T>, k: nat)
    requires k <= |s|
    ensures s[..k] + s[k..] == s
  {
  }

  lemma SliceOfSuffix<T>(s: seq<T>, a: nat, lo: nat, hi: nat)
    requires a <= |s| && lo <= hi <= |s| - a
    ensures s[a..][lo..hi] == s[a + lo..a + hi]
  {
  }

  /** Decoding peels off the first field, then decodes the rest. */
  lemma DecodeFieldsCons(sizes: seq<nat>, bs: seq<u8>)
    requires sizes != [] && |bs| == Width(sizes)
    ensures Width(sizes) == sizes[0] + Width(sizes[1..])
    ensures DecodeFields(sizes, bs) == [LE(bs[..sizes[0]])] + DecodeFields(sizes[1..], bs[sizes[0]..])
  {
    WidthTail(sizes);
    var vs, cons := DecodeFields(sizes, bs), [LE(bs[..sizes[0]])] + DecodeFields(sizes[1..], bs[sizes[0]..]);
    assert forall i :: 0 < i < |sizes| ==> vs[i] == cons[i];
    assert vs == cons;
  }
}
