/** Bit-field layouts.  An unsigned integer is split into consecutive fields
    of the given widths, the first field in the least significant bits.  This
    is how the modular_bitfield crate lays out a `#[bitfield]` struct (BAR,
    MSIXCapability), and, with widths that are multiples of 8, how a packed
    little-endian struct sits in memory. */
module Bitfield {

  /** 2 to the power n. */
  function Pow2(n: nat): (r: nat)
    ensures r >= 1
  {
    if n == 0 then 1 else 2 * Pow2(n - 1)
  }

  lemma {:induction false} Pow2Add(a: nat, b: nat)
    ensures Pow2(a + b) == Pow2(a) * Pow2(b)
  {
    if a > 0 {
      Pow2Add(a - 1, b);
      assert Pow2(a + b) == 2 * Pow2(a - 1 + b);
    }
  }

  lemma Pow2Byte()
    ensures Pow2(8) == 0x100
  {
    assert Pow2(4) == 16;
    Pow2Add(4, 4);
  }

  /** The small powers of two the register layouts of this model use. */
  lemma Pow2Small()
    ensures Pow2(0) == 1 && Pow2(1) == 2 && Pow2(2) == 4 && Pow2(3) == 8 && Pow2(4) == 16
  {
    assert Pow2(1) == 2;
    assert Pow2(2) == 4;
    assert Pow2(3) == 8;
    assert Pow2(4) == 16;
  }

  lemma Pow2Word()
    ensures Pow2(16) == 0x1_0000 && Pow2(32) == 0x1_0000_0000
  {
    Pow2Byte();
    Pow2Add(8, 8);
    Pow2Add(16, 16);
  }

  lemma Pow2Fields()
    ensures Pow2(11) == 0x800 && Pow2(28) == 0x1000_0000 && Pow2(29) == 0x2000_0000
  {
    Pow2Small();
    Pow2Byte();
    Pow2Add(8, 3);
    Pow2Add(8, 4);
    Pow2Add(8, 8);
    Pow2Add(16, 12);
    Pow2Add(28, 1);
  }

  /** Bit (or byte) offset of field i: the widths of the fields before it. */
  function Offset(ws: seq<nat>, i: nat): nat
    requires i <= |ws|
  {
    if i == 0 then 0 else Offset(ws, i - 1) + ws[i - 1]
  }

  /** Total width of a layout. */
  function Width(ws: seq<nat>): nat
  {
    Offset(ws, |ws|)
  }

  lemma {:induction false} OffsetTail(ws: seq<nat>, i: nat)
    requires 1 <= i <= |ws|
    ensures Offset(ws, i) == ws[0] + Offset(ws[1..], i - 1)
  {
    if i > 1 {
      OffsetTail(ws, i - 1);
    }
  }

  lemma WidthTail(ws: seq<nat>)
    requires ws != []
    ensures Width(ws) == ws[0] + Width(ws[1..])
  {
    OffsetTail(ws, |ws|);
  }

  lemma {:induction false} OffsetMonotone(ws: seq<nat>, i: nat, j: nat)
    requires i <= j <= |ws|
    ensures Offset(ws, i) <= Offset(ws, j)
    decreases j - i
  {
    if i < j {
      OffsetMonotone(ws, i, j - 1);
    }
  }

  /** Every value lies in the range of its field. */
  predicate Fits(ws: seq<nat>, vs: seq<nat>)
  {
    |vs| == |ws| && forall i {:trigger vs[i]} :: 0 <= i < |ws| ==> vs[i] < Pow2(ws[i])
  }

  // Arithmetic facts about one step of the radix decomposition.

  lemma MulBound(lo: int, m: int, hi: int, n: int)
    requires 0 <= lo < m && 0 <= hi < n
    ensures lo + m * hi < m * n
  {
    MulNonneg(m, n - 1 - hi);
    assert m * (n - 1 - hi) == m * n - m - m * hi;
  }

  lemma MulNonneg(a: int, b: int)
    requires 0 <= a && 0 <= b
    ensures a * b >= 0
  {
  }

  lemma DivModBasics(x: int, m: int)
    requires 0 <= x && 0 < m
    ensures 0 <= x / m <= x && 0 <= x % m < m && x == m * (x / m) + x % m
  {
    var q := x / m;
    if q < 0 {
      MulNonneg(m, -q - 1);
    } else {
      MulNonneg(m - 1, q);
    }
  }

  lemma DivModUnique(lo: int, m: int, hi: int)
    requires 0 <= lo < m && 0 <= hi
    ensures (lo + m * hi) / m == hi && (lo + m * hi) % m == lo
  {
    var x := lo + m * hi;
    var q, r := x / m, x % m;
    assert x == m * q + r && 0 <= r < m;
    var d := q - hi;
    assert m * d == lo - r by { assert m * q - m * hi == m * (q - hi); }
    if d > 0 {
      MulNonneg(m, d - 1);
    } else if d < 0 {
      MulNonneg(m, -d - 1);
    }
  }

  lemma DivBound(x: int, m: int, n: int)
    requires 0 <= x < m * n && 0 < m
    ensures x / m < n
  {
  }

  lemma DivDiv(x: int, a: int, b: int)
    requires 0 <= x && 0 < a && 0 < b
    ensures x / a / b == x / (a * b)
  {
    var q1, r1 := x / a, x % a;
    var q2, r2 := q1 / b, q1 % b;
    assert x == a * q1 + r1;
    assert q1 == b * q2 + r2;
    assert x == a * r2 + r1 + (a * b) * q2;
    MulBound(r1, a, r2, b);
    DivModUnique(a * r2 + r1, a * b, q2);
  }

  /** The fields of x, least significant first. */
  function Unpack(ws: seq<nat>, x: nat): (vs: seq<nat>)
    ensures Fits(ws, vs)
  {
    if ws == [] then []
    else
      var m := Pow2(ws[0]);
      DivModBasics(x, m);
      var rest := Unpack(ws[1..], x / m);
      var vs := [x % m] + rest;
      assert vs[0] < Pow2(ws[0]);
      assert forall i :: 0 < i < |ws| ==> vs[i] == rest[i - 1] && ws[i] == ws[1..][i - 1];
      vs
  }

  /** The integer whose fields are vs. */
  function Pack(ws: seq<nat>, vs: seq<nat>): (x: nat)
    requires Fits(ws, vs)
    ensures x < Pow2(Width(ws))
  {
    if ws == [] then 0
    else
      var m := Pow2(ws[0]);
      var rest := Pack(ws[1..], vs[1..]);
      PackStep(ws, vs[0], rest);
      vs[0] + m * rest
  }

  lemma PackStep(ws: seq<nat>, v: nat, rest: nat)
    requires ws != [] && v < Pow2(ws[0]) && rest < Pow2(Width(ws[1..]))
    ensures v + Pow2(ws[0]) * rest < Pow2(Width(ws))
  {
    WidthTail(ws);
    Pow2Add(ws[0], Width(ws[1..]));
    MulBound(v, Pow2(ws[0]), rest, Pow2(Width(ws[1..])));
  }

  lemma {:induction false} PackUnpack(ws: seq<nat>, x: nat)
    requires x < Pow2(Width(ws))
    ensures Pack(ws, Unpack(ws, x)) == x
  {
    if ws != [] {
      var m := Pow2(ws[0]);
      WidthTail(ws);
      Pow2Add(ws[0], Width(ws[1..]));
      DivModBasics(x, m);
      DivBound(x, m, Pow2(Width(ws[1..])));
      PackUnpack(ws[1..], x / m);
      assert Unpack(ws, x)[1..] == Unpack(ws[1..], x / m);
    } else {
      assert Pow2(0) == 1;
    }
  }

  lemma {:induction false} UnpackPack(ws: seq<nat>, vs: seq<nat>)
    requires Fits(ws, vs)
    ensures Unpack(ws, Pack(ws, vs)) == vs
  {
    if ws != [] {
      var m := Pow2(ws[0]);
      var rest := Pack(ws[1..], vs[1..]);
      var x := vs[0] + m * rest;
      DivModUnique(vs[0], m, rest);
      calc {
        Unpack(ws, Pack(ws, vs));
        Unpack(ws, x);
        [x % m] + Unpack(ws[1..], x / m);
        [vs[0]] + Unpack(ws[1..], rest);
        { UnpackPack(ws[1..], vs[1..]); }
        [vs[0]] + vs[1..];
      }
      assert [vs[0]] + vs[1..] == vs;
    }
  }

  /** Field i occupies bits Offset(ws, i) .. Offset(ws, i) + ws[i] - 1. */
  lemma {:induction false} UnpackAt(ws: seq<nat>, x: nat, i: nat)
    requires i < |ws|
    ensures Unpack(ws, x)[i] == x / Pow2(Offset(ws, i)) % Pow2(ws[i])
  {
    if i > 0 {
      var m, n := Pow2(ws[0]), Pow2(Offset(ws[1..], i - 1));
      DivModBasics(x, m);
      calc {
        Unpack(ws, x)[i];
        Unpack(ws[1..], x / m)[i - 1];
        { UnpackAt(ws[1..], x / m, i - 1); }
        x / m / n % Pow2(ws[i]);
        { DivDiv(x, m, n); OffsetTail(ws, i); Pow2Add(ws[0], Offset(ws[1..], i - 1)); }
        x / Pow2(Offset(ws, i)) % Pow2(ws[i]);
      }
    } else {
      assert Pow2(0) == 1;
    }
  }

  /** x with field i replaced by v: the `with_<field>` setter of a bit field. */
  function With(ws: seq<nat>, x: nat, i: nat, v: nat): (y: nat)
    requires i < |ws| && v < Pow2(ws[i])
    ensures y < Pow2(Width(ws))
    ensures Unpack(ws, y) == Unpack(ws, x)[i := v]
  {
    var vs := Unpack(ws, x)[i := v];
    UnpackPack(ws, vs);
    Pack(ws, vs)
  }
}
