/** Big-endian integers in byte buffers, and fixed layouts made of such integers.

    Every wire format of the repository writes unsigned integers most significant
    byte first, one field after another.  `ToBytes`/`FromBytes` are the two
    directions for one integer; `Pack`/`Unpack` lift them to a whole layout. */
module Bytes {

  type byte = x: int | 0 <= x < 256
  type u8 = x: int | 0 <= x < 0x100
  type u16 = x: int | 0 <= x < 0x1_0000
  type u32 = x: int | 0 <= x < 0x1_0000_0000
  type u64 = x: int | 0 <= x < 0x1_0000_0000_0000_0000

  function Pow256(n: nat): (p: nat)
    ensures p > 0
  {
    if n == 0 then 1 else 256 * Pow256(n - 1)
  }

  lemma {:induction false} Pow256Values()
    ensures Pow256(1) == 0x100
    ensures Pow256(2) == 0x1_0000
    ensures Pow256(4) == 0x1_0000_0000
    ensures Pow256(8) == 0x1_0000_0000_0000_0000
  {
    assert Pow256(4) == 0x1_0000_0000 by {
      assert Pow256(3) == 256 * Pow256(2);
    }
    assert Pow256(8) == 256 * (256 * (256 * (256 * Pow256(4)))) by {
      assert Pow256(6) == 256 * Pow256(5);
      assert Pow256(7) == 256 * Pow256(6);
    }
  }

  function ToBytes(value: nat, width: nat): (bytes: seq<byte>)
    requires value < Pow256(width)
    ensures |bytes| == width
  {
    if width == 0 then [] else ToBytes(value / 256, width - 1) + [value % 256]
  }

  function FromBytes(bytes: seq<byte>): (value: nat)
    ensures value < Pow256(|bytes|)
  {
    if bytes == [] then 0 else FromBytes(bytes[..|bytes| - 1]) * 256 + bytes[|bytes| - 1]
  }

  lemma {:induction false} FromToBytes(value: nat, width: nat)
    requires value < Pow256(width)
    ensures FromBytes(ToBytes(value, width)) == value
  {
    if width > 0 {
      FromToBytes(value / 256, width - 1);
      assert ToBytes(value, width)[..width - 1] == ToBytes(value / 256, width - 1);
    }
  }

  lemma {:induction false} ToFromBytes(bytes: seq<byte>)
    ensures ToBytes(FromBytes(bytes), |bytes|) == bytes
  {
    if bytes != [] {
      var front := bytes[..|bytes| - 1];
      ToFromBytes(front);
      assert FromBytes(bytes) / 256 == FromBytes(front);
      assert FromBytes(bytes) % 256 == bytes[|bytes| - 1];
      assert bytes == front + [bytes[|bytes| - 1]];
    }
  }

  lemma {:induction false} DivDiv(v: nat, p: nat)
    requires p > 0
    ensures v / 256 / p == v / (256 * p)
  {
    var q := v / 256 / p;
    var r := v / 256 % p;
    assert v == (256 * p) * q + (256 * r + v % 256) by {
      assert v / 256 == p * q + r;
      assert 256 * (p * q) == (256 * p) * q;
    }
    assert 0 <= 256 * r + v % 256 < 256 * p;
    QuotientUnique(v, 256 * p, q, 256 * r + v % 256);
  }

  lemma {:induction false} QuotientUnique(v: int, d: int, q: int, r: int)
    requires d > 0 && v == d * q + r && 0 <= r < d
    ensures v / d == q
  {
    var q', r' := v / d, v % d;
    var k := q - q';
    assert d * k == r' - r by {
      assert v == d * q' + r';
      assert d * (q - q') == d * q - d * q';
    }
    Multiple(d, k);
  }

  lemma {:induction false} Multiple(d: int, k: int)
    requires d > 0
    ensures k > 0 ==> d * k >= d
    ensures k < 0 ==> d * k <= -d
  {
  }

  /** The shift used by the writers: byte `i` of a `width`-byte integer. */
  lemma {:induction false} ByteAt(value: nat, width: nat, i: nat)
    requires value < Pow256(width) && i < width
    ensures ToBytes(value, width)[i] == value / Pow256(width - 1 - i) % 256
  {
    if i < width - 1 {
      ByteAt(value / 256, width - 1, i);
      DivDiv(value, Pow256(width - 2 - i));
    }
  }

  /** Stores `value` at `offset`, most significant byte first. */
  method WriteUint(output: array<byte>, offset: nat, value: nat, width: nat)
    requires offset + width <= output.Length
    requires value < Pow256(width)
    modifies output
    ensures output[..offset + width] == old(output[..offset]) + ToBytes(value, width)
    ensures output[offset + width..] == old(output[offset + width..])
  {
    var index := 0;
    while index < width
      invariant 0 <= index <= width
      invariant forall k :: 0 <= k < index ==> output[offset + k] == ToBytes(value, width)[k]
      invariant forall k :: 0 <= k < output.Length && !(offset <= k < offset + index) ==> output[k] == old(output[k])
    {
      ByteAt(value, width, index);
      output[offset + index] := value / Pow256(width - index - 1) % 256;
      index := index + 1;
    }
  }

  /** Loads the `width`-byte integer at `offset`. */
  method ReadUint(input: seq<byte>, offset: nat, width: nat) returns (value: nat)
    requires offset + width <= |input|
    ensures value == FromBytes(input[offset..offset + width])
  {
    value := 0;
    var index := 0;
    while index < width
      invariant 0 <= index <= width
      invariant value == FromBytes(input[offset..offset + index])
    {
      assert input[offset..offset + index + 1][..index] == input[offset..offset + index];
      value := value * 256 + input[offset + index];
      index := index + 1;
    }
  }

  // ---------- fixed layouts ----------

  type Layout = seq<nat>

  function Size(layout: Layout): nat {
    if layout == [] then 0 else Size(layout[..|layout| - 1]) + layout[|layout| - 1]
  }

  ghost predicate Fits(values: seq<nat>, layout: Layout) {
    |values| == |layout| && forall i :: 0 <= i < |layout| ==> values[i] < Pow256(layout[i])
  }

  function Pack(values: seq<nat>, layout: Layout): (bytes: seq<byte>)
    requires Fits(values, layout)
    ensures |bytes| == Size(layout)
  {
    if layout == [] then []
    else
      var n := |layout| - 1;
      Pack(values[..n], layout[..n]) + ToBytes(values[n], layout[n])
  }

  function Unpack(bytes: seq<byte>, layout: Layout): (values: seq<nat>)
    requires |bytes| == Size(layout)
    ensures Fits(values, layout)
    decreases |layout|
  {
    if layout == [] then []
    else
      var n := |layout| - 1;
      var cut := Size(layout[..n]);
      Unpack(bytes[..cut], layout[..n]) + [FromBytes(bytes[cut..])]
  }

  lemma {:induction false} UnpackPack(values: seq<nat>, layout: Layout)
    requires Fits(values, layout)
    ensures Unpack(Pack(values, layout), layout) == values
  {
    if layout != [] {
      var n := |layout| - 1;
      UnpackPack(values[..n], layout[..n]);
      FromToBytes(values[n], layout[n]);
      var bytes := Pack(values, layout);
      assert bytes[..Size(layout[..n])] == Pack(values[..n], layout[..n]);
      assert bytes[Size(layout[..n])..] == ToBytes(values[n], layout[n]);
      assert values == values[..n] + [values[n]];
    }
  }

  lemma {:induction false} PackUnpack(bytes: seq<byte>, layout: Layout)
    requires |bytes| == Size(layout)
    ensures Pack(Unpack(bytes, layout), layout) == bytes
    decreases |layout|
  {
    if layout != [] {
      var n := |layout| - 1;
      var cut := Size(layout[..n]);
      PackUnpack(bytes[..cut], layout[..n]);
      ToFromBytes(bytes[cut..]);
      var values := Unpack(bytes, layout);
      assert values[..n] == Unpack(bytes[..cut], layout[..n]);
      assert bytes == bytes[..cut] + bytes[cut..];
    }
  }

  lemma {:induction false} SizePrefix(layout: Layout, i: nat)
    requires i < |layout|
    ensures Size(layout[..i + 1]) == Size(layout[..i]) + layout[i]
    ensures Size(layout[..i + 1]) <= Size(layout)
  {
    assert layout[..i + 1][..i] == layout[..i];
    if i + 1 < |layout| {
      SizePrefix(layout[..|layout| - 1], i);
      assert layout[..|layout| - 1][..i + 1] == layout[..i + 1];
      assert layout[..|layout| - 1][..i] == layout[..i];
    } else {
      assert layout[..i + 1] == layout;
    }
  }

  lemma {:induction false} PrefixOfPrefix(layout: Layout, n: nat, i: nat)
    requires i <= n <= |layout|
    ensures layout[..n][..i] == layout[..i]
  {
  }

  lemma {:induction false} SliceOfPrefix(bytes: seq<byte>, cut: nat, from: nat, end: nat)
    requires from <= end <= cut <= |bytes|
    ensures bytes[..cut][from..end] == bytes[from..end]
  {
  }

  /** Field `i` of an unpacked record is the integer stored at that field's offset. */
  lemma {:induction false} UnpackAt(bytes: seq<byte>, layout: Layout, i: nat)
    requires |bytes| == Size(layout) && i < |layout|
    ensures Size(layout[..i + 1]) == Size(layout[..i]) + layout[i] <= |bytes|
    ensures Unpack(bytes, layout)[i] == FromBytes(bytes[Size(layout[..i])..Size(layout[..i + 1])])
    decreases |layout|
  {
    SizePrefix(layout, i);
    var n := |layout| - 1;
    var cut := Size(layout[..n]);
    if i == n {
      assert layout[..i + 1] == layout;
      assert bytes[cut..] == bytes[cut..Size(layout)];
    } else {
      PrefixOfPrefix(layout, n, i);
      PrefixOfPrefix(layout, n, i + 1);
      UnpackAt(bytes[..cut], layout[..n], i);
      SliceOfPrefix(bytes, cut, Size(layout[..i]), Size(layout[..i + 1]));
      hide Size;
    }
  }

  /** The first `k + 1` fields are the first `k`, then field `k`. */
  lemma {:induction false} PackStep(values: seq<nat>, layout: Layout, k: nat)
    requires Fits(values, layout) && k < |layout|
    ensures Fits(values[..k], layout[..k]) && Fits(values[..k + 1], layout[..k + 1])
    ensures Pack(values[..k + 1], layout[..k + 1]) == Pack(values[..k], layout[..k]) + ToBytes(values[k], layout[k])
  {
    assert values[..k + 1][..k] == values[..k] && layout[..k + 1][..k] == layout[..k];
  }

  /** Stores field `k` of a record at its offset, after fields `0..k`. */
  method WriteField(output: array<byte>, offset: nat, value: nat, width: nat,
                    ghost values: seq<nat>, ghost layout: Layout, ghost k: nat)
    requires Fits(values, layout) && k < |layout| && values[k] == value && layout[k] == width
    requires Size(layout[..k]) == offset && offset + width <= output.Length
    requires output[..offset] == Pack(values[..k], layout[..k])
    modifies output
    ensures Size(layout[..k + 1]) == offset + width
    ensures output[..offset + width] == Pack(values[..k + 1], layout[..k + 1])
    ensures output[offset + width..] == old(output[offset + width..])
  {
    SizePrefix(layout, k);
    PackStep(values, layout, k);
    WriteUint(output, offset, value, width);
  }
}
