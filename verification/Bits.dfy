/** Packing bits into bytes and back (mbts/A53/bits.c), and the unaligned uplink block of A5/4
    (mbts/A53/a5.c). A byte is its eight bits, lowest first; an unpacked bit is 0 or 1. */
module Bits {
  import opened Arithmetic

  type Byte = b: seq<bool> | |b| == 8 witness seq(8, _ => false)

  function ZeroByte(): Byte {
    seq(8, _ => false)
  }

  /** The bit a position falls on: most significant first, or least significant first. */
  function BitNo(pos: nat, lsbMode: bool): (n: nat)
    ensures n < 8
  {
    if lsbMode then pos % 8 else 7 - pos % 8
  }

  predicate BitAt(bytes: seq<Byte>, pos: nat, lsbMode: bool)
    requires pos < 8 * |bytes|
  {
    bytes[pos / 8][BitNo(pos, lsbMode)]
  }

  /** One byte with bit n set to v. */
  function WithBit(b: Byte, n: nat, v: bool): Byte
    requires n < 8
  {
    b[n := v]
  }

  /** The bytes after a bit position is written: that position, and no other, changes. */
  function WithBitAt(bytes: seq<Byte>, pos: nat, lsbMode: bool, v: bool): (r: seq<Byte>)
    requires pos < 8 * |bytes|
    ensures |r| == |bytes|
  {
    bytes[pos / 8 := WithBit(bytes[pos / 8], BitNo(pos, lsbMode), v)]
  }

  lemma WrittenBit(bytes: seq<Byte>, pos: nat, lsbMode: bool, v: bool, p: nat)
    requires pos < 8 * |bytes| && p < 8 * |bytes|
    ensures BitAt(WithBitAt(bytes, pos, lsbMode, v), p, lsbMode) == if p == pos then v else BitAt(bytes, p, lsbMode)
  {
  }

  /** Bytes are equal if they agree at every bit position. */
  lemma SameBits(a: seq<Byte>, b: seq<Byte>, lsbMode: bool)
    requires |a| == |b|
    requires forall p: nat :: p < 8 * |a| ==> BitAt(a, p, lsbMode) == BitAt(b, p, lsbMode)
    ensures a == b
  {
    forall k | 0 <= k < |a| ensures a[k] == b[k] {
      forall n | 0 <= n < 8 ensures a[k][n] == b[k][n] {
        var p := 8 * k + (if lsbMode then n else 7 - n);
        RemainderUnique(p, 8, k, p - 8 * k);
        assert BitAt(a, p, lsbMode) == BitAt(b, p, lsbMode);
      }
    }
  }

  // ---- Specifications ----

  /** `bits` written into `bytes` from position `ofs` on. */
  function PackInto(bytes: seq<Byte>, ofs: nat, bits: seq<bool>, lsbMode: bool): (r: seq<Byte>)
    requires ofs + |bits| <= 8 * |bytes|
    ensures |r| == |bytes|
  {
    if bits == [] then bytes
    else WithBitAt(PackInto(bytes, ofs, bits[..|bits| - 1], lsbMode), ofs + |bits| - 1, lsbMode, bits[|bits| - 1])
  }

  function UnpackFrom(bytes: seq<Byte>, ofs: nat, n: nat, lsbMode: bool): (r: seq<bool>)
    requires ofs + n <= 8 * |bytes|
    ensures |r| == n && forall k :: 0 <= k < n ==> r[k] == BitAt(bytes, ofs + k, lsbMode)
  {
    seq(n, k requires 0 <= k < n => BitAt(bytes, ofs + k, lsbMode))
  }

  function ByteCount(n: nat): nat {
    (n + 7) / 8
  }

  function Packed(bits: seq<bool>): (r: seq<Byte>)
    ensures |r| == ByteCount(|bits|)
  {
    PackInto(seq(ByteCount(|bits|), _ => ZeroByte()), 0, bits, false)
  }

  /** Packing sets exactly its own positions. */
  lemma {:induction false} PackIntoBits(bytes: seq<Byte>, ofs: nat, bits: seq<bool>, lsbMode: bool, p: nat)
    requires ofs + |bits| <= 8 * |bytes| && p < 8 * |bytes|
    ensures BitAt(PackInto(bytes, ofs, bits, lsbMode), p, lsbMode)
         == if ofs <= p < ofs + |bits| then bits[p - ofs] else BitAt(bytes, p, lsbMode)
    decreases |bits|
  {
    if bits != [] {
      var n := |bits| - 1;
      PackIntoBits(bytes, ofs, bits[..n], lsbMode, p);
      WrittenBit(PackInto(bytes, ofs, bits[..n], lsbMode), ofs + n, lsbMode, bits[n], p);
    }
  }

  /** Unpacking what was packed at an offset, in either bit order, gives the bits back. */
  lemma UnpackPack(bytes: seq<Byte>, ofs: nat, bits: seq<bool>, lsbMode: bool)
    requires ofs + |bits| <= 8 * |bytes|
    ensures UnpackFrom(PackInto(bytes, ofs, bits, lsbMode), ofs, |bits|, lsbMode) == bits
  {
    var packed := PackInto(bytes, ofs, bits, lsbMode);
    var r := UnpackFrom(packed, ofs, |bits|, lsbMode);
    forall k | 0 <= k < |bits| ensures r[k] == bits[k] {
      PackIntoBits(bytes, ofs, bits, lsbMode, ofs + k);
    }
  }

  /** Packing what was unpacked from a place back into that place changes nothing. */
  lemma PackUnpack(bytes: seq<Byte>, ofs: nat, n: nat, lsbMode: bool)
    requires ofs + n <= 8 * |bytes|
    ensures PackInto(bytes, ofs, UnpackFrom(bytes, ofs, n, lsbMode), lsbMode) == bytes
  {
    var bits := UnpackFrom(bytes, ofs, n, lsbMode);
    forall p: nat | p < 8 * |bytes|
      ensures BitAt(PackInto(bytes, ofs, bits, lsbMode), p, lsbMode) == BitAt(bytes, p, lsbMode)
    {
      PackIntoBits(bytes, ofs, bits, lsbMode, p);
    }
    SameBits(PackInto(bytes, ofs, bits, lsbMode), bytes, lsbMode);
  }

  // ---- The loops ----

  /** osmo_ubit2pbit. */
  method Ubit2Pbit(in_: seq<bool>) returns (out: seq<Byte>)
    ensures out == Packed(in_)
  {
    out := [];
    var cur := ZeroByte();
    var i := 0;
    while i < |in_|
      invariant i <= |in_| && |out| == i / 8
      invariant forall p: nat :: p < 8 * |out| ==> BitAt(out, p, false) == in_[p]
      invariant forall n :: 0 <= n < 8 ==> cur[n] == (7 - n < i % 8 && in_[i - i % 8 + 7 - n])
    {
      var bitnum := 7 - i % 8;
      cur := WithBit(cur, bitnum, cur[bitnum] || in_[i]);
      if i % 8 == 7 {
        ByteDone(out, in_, cur, i);
        out := out + [cur];
        cur := ZeroByte();
      }
      i := i + 1;
    }
    if i % 8 != 0 {
      out := out + [cur];
    }
    forall p: nat | p < 8 * |out|
      ensures BitAt(out, p, false) == (p < |in_| && in_[p])
    {
    }
    PackedIs(out, in_);
  }

  lemma ByteDone(out: seq<Byte>, bits: seq<bool>, cur: Byte, i: nat)
    requires i < |bits| && i % 8 == 7 && |out| == i / 8
    requires forall p: nat :: p < 8 * |out| ==> BitAt(out, p, false) == bits[p]
    requires forall n :: 0 <= n < 8 ==> cur[n] == bits[i - n]
    ensures forall p: nat :: p < 8 * |out + [cur]| ==> BitAt(out + [cur], p, false) == bits[p]
  {
  }

  lemma PackedIs(out: seq<Byte>, bits: seq<bool>)
    requires |out| == ByteCount(|bits|)
    requires forall p: nat :: p < 8 * |out| ==> BitAt(out, p, false) == (p < |bits| && bits[p])
    ensures out == Packed(bits)
  {
    var zero := seq(ByteCount(|bits|), _ => ZeroByte());
    forall p: nat | p < 8 * |out| ensures BitAt(Packed(bits), p, false) == BitAt(out, p, false) {
      PackIntoBits(zero, 0, bits, false, p);
    }
    SameBits(Packed(bits), out, false);
  }

  /** The inner loop of osmo_pbit2ubit: the bits of one byte, highest first, until enough were
      written. */
  method UnpackByte(out: array<bool>, in_: seq<Byte>, i: nat, numBits: nat) returns (n: nat)
    requires i < |in_| && 8 * i < out.Length && 8 * i <= numBits <= out.Length
    requires forall k :: 0 <= k < 8 * i ==> out[k] == BitAt(in_, k, false)
    requires numBits == 0 || 8 * i < numBits
    modifies out
    ensures n == if numBits == 0 then 1 else if numBits < 8 * i + 8 then numBits else 8 * i + 8
    ensures forall k :: 0 <= k < n ==> out[k] == BitAt(in_, k, false)
    ensures forall k :: n <= k < out.Length ==> out[k] == old(out[k])
  {
    var bit := 7;
    n := 8 * i;
    while true
      invariant 0 <= bit <= 7 && n == 8 * i + 7 - bit < out.Length && (n < numBits || n == 0)
      invariant forall k :: 0 <= k < n ==> out[k] == BitAt(in_, k, false)
      invariant forall k :: n <= k < out.Length ==> out[k] == old(out[k])
      decreases bit
    {
      BitOf(in_, i, bit);
      hide BitAt;
      out[n] := in_[i][bit];
      n := n + 1;
      if n >= numBits || bit == 0 {
        return;
      }
      bit := bit - 1;
    }
  }

  lemma BitOf(bytes: seq<Byte>, i: nat, bit: nat)
    requires i < |bytes| && bit < 8
    ensures BitAt(bytes, 8 * i + 7 - bit, false) == bytes[i][bit]
  {
    RemainderUnique(8 * i + 7 - bit, 8, i, 7 - bit);
  }

  lemma UnpackedIs(bytes: seq<Byte>, r: seq<bool>)
    requires |r| <= 8 * |bytes| && forall k :: 0 <= k < |r| ==> r[k] == BitAt(bytes, k, false)
    ensures r == UnpackFrom(bytes, 0, |r|, false)
  {
    hide BitAt;
  }

  /** osmo_pbit2ubit. Asked for no bits at all it still writes one. */
  method Pbit2Ubit(out: array<bool>, in_: seq<Byte>, numBits: nat) returns (n: nat)
    requires out.Length >= numBits && out.Length > 0 && 8 * |in_| >= numBits && |in_| > 0
    modifies out
    ensures n == if numBits == 0 then 1 else numBits
    ensures out[..n] == UnpackFrom(in_, 0, n, false)
    ensures out[n..] == old(out[n..])
  {
    hide BitAt, UnpackFrom;
    n := 0;
    var i := 0;
    while i < numBits / 8 + 1
      invariant n == 8 * i && (n < numBits || n == 0)
      invariant forall k :: 0 <= k < n ==> out[k] == BitAt(in_, k, false)
      invariant forall k :: n <= k < out.Length ==> out[k] == old(out[k])
    {
      n := UnpackByte(out, in_, i, numBits);
      if n >= numBits {
        UnpackedIs(in_, out[..n]);
        return;
      }
      i := i + 1;
    }
  }

  /** The returned length, computed in 32 unsigned bits. */
  function LengthExt(end: nat): (len: nat)
    ensures 0 < end <= 0x1_0000_0000 ==> len == ByteCount(end)
    ensures end == 0 ==> len == 0x2000_0000
  {
    (end - 1) % 0x1_0000_0000 / 8 + 1
  }

  /** osmo_ubit2pbit_ext. */
  method Ubit2PbitExt(out: array<Byte>, outOfs: nat, in_: seq<bool>, inOfs: nat, numBits: nat, lsbMode: bool)
    returns (len: nat)
    requires outOfs + numBits <= 8 * out.Length && inOfs + numBits <= |in_|
    modifies out
    ensures out[..] == PackInto(old(out[..]), outOfs, in_[inOfs..inOfs + numBits], lsbMode)
    ensures 0 < outOfs + numBits <= 0x1_0000_0000 ==> len == ByteCount(outOfs + numBits)
    ensures outOfs + numBits == 0 ==> len == 0x2000_0000
  {
    hide LengthExt, BitNo, WithBit, ByteCount;
    ghost var before := out[..];
    for i := 0 to numBits
      invariant out[..] == PackInto(before, outOfs, in_[inOfs..inOfs + i], lsbMode)
    {
      var op := outOfs + i;
      var bn := BitNo(op, lsbMode);
      ghost var bits := in_[inOfs..inOfs + i + 1];
      assert bits[..i] == in_[inOfs..inOfs + i];
      out[op / 8] := WithBit(out[op / 8], bn, in_[inOfs + i]);
    }
    len := LengthExt(outOfs + numBits);
  }

  /** osmo_pbit2ubit_ext. */
  method Pbit2UbitExt(out: array<bool>, outOfs: nat, in_: seq<Byte>, inOfs: nat, numBits: nat, lsbMode: bool)
    returns (len: nat)
    requires outOfs + numBits <= out.Length && inOfs + numBits <= 8 * |in_|
    modifies out
    ensures out[..] == old(out[..outOfs]) + UnpackFrom(in_, inOfs, numBits, lsbMode) + old(out[outOfs + numBits..])
    ensures len == outOfs + numBits
  {
    ghost var before := out[..];
    for i := 0 to numBits
      invariant forall k :: 0 <= k < out.Length ==>
        out[k] == if outOfs <= k < outOfs + i then BitAt(in_, inOfs + k - outOfs, lsbMode) else before[k]
    {
      var ip := inOfs + i;
      out[outOfs + i] := in_[ip / 8][BitNo(ip, lsbMode)];
    }
    len := outOfs + numBits;
  }

  // ---- A5/4 ----

  /** (a << 2) + (b >> 6), cut to a byte: the two parts do not overlap. */
  function Join(a: Byte, b: Byte): Byte {
    seq(8, n requires 0 <= n < 8 => if n >= 2 then a[n - 2] else b[n + 6])
  }

  function Uplink(gamma: seq<Byte>): (u: seq<Byte>)
    requires |gamma| == 32
    ensures |u| == 15 && forall i :: 0 <= i < 15 ==> u[i] == Join(gamma[i + 14], gamma[i + 15])
  {
    seq(15, i requires 0 <= i < 15 => Join(gamma[i + 14], gamma[i + 15]))
  }

  /** The A5/4 uplink block is bits 114 to 227 of the generated stream. */
  lemma UplinkBlock(gamma: seq<Byte>)
    requires |gamma| == 32
    ensures UnpackFrom(Uplink(gamma), 0, 114, false) == UnpackFrom(gamma, 114, 114, false)
  {
    forall k: nat | k < 114 ensures BitAt(Uplink(gamma), k, false) == BitAt(gamma, 114 + k, false) {
      var i, r := k / 8, k % 8;
      if r < 6 {
        RemainderUnique(114 + k, 8, i + 14, r + 2);
      } else {
        RemainderUnique(114 + k, 8, i + 15, r - 6);
      }
    }
  }

  /** osmo_a5_4: `up` and `down` are what the key stream core generated for the two calls. */
  method A54(up: seq<Byte>, down: seq<Byte>, dl: array?<bool>, ul: array?<bool>)
    requires |up| == |down| == 32 && (dl != null ==> dl.Length == 114) && (ul != null ==> ul.Length == 114)
    requires dl != null ==> dl != ul
    modifies dl, ul
    ensures ul != null ==> ul[..] == UnpackFrom(up, 114, 114, false)
    ensures dl != null ==> dl[..] == UnpackFrom(down, 0, 114, false)
  {
    if ul != null {
      var uplink: seq<Byte> := [];
      for i := 0 to 15
        invariant |uplink| == i && forall k :: 0 <= k < i ==> uplink[k] == Join(up[k + 14], up[k + 15])
      {
        uplink := uplink + [Join(up[i + 14], up[i + 15])];
      }
      assert uplink == Uplink(up);
      var n := Pbit2Ubit(ul, uplink, 114);
      UplinkBlock(up);
      assert ul[..n] == ul[..];
    }
    if dl != null {
      var n := Pbit2Ubit(dl, down, 114);
      assert dl[..n] == dl[..];
    }
  }
}
