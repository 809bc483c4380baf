/** Byte-level integer codecs behind the generated accessors.

    An unsigned integer field of width `w` bytes is stored as `w` bytes inside
    the overlay buffer. Reading the field through the record view yields the
    bytes decoded in the HOST's byte order; `from_be`/`to_be` and
    `from_le`/`to_le` then swap the bytes when the host order differs from the
    requested one. This module defines both orders, the byte swap, and proves
    that the composition "host load, then from_be" is big-endian decoding on
    every host (and likewise for the other three combinations).
 */
module Bytes {

  /** One byte of the raw view. */
  type byte = x: int | 0 <= x < 256

  /** The byte order of a machine, or of a wire format. */
  datatype ByteOrder = BigEndian | LittleEndian

  /** 256 to the power `n`: the number of values that fit in `n` bytes. */
  function Pow256(n: nat): (p: nat)
    ensures p >= 1
  {
    if n == 0 then 1 else 256 * Pow256(n - 1)
  }

  /** The bytes of `s` in the opposite order. */
  function Reverse(s: seq<byte>): (r: seq<byte>)
    ensures |r| == |s|
  {
    if |s| == 0 then [] else Reverse(s[1..]) + [s[0]]
  }

  /** Most significant byte first. */
  function DecodeBE(s: seq<byte>): (v: nat)
    ensures v < Pow256(|s|)
  {
    if |s| == 0 then 0
    else
      var high := DecodeBE(s[..|s| - 1]);
      assert high * 256 + s[|s| - 1] <= (Pow256(|s| - 1) - 1) * 256 + 255;
      high * 256 + s[|s| - 1]
  }

  /** The low `w` bytes of `v`, most significant first. */
  function EncodeBE(v: nat, w: nat): (s: seq<byte>)
    ensures |s| == w
  {
    if w == 0 then [] else EncodeBE(v / 256, w - 1) + [v % 256]
  }

  /** Least significant byte first. */
  function DecodeLE(s: seq<byte>): (v: nat)
    ensures v < Pow256(|s|)
  {
    if |s| == 0 then 0
    else
      var high := DecodeLE(s[1..]);
      assert s[0] + 256 * high <= 255 + 256 * (Pow256(|s| - 1) - 1);
      s[0] + 256 * high
  }

  /** The low `w` bytes of `v`, least significant first. */
  function EncodeLE(v: nat, w: nat): (s: seq<byte>)
    ensures |s| == w
  {
    if w == 0 then [] else [v % 256] + EncodeLE(v / 256, w - 1)
  }

  function Decode(order: ByteOrder, s: seq<byte>): nat
  {
    match order
    case BigEndian => DecodeBE(s)
    case LittleEndian => DecodeLE(s)
  }

  function Encode(order: ByteOrder, v: nat, w: nat): seq<byte>
  {
    match order
    case BigEndian => EncodeBE(v, w)
    case LittleEndian => EncodeLE(v, w)
  }

  /** `swap_bytes` of a `w`-byte integer: the value whose bytes are those of
      `v` in reverse order. */
  function SwapBytes(v: nat, w: nat): nat
  {
    DecodeBE(Reverse(EncodeBE(v, w)))
  }

  /** `T::from_be(x)` on a host with byte order `host`, for a `w`-byte `T`:
      the value whose big-endian reading is the host-order bytes of `x`. */
  function FromBe(host: ByteOrder, w: nat, x: nat): (r: nat)
    ensures x < Pow256(w) ==> r < Pow256(w) && r == DecodeBE(Encode(host, x, w))
  {
    if host == BigEndian then
      (if x < Pow256(w) then DecodeEncodeBE(x, w); x else x)
    else
      EncodeLEIsReversedBE(x, w);
      SwapBytes(x, w)
  }

  /** `x.to_be()`: the same permutation of bytes as `from_be`, which undoes
      it. */
  function ToBe(host: ByteOrder, w: nat, x: nat): (r: nat)
    ensures x < Pow256(w) ==> r < Pow256(w) && FromBe(host, w, r) == x
  {
    if x < Pow256(w) then SwapBytesInvolutive(x, w); FromBe(host, w, x)
    else FromBe(host, w, x)
  }

  /** `T::from_le(x)` on a host with byte order `host`, for a `w`-byte `T`:
      the value whose little-endian reading is the host-order bytes of `x`. */
  function FromLe(host: ByteOrder, w: nat, x: nat): (r: nat)
    ensures x < Pow256(w) ==> r < Pow256(w) && r == DecodeLE(Encode(host, x, w))
  {
    if host == LittleEndian then
      (if x < Pow256(w) then DecodeEncodeLE(x, w); x else x)
    else
      DecodeLEIsReversedBE(EncodeBE(x, w));
      SwapBytes(x, w)
  }

  /** `x.to_le()`: the same permutation of bytes as `from_le`, which undoes
      it. */
  function ToLe(host: ByteOrder, w: nat, x: nat): (r: nat)
    ensures x < Pow256(w) ==> r < Pow256(w) && FromLe(host, w, r) == x
  {
    if x < Pow256(w) then SwapBytesInvolutive(x, w); FromLe(host, w, x)
    else FromLe(host, w, x)
  }

  // ---------------------------------------------------------------------
  // Codec lemmas

  lemma {:induction false} DivBound(v: nat, p: nat)
    requires v < 256 * p
    ensures v / 256 < p
  {
  }

  lemma {:induction false} ReverseReverse(s: seq<byte>)
    ensures Reverse(Reverse(s)) == s
  {
    if |s| > 0 {
      ReverseAppend(Reverse(s[1..]), [s[0]]);
      ReverseReverse(s[1..]);
      assert Reverse([s[0]]) == [s[0]];
      assert [s[0]] + s[1..] == s;
    }
  }

  lemma {:induction false} ReverseAppend(a: seq<byte>, b: seq<byte>)
    ensures Reverse(a + b) == Reverse(b) + Reverse(a)
  {
    if |a| == 0 {
      assert a + b == b;
    } else {
      assert (a + b)[1..] == a[1..] + b;
      ReverseAppend(a[1..], b);
    }
  }

  /** Decoding after encoding gives the value back, if it fits. */
  lemma {:induction false} DecodeEncodeBE(v: nat, w: nat)
    requires v < Pow256(w)
    ensures DecodeBE(EncodeBE(v, w)) == v
  {
    if w > 0 {
      var s := EncodeBE(v, w);
      DivBound(v, Pow256(w - 1));
      DecodeEncodeBE(v / 256, w - 1);
      assert s[..|s| - 1] == EncodeBE(v / 256, w - 1);
    }
  }

  /** Encoding after decoding gives the bytes back. */
  lemma {:induction false} EncodeDecodeBE(s: seq<byte>)
    ensures EncodeBE(DecodeBE(s), |s|) == s
  {
    if |s| > 0 {
      var init := s[..|s| - 1];
      var v := DecodeBE(s);
      assert v == DecodeBE(init) * 256 + s[|s| - 1];
      assert v / 256 == DecodeBE(init) && v % 256 == s[|s| - 1];
      EncodeDecodeBE(init);
      assert init + [s[|s| - 1]] == s;
    }
  }

  lemma {:induction false} DecodeEncodeLE(v: nat, w: nat)
    requires v < Pow256(w)
    ensures DecodeLE(EncodeLE(v, w)) == v
  {
    if w > 0 {
      var s := EncodeLE(v, w);
      DivBound(v, Pow256(w - 1));
      DecodeEncodeLE(v / 256, w - 1);
      assert s[1..] == EncodeLE(v / 256, w - 1);
    }
  }

  lemma {:induction false} EncodeDecodeLE(s: seq<byte>)
    ensures EncodeLE(DecodeLE(s), |s|) == s
  {
    if |s| > 0 {
      var v := DecodeLE(s);
      assert v == s[0] + 256 * DecodeLE(s[1..]);
      assert v / 256 == DecodeLE(s[1..]) && v % 256 == s[0];
      EncodeDecodeLE(s[1..]);
      assert [s[0]] + s[1..] == s;
    }
  }

  /** Little-endian decoding is big-endian decoding of the reversed bytes. */
  lemma {:induction false} DecodeLEIsReversedBE(s: seq<byte>)
    ensures DecodeLE(s) == DecodeBE(Reverse(s))
  {
    if |s| > 0 {
      var r := Reverse(s);
      assert r == Reverse(s[1..]) + [s[0]];
      assert r[..|r| - 1] == Reverse(s[1..]);
      DecodeLEIsReversedBE(s[1..]);
    }
  }

  /** Little-endian encoding is the reversed big-endian encoding. */
  lemma {:induction false} EncodeLEIsReversedBE(v: nat, w: nat)
    ensures EncodeLE(v, w) == Reverse(EncodeBE(v, w))
  {
    if w > 0 {
      EncodeLEIsReversedBE(v / 256, w - 1);
      ReverseAppend(EncodeBE(v / 256, w - 1), [v % 256]);
      assert Reverse([v % 256]) == [v % 256];
    }
  }

  /** Swapping twice is the identity on values that fit. */
  lemma SwapBytesInvolutive(v: nat, w: nat)
    requires v < Pow256(w)
    ensures SwapBytes(v, w) < Pow256(w)
    ensures SwapBytes(SwapBytes(v, w), w) == v
  {
    var r := Reverse(EncodeBE(v, w));
    EncodeDecodeBE(r);
    ReverseReverse(EncodeBE(v, w));
    DecodeEncodeBE(v, w);
  }

  /** Reading a field through the record view on a `host` machine and
      applying `from_be` is big-endian decoding of its bytes, whatever the
      host. */
  lemma LoadFromBe(host: ByteOrder, s: seq<byte>)
    ensures FromBe(host, |s|, Decode(host, s)) == DecodeBE(s)
  {
    if host == LittleEndian {
      var v := DecodeLE(s);
      DecodeLEIsReversedBE(s);
      EncodeDecodeBE(Reverse(s));
      ReverseReverse(s);
      assert EncodeBE(v, |s|) == Reverse(s);
    }
  }

  /** As `LoadFromBe`, for `from_le`. */
  lemma LoadFromLe(host: ByteOrder, s: seq<byte>)
    ensures FromLe(host, |s|, Decode(host, s)) == DecodeLE(s)
  {
    if host == BigEndian {
      var v := DecodeBE(s);
      EncodeDecodeBE(s);
      DecodeLEIsReversedBE(s);
    }
  }

  /** Writing `v.to_be()` through the record view on a `host` machine stores
      the big-endian encoding of `v`, whatever the host. */
  lemma StoreToBe(host: ByteOrder, v: nat, w: nat)
    requires v < Pow256(w)
    ensures Encode(host, ToBe(host, w, v), w) == EncodeBE(v, w)
  {
    if host == LittleEndian {
      var r := Reverse(EncodeBE(v, w));
      EncodeLEIsReversedBE(DecodeBE(r), w);
      EncodeDecodeBE(r);
      ReverseReverse(EncodeBE(v, w));
    }
  }

  /** As `StoreToBe`, for `to_le`. */
  lemma StoreToLe(host: ByteOrder, v: nat, w: nat)
    requires v < Pow256(w)
    ensures Encode(host, ToLe(host, w, v), w) == EncodeLE(v, w)
  {
    if host == BigEndian {
      EncodeLEIsReversedBE(v, w);
      EncodeDecodeBE(Reverse(EncodeBE(v, w)));
    }
  }

  /** Decoding in either order after encoding in the same order gives the
      value back. */
  lemma DecodeEncode(order: ByteOrder, v: nat, w: nat)
    requires v < Pow256(w)
    ensures |Encode(order, v, w)| == w
    ensures Decode(order, Encode(order, v, w)) == v
  {
    match order
    case BigEndian => DecodeEncodeBE(v, w);
    case LittleEndian => DecodeEncodeLE(v, w);
  }
}
