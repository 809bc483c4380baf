/** The run-time behaviour of the emitted union
    `union <Name> { structure: <Struct>, buffer: [u8; size_of::<Struct>()] }`
    and its `impl` block: `new_buffer`, `as_buffer`, and the accessor pair of
    every field.

    Both views share one storage: here a byte array. Where the compiler puts
    each field (its `repr(C)` offset and size) is an input, the layout table,
    with one slot per accessor. Reading `self.structure.f` for an integer
    field decodes the field's bytes in the host's byte order; writing it
    stores the host-order bytes. Fields of any other type are copied as raw
    bytes.
 */
module Overlay {
  import opened Bytes
  import opened Generate

  /** Where one field lives in the buffer. */
  datatype Slot = Slot(offset: nat, width: nat)

  predicate Disjoint(a: Slot, b: Slot)
  {
    a.offset + a.width <= b.offset || b.offset + b.width <= a.offset
  }

  /** What the compiler guarantees of a `repr(C)` layout: one slot per
      field, every slot inside the struct, no two slots overlapping, and each
      integer field as wide as its type. */
  predicate LayoutValid(accessors: seq<Accessor>, layout: seq<Slot>, size: nat)
  {
    && |layout| == |accessors|
    && (forall k :: 0 <= k < |layout| ==> layout[k].offset + layout[k].width <= size)
    && (forall k, m :: 0 <= k < |layout| && 0 <= m < |layout| && k != m ==> Disjoint(layout[k], layout[m]))
    && (forall k :: 0 <= k < |layout| && IntWidth(accessors[k].ty).Some? ==>
          layout[k].width == IntWidth(accessors[k].ty).value)
  }

  /** The byte order in which an accessor keeps an integer in the buffer. */
  function WireOrder(mode: Mode, host: ByteOrder): ByteOrder
  {
    match mode
    case ConvertBig => BigEndian
    case ConvertLittle => LittleEndian
    case PassThrough => host
  }

  /** `s` with `bytes` written over it from position `off` on. */
  function Splice(s: seq<byte>, off: nat, bytes: seq<byte>): (r: seq<byte>)
    requires off + |bytes| <= |s|
    ensures |r| == |s|
  {
    s[..off] + bytes + s[off + |bytes|..]
  }

  lemma SpliceAt(s: seq<byte>, off: nat, bytes: seq<byte>, p: nat)
    requires off + |bytes| <= |s| && p < |s|
    ensures Splice(s, off, bytes)[p] == if off <= p < off + |bytes| then bytes[p - off] else s[p]
  {
  }

  /** A splice puts `bytes` exactly at `off` ... */
  lemma SpliceInside(s: seq<byte>, off: nat, bytes: seq<byte>)
    requires off + |bytes| <= |s|
    ensures Splice(s, off, bytes)[off..off + |bytes|] == bytes
  {
    var r := Splice(s, off, bytes);
    forall p | 0 <= p < |bytes|
      ensures r[off..off + |bytes|][p] == bytes[p]
    {
      SpliceAt(s, off, bytes, off + p);
    }
  }

  /** ... and leaves every range that does not meet it as it was. */
  lemma SpliceOutside(s: seq<byte>, off: nat, bytes: seq<byte>, o: nat, w: nat)
    requires off + |bytes| <= |s| && o + w <= |s|
    requires o + w <= off || off + |bytes| <= o
    ensures Splice(s, off, bytes)[o..o + w] == s[o..o + w]
  {
    var r := Splice(s, off, bytes);
    forall p | o <= p < o + w
      ensures r[p] == s[p]
    {
      SpliceAt(s, off, bytes, p);
    }
  }

  /** `t` holds the bytes of `s` in every slot of `layout` except the `k`-th. */
  predicate OtherSlotsKept(layout: seq<Slot>, k: nat, s: seq<byte>, t: seq<byte>)
  {
    forall m :: 0 <= m < |layout| && m != k &&
                layout[m].offset + layout[m].width <= |s| && layout[m].offset + layout[m].width <= |t| ==>
      t[layout[m].offset..layout[m].offset + layout[m].width]
      == s[layout[m].offset..layout[m].offset + layout[m].width]
  }

  /** Writing one slot of a valid layout puts the new bytes in that slot and
      leaves the bytes of every other slot as they were. */
  lemma SpliceFrame(accessors: seq<Accessor>, layout: seq<Slot>, size: nat, s: seq<byte>, k: nat, bytes: seq<byte>)
    requires LayoutValid(accessors, layout, size) && |s| == size
    requires k < |layout| && |bytes| == layout[k].width
    ensures Splice(s, layout[k].offset, bytes)[layout[k].offset..layout[k].offset + layout[k].width] == bytes
    ensures OtherSlotsKept(layout, k, s, Splice(s, layout[k].offset, bytes))
  {
    SpliceInside(s, layout[k].offset, bytes);
    forall m | 0 <= m < |layout| && m != k
      ensures Splice(s, layout[k].offset, bytes)[layout[m].offset..layout[m].offset + layout[m].width]
              == s[layout[m].offset..layout[m].offset + layout[m].width]
    {
      assert Disjoint(layout[k], layout[m]);
      SpliceOutside(s, layout[k].offset, bytes, layout[m].offset, layout[m].width);
    }
  }

  /** The value a setter hands to the host-order store: `v.to_be()` for
      `big_endian`, `v.to_le()` for `little_endian`, `v` itself otherwise. */
  function HostValue(mode: Mode, host: ByteOrder, w: nat, v: nat): nat
  {
    match mode
    case ConvertBig => ToBe(host, w, v)
    case ConvertLittle => ToLe(host, w, v)
    case PassThrough => v
  }

  /** Storing that value in the host's order writes the encoding of `v` in
      the accessor's wire order, on either host, and that encoding decodes
      back to `v`. */
  lemma StoreConverted(mode: Mode, host: ByteOrder, v: nat, w: nat)
    requires v < Pow256(w)
    ensures Encode(host, HostValue(mode, host, w, v), w) == Encode(WireOrder(mode, host), v, w)
    ensures Decode(WireOrder(mode, host), Encode(WireOrder(mode, host), v, w)) == v
  {
    match mode {
      case ConvertBig => StoreToBe(host, v, w);
      case ConvertLittle => StoreToLe(host, v, w);
      case PassThrough =>
    }
    DecodeEncode(WireOrder(mode, host), v, w);
  }

  /** An instance of the emitted union. */
  class Union {
    const name: string
    const accessors: seq<Accessor>
    const layout: seq<Slot>
    const size: nat
    const host: ByteOrder
    /** The storage both views share. */
    const buffer: array<byte>

    ghost predicate Valid()
      reads this
    {
      buffer.Length == size && LayoutValid(accessors, layout, size)
    }

    /** `new_buffer(buffer)`: the union holding a copy of `b`, which has the
        struct's size. */
    constructor NewBuffer(g: Generated, layout: seq<Slot>, size: nat, host: ByteOrder, b: seq<byte>)
      requires LayoutValid(g.accessors, layout, size)
      requires |b| == size
      ensures Valid() && fresh(buffer)
      ensures name == g.name && accessors == g.accessors
      ensures this.layout == layout && this.size == size && this.host == host
      ensures buffer[..] == b
    {
      name := g.name;
      accessors := g.accessors;
      this.layout := layout;
      this.size := size;
      this.host := host;
      buffer := new byte[|b|](p requires 0 <= p < |b| => b[p]);
    }

    /** The bytes of field `k`. */
    function FieldBytes(k: nat): (s: seq<byte>)
      reads this, buffer
      requires Valid() && k < |layout|
      ensures |s| == layout[k].width
    {
      buffer[layout[k].offset..layout[k].offset + layout[k].width]
    }

    /** `as_buffer()`: the current contents of the shared storage. */
    method AsBuffer() returns (r: seq<byte>)
      requires Valid()
      ensures |r| == size
      ensures r == buffer[..]
    {
      r := buffer[..];
    }

    /** `get_<f>()` for an integer field `f`: the stored value read in the
        host's order and, for `big_endian`/`little_endian`, passed through
        `from_be`/`from_le`. Whatever the host, this is the field's bytes
        decoded in its wire order, and fits the field's type. */
    method GetInt(k: nat) returns (v: nat)
      requires Valid() && k < |accessors|
      requires IntWidth(accessors[k].ty).Some?
      ensures v == Decode(WireOrder(accessors[k].mode, host), FieldBytes(k))
      ensures v < Pow256(IntWidth(accessors[k].ty).value)
    {
      var off, w := layout[k].offset, layout[k].width;
      var bytes := buffer[off..off + w];
      var stored := Decode(host, bytes);
      match accessors[k].mode {
        case ConvertBig =>
          v := FromBe(host, w, stored);
          LoadFromBe(host, bytes);
        case ConvertLittle =>
          v := FromLe(host, w, stored);
          LoadFromLe(host, bytes);
        case PassThrough =>
          v := stored;
      }
    }

    /** `self.structure.f = x`: overwrite one field's bytes in place. */
    method Store(off: nat, bytes: seq<byte>)
      requires Valid() && off + |bytes| <= buffer.Length
      modifies buffer
      ensures buffer[..] == Splice(old(buffer[..]), off, bytes)
    {
      ghost var before := buffer[..];
      forall p | off <= p < off + |bytes| {
        buffer[p] := bytes[p - off];
      }
      forall p | 0 <= p < buffer.Length
        ensures buffer[..][p] == Splice(before, off, bytes)[p]
      {
        SpliceAt(before, off, bytes, p);
      }
    }

    /** `set_<f>(v)` for an integer field `f`: `v`, passed through
        `to_be`/`to_le` for `big_endian`/`little_endian`, is stored in the
        host's order. Whatever the host, the field's bytes become the
        encoding of `v` in its wire order; the getter then returns `v`, and
        no other byte, hence no other field, changes. */
    method SetInt(k: nat, v: nat)
      requires Valid() && k < |accessors|
      requires IntWidth(accessors[k].ty).Some?
      requires v < Pow256(IntWidth(accessors[k].ty).value)
      modifies buffer
      ensures buffer[..] == Splice(old(buffer[..]), layout[k].offset,
                                   Encode(WireOrder(accessors[k].mode, host), v, layout[k].width))
      ensures Decode(WireOrder(accessors[k].mode, host), FieldBytes(k)) == v
      ensures OtherSlotsKept(layout, k, old(buffer[..]), buffer[..])
    {
      var off, w := layout[k].offset, layout[k].width;
      var bytes := Encode(host, HostValue(accessors[k].mode, host, w, v), w);
      StoreConverted(accessors[k].mode, host, v, w);
      ghost var before := buffer[..];
      Store(off, bytes);
      SpliceFrame(accessors, layout, size, before, k, bytes);
      assert FieldBytes(k) == buffer[..][off..off + w];
    }

    /** `get_<f>()` for a field of any other type: its bytes, uninterpreted. */
    method GetRaw(k: nat) returns (bytes: seq<byte>)
      requires Valid() && k < |accessors|
      requires IntWidth(accessors[k].ty).None?
      ensures |bytes| == layout[k].width
      ensures bytes == FieldBytes(k)
    {
      bytes := buffer[layout[k].offset..layout[k].offset + layout[k].width];
    }

    /** `set_<f>(v)` for a field of any other type: `v`'s bytes are copied
        into the field; no other field changes. */
    method SetRaw(k: nat, bytes: seq<byte>)
      requires Valid() && k < |accessors|
      requires IntWidth(accessors[k].ty).None?
      requires |bytes| == layout[k].width
      modifies buffer
      ensures buffer[..] == Splice(old(buffer[..]), layout[k].offset, bytes)
      ensures FieldBytes(k) == bytes
      ensures OtherSlotsKept(layout, k, old(buffer[..]), buffer[..])
    {
      var off, w := layout[k].offset, layout[k].width;
      ghost var before := buffer[..];
      Store(off, bytes);
      SpliceFrame(accessors, layout, size, before, k, bytes);
      assert FieldBytes(k) == buffer[..][off..off + w];
    }
  }
}
