/** Clients of the generated union: what a caller of `new_buffer`,
    `as_buffer` and the accessors can rely on, and the struct
    `#[repr(C)] #[nocopy_macro(endian = "big")] struct Example { a: u16, b: u8 }`
    carried from its definition to its bytes.
 */
module Scenario {
  import opened Bytes
  import opened Schema
  import opened Generate
  import opened Overlay

  /** `as_buffer` right after `new_buffer(b)` returns `b`. */
  method NewThenAsBuffer(g: Generated, layout: seq<Slot>, size: nat, host: ByteOrder, b: seq<byte>)
    returns (r: seq<byte>)
    requires LayoutValid(g.accessors, layout, size) && |b| == size
    ensures r == b
  {
    var u := new Union.NewBuffer(g, layout, size, host, b);
    r := u.AsBuffer();
  }

  /** The getter of an integer field right after its setter returns the
      value set, in every mode and on every host. */
  method SetThenGetInt(u: Union, k: nat, v: nat) returns (r: nat)
    requires u.Valid() && k < |u.accessors|
    requires IntWidth(u.accessors[k].ty).Some?
    requires v < Pow256(IntWidth(u.accessors[k].ty).value)
    modifies u.buffer
    ensures r == v
  {
    u.SetInt(k, v);
    r := u.GetInt(k);
  }

  /** The same for a field of any other type. */
  method SetThenGetRaw(u: Union, k: nat, bytes: seq<byte>) returns (r: seq<byte>)
    requires u.Valid() && k < |u.accessors|
    requires IntWidth(u.accessors[k].ty).None?
    requires |bytes| == u.layout[k].width
    modifies u.buffer
    ensures r == bytes
  {
    u.SetRaw(k, bytes);
    r := u.GetRaw(k);
  }

  function ExampleInput(): DeriveInput
  {
    DeriveInput(
      [ Attribute(Outer, Ident("repr"), ListArgs([MetaItem(PathMeta(Ident("C")))])),
        Attribute(Outer, Ident("nocopy_macro"), ListArgs([MetaItem(NameValueMeta(Ident("endian"), Str("big")))])) ],
      "Example",
      Struct(Named([Field("a", Primitive("u16")), Field("b", Primitive("u8"))])))
  }

  function ExampleGenerated(): Generated
  {
    Generated("ExampleBuffer", "Example",
      [ Accessor("a", "get_a", "set_a", Primitive("u16"), ConvertBig),
        Accessor("b", "get_b", "set_b", Primitive("u8"), ConvertBig) ])
  }

  /** `Example` resolves to the name `ExampleBuffer` and big-endian order. */
  lemma ExampleConfig()
    ensures Resolve.ConfigOf(ExampleInput()) == Ok(Config("ExampleBuffer", Big))
  {
    var attrs := ExampleInput().attrs;
    var item := MetaItem(NameValueMeta(Ident("endian"), Str("big")));
    assert GetIdent(attrs[0].path) == Some("repr");
    assert Resolve.StepAttr(Resolve.Initial, attrs[0]) == Ok(Resolve.Initial);
    assert Resolve.StepItem(Resolve.Initial, item) == Ok(Resolve.MetaState(None, Big));
    assert Resolve.FoldItems(Resolve.Initial, [item]) == Ok(Resolve.MetaState(None, Big));
    assert Resolve.StepAttr(Resolve.Initial, attrs[1]) == Ok(Resolve.MetaState(None, Big));
    assert attrs[1..][1..] == [];
    assert Resolve.FoldAttrs(Resolve.Initial, attrs) == Ok(Resolve.MetaState(None, Big));
    assert "Example" + "Buffer" == "ExampleBuffer";
  }

  /** `Example` generates `ExampleBuffer` with big-endian accessors
      `get_a`/`set_a` and `get_b`/`set_b`, in that order. */
  lemma ExampleGenerates()
    ensures Generate.Generate(ExampleInput()) == Ok(ExampleGenerated())
  {
    var input := ExampleInput();
    var g := ExampleGenerated();
    assert HasReprC(input.attrs) by {
      assert ParseMeta(input.attrs[0]) == Some(ReprC);
    }
    ExampleConfig();
    var fields := input.data.fields.named;
    assert "get_" + "a" == "get_a" && "set_" + "a" == "set_a";
    assert "get_" + "b" == "get_b" && "set_" + "b" == "set_b";
    assert MatchEndian(fields[0], Big) == g.accessors[0];
    assert MatchEndian(fields[1], Big) == g.accessors[1];
    assert Accessors(fields, Big) == g.accessors;
  }

  /** The byte arithmetic of `ExampleBuffer`. */
  lemma ExampleBytes()
    ensures DecodeBE([1, 2]) == 0x0102 && DecodeBE([0]) == 0
    ensures Splice([1, 2, 0], 2, EncodeBE(5, 1)) == [1, 2, 5]
  {
    assert [1, 2][..1] == [1] && [1][..0] == [];
    assert [0][..0] == [];
    assert EncodeBE(5, 1) == [5];
  }

  /** Over the bytes [1, 2, 0] (`a` at offset 0, width 2; `b` at offset 2,
      width 1), `get_a` is 0x0102 and `get_b` is 0, and after `set_b(5)` the
      buffer is [1, 2, 5], on either host. */
  method ExampleBuffer(host: ByteOrder) returns (name: string, a: nat, b: nat, after: seq<byte>)
    ensures name == "ExampleBuffer"
    ensures a == 0x0102 && b == 0
    ensures after == [1, 2, 5]
  {
    var generated := NoCopy(ExampleInput());
    ExampleGenerates();
    name := generated.value.name;
    a, b, after := ExampleAccess(generated.value, host);
  }

  /** The accessor calls of `ExampleBuffer` on the union generated for
      `Example`. */
  method ExampleAccess(g: Generated, host: ByteOrder) returns (a: nat, b: nat, after: seq<byte>)
    requires g.accessors == ExampleGenerated().accessors
    ensures a == 0x0102 && b == 0
    ensures after == [1, 2, 5]
  {
    ExampleBytes();
    var layout := [Slot(0, 2), Slot(2, 1)];
    var u := new Union.NewBuffer(g, layout, 3, host, [1, 2, 0]);
    a := u.GetInt(0);
    assert u.FieldBytes(0) == [1, 2];
    b := u.GetInt(1);
    assert u.FieldBytes(1) == [0];
    u.SetInt(1, 5);
    after := u.AsBuffer();
  }
}
