/** `match_endian` and `no_copy`: the checks on the input struct, the
    classification of each field's type, and the list of accessor pairs
    emitted for the union.

    The emitted code is represented by what it is made of: the union's name,
    the struct it overlays, and one accessor descriptor per field (getter and
    setter names, the field type, and which of `big_endian`, `little_endian`
    and `native_endian` produced it). The run-time behaviour of those
    accessors is modelled in module `Overlay`.
 */
module Generate {
  import opened Schema
  import Resolve

  /** Which template generated a field's accessor pair. */
  datatype Mode =
    | ConvertBig     // `big_endian`: `T::from_be` / `v.to_be()`
    | ConvertLittle  // `little_endian`: `T::from_le` / `v.to_le()`
    | PassThrough    // `native_endian`: the stored value as it is

  datatype Accessor = Accessor(field: string, getter: string, setter: string, ty: Type, mode: Mode)

  /** The emitted `pub union <name> { structure: <structure>, buffer: [u8; _] }`
      with its `impl` block. */
  datatype Generated = Generated(name: string, structure: string, accessors: seq<Accessor>)

  function Primitive(name: string): Type
  {
    PathType(Ident(name))
  }

  /** The four types, compared syntactically, whose accessors honour the
      requested byte order. This is the source's own `==` chain; `IntWidth`
      below is the same classification with each type's width, which the
      run-time model needs, and `ConvertibleIffInteger` shows they agree. */
  predicate IsConvertible(ty: Type)
  {
    ty == Primitive("u8") || ty == Primitive("u16") || ty == Primitive("u32") || ty == Primitive("u64")
  }

  /** The width in bytes of the unsigned integer type written `ty`. */
  function IntWidth(ty: Type): (w: Option<nat>)
    ensures w.Some? ==> w.value in {1, 2, 4, 8}
  {
    if ty == Primitive("u8") then Some(1)
    else if ty == Primitive("u16") then Some(2)
    else if ty == Primitive("u32") then Some(4)
    else if ty == Primitive("u64") then Some(8)
    else None
  }

  /** `match_endian`: the accessor pair of one named field. Its accessors
      convert to big-endian exactly when the field's type is eligible and
      `endian = "big"` was requested, to little-endian exactly when it is and
      `endian = "little"` was; in every other case they pass the stored value
      through. */
  function MatchEndian(f: Field, endian: Endian): (acc: Accessor)
    ensures acc.mode == ConvertBig <==> IsConvertible(f.ty) && endian == Big
    ensures acc.mode == ConvertLittle <==> IsConvertible(f.ty) && endian == Little
    ensures acc.mode == PassThrough <==> !IsConvertible(f.ty) || endian == Default
    ensures acc.field == f.ident && acc.ty == f.ty
    ensures acc.getter == "get_" + f.ident && acc.setter == "set_" + f.ident
  {
    var mode :=
      if IsConvertible(f.ty) then
        match endian
        case Big => ConvertBig
        case Little => ConvertLittle
        case Default => PassThrough
      else PassThrough;
    Accessor(f.ident, "get_" + f.ident, "set_" + f.ident, f.ty, mode)
  }

  /** The accessor pairs in field declaration order. */
  function Accessors(fields: seq<Field>, endian: Endian): seq<Accessor>
  {
    seq(|fields|, k requires 0 <= k < |fields| => MatchEndian(fields[k], endian))
  }

  /** The meta item `repr(C)`. */
  const ReprC: Meta := ListMeta(Ident("repr"), [MetaItem(PathMeta(Ident("C")))])

  predicate AllAttributesParse(attrs: seq<Attribute>)
  {
    forall k :: 0 <= k < |attrs| ==> ParseMeta(attrs[k]).Some?
  }

  predicate HasReprC(attrs: seq<Attribute>)
  {
    exists k :: 0 <= k < |attrs| && ParseMeta(attrs[k]) == Some(ReprC)
  }

  /** What `no_copy` emits for `input`, or the error it aborts with. It
      emits exactly when every attribute parses, one of them is `repr(C)`,
      resolution succeeds and the input is a struct with named fields; the
      checks are made in that order, and the first that fails decides the
      error. */
  function Generate(input: DeriveInput): (r: Result<Generated>)
    ensures !AllAttributesParse(input.attrs) ==> r == Err(InvalidAttribute)
    ensures AllAttributesParse(input.attrs) && !HasReprC(input.attrs) ==> r == Err(MissingReprC)
    ensures AllAttributesParse(input.attrs) && HasReprC(input.attrs) && Resolve.ConfigOf(input).Err? ==>
      r == Err(Resolve.ConfigOf(input).error)
    ensures AllAttributesParse(input.attrs) && HasReprC(input.attrs) && Resolve.ConfigOf(input).Ok? ==>
      && (!input.data.Struct? ==> r == Err(NotStruct))
      && (input.data.Struct? && !input.data.fields.Named? ==> r == Err(UnnamedFields))
    ensures r.Ok? <==>
      && AllAttributesParse(input.attrs) && HasReprC(input.attrs) && Resolve.ConfigOf(input).Ok?
      && input.data.Struct? && input.data.fields.Named?
    ensures r.Ok? ==>
      && r.value.name == Resolve.ConfigOf(input).value.name
      && r.value.structure == input.ident
      && r.value.accessors == Accessors(input.data.fields.named, Resolve.ConfigOf(input).value.endian)
  {
    if !AllAttributesParse(input.attrs) then Err(InvalidAttribute)
    else if !HasReprC(input.attrs) then Err(MissingReprC)
    else match Resolve.ConfigOf(input)
      case Err(e) => Err(e)
      case Ok(cfg) =>
        match input.data
        case Struct(Named(fields)) => Ok(Generated(cfg.name, input.ident, Accessors(fields, cfg.endian)))
        case Struct(_) => Err(UnnamedFields)
        case _ => Err(NotStruct)
  }

  /** `no_copy` as the source writes it: the `repr(C)` filter over the
      attributes, `extract_meta`, the checks on the data, and the loop that
      pushes one accessor pair per field. */
  method NoCopy(input: DeriveInput) returns (r: Result<Generated>)
    ensures r == Generate(input)
  {
    var attrs := input.attrs;
    var matches := 0;
    var i := 0;
    while i < |attrs|
      invariant 0 <= i <= |attrs|
      invariant forall k :: 0 <= k < i ==> ParseMeta(attrs[k]).Some?
      invariant matches > 0 <==> exists k :: 0 <= k < i && ParseMeta(attrs[k]) == Some(ReprC)
    {
      var meta := ParseMeta(attrs[i]);
      if meta.None? {
        return Err(InvalidAttribute);
      }
      if meta.value == ReprC {
        matches := matches + 1;
      }
      i := i + 1;
    }
    if matches < 1 {
      return Err(MissingReprC);
    }
    var resolved := Resolve.ExtractMeta(input);
    if resolved.Err? {
      return Err(resolved.error);
    }
    var cfg := resolved.value;
    if !input.data.Struct? {
      return Err(NotStruct);
    }
    if !input.data.fields.Named? {
      return Err(UnnamedFields);
    }
    var fields := input.data.fields.named;
    var funcs: seq<Accessor> := [];
    var j := 0;
    while j < |fields|
      invariant 0 <= j <= |fields|
      invariant |funcs| == j
      invariant forall k :: 0 <= k < j ==> funcs[k] == MatchEndian(fields[k], cfg.endian)
    {
      funcs := funcs + [MatchEndian(fields[j], cfg.endian)];
      j := j + 1;
    }
    assert funcs == Accessors(fields, cfg.endian);
    r := Ok(Generated(cfg.name, input.ident, funcs));
  }

  // ---------------------------------------------------------------------
  // Lemmas

  /** The eligible types are exactly the unsigned integers of width 1, 2, 4
      and 8 bytes. */
  lemma ConvertibleIffInteger(ty: Type)
    ensures IsConvertible(ty) <==> IntWidth(ty).Some?
  {
  }

  /** Exactly one accessor pair per field, in declaration order, named
      `get_<field>` and `set_<field>`. */
  lemma OnePairPerField(fields: seq<Field>, endian: Endian)
    ensures |Accessors(fields, endian)| == |fields|
    ensures forall k :: 0 <= k < |fields| ==>
      var acc := Accessors(fields, endian)[k];
      && acc.field == fields[k].ident && acc.ty == fields[k].ty
      && acc.getter == "get_" + fields[k].ident
      && acc.setter == "set_" + fields[k].ident
  {
  }

  /** Distinct field names give distinct method names: no two getters, no
      two setters, and no getter and setter share a name. */
  lemma AccessorNamesDistinct(fields: seq<Field>, endian: Endian)
    requires forall k, m :: 0 <= k < m < |fields| ==> fields[k].ident != fields[m].ident
    ensures forall k, m :: 0 <= k < |fields| && 0 <= m < |fields| ==>
      var acc := Accessors(fields, endian);
      && (k != m ==> acc[k].getter != acc[m].getter && acc[k].setter != acc[m].setter)
      && acc[k].getter != acc[m].setter
  {
    var acc := Accessors(fields, endian);
    forall k, m | 0 <= k < |fields| && 0 <= m < |fields|
      ensures k != m ==> acc[k].getter != acc[m].getter && acc[k].setter != acc[m].setter
      ensures acc[k].getter != acc[m].setter
    {
      var a, b := fields[k].ident, fields[m].ident;
      assert acc[k].getter[0] == 'g' && acc[m].setter[0] == 's';
      if k != m {
        assert acc[k].getter[4..] == a && acc[m].getter[4..] == b;
        assert acc[k].setter[4..] == a && acc[m].setter[4..] == b;
      }
    }
  }
}
