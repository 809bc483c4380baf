/** The already-parsed input of the `NoCopy` derive: a struct definition as
    the `syn` crate hands it over (`DeriveInput` with its attributes, data
    kind and fields), and the outcome type of generation.

    Token streams are not modelled: an attribute arrives with its path and
    with what its argument tokens parse to, or the fact that they do not
    parse as a meta item.
 */
module Schema {

  /** A path such as `nocopy_macro`, `repr` or `::std::u8`. */
  datatype Path = Path(leadingColon: bool, segments: seq<string>)

  /** `Path::get_ident`: the identifier of a path made of one segment and
      no leading `::`. */
  function GetIdent(p: Path): (r: Option<string>)
    ensures r.Some? <==> !p.leadingColon && |p.segments| == 1
    ensures r.Some? ==> p == Ident(r.value)
  {
    if !p.leadingColon && |p.segments| == 1 then Some(p.segments[0]) else None
  }

  /** The path written as the single identifier `name`. */
  function Ident(name: string): Path
  {
    Path(false, [name])
  }

  datatype Option<T> = None | Some(value: T)

  /** A literal: a string literal keeps its value; any other literal
      (integer, float, byte, character, boolean) is kept as its token text. */
  datatype Lit = Str(value: string) | NonStr(token: string)

  /** `syn::Meta`: `path`, `path(nested, ...)` or `path = lit`. */
  datatype Meta =
    | PathMeta(path: Path)
    | ListMeta(path: Path, nested: seq<NestedMeta>)
    | NameValueMeta(path: Path, lit: Lit)

  /** `syn::NestedMeta`: an item inside a meta list. */
  datatype NestedMeta = MetaItem(meta: Meta) | LitItem(lit: Lit)

  /** `#[...]` is an outer attribute, `#![...]` an inner one. */
  datatype AttrStyle = Outer | Inner

  /** What the tokens after an attribute's path parse to. */
  datatype AttrArgs =
    | NoArgs                           // `#[path]`
    | ListArgs(nested: seq<NestedMeta>) // `#[path(a, b = "c")]`
    | EqArgs(lit: Lit)                 // `#[path = lit]`
    | Unparsable                       // anything that is not a meta item

  datatype Attribute = Attribute(style: AttrStyle, path: Path, args: AttrArgs)

  /** `Attribute::parse_meta`. */
  function ParseMeta(a: Attribute): (r: Option<Meta>)
    ensures r.None? <==> a.args == Unparsable
    ensures r.Some? ==> r.value.path == a.path
  {
    match a.args
    case NoArgs => Some(PathMeta(a.path))
    case ListArgs(nested) => Some(ListMeta(a.path, nested))
    case EqArgs(lit) => Some(NameValueMeta(a.path, lit))
    case Unparsable => None
  }

  /** A field type, compared syntactically as `syn::Type` values are. */
  datatype Type =
    | PathType(path: Path)              // `u16`, `Foo`, `std::primitive::u8`
    | ArrayType(elem: Type, len: nat)   // `[T; N]`
    | TupleType(elems: seq<Type>)       // `(A, B)`
    | OtherType(token: string)          // references, pointers, parenthesized types, ...

  datatype Field = Field(ident: string, ty: Type)

  /** `syn::Fields`. */
  datatype Fields = Named(named: seq<Field>) | Unnamed(unnamed: seq<Type>) | Unit

  /** `syn::Data`. */
  datatype Data = Struct(fields: Fields) | Enum | Union

  /** `syn::DeriveInput` (generics are not modelled). */
  datatype DeriveInput = DeriveInput(attrs: seq<Attribute>, ident: string, data: Data)

  /** `Endian`: the byte order requested for integer fields. */
  datatype Endian = Big | Little | Default

  /** The resolved configuration: the name of the emitted union and the
      requested byte order. */
  datatype Config = Config(name: string, endian: Endian)

  /** One category per `panic!`/`expect` that the input can trigger. */
  datatype Error =
    | InvalidAttribute   // some attribute does not parse as a meta item
    | MissingReprC       // no attribute is exactly `repr(C)`
    | InnerAttribute     // an attribute in inner position
    | NotListForm        // a `nocopy_macro` attribute not of the form `nocopy_macro(...)`
    | MalformedItem      // an item of `nocopy_macro(...)` that is not `key = "string"`
    | UnknownEndian      // an `endian` value other than "big" or "little"
    | NotStruct          // an enum or a union
    | UnnamedFields      // a tuple struct or a unit struct

  /** Generation either emits its result or aborts with an error. */
  datatype Result<T> = Ok(value: T) | Err(error: Error)
}
