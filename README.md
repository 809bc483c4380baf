# NoCopy derive: a Dafny model

The `nocopy_macro` crate provides the derive macro `NoCopy`. Applied to a
`#[repr(C)]` struct with named fields, it emits a union that overlays the
struct on a byte array of the struct's size. The union has `new_buffer`,
`as_buffer`, and a `get_<field>`/`set_<field>` pair for every field. The
struct's `#[nocopy_macro(endian = "big" | "little")]` attribute makes the
accessors of `u8`, `u16`, `u32` and `u64` fields convert to and from that
byte order. `#[nocopy_macro(name = "...")]` renames the union. The default
name is the struct's name followed by `Buffer`.

The model has two layers. Both work on an already-parsed struct, not on
token streams.

1. **Generation** (modules `Schema`, `Resolve`, `Generate`). The input is
   a `DeriveInput` value: attributes, name, data kind and fields. `no_copy`
   either emits a `Generated` value or aborts with an `Error`. A
   `Generated` value holds the union's name, the struct's name, and one
   accessor descriptor per field: getter name, setter name, field type, and
   the template that produced it (`big_endian`, `little_endian` or
   `native_endian`). `extract_meta` is a left fold over the attributes
   (`Resolve.FoldAttrs`). The method `Resolve.ExtractMeta` is the source's
   nested loop, proved equal to the fold. Lemmas describe the fold without
   its state: it aborts at the first rejected attribute, and otherwise the
   last `name` and the last `endian` entries win. `Generate.NoCopy` is the
   source's sequence of checks and its push loop, proved equal to
   `Generate.Generate`.
2. **The emitted union at run time** (modules `Bytes`, `Overlay`).
   `Overlay.Union` is a class over one `array<byte>`, the storage that both
   views share. The layout table (offset and width per field) is an input.
   It must be in bounds and pairwise disjoint, and each integer field must
   be as wide as its type. The host's byte order is a parameter. A getter
   reads the field's bytes in host order, as `self.structure.f` does, and
   then applies `from_be`/`from_le`. A setter applies `to_be`/`to_le` and
   stores the result in host order. The proofs show that on either host the
   getter decodes in the requested wire order and the setter writes exactly
   that encoding into the field's byte range. No other byte changes.
   Fields that are not one of the four integer types are copied as raw
   bytes.

Module `Scenario` holds client methods and the struct
`#[repr(C)] #[nocopy_macro(endian = "big")] struct Example { a: u16, b: u8 }`.
It generates `ExampleBuffer`. Over the bytes `[1, 2, 0]`, `get_a` returns
`0x0102` and `get_b` returns `0`. After `set_b(5)`, `as_buffer` returns
`[1, 2, 5]`. This holds on either host.

The model follows the code on these points:
- An unknown key inside `nocopy_macro(...)`, such as `foo = "x"`, is ignored
  (lib.rs:84-94 has no else branch). It is not an error.
- Only `nocopy_macro` attributes must be of the form `path(key = "value")`.
  Any other outer attribute only has to parse as a meta item.
- The marker must be exactly `repr(C)`. The check compares whole meta
  items, so `#[repr(C, packed)]` is rejected with `MissingReprC`.
- The checks run in a fixed order, and the first one that fails decides the
  error:
  1. every attribute parses as a meta item;
  2. some attribute is `repr(C)`;
  3. `extract_meta` succeeds, reading the attributes left to right;
  4. the input is a struct;
  5. its fields are named.

## Model

| member | source | states |
|---|---|---|
| `Schema.GetIdent` | nocopy_macro/src/lib.rs:54-55 | a path has an identifier exactly when it is one segment without a leading `::`, and it is then that identifier |
| `Schema.ParseMeta` | nocopy_macro/src/lib.rs:58 | `parse_meta` fails exactly on attributes whose tokens are not a meta item; otherwise the meta item keeps the attribute's path |
| `Resolve.StepItem` | nocopy_macro/src/lib.rs:66-94 | one item of a `nocopy_macro(...)` list aborts exactly when `ItemError` rejects it (not `key = "string"`, or an `endian` value other than "big" and "little"), and then with that error |
| `Resolve.FoldItems` | nocopy_macro/src/lib.rs:66-95 | the items of one list abort exactly when one of them is rejected, with the error of the first rejected item |
| `Resolve.StepAttr` | nocopy_macro/src/lib.rs:50-98 | one attribute aborts exactly when `AttrError` rejects it, with that error; an accepted attribute that is not a `nocopy_macro` list leaves the state unchanged |
| `Resolve.FoldAttrs` | nocopy_macro/src/lib.rs:49-99 | the attributes abort exactly when one of them is rejected, with the error of the first rejected attribute |
| `Resolve.ConfigOf` | nocopy_macro/src/lib.rs:46-107 | `extract_meta` fails exactly when some attribute is rejected, and then with the error of the first rejected one |
| `Resolve.ExtractMeta` | nocopy_macro/src/lib.rs:46-107 | the source's loop over the attributes, with its nested loop over list items, returns exactly what the left fold `ConfigOf` does, including the error it aborts with |
| `Resolve.FoldItemsCharacterized` | nocopy_macro/src/lib.rs:66-95 | folding the items of one `nocopy_macro(...)` list aborts with the error of its first rejected item (not `key = "string"`, or a bad `endian` value); otherwise the last `name` and the last `endian` entries override the state |
| `Resolve.StepAttrCharacterized` | nocopy_macro/src/lib.rs:50-98 | one attribute aborts exactly when `AttrError` rejects it: inner style, checked before the path; a `nocopy_macro` attribute not in list form; or a rejected item. A foreign attribute leaves the state unchanged |
| `Resolve.FoldAttrsOk` | nocopy_macro/src/lib.rs:49-99 | when no attribute is rejected, resolution succeeds and yields the state overridden by all entries in order |
| `Resolve.FoldAttrsErr` | nocopy_macro/src/lib.rs:49-99 | resolution aborts with the error of the first rejected attribute, whatever follows it |
| `Resolve.DefaultConfig` | nocopy_macro/src/lib.rs:46-106 | with only outer, non-`nocopy_macro` attributes, the union is named `<Struct>Buffer` and the byte order is `Default` (native) |
| `Resolve.LastEntryWins` | nocopy_macro/src/lib.rs:84-106 | when every attribute is accepted, the name is that of the last `name` entry across all `nocopy_macro` lists (else `<Struct>Buffer`). The byte order is `Big`/`Little` for a last `endian` entry of "big"/"little", else `Default`. `endian` values can only be those two |
| `Resolve.FirstRejectedAttributeAborts` | nocopy_macro/src/lib.rs:50-97 | `extract_meta` aborts with the error of the first rejected attribute |
| `Resolve.ForeignAttributeSkipped` | nocopy_macro/src/lib.rs:54-57 | inserting an outer attribute whose path is not `nocopy_macro` anywhere in the list does not change the result |
| `Resolve.UnknownKeyIgnored` | nocopy_macro/src/lib.rs:84-94 | inserting a `key = "string"` item whose key is neither `name` nor `endian` anywhere in an attribute's list does not change the result |
| `Generate.IntWidth` | nocopy_macro/src/lib.rs:189-204 | the eligible types `u8`, `u16`, `u32`, `u64` have widths 1, 2, 4 and 8 bytes |
| `Generate.ConvertibleIffInteger` | nocopy_macro/src/lib.rs:189-206 | a type is eligible for conversion exactly when it is syntactically one of the four unsigned integer types |
| `Generate.MatchEndian` | nocopy_macro/src/lib.rs:160-215 | the accessor pair of a field is named `get_<field>`/`set_<field>` and has the field's type. It is converted to big-endian iff its type is eligible and `Big` was requested, and to little-endian iff it is eligible and `Little` was requested. Otherwise its value is passed through. All three are stated as iffs |
| `Generate.OnePairPerField` | nocopy_macro/src/lib.rs:165-187 | there is exactly one accessor pair per field, in declaration order, named `get_<field>`/`set_<field>`, with the field's own type |
| `Generate.AccessorNamesDistinct` | nocopy_macro/src/lib.rs:165-186 | distinct field names give distinct getter names and distinct setter names, and no getter has a setter's name |
| `Generate.NoCopy` | nocopy_macro/src/lib.rs:220-279 | the source's checks and its `funcs_vec` push loop return exactly `Generate(input)` |
| `Generate.Generate` | nocopy_macro/src/lib.rs:220-279 | generation emits iff every attribute parses, one is `repr(C)`, resolution succeeds and the fields are named struct fields. Each failed check gives its error, in the source's order. The emitted union has the resolved name, overlays the input struct and carries the accessors of its fields |
| `Bytes.FromBe` | nocopy_macro/src/lib.rs:117 | on either host, `from_be(x)` is the big-endian reading of the host-order bytes of `x`, and fits the width |
| `Bytes.ToBe` | nocopy_macro/src/lib.rs:121 | on either host, `to_be(x)` fits the width and `from_be` gives `x` back |
| `Bytes.FromLe` | nocopy_macro/src/lib.rs:134 | on either host, `from_le(x)` is the little-endian reading of the host-order bytes of `x`, and fits the width |
| `Bytes.ToLe` | nocopy_macro/src/lib.rs:138 | on either host, `to_le(x)` fits the width and `from_le` gives `x` back |
| `Bytes.DecodeEncodeBE` | nocopy_macro/src/lib.rs:116-121 | big-endian decoding inverts big-endian encoding for every value that fits the width |
| `Bytes.EncodeDecodeBE` | nocopy_macro/src/lib.rs:116-121 | big-endian encoding inverts big-endian decoding for every byte sequence |
| `Bytes.DecodeEncodeLE` | nocopy_macro/src/lib.rs:133-138 | little-endian decoding inverts little-endian encoding for every value that fits the width |
| `Bytes.EncodeDecodeLE` | nocopy_macro/src/lib.rs:133-138 | little-endian encoding inverts little-endian decoding for every byte sequence |
| `Bytes.DecodeLEIsReversedBE` | nocopy_macro/src/lib.rs:133-134 | little-endian decoding is big-endian decoding of the reversed bytes |
| `Bytes.EncodeLEIsReversedBE` | nocopy_macro/src/lib.rs:137-138 | little-endian encoding is the reversed big-endian encoding |
| `Bytes.SwapBytesInvolutive` | nocopy_macro/src/lib.rs:117-121 | swapping the bytes of a value keeps it in range, and swapping twice gives the value back, so `from_be` undoes `to_be` on every host |
| `Bytes.LoadFromBe` | nocopy_macro/src/lib.rs:116-118 | a host-order load followed by `from_be` is big-endian decoding, on either host |
| `Bytes.LoadFromLe` | nocopy_macro/src/lib.rs:133-135 | a host-order load followed by `from_le` is little-endian decoding, on either host |
| `Bytes.StoreToBe` | nocopy_macro/src/lib.rs:120-122 | `to_be` followed by a host-order store writes the big-endian encoding, on either host |
| `Bytes.StoreToLe` | nocopy_macro/src/lib.rs:137-139 | `to_le` followed by a host-order store writes the little-endian encoding, on either host |
| `Bytes.DecodeEncode` | nocopy_macro/src/lib.rs:116-155 | in either byte order, decoding after encoding returns the value and the encoding has the field's width |
| `Overlay.StoreConverted` | nocopy_macro/src/lib.rs:120-155 | for each template, storing the value the setter computes (`v.to_be()`, `v.to_le()` or `v`) in host order writes the encoding of `v` in the accessor's wire order, which decodes back to `v` |
| `Overlay.SpliceFrame` | nocopy_macro/src/lib.rs:155 | writing one field's bytes in a valid layout puts exactly those bytes in that field and leaves the bytes of every other field unchanged |
| `Overlay.Union.NewBuffer` | nocopy_macro/src/lib.rs:266-268 | `new_buffer(b)` yields a valid union whose storage is exactly `b`, of the struct's size, with the emitted accessor list |
| `Overlay.Union.AsBuffer` | nocopy_macro/src/lib.rs:270-272 | `as_buffer` returns the current contents of the shared storage, of the struct's size |
| `Overlay.Union.GetInt` | nocopy_macro/src/lib.rs:115-151 | an integer getter returns the field's bytes decoded in its wire order: big-endian, little-endian, or the host's for `native_endian`. The result fits the field's type, on either host |
| `Overlay.Union.SetInt` | nocopy_macro/src/lib.rs:120-155 | an integer setter writes the wire-order encoding of `v` into exactly the field's byte range and leaves every other byte unchanged. The field then decodes to `v`, and every other field keeps its bytes |
| `Overlay.Union.GetRaw` | nocopy_macro/src/lib.rs:150-152 | the getter of a field of any other type returns its bytes unchanged |
| `Overlay.Union.SetRaw` | nocopy_macro/src/lib.rs:154-156 | the setter of a field of any other type copies the value's bytes into exactly its byte range. No other field changes |
| `Overlay.Union.Store` | nocopy_macro/src/lib.rs:155 | assigning to `self.structure.f` overwrites the field's byte range in place and nothing else |
| `Scenario.NewThenAsBuffer` | nocopy_macro/src/lib.rs:266-272 | `as_buffer` right after `new_buffer(b)` returns `b` |
| `Scenario.SetThenGetInt` | nocopy_macro/src/lib.rs:116-155 | for an integer field, in every mode and on every host, the getter right after `set(v)` returns `v` |
| `Scenario.SetThenGetRaw` | nocopy_macro/src/lib.rs:150-156 | for a field of any other type, the getter right after the setter returns the bytes that were set |
| `Scenario.ExampleConfig` | nocopy_macro/src/lib.rs:46-107 | `Example` with `endian = "big"` resolves to `ExampleBuffer` with big-endian order |
| `Scenario.ExampleGenerates` | nocopy_macro/src/lib.rs:220-279 | `Example` generates `ExampleBuffer` with big-endian `get_a`/`set_a` and `get_b`/`set_b`, in that order |
| `Scenario.ExampleBuffer` | nocopy_macro/src/lib.rs:257-278 | `Example` generates `ExampleBuffer`; over `[1, 2, 0]`, `get_a` is `0x0102` and `get_b` is `0`; after `set_b(5)` the buffer is `[1, 2, 5]` |
| `Scenario.ExampleAccess` | nocopy_macro/src/lib.rs:266-276 | on a union with `Example`'s accessors over `[1, 2, 0]`, on either host, `get_a` is `0x0102`, `get_b` is `0`, and `set_b(5)` leaves `[1, 2, 5]` |

## Left out

- Token parsing (`syn::parse`, `quote!`, `TokenStream`, `Span`) is left out. So are the `expect` calls on literal paths and types (lib.rs:75-82, 189-204), which always succeed. Attributes, paths, literals and types arrive pre-parsed as datatypes.
- `Ident::new` panics on a string that is not a valid identifier. The model takes the `name = "..."` value and the field names verbatim.
- The struct's generic parameters are ignored, as the source ignores them.
- Path segments' generic arguments are not modelled. A path is its leading `::` flag and its segment names.
- The `repr(C)` layout is an input: field offsets, padding and `size_of`. The compiler computes these and the source never does.
- The soundness of `unsafe` union punning for non-integer field types is not checked (alignment, validity invariants). Those fields are modelled as raw byte copies.
- The host byte order is a parameter. It is not fixed to a particular machine.
- Panic messages are one `Error` case per category. The unnamed-field panic inside `match_endian` (lib.rs:161-164) cannot be reached, because `no_copy` only passes named fields and the model's named field always carries its name.
- `#[derive(Copy, Clone)]` on the union is left out. Building the union through its `structure` field is also left out: the union's fields are private, and only `new_buffer` is public.
- `new_buffer` takes its array by value, so the model copies `b` into a fresh array. `as_buffer` returns a borrowed slice, modelled as the storage's contents at the time of the call.
- No model of concurrent access to one union.
