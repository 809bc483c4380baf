/** `extract_meta`: resolving the struct's `#[nocopy_macro(...)]`
    attributes into the name of the emitted union and the requested byte
    order.

    The source walks the attributes left to right, aborting on the first
    malformed one, and reassigns two locals (`ident` and `endian`) for every
    `name = "..."` and `endian = "..."` item. `FoldAttrs` states that walk as
    a left fold and `ExtractMeta` is the loop itself, proved equal to it.
    The lemmas then characterize the fold without reference to its state:
    it aborts exactly at the first attribute that `AttrError` rejects, and
    otherwise the last `name` and the last `endian` entry win.
 */
module Resolve {
  import opened Schema

  const NocopyMacro: string := "nocopy_macro"
  const NameKey: Path := Ident("name")
  const EndianKey: Path := Ident("endian")

  /** The two mutable locals of `extract_meta`. */
  datatype MetaState = MetaState(name: Option<string>, endian: Endian)

  const Initial: MetaState := MetaState(None, Default)

  /** One item of `nocopy_macro(...)`: it must be `key = "string"`; `name`
      replaces the union's name, `endian` the byte order, any other key has
      no effect. It aborts exactly when `ItemError` rejects the item. */
  function StepItem(st: MetaState, nest: NestedMeta): (r: Result<MetaState>)
    ensures r.Err? <==> ItemError(nest).Some?
    ensures r.Err? ==> r.error == ItemError(nest).value
  {
    match nest
    case MetaItem(NameValueMeta(path, Str(s))) =>
      var st1 := if path == NameKey then st.(name := Some(s)) else st;
      if path == EndianKey then
        if s == "big" then Ok(st1.(endian := Big))
        else if s == "little" then Ok(st1.(endian := Little))
        else Err(UnknownEndian)
      else Ok(st1)
    case _ => Err(MalformedItem)
  }

  /** The items of one list, in order: aborts exactly when some item is
      rejected, with the error of the first such item. */
  function FoldItems(st: MetaState, items: seq<NestedMeta>): (r: Result<MetaState>)
    ensures r.Err? <==> FirstItemError(items).Some?
    ensures r.Err? ==> r.error == FirstItemError(items).value
    decreases |items|
  {
    if |items| == 0 then Ok(st)
    else match StepItem(st, items[0])
      case Err(e) => Err(e)
      case Ok(st') => FoldItems(st', items[1..])
  }

  /** One attribute: inner attributes abort; attributes whose path is not the
      identifier `nocopy_macro` are skipped; a `nocopy_macro` attribute must
      be a list, whose items are folded in order. It aborts exactly when
      `AttrError` rejects the attribute, and an accepted attribute that is
      not a `nocopy_macro` list leaves the state as it was. */
  function StepAttr(st: MetaState, a: Attribute): (r: Result<MetaState>)
    ensures r.Err? <==> AttrError(a).Some?
    ensures r.Err? ==> r.error == AttrError(a).value
    ensures AttrError(a).None? && !IsConfigList(a) ==> r == Ok(st)
  {
    if a.style != Outer then Err(InnerAttribute)
    else if GetIdent(a.path) != Some(NocopyMacro) then Ok(st)
    else match ParseMeta(a)
      case Some(ListMeta(_, nested)) => FoldItems(st, nested)
      case _ => Err(NotListForm)
  }

  /** The attributes, in order: aborts exactly when some attribute is
      rejected, with the error of the first such attribute. */
  function FoldAttrs(st: MetaState, attrs: seq<Attribute>): (r: Result<MetaState>)
    ensures r.Err? <==> FirstAttrError(attrs).Some?
    ensures r.Err? ==> r.error == FirstAttrError(attrs).value
    decreases |attrs|
  {
    if |attrs| == 0 then Ok(st)
    else match StepAttr(st, attrs[0])
      case Err(e) => Err(e)
      case Ok(st') => FoldAttrs(st', attrs[1..])
  }

  /** Continue a fold over `rest` from an intermediate outcome. */
  function Then(r: Result<MetaState>, rest: seq<Attribute>): Result<MetaState>
  {
    match r
    case Err(e) => Err(e)
    case Ok(st) => FoldAttrs(st, rest)
  }

  function ThenItems(r: Result<MetaState>, rest: seq<NestedMeta>): Result<MetaState>
  {
    match r
    case Err(e) => Err(e)
    case Ok(st) => FoldItems(st, rest)
  }

  /** The pair `extract_meta` returns: an explicit name, or the struct's
      name followed by `Buffer`; and the byte order. */
  function Finish(structName: string, st: MetaState): Config
  {
    Config(if st.name.Some? then st.name.value else structName + "Buffer", st.endian)
  }

  /** What `extract_meta` returns for `input`, or the error it aborts with:
      that of the first rejected attribute, if there is one. */
  function ConfigOf(input: DeriveInput): (r: Result<Config>)
    ensures r.Err? <==> FirstAttrError(input.attrs).Some?
    ensures r.Err? ==> r.error == FirstAttrError(input.attrs).value
  {
    match FoldAttrs(Initial, input.attrs)
    case Err(e) => Err(e)
    case Ok(st) => Ok(Finish(input.ident, st))
  }

  /** `extract_meta` as the source writes it: a loop over the attributes
      with a nested loop over the items of each `nocopy_macro` list. */
  method ExtractMeta(input: DeriveInput) returns (r: Result<Config>)
    ensures r == ConfigOf(input)
  {
    var endian := Default;
    var ident: Option<string> := None;
    var attrs := input.attrs;
    var i := 0;
    while i < |attrs|
      invariant 0 <= i <= |attrs|
      invariant FoldAttrs(Initial, attrs) == FoldAttrs(MetaState(ident, endian), attrs[i..])
    {
      var attr := attrs[i];
      assert attrs[i..][1..] == attrs[i + 1..];
      if attr.style != Outer {
        return Err(InnerAttribute);
      }
      if GetIdent(attr.path) != Some(NocopyMacro) {
        i := i + 1;
        continue;
      }
      match ParseMeta(attr) {
        case Some(ListMeta(_, nested)) =>
          var j := 0;
          while j < |nested|
            invariant 0 <= j <= |nested|
            invariant FoldAttrs(Initial, attrs)
                   == Then(FoldItems(MetaState(ident, endian), nested[j..]), attrs[i + 1..])
          {
            assert nested[j..][1..] == nested[j + 1..];
            match nested[j] {
              case MetaItem(NameValueMeta(path, Str(s))) =>
                if path == NameKey {
                  ident := Some(s);
                }
                if path == EndianKey {
                  if s == "big" {
                    endian := Big;
                  } else if s == "little" {
                    endian := Little;
                  } else {
                    return Err(UnknownEndian);
                  }
                }
              case _ =>
                return Err(MalformedItem);
            }
            j := j + 1;
          }
        case _ =>
          return Err(NotListForm);
      }
      i := i + 1;
    }
    var name := if ident.Some? then ident.value else input.ident + "Buffer";
    r := Ok(Config(name, endian));
  }

  // ---------------------------------------------------------------------
  // A reference description that does not thread the state

  /** Why an item of `nocopy_macro(...)` aborts resolution, if it does. */
  function ItemError(nest: NestedMeta): Option<Error>
  {
    match nest
    case MetaItem(NameValueMeta(path, Str(s))) =>
      if path == EndianKey && s != "big" && s != "little" then Some(UnknownEndian) else None
    case _ => Some(MalformedItem)
  }

  /** The error of the first rejected item. */
  function FirstItemError(items: seq<NestedMeta>): Option<Error>
    decreases |items|
  {
    if |items| == 0 then None
    else if ItemError(items[0]).Some? then ItemError(items[0])
    else FirstItemError(items[1..])
  }

  /** Whether an attribute is a `nocopy_macro` list that resolution reads. */
  predicate IsConfigList(a: Attribute)
  {
    a.style == Outer && GetIdent(a.path) == Some(NocopyMacro) && a.args.ListArgs?
  }

  /** Why an attribute aborts resolution, if it does. */
  function AttrError(a: Attribute): Option<Error>
  {
    if a.style != Outer then Some(InnerAttribute)
    else if GetIdent(a.path) != Some(NocopyMacro) then None
    else if !a.args.ListArgs? then Some(NotListForm)
    else FirstItemError(a.args.nested)
  }

  /** The error of the first rejected attribute. */
  function FirstAttrError(attrs: seq<Attribute>): Option<Error>
    decreases |attrs|
  {
    if |attrs| == 0 then None
    else if AttrError(attrs[0]).Some? then AttrError(attrs[0])
    else FirstAttrError(attrs[1..])
  }

  /** The `key = "string"` entries of a list of items, in order. */
  function Pairs(items: seq<NestedMeta>): seq<(Path, string)>
    decreases |items|
  {
    if |items| == 0 then []
    else
      var head := match items[0]
        case MetaItem(NameValueMeta(path, Str(s))) => [(path, s)]
        case _ => [];
      head + Pairs(items[1..])
  }

  /** The entries of every `nocopy_macro` list, in the order written. */
  function Entries(attrs: seq<Attribute>): seq<(Path, string)>
    decreases |attrs|
  {
    if |attrs| == 0 then []
    else (if IsConfigList(attrs[0]) then Pairs(attrs[0].args.nested) else []) + Entries(attrs[1..])
  }

  /** The value of the last entry with key `key`. */
  function LastValue(entries: seq<(Path, string)>, key: Path): Option<string>
    decreases |entries|
  {
    if |entries| == 0 then None
    else if entries[|entries| - 1].0 == key then Some(entries[|entries| - 1].1)
    else LastValue(entries[..|entries| - 1], key)
  }

  /** Every `endian` entry is one of the two accepted values. */
  predicate EndianValuesValid(entries: seq<(Path, string)>)
  {
    forall k :: 0 <= k < |entries| && entries[k].0 == EndianKey ==>
      entries[k].1 == "big" || entries[k].1 == "little"
  }

  function EndianOf(v: string): Endian
    requires v == "big" || v == "little"
  {
    if v == "big" then Big else Little
  }

  /** The state after `entries`: the last `name`, if any, replaces the name;
      the last `endian`, if any, replaces the byte order. */
  function Override(st: MetaState, entries: seq<(Path, string)>): MetaState
    requires EndianValuesValid(entries)
  {
    var n := LastValue(entries, NameKey);
    var e := LastValue(entries, EndianKey);
    LastValueValid(entries, EndianKey);
    MetaState(if n.Some? then n else st.name, if e.Some? then EndianOf(e.value) else st.endian)
  }

  // ---------------------------------------------------------------------
  // Lemmas

  lemma {:induction false} LastValueValid(entries: seq<(Path, string)>, key: Path)
    requires EndianValuesValid(entries) && key == EndianKey
    ensures LastValue(entries, key).Some? ==>
      LastValue(entries, key).value == "big" || LastValue(entries, key).value == "little"
  {
    if |entries| > 0 && entries[|entries| - 1].0 != key {
      var init := entries[..|entries| - 1];
      assert forall k :: 0 <= k < |init| ==> init[k] == entries[k];
      LastValueValid(init, key);
    }
  }

  /** The last entry of a concatenation comes from its second part, if that
      has one. */
  lemma {:induction false} LastValueAppend(a: seq<(Path, string)>, b: seq<(Path, string)>, key: Path)
    ensures LastValue(a + b, key) == if LastValue(b, key).Some? then LastValue(b, key) else LastValue(a, key)
    decreases |b|
  {
    if |b| == 0 {
      assert a + b == a;
    } else {
      var ab := a + b;
      assert ab[|ab| - 1] == b[|b| - 1];
      assert ab[..|ab| - 1] == a + b[..|b| - 1];
      LastValueAppend(a, b[..|b| - 1], key);
    }
  }

  lemma OverrideAppend(st: MetaState, a: seq<(Path, string)>, b: seq<(Path, string)>)
    requires EndianValuesValid(a) && EndianValuesValid(b)
    ensures EndianValuesValid(a + b)
    ensures Override(Override(st, a), b) == Override(st, a + b)
  {
    assert forall k :: 0 <= k < |a + b| ==> (a + b)[k] == if k < |a| then a[k] else b[k - |a|];
    LastValueAppend(a, b, NameKey);
    LastValueAppend(a, b, EndianKey);
  }

  /** Folding the items of a list aborts exactly with the error of its first
      rejected item; otherwise the last `name` and `endian` entries win. */
  lemma {:induction false} FoldItemsCharacterized(st: MetaState, items: seq<NestedMeta>)
    ensures FirstItemError(items).None? ==> EndianValuesValid(Pairs(items))
    ensures FoldItems(st, items) ==
      if FirstItemError(items).Some? then Err(FirstItemError(items).value)
      else Ok(Override(st, Pairs(items)))
    decreases |items|
  {
    if |items| > 0 {
      var head := match items[0]
        case MetaItem(NameValueMeta(path, Str(s))) => [(path, s)]
        case _ => [];
      assert Pairs(items) == head + Pairs(items[1..]);
      if ItemError(items[0]).None? {
        match items[0]
        case MetaItem(NameValueMeta(path, Str(v))) =>
          assert head == [(path, v)];
          assert head[..0] == [];
          assert LastValue(head, NameKey) == if path == NameKey then Some(v) else None;
          assert LastValue(head, EndianKey) == if path == EndianKey then Some(v) else None;
          assert EndianValuesValid(head);
          assert StepItem(st, items[0]) == Ok(Override(st, head));
        FoldItemsCharacterized(Override(st, head), items[1..]);
        if FirstItemError(items[1..]).None? {
          OverrideAppend(st, head, Pairs(items[1..]));
        }
      }
    }
  }

  /** One attribute, described without the state it updates. */
  lemma StepAttrCharacterized(st: MetaState, a: Attribute)
    ensures AttrError(a).None? && IsConfigList(a) ==> EndianValuesValid(Pairs(a.args.nested))
    ensures StepAttr(st, a) ==
      if AttrError(a).Some? then Err(AttrError(a).value)
      else if IsConfigList(a) then Ok(Override(st, Pairs(a.args.nested)))
      else Ok(st)
  {
    if a.style == Outer && GetIdent(a.path) == Some(NocopyMacro) && a.args.ListArgs? {
      FoldItemsCharacterized(st, a.args.nested);
    }
  }

  /** When no attribute is rejected, resolution succeeds and the last
      entries win. */
  lemma {:induction false} FoldAttrsOk(st: MetaState, attrs: seq<Attribute>)
    requires forall k :: 0 <= k < |attrs| ==> AttrError(attrs[k]).None?
    ensures EndianValuesValid(Entries(attrs))
    ensures FoldAttrs(st, attrs) == Ok(Override(st, Entries(attrs)))
    decreases |attrs|
  {
    if |attrs| == 0 {
      assert Override(st, []) == st;
    } else {
      var a := attrs[0];
      var own := if IsConfigList(a) then Pairs(a.args.nested) else [];
      StepAttrCharacterized(st, a);
      assert EndianValuesValid(own);
      assert Override(st, own) == StepAttr(st, a).value;
      FoldAttrsOk(Override(st, own), attrs[1..]);
      OverrideAppend(st, own, Entries(attrs[1..]));
    }
  }

  /** Resolution aborts with the error of the first rejected attribute. */
  lemma {:induction false} FoldAttrsErr(st: MetaState, attrs: seq<Attribute>, i: nat)
    requires i < |attrs| && AttrError(attrs[i]).Some?
    requires forall k :: 0 <= k < i ==> AttrError(attrs[k]).None?
    ensures FoldAttrs(st, attrs) == Err(AttrError(attrs[i]).value)
    decreases i
  {
    StepAttrCharacterized(st, attrs[0]);
    if i > 0 {
      FoldAttrsErr(StepAttr(st, attrs[0]).value, attrs[1..], i - 1);
    }
  }

  lemma {:induction false} FoldItemsAppend(st: MetaState, a: seq<NestedMeta>, b: seq<NestedMeta>)
    ensures FoldItems(st, a + b) == ThenItems(FoldItems(st, a), b)
    decreases |a|
  {
    if |a| == 0 {
      assert a + b == b;
    } else {
      assert (a + b)[0] == a[0];
      assert (a + b)[1..] == a[1..] + b;
      match StepItem(st, a[0])
      case Err(e) =>
      case Ok(st') => FoldItemsAppend(st', a[1..], b);
    }
  }

  lemma {:induction false} FoldAttrsAppend(st: MetaState, a: seq<Attribute>, b: seq<Attribute>)
    ensures FoldAttrs(st, a + b) == Then(FoldAttrs(st, a), b)
    decreases |a|
  {
    if |a| == 0 {
      assert a + b == b;
    } else {
      assert (a + b)[0] == a[0];
      assert (a + b)[1..] == a[1..] + b;
      match StepAttr(st, a[0])
      case Err(e) =>
      case Ok(st') => FoldAttrsAppend(st', a[1..], b);
    }
  }

  /** Without any `nocopy_macro` attribute the union is named after the
      struct with the suffix `Buffer` and uses the native byte order. */
  lemma {:induction false} DefaultConfig(input: DeriveInput)
    requires forall k :: 0 <= k < |input.attrs| ==>
      input.attrs[k].style == Outer && GetIdent(input.attrs[k].path) != Some(NocopyMacro)
    ensures ConfigOf(input) == Ok(Config(input.ident + "Buffer", Default))
  {
    NoConfigEntries(input.attrs);
    FoldAttrsOk(Initial, input.attrs);
  }

  lemma {:induction false} NoConfigEntries(attrs: seq<Attribute>)
    requires forall k :: 0 <= k < |attrs| ==>
      attrs[k].style == Outer && GetIdent(attrs[k].path) != Some(NocopyMacro)
    ensures forall k :: 0 <= k < |attrs| ==> AttrError(attrs[k]).None?
    ensures Entries(attrs) == []
    decreases |attrs|
  {
    if |attrs| > 0 {
      NoConfigEntries(attrs[1..]);
    }
  }

  /** When every attribute is accepted, the union's name is the value of the
      last `name` entry (or the default), and the byte order is given by the
      last `endian` entry (or is native); other keys have no effect. */
  lemma LastEntryWins(input: DeriveInput)
    requires forall k :: 0 <= k < |input.attrs| ==> AttrError(input.attrs[k]).None?
    ensures ConfigOf(input).Ok?
    ensures var name := LastValue(Entries(input.attrs), NameKey);
      ConfigOf(input).value.name == if name.Some? then name.value else input.ident + "Buffer"
    ensures var endian := LastValue(Entries(input.attrs), EndianKey);
      && (endian.None? ==> ConfigOf(input).value.endian == Default)
      && (endian == Some("big") ==> ConfigOf(input).value.endian == Big)
      && (endian == Some("little") ==> ConfigOf(input).value.endian == Little)
      && (endian.Some? ==> endian == Some("big") || endian == Some("little"))
  {
    FoldAttrsOk(Initial, input.attrs);
    LastValueValid(Entries(input.attrs), EndianKey);
  }

  /** Resolution aborts exactly at the first attribute that is inner, or a
      `nocopy_macro` attribute not in list form, or one holding an item that
      is not `key = "string"` or an `endian` value other than "big" and
      "little". */
  lemma FirstRejectedAttributeAborts(input: DeriveInput, i: nat)
    requires i < |input.attrs| && AttrError(input.attrs[i]).Some?
    requires forall k :: 0 <= k < i ==> AttrError(input.attrs[k]).None?
    ensures ConfigOf(input) == Err(AttrError(input.attrs[i]).value)
  {
    FoldAttrsErr(Initial, input.attrs, i);
  }

  /** An outer attribute whose path is not `nocopy_macro` has no effect on
      resolution, wherever it stands. */
  lemma ForeignAttributeSkipped(input: DeriveInput, before: seq<Attribute>, a: Attribute, after: seq<Attribute>)
    requires input.attrs == before + [a] + after
    requires a.style == Outer && GetIdent(a.path) != Some(NocopyMacro)
    ensures ConfigOf(input) == ConfigOf(input.(attrs := before + after))
  {
    FoldAttrsAppend(Initial, before + [a], after);
    FoldAttrsAppend(Initial, before, [a]);
    FoldAttrsAppend(Initial, before, after);
    match FoldAttrs(Initial, before)
    case Err(e) =>
    case Ok(st) =>
      assert [a][0] == a && [a][1..] == [];
      assert FoldAttrs(st, [a]) == Ok(st);
  }

  /** An item `key = "string"` whose key is neither `name` nor `endian` has
      no effect on resolution, wherever it stands. */
  lemma UnknownKeyIgnored(input: DeriveInput, i: nat, before: seq<NestedMeta>, after: seq<NestedMeta>,
                          key: Path, value: string)
    requires i < |input.attrs| && input.attrs[i].args == ListArgs(before + after)
    requires key != NameKey && key != EndianKey
    ensures var a := input.attrs[i].(args := ListArgs(before + [MetaItem(NameValueMeta(key, Str(value)))] + after));
      ConfigOf(input.(attrs := input.attrs[i := a])) == ConfigOf(input)
  {
    var item := MetaItem(NameValueMeta(key, Str(value)));
    var a := input.attrs[i].(args := ListArgs(before + [item] + after));
    forall st: MetaState
      ensures FoldItems(st, before + [item] + after) == FoldItems(st, before + after)
    {
      FoldItemsAppend(st, before + [item], after);
      FoldItemsAppend(st, before, [item]);
      FoldItemsAppend(st, before, after);
      match FoldItems(st, before)
      case Err(e) =>
      case Ok(s) =>
        assert [item][1..] == [];
        assert FoldItems(s, [item]) == Ok(s);
    }
    var attrs := input.attrs;
    var attrs' := attrs[i := a];
    assert attrs == attrs[..i] + [attrs[i]] + attrs[i + 1..];
    assert attrs' == attrs[..i] + [a] + attrs[i + 1..];
    forall st: MetaState
      ensures StepAttr(st, a) == StepAttr(st, attrs[i])
    {
    }
    FoldAttrsAppend(Initial, attrs[..i] + [a], attrs[i + 1..]);
    FoldAttrsAppend(Initial, attrs[..i], [a]);
    FoldAttrsAppend(Initial, attrs[..i] + [attrs[i]], attrs[i + 1..]);
    FoldAttrsAppend(Initial, attrs[..i], [attrs[i]]);
    match FoldAttrs(Initial, attrs[..i])
    case Err(e) =>
    case Ok(s) =>
      assert [a][1..] == [] && [attrs[i]][1..] == [];
      assert FoldAttrs(s, [a]) == FoldAttrs(s, [attrs[i]]) by {
        assert StepAttr(s, a) == StepAttr(s, attrs[i]);
      }
  }
}
