/** The two serialisers of a BIOS setting, as variant dictionaries and as JSON objects, and the array
    codec over them. */
module BiosCodec {
  import opened Wrappers

  const KindRange := 0x1_0000_0000
  const U64Range := 0x1_0000_0000_0000_0000
  const I64Max := 0x7fff_ffff_ffff_ffff
  const I64Min := -0x8000_0000_0000_0000

  type u32 = n: nat | n < KindRange
  type u64 = n: nat | n < U64Range

  const KindEnumeration := 1
  const KindInteger := 2
  const KindString := 3

  /** The fields both serialisers know. */
  datatype Object = Object(
    kind: u32,
    id: Option<string>,
    appstreamId: Option<string>,
    icon: Option<string>,
    name: Option<string>,
    parent: Option<string>,
    path: Option<string>,
    description: Option<string>,
    valueFilename: Option<string>,
    readOnly: bool,
    current: Option<string>,
    lowerBound: u64,
    upperBound: u64,
    scalarIncrement: u64,
    possible: seq<string>)

  const Fresh: Object :=
    Object(0, None, None, None, None, None, None, None, None, false, None, 0, 0, 0, [])

  /** FWUPD_RESULT_KEY_*, in the order the variant encoder uses them. */
  datatype Key =
    | Type | Id | AppstreamId | Icon | Name | Parent | Path | Description | ValueFilename | ReadOnly | CurrentValue
    | LowerBound | UpperBound | ScalarIncrement | PossibleValues
    | Unknown(text: string)

  function KeyAt(i: nat): Key {
    match i
    case 0 => Type case 1 => Id case 2 => AppstreamId case 3 => Icon case 4 => Name
    case 5 => Parent case 6 => Path case 7 => Description case 8 => ValueFilename case 9 => ReadOnly
    case 10 => CurrentValue case 11 => LowerBound case 12 => UpperBound case 13 => ScalarIncrement
    case _ => PossibleValues
  }

  const KeyCount := 15

  // ---------------------------------------------------------------- fields by key

  datatype Field = Number(n: nat) | Text(t: Option<string>) | Flag(b: bool) | List(xs: seq<string>)

  ghost function Get(o: Object, k: Key): Field {
    match k
    case Type => Number(o.kind)
    case Id => Text(o.id)
    case AppstreamId => Text(o.appstreamId)
    case Icon => Text(o.icon)
    case Name => Text(o.name)
    case Parent => Text(o.parent)
    case Path => Text(o.path)
    case Description => Text(o.description)
    case ValueFilename => Text(o.valueFilename)
    case ReadOnly => Flag(o.readOnly)
    case CurrentValue => Text(o.current)
    case LowerBound => Number(o.lowerBound)
    case UpperBound => Number(o.upperBound)
    case ScalarIncrement => Number(o.scalarIncrement)
    case PossibleValues => List(o.possible)
    case Unknown(_) => Number(0)
  }

  ghost predicate SameAt(o: Object, o': Object, k: Key) {
    Get(o, k) == Get(o', k)
  }

  lemma SameTexts(o: Object, o': Object)
    requires forall k :: SameAt(o, o', k)
    ensures o.id == o'.id && o.appstreamId == o'.appstreamId && o.icon == o'.icon && o.name == o'.name
    ensures o.parent == o'.parent && o.path == o'.path && o.description == o'.description
    ensures o.valueFilename == o'.valueFilename && o.current == o'.current
  {
    assert SameAt(o, o', Id) && SameAt(o, o', AppstreamId) && SameAt(o, o', Icon) && SameAt(o, o', Name);
    assert SameAt(o, o', Parent) && SameAt(o, o', Path) && SameAt(o, o', Description);
    assert SameAt(o, o', ValueFilename) && SameAt(o, o', CurrentValue);
  }

  lemma SameNumbers(o: Object, o': Object)
    requires forall k :: SameAt(o, o', k)
    ensures o.kind == o'.kind && o.readOnly == o'.readOnly && o.possible == o'.possible
    ensures o.lowerBound == o'.lowerBound && o.upperBound == o'.upperBound && o.scalarIncrement == o'.scalarIncrement
  {
    assert SameAt(o, o', Type) && SameAt(o, o', ReadOnly) && SameAt(o, o', PossibleValues);
    assert SameAt(o, o', LowerBound) && SameAt(o, o', UpperBound) && SameAt(o, o', ScalarIncrement);
  }

  lemma SameFields(o: Object, o': Object)
    requires forall k :: SameAt(o, o', k)
    ensures o == o'
  {
    SameTexts(o, o');
    SameNumbers(o, o');
  }

  // ---------------------------------------------------------------- possible values

  /** fwupd_bios_setting_add_possible_value() for each element. */
  function AddAll(xs: seq<string>, ys: seq<string>): seq<string> {
    if ys == [] then xs
    else
      var before, y := AddAll(xs, ys[..|ys| - 1]), ys[|ys| - 1];
      if y in before then before else before + [y]
  }

  ghost predicate NoDuplicates(xs: seq<string>) {
    forall i, j :: 0 <= i < j < |xs| ==> xs[i] != xs[j]
  }

  lemma {:induction false} AddAllToNone(ys: seq<string>)
    requires NoDuplicates(ys)
    ensures AddAll([], ys) == ys
    decreases |ys|
  {
    if ys != [] {
      var n := |ys| - 1;
      AddAllToNone(ys[..n]);
      assert ys == ys[..n] + [ys[n]];
    }
  }

  // ---------------------------------------------------------------- what is worth keeping

  /** fwupd_bios_setting_trusted() */
  predicate Tells(o: Object, trusted: bool) {
    trusted || o.name == Some("pending_reboot")
  }

  /** What a serialised object can restore: the bounds and values that its kind uses, and the current
      value only when it may be told. */
  ghost function Projection(o: Object, trusted: bool): Object {
    var bounded := o.kind == KindInteger || o.kind == KindString;
    o.(lowerBound := if bounded then o.lowerBound else 0,
       upperBound := if bounded then o.upperBound else 0,
       scalarIncrement := if o.kind == KindInteger then o.scalarIncrement else 0,
       possible := if o.kind == KindEnumeration then o.possible else [],
       current := if Tells(o, trusted) then o.current else None)
  }

  // ---------------------------------------------------------------- variants

  datatype Variant = U64(u: u64) | I64(i: int) | Str(s: string) | Bool(b: bool) | Strv(ss: seq<string>)

  datatype Entry = Entry(key: Key, value: Variant)

  ghost function StrOf(t: Option<string>): Option<Variant> {
    if t.Some? then Some(Str(t.value)) else None
  }

  /** The value under each key of the dictionary, if the key is there. */
  ghost function Encoded(o: Object, trusted: bool, k: Key): Option<Variant> {
    var bounded := o.kind == KindInteger || o.kind == KindString;
    match k
    case Type => Some(U64(o.kind))
    case Id => StrOf(o.id)
    case AppstreamId => StrOf(o.appstreamId)
    case Icon => StrOf(o.icon)
    case Name => StrOf(o.name)
    case Parent => StrOf(o.parent)
    case Path => StrOf(o.path)
    case Description => StrOf(o.description)
    case ValueFilename => StrOf(o.valueFilename)
    case ReadOnly => Some(Bool(o.readOnly))
    case CurrentValue => if Tells(o, trusted) then StrOf(o.current) else None
    case LowerBound => if bounded then Some(U64(o.lowerBound)) else None
    case UpperBound => if bounded then Some(U64(o.upperBound)) else None
    case ScalarIncrement => if o.kind == KindInteger then Some(U64(o.scalarIncrement)) else None
    case PossibleValues => if o.kind == KindEnumeration && o.possible != [] then Some(Strv(o.possible)) else None
    case Unknown(_) => None
  }

  /** The entries for the first `n` keys. */
  ghost function EntriesUpTo(o: Object, trusted: bool, n: nat): seq<Entry> {
    if n == 0 then []
    else
      var v := Encoded(o, trusted, KeyAt(n - 1));
      if v.Some? then EntriesUpTo(o, trusted, n - 1) + [Entry(KeyAt(n - 1), v.value)] else EntriesUpTo(o, trusted, n - 1)
  }

  ghost function Entries(o: Object, trusted: bool): seq<Entry> {
    EntriesUpTo(o, trusted, KeyCount)
  }

  method AddText(es: seq<Entry>, k: Key, t: Option<string>) returns (r: seq<Entry>)
    ensures r == if StrOf(t).Some? then es + [Entry(k, StrOf(t).value)] else es
  {
    return if t.Some? then es + [Entry(k, Str(t.value))] else es;
  }

  method AddFirstTexts(o: Object, trusted: bool) returns (es: seq<Entry>)
    ensures es == EntriesUpTo(o, trusted, 5)
  {
    es := [Entry(Type, U64(o.kind))];
    assert es == EntriesUpTo(o, trusted, 1);
    es := AddText(es, Id, o.id);
    assert es == EntriesUpTo(o, trusted, 2);
    es := AddText(es, AppstreamId, o.appstreamId);
    assert es == EntriesUpTo(o, trusted, 3);
    es := AddText(es, Icon, o.icon);
    assert es == EntriesUpTo(o, trusted, 4);
    es := AddText(es, Name, o.name);
  }

  method AddTexts(o: Object, trusted: bool) returns (es: seq<Entry>)
    ensures es == EntriesUpTo(o, trusted, 9)
  {
    es := AddFirstTexts(o, trusted);
    es := AddText(es, Parent, o.parent);
    assert es == EntriesUpTo(o, trusted, 6);
    es := AddText(es, Path, o.path);
    assert es == EntriesUpTo(o, trusted, 7);
    es := AddText(es, Description, o.description);
    assert es == EntriesUpTo(o, trusted, 8);
    es := AddText(es, ValueFilename, o.valueFilename);
  }

  /** fwupd_bios_setting_add_variant() */
  method AddVariant(o: Object, trusted: bool) returns (es: seq<Entry>)
    ensures es == Entries(o, trusted)
  {
    es := AddTexts(o, trusted);
    es := es + [Entry(ReadOnly, Bool(o.readOnly))];
    assert es == EntriesUpTo(o, trusted, 10);
    if o.current.Some? && Tells(o, trusted) {
      es := es + [Entry(CurrentValue, Str(o.current.value))];
    }
    assert es == EntriesUpTo(o, trusted, 11);
    if o.kind == KindInteger || o.kind == KindString {
      es := es + [Entry(LowerBound, U64(o.lowerBound))];
      assert es == EntriesUpTo(o, trusted, 12);
      es := es + [Entry(UpperBound, U64(o.upperBound))];
      assert es == EntriesUpTo(o, trusted, 13);
      if o.kind == KindInteger {
        es := es + [Entry(ScalarIncrement, U64(o.scalarIncrement))];
      }
    } else if o.kind == KindEnumeration {
      assert es == EntriesUpTo(o, trusted, 12) == EntriesUpTo(o, trusted, 13) == EntriesUpTo(o, trusted, 14);
      if |o.possible| > 0 {
        var strv := [];
        for i := 0 to |o.possible|
          invariant strv == o.possible[..i]
        {
          strv := strv + [o.possible[i]];
        }
        assert strv == o.possible;
        es := es + [Entry(PossibleValues, Strv(strv))];
      }
    }
    assert EntriesUpTo(o, trusted, 12) == EntriesUpTo(o, trusted, 13) || o.kind == KindInteger || o.kind == KindString;
    assert EntriesUpTo(o, trusted, 13) == EntriesUpTo(o, trusted, 14) || o.kind == KindInteger;
  }

  function GetU64(v: Variant): u64 {
    match v
    case U64(n) => n
    case I64(i) => if 0 <= i < U64Range then i else 0
    case _ => 0
  }

  function GetString(v: Variant): Option<string> {
    if v.Str? then Some(v.s) else None
  }

  function GetBool(v: Variant): bool {
    v.Bool? && v.b
  }

  function GetStrv(v: Variant): seq<string> {
    if v.Strv? then v.ss else []
  }

  /** fwupd_bios_setting_from_key_value() */
  function Set(o: Object, e: Entry): Object {
    match e.key
    case Type => o.(kind := GetU64(e.value) % KindRange)
    case Id => o.(id := GetString(e.value))
    case AppstreamId => o.(appstreamId := GetString(e.value))
    case Icon => o.(icon := GetString(e.value))
    case Name => o.(name := GetString(e.value))
    case Parent => o.(parent := GetString(e.value))
    case Path => o.(path := GetString(e.value))
    case Description => o.(description := GetString(e.value))
    case ValueFilename => o.(valueFilename := GetString(e.value))
    case ReadOnly => o.(readOnly := GetBool(e.value))
    case CurrentValue => o.(current := GetString(e.value))
    case LowerBound => o.(lowerBound := GetU64(e.value))
    case UpperBound => o.(upperBound := GetU64(e.value))
    case ScalarIncrement => o.(scalarIncrement := GetU64(e.value))
    case PossibleValues => o.(possible := AddAll(o.possible, GetStrv(e.value)))
    case Unknown(_) => o
  }

  /** What a value under a key makes of a field. */
  ghost function Meaning(k: Key, v: Variant, before: Field): Field {
    match k
    case Type => Number(GetU64(v) % KindRange)
    case LowerBound => Number(GetU64(v))
    case UpperBound => Number(GetU64(v))
    case ScalarIncrement => Number(GetU64(v))
    case ReadOnly => Flag(GetBool(v))
    case PossibleValues => if before.List? then List(AddAll(before.xs, GetStrv(v))) else before
    case Unknown(_) => before
    case _ => Text(GetString(v))
  }

  lemma SetField(o: Object, e: Entry, k: Key)
    ensures Get(Set(o, e), k) == if e.key == k then Meaning(k, e.value, Get(o, k)) else Get(o, k)
  {
  }

  ghost function Decoded(o: Object, es: seq<Entry>): Object {
    if es == [] then o else Set(Decoded(o, es[..|es| - 1]), es[|es| - 1])
  }

  /** The object being decoded into. */
  class Setting {
    var o: Object

    constructor ()
      ensures o == Fresh
    {
      o := Fresh;
    }

    method AddPossibleValues(strv: seq<string>)
      modifies this
      ensures o == old(o).(possible := AddAll(old(o).possible, strv))
    {
      for i := 0 to |strv|
        invariant o == old(o).(possible := AddAll(old(o).possible, strv[..i]))
      {
        assert strv[..i + 1][..i] == strv[..i];
        if strv[i] !in o.possible {
          o := o.(possible := o.possible + [strv[i]]);
        }
      }
      assert strv[..|strv|] == strv;
    }

    /** fwupd_bios_setting_from_key_value(): the field of the key gets the meaning of the value, and
        no other field changes. */
    method FromKeyValue(e: Entry)
      modifies this
      ensures forall k :: Get(o, k) == if e.key == k then Meaning(k, e.value, Get(old(o), k)) else Get(old(o), k)
      ensures o == Set(old(o), e)
    {
      match e.key {
        case Type => o := o.(kind := GetU64(e.value) % KindRange);
        case Id => o := o.(id := GetString(e.value));
        case AppstreamId => o := o.(appstreamId := GetString(e.value));
        case Icon => o := o.(icon := GetString(e.value));
        case Name => o := o.(name := GetString(e.value));
        case Parent => o := o.(parent := GetString(e.value));
        case Path => o := o.(path := GetString(e.value));
        case Description => o := o.(description := GetString(e.value));
        case ValueFilename => o := o.(valueFilename := GetString(e.value));
        case ReadOnly => o := o.(readOnly := GetBool(e.value));
        case CurrentValue => o := o.(current := GetString(e.value));
        case LowerBound => o := o.(lowerBound := GetU64(e.value));
        case UpperBound => o := o.(upperBound := GetU64(e.value));
        case ScalarIncrement => o := o.(scalarIncrement := GetU64(e.value));
        case PossibleValues => AddPossibleValues(GetStrv(e.value));
        case Unknown(_) =>
      }
      assert o == Set(old(o), e);
      forall k ensures Get(o, k) == if e.key == k then Meaning(k, e.value, Get(old(o), k)) else Get(old(o), k) {
        SetField(old(o), e, k);
      }
    }

    /** fwupd_bios_setting_from_variant_iter() */
    method FromVariantIter(es: seq<Entry>)
      modifies this
      ensures o == Decoded(old(o), es)
    {
      for i := 0 to |es|
        invariant o == Decoded(old(o), es[..i])
      {
        FromKeyValue(es[i]);
        assert es[..i + 1][..i] == es[..i];
      }
      assert es[..|es|] == es;
    }
  }

  // ---------------------------------------------------------------- variants round trip

  ghost predicate DistinctKeys(es: seq<Entry>) {
    forall i, j :: 0 <= i < j < |es| ==> es[i].key != es[j].key
  }

  lemma {:induction false} DecodedField(o: Object, es: seq<Entry>, k: Key)
    requires DistinctKeys(es)
    ensures (forall i :: 0 <= i < |es| ==> es[i].key != k) ==> Get(Decoded(o, es), k) == Get(o, k)
    ensures forall i :: 0 <= i < |es| && es[i].key == k ==> Get(Decoded(o, es), k) == Meaning(k, es[i].value, Get(o, k))
    decreases |es|
  {
    if es != [] {
      var n := |es| - 1;
      DecodedField(o, es[..n], k);
      SetField(Decoded(o, es[..n]), es[n], k);
      assert forall i :: 0 <= i < n ==> es[..n][i] == es[i];
    }
  }

  lemma {:induction false} EntriesFacts(o: Object, trusted: bool, n: nat)
    requires n <= KeyCount
    ensures DistinctKeys(EntriesUpTo(o, trusted, n))
    ensures forall e :: e in EntriesUpTo(o, trusted, n) <==>
      Encoded(o, trusted, e.key) == Some(e.value) && exists i: nat :: i < n && e.key == KeyAt(i)
  {
    if n > 0 { EntriesFacts(o, trusted, n - 1); }
  }

  lemma KeyIndex(k: Key) returns (i: nat)
    requires !k.Unknown?
    ensures i < KeyCount && KeyAt(i) == k
  {
    i := match k
      case Type => 0 case Id => 1 case AppstreamId => 2 case Icon => 3 case Name => 4
      case Parent => 5 case Path => 6 case Description => 7 case ValueFilename => 8 case ReadOnly => 9
      case CurrentValue => 10 case LowerBound => 11 case UpperBound => 12 case ScalarIncrement => 13
      case PossibleValues => 14;
  }

  /** The same entries in another order. */
  ghost predicate Reordered(es: seq<Entry>, es': seq<Entry>) {
    multiset(es) == multiset(es')
  }

  lemma {:induction false} DistinctCount(es: seq<Entry>, e: Entry)
    requires DistinctKeys(es)
    ensures multiset(es)[e] <= 1
    decreases |es|
  {
    if es != [] {
      var n := |es| - 1;
      DistinctCount(es[..n], e);
      assert es == es[..n] + [es[n]];
      assert es[n] !in es[..n];
    }
  }

  lemma ReorderedDistinct(es: seq<Entry>, es': seq<Entry>)
    requires DistinctKeys(es) && Reordered(es, es')
    ensures DistinctKeys(es')
    ensures forall e :: e in es' <==> e in es
  {
    assert forall e :: e in es' <==> e in multiset(es');
    assert forall e :: e in es <==> e in multiset(es);
    forall i, j | 0 <= i < j < |es'|
      ensures es'[i].key != es'[j].key
    {
      DistinctCount(es, es'[i]);
      assert es' == es'[..j] + es'[j..];
      assert es'[i] in multiset(es'[..j]) && es'[j] in multiset(es'[j..]);
      assert es'[i] in es && es'[j] in es;
    }
  }

  /** One key of the round trip. */
  lemma FieldRoundTrip(o: Object, trusted: bool, k: Key)
    requires NoDuplicates(o.possible)
    ensures Get(Projection(o, trusted), k) ==
      var v := Encoded(o, trusted, k);
      if v.Some? then Meaning(k, v.value, Get(Fresh, k)) else Get(Fresh, k)
  {
    AddAllToNone(o.possible);
  }

  lemma KeyListed(o: Object, trusted: bool, k: Key)
    ensures forall e :: e in Entries(o, trusted) && e.key == k ==> Encoded(o, trusted, k) == Some(e.value)
    ensures Encoded(o, trusted, k).Some? ==> Entry(k, Encoded(o, trusted, k).value) in Entries(o, trusted)
  {
    EntriesFacts(o, trusted, KeyCount);
    if !k.Unknown? { var i := KeyIndex(k); }
  }

  lemma KeyRoundTrip(o: Object, trusted: bool, es: seq<Entry>, k: Key)
    requires NoDuplicates(o.possible) && DistinctKeys(es)
    requires forall e :: e in es <==> e in Entries(o, trusted)
    ensures SameAt(Decoded(Fresh, es), Projection(o, trusted), k)
  {
    KeyListed(o, trusted, k);
    DecodedField(Fresh, es, k);
    FieldRoundTrip(o, trusted, k);
    if Encoded(o, trusted, k).Some? {
      assert Entry(k, Encoded(o, trusted, k).value) in es;
    } else {
      assert forall i :: 0 <= i < |es| ==> es[i] in es && es[i].key != k;
    }
  }

  /** Decoding the dictionary of an object into a fresh one, whatever the order of the entries, yields
      exactly what its kind makes relevant; an untrusted dictionary differs only by the current value,
      and not even by that for the setting named pending_reboot. */
  lemma VariantRoundTrip(o: Object, trusted: bool, es: seq<Entry>)
    requires NoDuplicates(o.possible) && Reordered(Entries(o, trusted), es)
    ensures Decoded(Fresh, es) == Projection(o, trusted)
  {
    EntriesFacts(o, trusted, KeyCount);
    ReorderedDistinct(Entries(o, trusted), es);
    forall k
      ensures SameAt(Decoded(Fresh, es), Projection(o, trusted), k)
    {
      KeyRoundTrip(o, trusted, es, k);
    }
    SameFields(Decoded(Fresh, es), Projection(o, trusted));
  }

  // ---------------------------------------------------------------- arrays

  /** A variant handed to fwupd_codec_from_variant(). */
  datatype Value = Dict(es: seq<Entry>) | TupleOfDict(es: seq<Entry>) | OtherType

  datatype Error = NotSupported | InvalidData

  /** The objects of leading dictionaries, or an error if something else is among the values. */
  ghost function DecodedArray(vs: seq<Value>): Result<seq<Object>, Error> {
    if vs == [] then Ok([])
    else
      var before, v := DecodedArray(vs[..|vs| - 1]), vs[|vs| - 1];
      if before.Err? then before
      else if v.OtherType? then Err(NotSupported)
      else Ok(before.value + [Decoded(Fresh, v.es)])
  }

  lemma {:induction false} DecodedArrayError(vs: seq<Value>, i: nat)
    requires i <= |vs| && DecodedArray(vs[..i]).Err?
    ensures DecodedArray(vs) == DecodedArray(vs[..i])
    decreases |vs| - i
  {
    if i == |vs| {
      assert vs[..i] == vs;
    } else {
      assert vs[..i + 1][..i] == vs[..i];
      DecodedArrayError(vs, i + 1);
    }
  }

  /** fwupd_codec_array_from_variant() */
  method ArrayFromVariant(vs: seq<Value>) returns (r: Result<seq<Object>, Error>)
    ensures r == DecodedArray(vs)
  {
    var objects: seq<Object> := [];
    for i := 0 to |vs|
      invariant DecodedArray(vs[..i]) == Ok(objects)
    {
      assert vs[..i + 1][..i] == vs[..i];
      var setting := new Setting();
      match vs[i] {
        case OtherType =>
          DecodedArrayError(vs, i + 1);
          return Err(NotSupported);
        case Dict(es) => setting.FromVariantIter(es);
        case TupleOfDict(es) => setting.FromVariantIter(es);
      }
      objects := objects + [setting.o];
    }
    assert vs[..|vs|] == vs;
    return Ok(objects);
  }

  /** fwupd_codec_array_to_variant() */
  method ArrayToVariant(os: seq<Object>, trusted: bool) returns (vs: seq<Value>)
    ensures |vs| == |os| && forall i :: 0 <= i < |os| ==> vs[i] == Dict(Entries(os[i], trusted))
  {
    vs := [];
    for i := 0 to |os|
      invariant |vs| == i && forall j :: 0 <= j < i ==> vs[j] == Dict(Entries(os[j], trusted))
    {
      var es := AddVariant(os[i], trusted);
      vs := vs + [Dict(es)];
    }
  }

  ghost function Projections(os: seq<Object>, trusted: bool): seq<Object> {
    seq(|os|, i requires 0 <= i < |os| => Projection(os[i], trusted))
  }

  lemma DecodedArrayLast(vs: seq<Value>, os: seq<Object>)
    requires vs != [] && !vs[|vs| - 1].OtherType? && DecodedArray(vs[..|vs| - 1]) == Ok(os)
    ensures DecodedArray(vs) == Ok(os + [Decoded(Fresh, vs[|vs| - 1].es)])
  {
  }

  lemma ProjectionsLast(os: seq<Object>, trusted: bool)
    requires os != []
    ensures Projections(os, trusted)
         == Projections(os[..|os| - 1], trusted) + [Projection(os[|os| - 1], trusted)]
  {
  }

  /** The round trip lifts to arrays, element by element and in order, with each dictionary in any
      order of its own. */
  lemma {:induction false} ArrayRoundTrip(os: seq<Object>, trusted: bool, vs: seq<Value>)
    requires |vs| == |os|
    requires forall i :: 0 <= i < |os| ==>
      NoDuplicates(os[i].possible) && !vs[i].OtherType? && Reordered(Entries(os[i], trusted), vs[i].es)
    ensures DecodedArray(vs) == Ok(Projections(os, trusted))
    decreases |os|
  {
    if os == [] {
      assert Projections(os, trusted) == [];
    } else {
      var n := |os| - 1;
      ArrayRoundTrip(os[..n], trusted, vs[..n]);
      VariantRoundTrip(os[n], trusted, vs[n].es);
      DecodedArrayLast(vs, Projections(os[..n], trusted));
      ProjectionsLast(os, trusted);
    }
  }

  // ---------------------------------------------------------------- entries by key

  lemma EntryIff(o: Object, trusted: bool, k: Key, v: Variant)
    ensures Entry(k, v) in Entries(o, trusted) <==> Encoded(o, trusted, k) == Some(v)
  {
    EntriesFacts(o, trusted, KeyCount);
    if !k.Unknown? { var i := KeyIndex(k); }
    assert Entry(k, v).key == k && Entry(k, v).value == v;
  }

  /** Which entry each field has in the dictionary, and when. */
  lemma EntryOfText(o: Object, trusted: bool, v: Variant)
    ensures Entry(Id, v) in Entries(o, trusted) <==> o.id.Some? && v == Str(o.id.value)
    ensures Entry(AppstreamId, v) in Entries(o, trusted) <==> o.appstreamId.Some? && v == Str(o.appstreamId.value)
    ensures Entry(Icon, v) in Entries(o, trusted) <==> o.icon.Some? && v == Str(o.icon.value)
    ensures Entry(Name, v) in Entries(o, trusted) <==> o.name.Some? && v == Str(o.name.value)
    ensures Entry(Parent, v) in Entries(o, trusted) <==> o.parent.Some? && v == Str(o.parent.value)
    ensures Entry(Path, v) in Entries(o, trusted) <==> o.path.Some? && v == Str(o.path.value)
    ensures Entry(Description, v) in Entries(o, trusted) <==> o.description.Some? && v == Str(o.description.value)
    ensures Entry(ValueFilename, v) in Entries(o, trusted) <==> o.valueFilename.Some? && v == Str(o.valueFilename.value)
    ensures Entry(CurrentValue, v) in Entries(o, trusted) <==>
        o.current.Some? && v == Str(o.current.value) && (trusted || o.name == Some("pending_reboot"))
  {
    EntryIff(o, trusted, Id, v);
    EntryIff(o, trusted, AppstreamId, v);
    EntryIff(o, trusted, Icon, v);
    EntryIff(o, trusted, Name, v);
    EntryIff(o, trusted, Parent, v);
    EntryIff(o, trusted, Path, v);
    EntryIff(o, trusted, Description, v);
    EntryIff(o, trusted, ValueFilename, v);
    EntryIff(o, trusted, CurrentValue, v);
  }

  /** A kind of 1 is an enumeration, 2 an integer and 3 a string. */
  lemma EntryOfNumber(o: Object, trusted: bool, v: Variant)
    ensures Entry(Type, v) in Entries(o, trusted) <==> v == U64(o.kind)
    ensures Entry(ReadOnly, v) in Entries(o, trusted) <==> v == Bool(o.readOnly)
    ensures Entry(LowerBound, v) in Entries(o, trusted) <==> o.kind in {2, 3} && v == U64(o.lowerBound)
    ensures Entry(UpperBound, v) in Entries(o, trusted) <==> o.kind in {2, 3} && v == U64(o.upperBound)
    ensures Entry(ScalarIncrement, v) in Entries(o, trusted) <==> o.kind == 2 && v == U64(o.scalarIncrement)
    ensures Entry(PossibleValues, v) in Entries(o, trusted) <==> o.kind == 1 && o.possible != [] && v == Strv(o.possible)
    ensures forall text :: Entry(Unknown(text), v) !in Entries(o, trusted)
  {
    EntryIff(o, trusted, Type, v);
    EntryIff(o, trusted, ReadOnly, v);
    EntryIff(o, trusted, LowerBound, v);
    EntryIff(o, trusted, UpperBound, v);
    EntryIff(o, trusted, ScalarIncrement, v);
    EntryIff(o, trusted, PossibleValues, v);
    forall text ensures Entry(Unknown(text), v) !in Entries(o, trusted) {
      EntryIff(o, trusted, Unknown(text), v);
    }
  }

  /** A number reads the same whether it was sent signed or unsigned; a value of another type reads as zero,
      as no text, as false or as no values. */
  lemma ReadsByType(v: Variant)
    ensures v.U64? ==> GetU64(v) == v.u
    ensures v.I64? && 0 <= v.i <= 0x7fff_ffff_ffff_ffff ==> GetU64(v) == v.i
    ensures (v.I64? && v.i < 0) || !(v.U64? || v.I64?) ==> GetU64(v) == 0
    ensures forall s :: GetString(v) == Some(s) <==> v == Str(s)
    ensures GetBool(v) <==> v == Bool(true)
    ensures if v.Strv? then v == Strv(GetStrv(v)) else GetStrv(v) == []
  {
  }
}
