/** The JSON serialiser of a BIOS setting, against the same notion of what is worth keeping as the
    variant one. */
module BiosJson {
  import opened Wrappers
  import opened BiosCodec

  /** A JSON value; numbers and booleans are raw text that a getter parses. */
  datatype Json = JsonNull | JsonString(s: string) | JsonInteger(i: int) | JsonBoolean(b: bool) | JsonArray(xs: seq<string>)

  type JsonObject = map<Key, Json>

  // ---------------------------------------------------------------- 64-bit conversions

  /** guint64 to gint64. */
  function ToSigned(n: u64): int {
    if n <= I64Max then n else n - U64Range
  }

  /** gint64 to guint64. */
  function ToUnsigned(i: int): u64
    requires I64Min <= i <= I64Max
  {
    if i >= 0 then i else i + U64Range
  }

  // ---------------------------------------------------------------- encoding

  /** fwupd_json_object_add_integer() refuses the largest integer. */
  ghost function IntegerOf(n: u64): Option<Json> {
    if ToSigned(n) == I64Max then None else Some(JsonInteger(ToSigned(n)))
  }

  ghost function TextOf(t: Option<string>): Option<Json> {
    if t.Some? then Some(JsonString(t.value)) else None
  }

  /** The value under each key of the JSON object, if the key is there. */
  ghost function JsonOf(o: Object, k: Key): Option<Json> {
    var bounded := o.kind == KindInteger || o.kind == KindString;
    match k
    case Type => IntegerOf(o.kind)
    case Id => TextOf(o.id)
    case AppstreamId => TextOf(o.appstreamId)
    case Icon => TextOf(o.icon)
    case Name => TextOf(o.name)
    case Parent => TextOf(o.parent)
    case Path => TextOf(o.path)
    case Description => TextOf(o.description)
    case ValueFilename => TextOf(o.valueFilename)
    case ReadOnly => Some(JsonBoolean(o.readOnly))
    case CurrentValue => TextOf(o.current)
    case LowerBound => if bounded then IntegerOf(o.lowerBound) else None
    case UpperBound => if bounded then IntegerOf(o.upperBound) else None
    case ScalarIncrement => if o.kind == KindInteger then IntegerOf(o.scalarIncrement) else None
    case PossibleValues => if o.kind == KindEnumeration && o.possible != [] then Some(JsonArray(o.possible)) else None
    case Unknown(_) => None
  }

  ghost predicate IsJsonOf(j: JsonObject, o: Object) {
    forall k :: if JsonOf(o, k).Some? then k in j && j[k] == JsonOf(o, k).value else k !in j
  }

  /** The order in which the encoder considers the keys. */
  ghost function Turn(k: Key): nat {
    match k
    case Name => 0 case Parent => 1 case Description => 2 case Path => 3 case Id => 4
    case AppstreamId => 5 case Icon => 6 case CurrentValue => 7 case ValueFilename => 8 case ReadOnly => 9
    case Type => 10 case PossibleValues => 11 case LowerBound => 12 case UpperBound => 13 case ScalarIncrement => 14
    case Unknown(_) => 15
  }

  /** So far the first `n` keys have been considered. */
  ghost predicate Partial(j: JsonObject, o: Object, n: nat) {
    forall k :: if Turn(k) < n && JsonOf(o, k).Some? then k in j && j[k] == JsonOf(o, k).value else k !in j
  }

  lemma NextTurn(j: JsonObject, o: Object, k: Key)
    requires Partial(j, o, Turn(k)) && !k.Unknown?
    ensures Partial(if JsonOf(o, k).Some? then j[k := JsonOf(o, k).value] else j, o, Turn(k) + 1)
  {
    assert forall k' :: Turn(k') == Turn(k) ==> k' == k;
  }

  method AddString(j: JsonObject, k: Key, t: Option<string>, ghost o: Object) returns (r: JsonObject)
    requires Partial(j, o, Turn(k)) && !k.Unknown? && JsonOf(o, k) == TextOf(t)
    ensures Partial(r, o, Turn(k) + 1)
  {
    NextTurn(j, o, k);
    return if t.Some? then j[k := JsonString(t.value)] else j;
  }

  method AddInteger(j: JsonObject, k: Key, n: u64, ghost o: Object) returns (r: JsonObject)
    requires Partial(j, o, Turn(k)) && !k.Unknown? && JsonOf(o, k) == IntegerOf(n)
    ensures Partial(r, o, Turn(k) + 1)
  {
    NextTurn(j, o, k);
    if ToSigned(n) == I64Max {
      return j;
    }
    return j[k := JsonInteger(ToSigned(n))];
  }

  lemma NothingYet(o: Object)
    ensures Partial(map[], o, 0)
  {
  }

  method AddFirstStrings(o: Object) returns (j: JsonObject)
    ensures Partial(j, o, 4)
  {
    NothingYet(o);
    j := map[];
    j := AddString(j, Name, o.name, o);
    j := AddString(j, Parent, o.parent, o);
    j := AddString(j, Description, o.description, o);
    j := AddString(j, Path, o.path, o);
  }

  method AddStrings(o: Object) returns (j: JsonObject)
    ensures Partial(j, o, 9)
  {
    j := AddFirstStrings(o);
    j := AddString(j, Id, o.id, o);
    j := AddString(j, AppstreamId, o.appstreamId, o);
    j := AddString(j, Icon, o.icon, o);
    j := AddString(j, CurrentValue, o.current, o);
    j := AddString(j, ValueFilename, o.valueFilename, o);
  }

  method AddFlag(o: Object) returns (j: JsonObject)
    ensures Partial(j, o, Turn(ReadOnly) + 1)
  {
    j := AddStrings(o);
    NextTurn(j, o, ReadOnly);
    j := j[ReadOnly := JsonBoolean(o.readOnly)];
  }

  method AddFlagAndKind(o: Object) returns (j: JsonObject)
    ensures Partial(j, o, Turn(PossibleValues))
  {
    j := AddFlag(o);
    j := AddInteger(j, Type, o.kind, o);
  }

  /** The array of possible values, for enumerations that have any. */
  method AddPossible(j: JsonObject, o: Object) returns (r: JsonObject)
    requires Partial(j, o, Turn(PossibleValues))
    ensures Partial(r, o, Turn(PossibleValues) + 1)
  {
    NextTurn(j, o, PossibleValues);
    r := j;
    if o.kind == KindEnumeration {
      if |o.possible| > 0 {
        var xs := [];
        for i := 0 to |o.possible|
          invariant xs == o.possible[..i]
        {
          xs := xs + [o.possible[i]];
        }
        assert xs == o.possible;
        r := r[PossibleValues := JsonArray(xs)];
      }
    }
  }

  method AddBounds(j: JsonObject, o: Object) returns (r: JsonObject)
    requires Partial(j, o, Turn(LowerBound))
    ensures Partial(r, o, Turn(ScalarIncrement) + 1)
  {
    r := j;
    if o.kind == KindInteger || o.kind == KindString {
      r := AddInteger(r, LowerBound, o.lowerBound, o);
      r := AddInteger(r, UpperBound, o.upperBound, o);
      if o.kind == KindInteger {
        r := AddInteger(r, ScalarIncrement, o.scalarIncrement, o);
      } else {
        NextTurn(r, o, ScalarIncrement);
      }
    } else {
      NextTurn(r, o, LowerBound);
      NextTurn(r, o, UpperBound);
      NextTurn(r, o, ScalarIncrement);
    }
  }

  /** fwupd_bios_setting_add_json() */
  method AddJson(o: Object) returns (j: JsonObject)
    ensures IsJsonOf(j, o)
  {
    j := AddFlagAndKind(o);
    j := AddPossible(j, o);
    j := AddBounds(j, o);
    Complete(j, o);
  }

  lemma Complete(j: JsonObject, o: Object)
    requires Partial(j, o, 15)
    ensures IsJsonOf(j, o)
  {
  }

  // ---------------------------------------------------------------- decoding

  /** A missing or null string, or something that is not a string, reads as none. */
  function ReadText(j: JsonObject, k: Key): Option<string> {
    if k in j && j[k].JsonString? then Some(j[k].s) else None
  }

  /** fwupd_json_object_get_integer_with_default(): missing and null read as zero, and the two extreme
      integers are errors. */
  function ReadInteger(j: JsonObject, k: Key): (r: Option<int>)
    ensures r.Some? ==> I64Min < r.value < I64Max
  {
    if k !in j || j[k].JsonNull? then Some(0)
    else if j[k].JsonInteger? && I64Min < j[k].i < I64Max then Some(j[k].i)
    else None
  }

  function ReadBoolean(j: JsonObject, k: Key): Option<bool> {
    if k !in j || j[k].JsonNull? then Some(false)
    else if j[k].JsonBoolean? then Some(j[k].b)
    else None
  }

  function ReadArray(j: JsonObject, k: Key): seq<string> {
    if k in j && j[k].JsonArray? then j[k].xs else []
  }

  /** Some number or boolean cannot be read. */
  ghost predicate Unreadable(j: JsonObject) {
    || ReadInteger(j, Type).None? || ReadInteger(j, LowerBound).None? || ReadInteger(j, UpperBound).None?
    || ReadInteger(j, ScalarIncrement).None? || ReadBoolean(j, ReadOnly).None?
  }

  /** What a readable JSON object makes of each field. */
  ghost function JsonField(j: JsonObject, k: Key, before: Field): Field
    requires !Unreadable(j)
  {
    match k
    case Type => Number(ToUnsigned(ReadInteger(j, k).value) % KindRange)
    case LowerBound => Number(ToUnsigned(ReadInteger(j, k).value))
    case UpperBound => Number(ToUnsigned(ReadInteger(j, k).value))
    case ScalarIncrement => Number(ToUnsigned(ReadInteger(j, k).value))
    case ReadOnly => Flag(ReadBoolean(j, k).value)
    case PossibleValues => if before.List? then List(AddAll(before.xs, ReadArray(j, k))) else before
    case Unknown(_) => before
    case _ => Text(ReadText(j, k))
  }

  /** `o'` is what reading `j` into `o` gives. */
  ghost predicate JsonDecodes(j: JsonObject, o: Object, o': Object) {
    !Unreadable(j) && forall k :: Get(o', k) == JsonField(j, k, Get(o, k))
  }

  ghost function WithTexts(j: JsonObject, o: Object, kind: int): Object
    requires I64Min <= kind <= I64Max
  {
    o.(kind := ToUnsigned(kind) % KindRange, id := ReadText(j, Id), appstreamId := ReadText(j, AppstreamId),
       icon := ReadText(j, Icon), name := ReadText(j, Name), parent := ReadText(j, Parent),
       description := ReadText(j, Description), path := ReadText(j, Path), current := ReadText(j, CurrentValue),
       valueFilename := ReadText(j, ValueFilename), possible := AddAll(o.possible, ReadArray(j, PossibleValues)))
  }

  ghost function WithBounds(j: JsonObject, o: Object): Object
    requires !Unreadable(j)
  {
    o.(lowerBound := ToUnsigned(ReadInteger(j, LowerBound).value), upperBound := ToUnsigned(ReadInteger(j, UpperBound).value),
       scalarIncrement := ToUnsigned(ReadInteger(j, ScalarIncrement).value), readOnly := ReadBoolean(j, ReadOnly).value)
  }

  lemma DecodesTo(j: JsonObject, o: Object)
    requires !Unreadable(j)
    ensures JsonDecodes(j, o, WithBounds(j, WithTexts(j, o, ReadInteger(j, Type).value)))
  {
  }

  method FromJsonTexts(setting: Setting, j: JsonObject, kind: int)
    requires I64Min <= kind <= I64Max
    modifies setting
    ensures setting.o == WithTexts(j, old(setting.o), kind)
  {
    setting.o := setting.o.(
      kind := ToUnsigned(kind) % KindRange,
      id := ReadText(j, Id),
      appstreamId := ReadText(j, AppstreamId),
      icon := ReadText(j, Icon),
      name := ReadText(j, Name),
      parent := ReadText(j, Parent),
      description := ReadText(j, Description),
      path := ReadText(j, Path),
      current := ReadText(j, CurrentValue),
      valueFilename := ReadText(j, ValueFilename));
    setting.AddPossibleValues(ReadArray(j, PossibleValues));
  }

  method FromJsonBounds(setting: Setting, j: JsonObject) returns (ok: bool)
    requires ReadInteger(j, Type).Some?
    modifies setting
    ensures ok <==> !Unreadable(j)
    ensures ok ==> setting.o == WithBounds(j, old(setting.o))
  {
    var tmp := ReadInteger(j, LowerBound);
    if tmp.None? { return false; }
    setting.o := setting.o.(lowerBound := ToUnsigned(tmp.value));
    tmp := ReadInteger(j, UpperBound);
    if tmp.None? { return false; }
    setting.o := setting.o.(upperBound := ToUnsigned(tmp.value));
    tmp := ReadInteger(j, ScalarIncrement);
    if tmp.None? { return false; }
    setting.o := setting.o.(scalarIncrement := ToUnsigned(tmp.value));
    var readOnly := ReadBoolean(j, ReadOnly);
    if readOnly.None? { return false; }
    setting.o := setting.o.(readOnly := readOnly.value);
    return true;
  }

  /** fwupd_bios_setting_from_json(); on an error the object is left half filled. */
  method FromJson(setting: Setting, j: JsonObject) returns (ok: bool)
    modifies setting
    ensures ok <==> !Unreadable(j)
    ensures ok ==> JsonDecodes(j, old(setting.o), setting.o)
  {
    var tmp := ReadInteger(j, Type);
    if tmp.None? { return false; }
    FromJsonTexts(setting, j, tmp.value);
    ok := FromJsonBounds(setting, j);
    if ok { DecodesTo(j, old(setting.o)); }
  }

  // ---------------------------------------------------------------- round trip

  /** The integers the JSON form of an object carries, besides its kind. */
  ghost function Bounds(o: Object): set<u64> {
    if o.kind == KindInteger then {o.lowerBound, o.upperBound, o.scalarIncrement}
    else if o.kind == KindString then {o.lowerBound, o.upperBound}
    else {}
  }

  /** One integer there and back: lost at 2^63 - 1, unreadable at 2^63, and otherwise exact. */
  lemma IntegerRoundTrip(n: u64)
    ensures IntegerOf(n).None? <==> n == I64Max
    ensures IntegerOf(n).Some? ==> (IntegerOf(n).value.i == I64Min <==> n == I64Max + 1)
    ensures IntegerOf(n).Some? ==> I64Min <= IntegerOf(n).value.i < I64Max && ToUnsigned(IntegerOf(n).value.i) == n
  {
  }

  lemma ReadBound(j: JsonObject, o: Object, k: Key)
    requires IsJsonOf(j, o) && (k.Type? || k.LowerBound? || k.UpperBound? || k.ScalarIncrement?)
    ensures var n := Get(Projection(o, true), k).n;
            && (ReadInteger(j, k).None? <==> n == I64Max + 1)
            && (ReadInteger(j, k).Some? ==> ToUnsigned(ReadInteger(j, k).value) == if n == I64Max then 0 else n)
  {
    assert if JsonOf(o, k).Some? then k in j && j[k] == JsonOf(o, k).value else k !in j;
  }

  /** Reading fails exactly when a bound is 2^63. */
  lemma JsonReadable(j: JsonObject, o: Object)
    requires IsJsonOf(j, o)
    ensures Unreadable(j) <==> I64Max + 1 in Bounds(o)
  {
    ReadBound(j, o, Type);
    ReadBound(j, o, LowerBound);
    ReadBound(j, o, UpperBound);
    ReadBound(j, o, ScalarIncrement);
    assert JsonOf(o, ReadOnly).Some?;
  }

  /** The object that comes back: bounds of 2^63 - 1 have become zero. */
  ghost function WithoutMax(o: Object): Object {
    o.(lowerBound := if o.lowerBound == I64Max then 0 else o.lowerBound,
       upperBound := if o.upperBound == I64Max then 0 else o.upperBound,
       scalarIncrement := if o.scalarIncrement == I64Max then 0 else o.scalarIncrement)
  }

  lemma JsonFieldRoundTrip(j: JsonObject, o: Object, k: Key)
    requires IsJsonOf(j, o) && !Unreadable(j) && NoDuplicates(o.possible)
    ensures JsonField(j, k, Get(Fresh, k)) == Get(WithoutMax(Projection(o, true)), k)
  {
    if k.Type? || k.LowerBound? || k.UpperBound? || k.ScalarIncrement? {
      ReadBound(j, o, k);
    } else {
      JsonOtherField(j, o, k);
    }
  }

  lemma JsonOtherField(j: JsonObject, o: Object, k: Key)
    requires IsJsonOf(j, o) && !Unreadable(j) && NoDuplicates(o.possible)
    requires !k.Type? && !k.LowerBound? && !k.UpperBound? && !k.ScalarIncrement?
    ensures JsonField(j, k, Get(Fresh, k)) == Get(Projection(o, true), k)
  {
    assert if JsonOf(o, k).Some? then k in j && j[k] == JsonOf(o, k).value else k !in j;
    AddAllToNone(o.possible);
  }

  /** Whatever the trust flag, JSON into a fresh object gives back what a trusted variant does, except
      that bounds of 2^63 - 1 become zero. */
  lemma JsonDecoded(j: JsonObject, o: Object, o': Object)
    requires IsJsonOf(j, o) && JsonDecodes(j, Fresh, o') && NoDuplicates(o.possible)
    ensures o' == WithoutMax(Projection(o, true))
  {
    forall k
      ensures SameAt(o', WithoutMax(Projection(o, true)), k)
    {
      JsonFieldRoundTrip(j, o, k);
      assert Get(o', k) == JsonField(j, k, Get(Fresh, k));
    }
    SameFields(o', WithoutMax(Projection(o, true)));
  }

  /** The JSON form of an object can be read back to exactly the object the trusted variant gives if
      and only if none of its bounds is 2^63 - 1 or 2^63; bounds above that survive as negative
      integers. */
  lemma JsonRoundTrip(j: JsonObject, o: Object)
    requires IsJsonOf(j, o) && NoDuplicates(o.possible)
    ensures (exists o' :: JsonDecodes(j, Fresh, o') && o' == Projection(o, true))
       <==> I64Max !in Bounds(o) && I64Max + 1 !in Bounds(o)
  {
    JsonReadable(j, o);
    var p := Projection(o, true);
    if exists o' :: JsonDecodes(j, Fresh, o') && o' == p {
      JsonDecoded(j, o, p);
    }
    if I64Max !in Bounds(o) && I64Max + 1 !in Bounds(o) {
      assert WithoutMax(p) == p;
      forall k
        ensures Get(p, k) == JsonField(j, k, Get(Fresh, k))
      {
        JsonFieldRoundTrip(j, o, k);
      }
      assert JsonDecodes(j, Fresh, p);
    }
  }

  /** Both serialisers restore the same object if and only if no bound is 2^63 - 1 and the variant was
      allowed to tell the current value, if there is one: JSON always tells it. */
  lemma CodecsAgree(j: JsonObject, o: Object, o': Object, trusted: bool, es: seq<Entry>)
    requires IsJsonOf(j, o) && JsonDecodes(j, Fresh, o') && Reordered(Entries(o, trusted), es) && NoDuplicates(o.possible)
    ensures o' == Decoded(Fresh, es) <==> (Tells(o, trusted) || o.current.None?) && I64Max !in Bounds(o)
  {
    JsonDecoded(j, o, o');
    VariantRoundTrip(o, trusted, es);
  }

  // ---------------------------------------------------------------- members by key

  lemma MemberIff(j: JsonObject, o: Object, k: Key, v: Json)
    requires IsJsonOf(j, o)
    ensures k in j && j[k] == v <==> JsonOf(o, k) == Some(v)
    ensures k in j <==> JsonOf(o, k).Some?
  {
  }

  /** Which member each field has in the JSON object, and when. */
  lemma MemberOfText(j: JsonObject, o: Object, v: Json)
    requires IsJsonOf(j, o)
    ensures Id in j && j[Id] == v <==> o.id.Some? && v == JsonString(o.id.value)
    ensures AppstreamId in j && j[AppstreamId] == v <==> o.appstreamId.Some? && v == JsonString(o.appstreamId.value)
    ensures Icon in j && j[Icon] == v <==> o.icon.Some? && v == JsonString(o.icon.value)
    ensures Name in j && j[Name] == v <==> o.name.Some? && v == JsonString(o.name.value)
    ensures Parent in j && j[Parent] == v <==> o.parent.Some? && v == JsonString(o.parent.value)
    ensures Path in j && j[Path] == v <==> o.path.Some? && v == JsonString(o.path.value)
    ensures Description in j && j[Description] == v <==> o.description.Some? && v == JsonString(o.description.value)
    ensures ValueFilename in j && j[ValueFilename] == v <==> o.valueFilename.Some? && v == JsonString(o.valueFilename.value)
    ensures CurrentValue in j && j[CurrentValue] == v <==> o.current.Some? && v == JsonString(o.current.value)
  {
    MemberIff(j, o, Id, v);
    MemberIff(j, o, AppstreamId, v);
    MemberIff(j, o, Icon, v);
    MemberIff(j, o, Name, v);
    MemberIff(j, o, Parent, v);
    MemberIff(j, o, Path, v);
    MemberIff(j, o, Description, v);
    MemberIff(j, o, ValueFilename, v);
    MemberIff(j, o, CurrentValue, v);
  }

  lemma MemberOfNumber(j: JsonObject, o: Object, v: Json)
    requires IsJsonOf(j, o)
    ensures Type in j && j[Type] == JsonInteger(o.kind)
    ensures ReadOnly in j && j[ReadOnly] == JsonBoolean(o.readOnly)
    ensures LowerBound in j && j[LowerBound] == v <==> o.kind in {2, 3} && Some(v) == IntegerOf(o.lowerBound)
    ensures UpperBound in j && j[UpperBound] == v <==> o.kind in {2, 3} && Some(v) == IntegerOf(o.upperBound)
    ensures ScalarIncrement in j && j[ScalarIncrement] == v <==> o.kind == 2 && Some(v) == IntegerOf(o.scalarIncrement)
    ensures PossibleValues in j && j[PossibleValues] == v <==> o.kind == 1 && o.possible != [] && v == JsonArray(o.possible)
  {
    MemberIff(j, o, Type, v);
    MemberIff(j, o, ReadOnly, v);
    MemberIff(j, o, LowerBound, v);
    MemberIff(j, o, UpperBound, v);
    MemberIff(j, o, ScalarIncrement, v);
    MemberIff(j, o, PossibleValues, v);
  }

  /** The member is there and not null. */
  ghost predicate Given(j: JsonObject, k: Key) {
    k in j && j[k] != JsonNull
  }

  /** Decoding fails exactly for a number that is given as something else or as one of the two extreme 64-bit
      integers, or a flag that is given as something else. */
  lemma UnreadableIff(j: JsonObject)
    ensures Unreadable(j) <==>
        || (exists k :: && k in {Type, LowerBound, UpperBound, ScalarIncrement} && Given(j, k)
                        && !(j[k].JsonInteger? && -0x8000_0000_0000_0000 < j[k].i < 0x7fff_ffff_ffff_ffff))
        || (Given(j, ReadOnly) && !j[ReadOnly].JsonBoolean?)
  {
    assert forall k :: ReadInteger(j, k).None? <==>
        Given(j, k) && !(j[k].JsonInteger? && -0x8000_0000_0000_0000 < j[k].i < 0x7fff_ffff_ffff_ffff);
  }

  /** A member that is missing or null reads as zero, false, no text or no values. */
  lemma MissingMember(j: JsonObject, k: Key)
    requires !Unreadable(j) && !Given(j, k) && !k.Unknown?
    ensures JsonField(j, k, Get(Fresh, k)) == Get(Fresh, k)
  {
  }
}
