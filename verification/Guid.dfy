/** GUIDs: printing, parsing, validation and version-5 construction. */
module Guid {
  import opened Wrappers
  import opened GuidBytes

  datatype Flags = Flags(mixedEndian: bool, namespaceMicrosoft: bool)

  datatype Error = InvalidData

  function OrderOf(flags: Flags): Endian {
    if flags.mixedEndian then Little else Big
  }

  // ---------------------------------------------------------------- printing

  /** An integer field of the struct as text. */
  function FieldText(host: Endian, order: Endian, field: seq<byte>): string {
    Hex(Swap(host, order, Load(host, field), |field|), 2 * |field|)
  }

  function NodeText(node: seq<byte>): string {
    if node == [] then "" else NodeText(node[..|node| - 1]) + Hex(node[|node| - 1] as nat, 2)
  }

  /** fwupd_guid_to_string() */
  function Print(host: Endian, guid: Guid, flags: Flags): string {
    var order := OrderOf(flags);
    FieldText(host, order, guid[..4]) + "-" + FieldText(host, order, guid[4..6]) + "-"
    + FieldText(host, order, guid[6..8]) + "-" + FieldText(host, Big, guid[8..10]) + "-" + NodeText(guid[10..])
  }

  lemma FieldTextMeaning(host: Endian, order: Endian, field: seq<byte>)
    ensures FieldText(host, order, field) == Text(if order.Big? then field else Reverse(field))
  {
    LoadSwapped(host, order, field);
    HexIsText(if order.Big? then field else Reverse(field));
  }

  lemma {:induction false} NodeTextMeaning(node: seq<byte>)
    ensures NodeText(node) == Text(node)
  {
    if node != [] {
      var n := |node| - 1;
      NodeTextMeaning(node[..n]);
      ByteIsTwoDigits(node[n]);
      assert node == node[..n] + [node[n]];
      TextSnoc(node[..n], node[n]);
    }
  }

  lemma ByteIsTwoDigits(b: byte)
    ensures Hex(b as nat, 2) == ByteText(b)
  {
    TwoDigits(0, b, 0);
    assert Hex(0, 0) + ByteText(b) == ByteText(b);
  }

  lemma DashedParts(a: string, b: string, c: string, d: string, e: string)
    requires |a| == 8 && |b| == 4 && |c| == 4 && |d| == 4 && |e| == 12
    ensures Dashed(a + b + c + d + e) == a + "-" + b + "-" + c + "-" + d + "-" + e
  {
    var t := a + b + c + d + e;
    assert t[..8] == a && t[8..12] == b && t[12..16] == c && t[16..20] == d && t[20..] == e;
  }

  lemma TextOfFive(a: seq<byte>, b: seq<byte>, c: seq<byte>, d: seq<byte>, e: seq<byte>)
    ensures Text(a + b + c + d + e) == Text(a) + Text(b) + Text(c) + Text(d) + Text(e)
  {
    TextConcat(a, b);
    TextConcat(a + b, c);
    TextConcat(a + b + c, d);
    TextConcat(a + b + c + d, e);
  }

  ghost function InOrder(order: Endian, field: seq<byte>): (r: seq<byte>)
    ensures |r| == |field|
  {
    if order.Big? then field else Reverse(field)
  }

  lemma OrderFields(mixed: bool, g: Guid)
    ensures var order := if mixed then Little else Big;
            Order(mixed, g)
              == InOrder(order, g[..4]) + InOrder(order, g[4..6]) + InOrder(order, g[6..8]) + g[8..10] + g[10..]
  {
    assert g[8..] == g[8..10] + g[10..];
    assert g == g[..4] + g[4..6] + g[6..8] + g[8..10] + g[10..];
  }

  /** On any host the text is two digits a byte, in the byte order of the encoding, with dashes. */
  lemma PrintMeaning(host: Endian, g: Guid, flags: Flags)
    ensures Print(host, g, flags) == Dashed(Text(Order(flags.mixedEndian, g)))
  {
    var order := OrderOf(flags);
    FieldTextMeaning(host, order, g[..4]);
    FieldTextMeaning(host, order, g[4..6]);
    FieldTextMeaning(host, order, g[6..8]);
    FieldTextMeaning(host, Big, g[8..10]);
    NodeTextMeaning(g[10..]);
    var a, b, c := InOrder(order, g[..4]), InOrder(order, g[4..6]), InOrder(order, g[6..8]);
    OrderFields(flags.mixedEndian, g);
    TextOfFive(a, b, c, g[8..10], g[10..]);
    DashedParts(Text(a), Text(b), Text(c), Text(g[8..10]), Text(g[10..]));
  }

  lemma PrintWellFormed(host: Endian, g: Guid, flags: Flags)
    ensures WellFormed(Print(host, g, flags)) && Digits(Print(host, g, flags)) == Text(Order(flags.mixedEndian, g))
  {
    PrintMeaning(host, g, flags);
    DigitsOfDashed(Text(Order(flags.mixedEndian, g)));
    WellFormedDigits(Print(host, g, flags));
  }

  // ---------------------------------------------------------------- parsing

  /** What parsing means: two digits a byte, in the byte order of the encoding. */
  ghost function Parsed(s: string, flags: Flags): Result<Guid, Error> {
    if WellFormed(s) then
      WellFormedDigits(s);
      Ok(Order(flags.mixedEndian, Pairs(Digits(s))))
    else Err(InvalidData)
  }

  function IndexOf(s: string, c: char): (i: nat)
    ensures i <= |s| && (i < |s| ==> s[i] == c) && forall j :: 0 <= j < i ==> s[j] != c
  {
    if s == "" || s[0] == c then 0 else IndexOf(s[1..], c) + 1
  }

  /** g_strsplit() of a non-empty string into at most `max` pieces. */
  function Split(s: string, c: char, max: nat): (pieces: seq<string>)
    requires max > 0
    ensures 0 < |pieces| <= max
  {
    var i := IndexOf(s, c);
    if max == 1 || i == |s| then [s] else [s[..i]] + Split(s[i + 1..], c, max - 1)
  }

  ghost function Join(pieces: seq<string>, c: char): string
    requires pieces != []
  {
    if |pieces| == 1 then pieces[0] else pieces[0] + [c] + Join(pieces[1..], c)
  }

  lemma JoinCons(a: string, pieces: seq<string>, c: char)
    requires pieces != []
    ensures Join([a] + pieces, c) == a + [c] + Join(pieces, c)
  {
    assert ([a] + pieces)[1..] == pieces;
  }

  lemma SplitStep(s: string, c: char, max: nat)
    requires max > 1 && IndexOf(s, c) < |s|
    ensures var i := IndexOf(s, c);
            Split(s, c, max) == [s[..i]] + Split(s[i + 1..], c, max - 1) && s == s[..i] + [c] + s[i + 1..]
  {
    CutAt(s, IndexOf(s, c));
  }

  lemma {:induction false} JoinSplit(s: string, c: char, max: nat)
    requires max > 0
    ensures Join(Split(s, c, max), c) == s
    decreases max
  {
    var i := IndexOf(s, c);
    if max > 1 && i < |s| {
      SplitStep(s, c, max);
      JoinSplit(s[i + 1..], c, max - 1);
      JoinCons(s[..i], Split(s[i + 1..], c, max - 1), c);
    }
  }

  lemma CutAt(s: string, i: nat)
    requires i < |s|
    ensures s == s[..i] + [s[i]] + s[i + 1..]
  {
  }

  lemma JoinFive(p: seq<string>)
    requires |p| == 5
    ensures Join(p, '-') == p[0] + "-" + p[1] + "-" + p[2] + "-" + p[3] + "-" + p[4]
  {
    JoinCons(p[3], [p[4]], '-');
    JoinCons(p[2], [p[3]] + [p[4]], '-');
    JoinCons(p[1], [p[2]] + ([p[3]] + [p[4]]), '-');
    JoinCons(p[0], [p[1]] + ([p[2]] + ([p[3]] + [p[4]])), '-');
    assert p == [p[0]] + ([p[1]] + ([p[2]] + ([p[3]] + [p[4]])));
    DashesAssoc(p[0], p[1], p[2], p[3], p[4]);
  }

  lemma DashesAssoc(a: string, b: string, c: string, d: string, e: string)
    ensures a + "-" + (b + "-" + (c + "-" + (d + "-" + e))) == a + "-" + b + "-" + c + "-" + d + "-" + e
  {
  }

  lemma SplitAt(a: string, rest: string, c: char, max: nat)
    requires max > 1 && c !in a
    ensures Split(a + [c] + rest, c, max) == [a] + Split(rest, c, max - 1)
  {
    var s := a + [c] + rest;
    var i := IndexOf(s, c);
    assert s[|a|] == c;
    assert forall j :: 0 <= j < |a| ==> s[j] == a[j];
    assert s[..i] == a && s[i + 1..] == rest;
  }

  predicate GuidLengths(p: seq<string>) {
    |p| == 5 && |p[0]| == 8 && |p[1]| == 4 && |p[2]| == 4 && |p[3]| == 4 && |p[4]| == 12
  }

  lemma {:induction false} SplitJoin(p: seq<string>, c: char, max: nat)
    requires 0 < |p| <= max && forall i :: 0 <= i < |p| ==> c !in p[i]
    ensures Split(Join(p, c), c, max) == p
  {
    if |p| == 1 {
      SplitNone(p[0], c, max);
    } else {
      SplitJoin(p[1..], c, max - 1);
      SplitJoinStep(p, c, max);
    }
  }

  lemma SplitJoinStep(p: seq<string>, c: char, max: nat)
    requires 1 < |p| && 1 < max && c !in p[0] && Split(Join(p[1..], c), c, max - 1) == p[1..]
    ensures Split(Join(p, c), c, max) == p
  {
    SplitAt(p[0], Join(p[1..], c), c, max);
    assert [p[0]] + p[1..] == p;
  }

  lemma SplitNone(s: string, c: char, max: nat)
    requires max > 0 && c !in s
    ensures Split(s, c, max) == [s]
  {
  }

  /** Splitting a well-formed GUID gives its five groups. */
  lemma SplitWellFormed(s: string)
    requires WellFormed(s)
    ensures Split(s, '-', 5) == [s[..8], s[9..13], s[14..18], s[19..23], s[24..]]
  {
    var p := [s[..8], s[9..13], s[14..18], s[19..23], s[24..]];
    WellFormedDigits(s);
    DashedParts(p[0], p[1], p[2], p[3], p[4]);
    JoinFive(p);
    SplitJoin(p, '-', 5);
  }

  lemma HexOfFive(a: string, b: string, c: string, d: string, e: string)
    ensures AllHex(a + b + c + d + e) <==> AllHex(a) && AllHex(b) && AllHex(c) && AllHex(d) && AllHex(e)
  {
    HexOfTwo(a, b);
    HexOfTwo(a + b, c);
    HexOfTwo(a + b + c, d);
    HexOfTwo(a + b + c + d, e);
  }

  lemma HexOfTwo(a: string, b: string)
    ensures AllHex(a + b) <==> AllHex(a) && AllHex(b)
  {
    var t := a + b;
    assert forall i :: 0 <= i < |a| ==> t[i] == a[i];
    assert forall i :: 0 <= i < |b| ==> t[|a| + i] == b[i];
  }

  /** Five groups of the right lengths and nothing but digits make a well-formed GUID. */
  lemma WellFormedSplit(s: string)
    requires |s| == 36 && GuidLengths(Split(s, '-', 5))
    ensures var p := Split(s, '-', 5);
            && Digits(s) == p[0] + p[1] + p[2] + p[3] + p[4]
            && (WellFormed(s) <==> AllHex(p[0]) && AllHex(p[1]) && AllHex(p[2]) && AllHex(p[3]) && AllHex(p[4]))
  {
    var p := Split(s, '-', 5);
    var t := p[0] + p[1] + p[2] + p[3] + p[4];
    JoinSplit(s, '-', 5);
    JoinFive(p);
    DashedParts(p[0], p[1], p[2], p[3], p[4]);
    DigitsOfDashed(t);
    WellFormedDigits(s);
    HexOfFive(p[0], p[1], p[2], p[3], p[4]);
  }

  lemma {:induction false} ValueBound(bs: seq<byte>)
    ensures |bs| == 1 ==> ValueBE(bs) <= 0xff
    ensures |bs| == 2 ==> ValueBE(bs) <= 0xffff
    ensures |bs| == 3 ==> ValueBE(bs) <= 0xff_ffff
    ensures |bs| == 4 ==> ValueBE(bs) <= 0xffff_ffff
  {
    if 1 < |bs| <= 4 { ValueBound(bs[..|bs| - 1]); }
  }

  lemma FieldValue(host: Endian, order: Endian, s: string, max: nat)
    requires AllHex(s) && ((|s| == 4 && max == 0xffff) || (|s| == 8 && max == 0xffff_ffff))
    ensures HexValue(s) <= max
    ensures Store(host, Swap(host, order, HexValue(s), |s| / 2), |s| / 2) == InOrder(order, Pairs(s))
  {
    var bs := Pairs(s);
    ValueIsPairs(s);
    ValueBound(bs);
    StoreInOrder(host, order, bs);
    assert HexValue(s) == ValueBE(bs) && |s| / 2 == |bs|;
  }

  lemma StoreInOrder(host: Endian, order: Endian, bs: seq<byte>)
    ensures Store(host, Swap(host, order, ValueBE(bs), |bs|), |bs|) == InOrder(order, bs)
  {
    StoreSwapped(host, order, bs);
  }

  /** A group of digits becomes an integer field of the struct. */
  method ParseField(host: Endian, order: Endian, s: string, max: nat) returns (field: Option<seq<byte>>)
    requires (|s| == 4 && max == 0xffff) || (|s| == 8 && max == 0xffff_ffff)
    ensures field.Some? <==> AllHex(s)
    ensures field.Some? ==> field.value == InOrder(order, Pairs(s))
  {
    if AllHex(s) { FieldValue(host, order, s, max); }
    var tmp := ToUnsigned(s, max);
    if tmp.None? {
      return None;
    }
    return Some(Store(host, Swap(host, order, tmp.value, |s| / 2), |s| / 2));
  }

  /** The loop over the last group, one byte at a time. */
  method ParseNode(s: string) returns (node: Option<seq<byte>>)
    requires |s| == 12
    ensures node.Some? <==> AllHex(s)
    ensures node.Some? ==> node.value == Pairs(s)
  {
    var e: seq<byte> := [];
    for i := 0 to 6
      invariant AllHex(s[..2 * i]) && e == Pairs(s[..2 * i])
    {
      var buffer := s[2 * i..2 * i + 2];
      assert buffer[0] == s[2 * i] && buffer[1] == s[2 * i + 1];
      var tmp := ToUnsigned(buffer, 0xff);
      if tmp.None? {
        TwoHex(buffer);
        return None;
      }
      TwoHex(buffer);
      PairsSnoc(s[..2 * i], buffer[0], buffer[1]);
      assert s[..2 * i + 2] == s[..2 * i] + [buffer[0], buffer[1]];
      e := e + [tmp.value as byte];
    }
    assert s[..12] == s;
    return Some(e);
  }

  lemma TwoHex(s: string)
    requires |s| == 2
    ensures AllHex(s) ==> HexValue(s) == PairByte(s[0], s[1]) as nat && HexValue(s) <= 0xff
  {
    if AllHex(s) { assert HexValue(s[..1]) == HexVal(s[0]); }
  }

  /** fwupd_guid_from_string() */
  method GuidFromString(host: Endian, s: CString, flags: Flags) returns (r: Result<Guid, Error>)
    ensures r == Parsed(s, flags)
  {
    if WellFormed(s) { SplitWellFormed(s); }
    if |s| != 36 {
      return Err(InvalidData);
    }
    var split := Split(s, '-', 5);
    if |split| != 5 {
      return Err(InvalidData);
    }
    if !GuidLengths(split) {
      return Err(InvalidData);
    }
    WellFormedSplit(s);
    var a := ParseField(host, OrderOf(flags), split[0], 0xffff_ffff);
    if a.None? { return Err(InvalidData); }
    var b := ParseField(host, OrderOf(flags), split[1], 0xffff);
    if b.None? { return Err(InvalidData); }
    var c := ParseField(host, OrderOf(flags), split[2], 0xffff);
    if c.None? { return Err(InvalidData); }
    var d := ParseField(host, Big, split[3], 0xffff);
    if d.None? { return Err(InvalidData); }
    var e := ParseNode(split[4]);
    if e.None? { return Err(InvalidData); }
    ParsedFields(s, flags);
    return Ok(a.value + b.value + c.value + d.value + e.value);
  }

  lemma PairsOfFive(a: string, b: string, c: string, d: string, e: string)
    requires AllHex(a) && AllHex(b) && AllHex(c) && AllHex(d) && AllHex(e)
    requires |a| % 2 == 0 && |b| % 2 == 0 && |c| % 2 == 0 && |d| % 2 == 0 && |e| % 2 == 0
    ensures AllHex(a + b + c + d + e) && Pairs(a + b + c + d + e) == Pairs(a) + Pairs(b) + Pairs(c) + Pairs(d) + Pairs(e)
  {
    PairsConcat(a, b);
    PairsConcat(a + b, c);
    PairsConcat(a + b + c, d);
    PairsConcat(a + b + c + d, e);
  }

  lemma OrderOfFive(flags: Flags, a: seq<byte>, b: seq<byte>, c: seq<byte>, d: seq<byte>, e: seq<byte>)
    requires |a| == 4 && |b| == 2 && |c| == 2 && |d| == 2 && |e| == 6
    ensures var order := OrderOf(flags);
            Order(flags.mixedEndian, a + b + c + d + e) == InOrder(order, a) + InOrder(order, b) + InOrder(order, c) + d + e
  {
    var g := a + b + c + d + e;
    assert g[..4] == a && g[4..6] == b && g[6..8] == c && g[8..10] == d && g[10..] == e;
    OrderFields(flags.mixedEndian, g);
  }

  lemma ParsedFields(s: string, flags: Flags)
    requires WellFormed(s) && GuidLengths(Split(s, '-', 5))
    requires var p := Split(s, '-', 5); AllHex(p[0]) && AllHex(p[1]) && AllHex(p[2]) && AllHex(p[3]) && AllHex(p[4])
    ensures var p, order := Split(s, '-', 5), OrderOf(flags);
            Parsed(s, flags) == Ok(InOrder(order, Pairs(p[0])) + InOrder(order, Pairs(p[1])) + InOrder(order, Pairs(p[2]))
                                   + Pairs(p[3]) + Pairs(p[4]))
  {
    var p := Split(s, '-', 5);
    WellFormedDigits(s);
    WellFormedSplit(s);
    PairsOfFive(p[0], p[1], p[2], p[3], p[4]);
    OrderOfFive(flags, Pairs(p[0]), Pairs(p[1]), Pairs(p[2]), Pairs(p[3]), Pairs(p[4]));
  }

  // ---------------------------------------------------------------- round trips

  /** Parsing the printed text with the same flags returns the bytes, whatever the two hosts. */
  lemma ParsePrint(host: Endian, g: Guid, flags: Flags)
    ensures Parsed(Print(host, g, flags), flags) == Ok(g)
  {
    PrintWellFormed(host, g, flags);
    PairsOfText(Order(flags.mixedEndian, g));
    OrderTwice(flags.mixedEndian, g);
  }

  /** Printing what was parsed gives the text in lower case. */
  lemma PrintParse(host: Endian, s: string, flags: Flags)
    requires Parsed(s, flags).Ok?
    ensures Print(host, Parsed(s, flags).value, flags) == Lower(s)
  {
    WellFormedDigits(s);
    var bs := Pairs(Digits(s));
    PrintMeaning(host, Parsed(s, flags).value, flags);
    OrderTwice(flags.mixedEndian, bs);
    TextOfPairs(Digits(s));
    LowerDashed(Digits(s));
  }

  lemma LowerDashed(t: string)
    requires |t| == 32
    ensures Dashed(Lower(t)) == Lower(Dashed(t))
  {
    LowerConcat(t[..8], "-");
    LowerConcat(t[..8] + "-", t[8..12]);
    LowerConcat(t[..8] + "-" + t[8..12], "-");
    LowerConcat(t[..8] + "-" + t[8..12] + "-", t[12..16]);
    LowerConcat(t[..8] + "-" + t[8..12] + "-" + t[12..16], "-");
    LowerConcat(t[..8] + "-" + t[8..12] + "-" + t[12..16] + "-", t[16..20]);
    LowerConcat(t[..8] + "-" + t[8..12] + "-" + t[12..16] + "-" + t[16..20], "-");
    LowerConcat(t[..8] + "-" + t[8..12] + "-" + t[12..16] + "-" + t[16..20] + "-", t[20..]);
    LowerSlice(t, 0, 8);
    LowerSlice(t, 8, 12);
    LowerSlice(t, 12, 16);
    LowerSlice(t, 16, 20);
    LowerSlice(t, 20, 32);
    assert Lower("-") == "-";
  }

  lemma LowerConcat(a: string, b: string)
    ensures Lower(a + b) == Lower(a) + Lower(b)
  {
  }

  lemma LowerSlice(t: string, i: nat, j: nat)
    requires i <= j <= |t|
    ensures Lower(t)[i..j] == Lower(t[i..j])
  {
  }

  /** Mixed-endian parsing accepts the same texts, and permutes the bytes of the plain parse. */
  lemma MixedIsPermuted(s: string, flags: Flags)
    ensures Parsed(s, flags).Ok? <==> Parsed(s, flags.(mixedEndian := false)).Ok?
    ensures Parsed(s, flags).Ok? ==>
      Parsed(s, flags).value == Order(flags.mixedEndian, Parsed(s, flags.(mixedEndian := false)).value)
  {
  }

  // ---------------------------------------------------------------- validation

  const ZeroGuid := "00000000-0000-0000-0000-000000000000"

  /** Reading a C string: the terminator follows the last character. */
  function At(s: CString, i: nat): char
    requires i <= |s|
  {
    if i < |s| then s[i] else '\0'
  }

  /** fwupd_guid_is_valid() */
  method GuidIsValid(guid: Option<CString>) returns (valid: bool)
    ensures valid <==> guid.Some? && WellFormed(guid.value) && guid.value != ZeroGuid
  {
    if guid.None? {
      return false;
    }
    var s := guid.value;
    var i := 0;
    while i < 36
      invariant 0 <= i <= 36 && i <= |s|
      invariant forall j :: 0 <= j < i ==> if DashAt(j) then s[j] == '-' else IsHex(s[j])
    {
      if At(s, i) == '\0' {
        return false;
      }
      if ZeroGuid[i] == '-' {
        if At(s, i) != '-' {
          return false;
        }
        i := i + 1;
        continue;
      }
      if !IsHex(At(s, i)) {
        return false;
      }
      i := i + 1;
    }
    if At(s, 36) != '\0' {
      return false;
    }
    return s != ZeroGuid;
  }

  ghost predicate Zeros(bs: seq<byte>) {
    forall k :: 0 <= k < |bs| ==> bs[k] == 0
  }

  ghost predicate ZeroText(t: string) {
    forall i :: 0 <= i < |t| ==> t[i] == '0'
  }

  lemma ZeroDigits(t: string)
    requires AllHex(t) && |t| % 2 == 0
    ensures ZeroText(t) <==> Zeros(Pairs(t))
  {
    var q := Pairs(t);
    assert forall k :: 0 <= k < |q| ==> (q[k] == 0 <==> t[2 * k] == '0' && t[2 * k + 1] == '0');
    if Zeros(q) {
      forall i | 0 <= i < |t|
        ensures t[i] == '0'
      {
        assert q[i / 2] == 0;
      }
    }
  }

  lemma ZeroOrder(mixed: bool, bs: seq<byte>)
    requires |bs| == 16
    ensures Zeros(Order(mixed, bs)) <==> Zeros(bs)
  {
    OrderTwice(mixed, bs);
    ZeroForward(mixed, bs);
    ZeroForward(mixed, Order(mixed, bs));
  }

  lemma ZeroForward(mixed: bool, bs: seq<byte>)
    requires |bs| == 16
    ensures Zeros(bs) ==> Zeros(Order(mixed, bs))
  {
  }

  lemma ZeroGuidAt(i: nat)
    requires i < 36
    ensures ZeroGuid[i] == if DashAt(i) then '-' else '0'
  {
  }

  lemma ZeroGuidFacts()
    ensures WellFormed(ZeroGuid) && ZeroText(Digits(ZeroGuid))
  {
    forall i: nat | i < 36
      ensures ZeroGuid[i] == if DashAt(i) then '-' else '0'
    {
      ZeroGuidAt(i);
    }
    var t := Digits(ZeroGuid);
    forall i | 0 <= i < 32
      ensures t[i] == '0'
    {
      var dashes := if i < 8 then 0 else if i < 12 then 1 else if i < 16 then 2 else if i < 20 then 3 else 4;
      assert t[i] == ZeroGuid[i + dashes];
    }
  }

  lemma ZeroGuidDigits(s: string)
    requires WellFormed(s)
    ensures s == ZeroGuid <==> ZeroText(Digits(s))
  {
    ZeroGuidFacts();
    WellFormedDigits(s);
    WellFormedDigits(ZeroGuid);
    if ZeroText(Digits(s)) { assert Digits(s) == Digits(ZeroGuid); }
  }

  /** The scanner and the parser agree: a GUID is valid exactly when it parses, under any flags, to
      bytes that are not all zero. */
  lemma ValidIffParses(s: string, flags: Flags)
    ensures WellFormed(s) && s != ZeroGuid <==> Parsed(s, flags).Ok? && !Zeros(Parsed(s, flags).value)
  {
    if WellFormed(s) {
      WellFormedDigits(s);
      ZeroGuidDigits(s);
      ZeroDigits(Digits(s));
      ZeroOrder(flags.mixedEndian, Pairs(Digits(s)));
    }
  }

  // ---------------------------------------------------------------- version 5 GUIDs

  const NamespaceDefault: Guid :=
    [0x6b, 0xa7, 0xb8, 0x10, 0x9d, 0xad, 0x11, 0xd1, 0x80, 0xb4, 0x00, 0xc0, 0x4f, 0xd4, 0x30, 0xc8]

  const NamespaceMicrosoft: Guid :=
    [0x70, 0xff, 0xd8, 0x12, 0x4c, 0x7f, 0x4c, 0x7d, 0, 0, 0, 0, 0, 0, 0, 0]

  function Namespace(flags: Flags): Guid {
    if flags.namespaceMicrosoft then NamespaceMicrosoft else NamespaceDefault
  }

  /** The default namespace is the one of appendix C of RFC 4122 for domain names. */
  lemma NamespaceTexts(host: Endian, mixed: bool)
    ensures Print(host, Namespace(Flags(mixed, false)), Flags(false, false))
         == "6ba7b810" + "-" + "9dad" + "-" + "11d1" + "-" + "80b4" + "-" + ("00c04f" + "d430c8")
    ensures Print(host, Namespace(Flags(mixed, true)), Flags(false, false))
         == "70ffd812" + "-" + "4c7f" + "-" + "4c7d" + "-" + "0000" + "-" + ("000000" + "000000")
  {
    DefaultWords();
    MicrosoftWords();
    PrintOfWords(host, NamespaceDefault);
    PrintOfWords(host, NamespaceMicrosoft);
  }

  ghost function Word(a: byte, b: byte): string {
    ByteText(a) + ByteText(b)
  }

  ghost function Word3(a: byte, b: byte, c: byte): string {
    Word(a, b) + ByteText(c)
  }

  lemma WordText(a: byte, b: byte)
    ensures Text([a, b]) == Word(a, b)
  {
    TextSnoc([], a);
    TextSnoc([a], b);
    assert [] + [a] == [a] && [a] + [b] == [a, b] && Text([]) + ByteText(a) == ByteText(a);
  }

  lemma Word3Text(a: byte, b: byte, c: byte)
    ensures Text([a, b, c]) == Word3(a, b, c)
  {
    WordText(a, b);
    TextSnoc([a, b], c);
    assert [a, b] + [c] == [a, b, c];
  }

  lemma PrintOfWords(host: Endian, g: Guid)
    ensures Print(host, g, Flags(false, false))
         == (Word3(g[0], g[1], g[2]) + ByteText(g[3])) + "-" + Word(g[4], g[5]) + "-" + Word(g[6], g[7]) + "-" + Word(g[8], g[9])
            + "-" + (Word3(g[10], g[11], g[12]) + Word3(g[13], g[14], g[15]))
  {
    PrintMeaning(host, g, Flags(false, false));
    assert Order(false, g) == g;
    var (a, e) := ([g[0], g[1], g[2]] + [g[3]], [g[10], g[11], g[12]] + [g[13], g[14], g[15]]);
    LongWords(g);
    WordText(g[4], g[5]);
    WordText(g[6], g[7]);
    WordText(g[8], g[9]);
    GroupsOf(g);
    TextOfFive(a, [g[4], g[5]], [g[6], g[7]], [g[8], g[9]], e);
    DashedParts(Text(a), Text([g[4], g[5]]), Text([g[6], g[7]]), Text([g[8], g[9]]), Text(e));
  }

  lemma GroupsOf(g: Guid)
    ensures g == ([g[0], g[1], g[2]] + [g[3]]) + [g[4], g[5]] + [g[6], g[7]] + [g[8], g[9]]
                 + ([g[10], g[11], g[12]] + [g[13], g[14], g[15]])
  {
  }

  lemma LongWords(g: Guid)
    ensures Text([g[0], g[1], g[2]] + [g[3]]) == Word3(g[0], g[1], g[2]) + ByteText(g[3])
    ensures Text([g[10], g[11], g[12]] + [g[13], g[14], g[15]]) == Word3(g[10], g[11], g[12]) + Word3(g[13], g[14], g[15])
  {
    Word3Text(g[0], g[1], g[2]);
    TextSnoc([g[0], g[1], g[2]], g[3]);
    Word3Text(g[10], g[11], g[12]);
    Word3Text(g[13], g[14], g[15]);
    TextConcat([g[10], g[11], g[12]], [g[13], g[14], g[15]]);
  }

  lemma DefaultWords()
    ensures Word3(0x6b, 0xa7, 0xb8) + ByteText(0x10) == "6ba7b810"
    ensures Word(0x9d, 0xad) == "9dad" && Word(0x11, 0xd1) == "11d1" && Word(0x80, 0xb4) == "80b4"
    ensures Word3(0x00, 0xc0, 0x4f) == "00c04f" && Word3(0xd4, 0x30, 0xc8) == "d430c8"
  {
  }

  lemma MicrosoftWords()
    ensures Word3(0x70, 0xff, 0xd8) + ByteText(0x12) == "70ffd812"
    ensures Word(0x4c, 0x7f) == "4c7f" && Word(0x4c, 0x7d) == "4c7d" && Word(0, 0) == "0000"
    ensures Word3(0, 0, 0) == "000000"
  {
  }

  /** Version and variant as sections 4.1.3 and 4.1.1 of RFC 4122 place them. */
  ghost predicate IsVersion5(g: Guid) {
    g[6] / 16 == 5 && g[8] / 64 == 2
  }

  /** `g` is the start of the digest, except for the version and variant bits. */
  ghost predicate FromDigest(g: Guid, digest: Sha1Digest) {
    && (forall i :: 0 <= i < 16 && i != 6 && i != 8 ==> g[i] == digest[i])
    && g[6] % 16 == digest[6] % 16 && g[8] % 64 == digest[8] % 64
  }

  /** fwupd_guid_hash_data(): SHA-1 of the namespace and the data, edited in place and printed.
      Without data there is no GUID. */
  method GuidHashData(host: Endian, sha1: seq<byte> -> Sha1Digest, data: seq<byte>, flags: Flags)
    returns (r: Option<string>)
    ensures r.None? <==> data == []
    ensures r.Some? ==>
      && WellFormed(r.value) && r.value != ZeroGuid
      && Parsed(r.value, flags).Ok? && IsVersion5(Parsed(r.value, flags).value)
      && FromDigest(Parsed(r.value, flags).value, sha1(Namespace(flags) + data))
  {
    if data == [] {
      return None;
    }
    var hash := sha1(Namespace(flags) + data);
    var uu := new byte[16](i requires 0 <= i < 16 => hash[i]);
    // keep the low bits and set the high ones
    uu[6] := uu[6] % 16 + 0x50;
    uu[8] := uu[8] % 64 + 0x80;
    var g: Guid := uu[..];
    HashText(host, g, flags);
    return Some(Print(host, g, flags));
  }

  lemma HashText(host: Endian, g: Guid, flags: Flags)
    requires IsVersion5(g)
    ensures var s := Print(host, g, flags); WellFormed(s) && s != ZeroGuid && Parsed(s, flags) == Ok(g)
  {
    var s := Print(host, g, flags);
    ParsePrint(host, g, flags);
    ValidIffParses(s, flags);
    assert g[6] != 0;
  }

  /** Where section 3 of RFC 4122 puts the version digit of the text, only the plain encoding shows a
      5: the mixed-endian text shows the high digit of byte 7 there. */
  lemma VersionDigit(host: Endian, g: Guid, flags: Flags)
    requires IsVersion5(g)
    ensures |Print(host, g, flags)| == 36
    ensures Print(host, g, flags)[14] == '5' <==> !flags.mixedEndian || g[7] / 16 == 5
  {
    var o := Order(flags.mixedEndian, g);
    PrintWellFormed(host, g, flags);
    assert Print(host, g, flags)[14] == Digits(Print(host, g, flags))[12];
    TextAt(o, 6);
    assert o[6] == if flags.mixedEndian then g[7] else g[6];
  }

  lemma {:induction false} TextAt(bs: seq<byte>, k: nat)
    requires k < |bs|
    ensures Text(bs)[2 * k] == HexChar(bs[k] as nat / 16)
  {
    if k < |bs| - 1 {
      TextAt(bs[..|bs| - 1], k);
    }
  }
}
