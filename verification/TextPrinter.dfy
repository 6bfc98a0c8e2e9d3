/** The column-aligned printer: a key, padding, and a value whose further lines are indented. */
module TextPrinter {
  import opened Wrappers

  const Align := 24

  const Newline := '\n'

  /** Display widths: 2 for wide characters, 0 for zero-width ones, 1 for the rest. */
  datatype Unicode = Unicode(isWide: char -> bool, isZeroWidth: char -> bool)

  function CharWidth(u: Unicode, c: char): nat {
    if u.isWide(c) then 2 else if u.isZeroWidth(c) then 0 else 1
  }

  ghost function Width(u: Unicode, text: string): nat {
    if text == "" then 0 else Width(u, text[..|text| - 1]) + CharWidth(u, text[|text| - 1])
  }

  /** _fu_strwidth() */
  method StrWidth(u: Unicode, text: string) returns (width: nat)
    ensures width == Width(u, text)
  {
    width := 0;
    for i := 0 to |text|
      invariant width == Width(u, text[..i])
    {
      assert text[..i + 1][..i] == text[..i];
      var c := text[i];
      if u.isWide(c) {
        width := width + 2;
      } else if !u.isZeroWidth(c) {
        width := width + 1;
      }
    }
    assert text[..|text|] == text;
  }

  // ---------------------------------------------------------------- lines

  function LineEnd(s: string): (i: nat)
    ensures i <= |s| && (i < |s| ==> s[i] == Newline) && forall j :: 0 <= j < i ==> s[j] != Newline
  {
    if s == "" || s[0] == Newline then 0 else LineEnd(s[1..]) + 1
  }

  function Lines(s: string): (ls: seq<string>)
    ensures ls != []
  {
    var i := LineEnd(s);
    if i == |s| then [s] else [s[..i]] + Lines(s[i + 1..])
  }

  /** g_strsplit(value, "\n", -1): the empty string has no pieces. */
  function Split(s: string): seq<string> {
    if s == "" then [] else Lines(s)
  }

  function Spaces(n: nat): (s: string)
    ensures |s| == n && forall i :: 0 <= i < n ==> s[i] == ' '
  {
    seq(n, i => ' ')
  }

  // ---------------------------------------------------------------- what is printed

  /** Everything before the value. */
  ghost function Head(idt: nat, key: string): string {
    Spaces(2 * idt) + if key != "" then key + ":" else ""
  }

  ghost function HeadWidth(u: Unicode, idt: nat, key: string): nat {
    2 * idt + if key != "" then Width(u, key) + 1 else 0
  }

  /** One space, and more up to the alignment column. */
  ghost function Padding(headWidth: nat): string {
    Spaces(if headWidth + 1 < Align then Align - headWidth else 1)
  }

  /** The lines of a value, each but the first on a new line behind the indent. */
  ghost function Body(idt: nat, lines: seq<string>): string
    requires lines != []
  {
    if |lines| == 1 then lines[0]
    else Body(idt, lines[..|lines| - 1]) + [Newline] + Spaces(2 * idt) + lines[|lines| - 1]
  }

  ghost function Rendered(u: Unicode, idt: nat, key: string, value: Option<string>): string {
    if 2 * idt >= Align || value.None? then ""
    else if value.value == "" then Head(idt, key) + [Newline]
    else Head(idt, key) + Padding(HeadWidth(u, idt, key)) + Body(idt, Lines(value.value)) + [Newline]
  }

  // ---------------------------------------------------------------- the printer

  class GString {
    var str: string

    constructor ()
      ensures str == ""
    {
      str := "";
    }

    method Append(s: string)
      modifies this
      ensures str == old(str) + s
    {
      str := str + s;
    }

    method AppendTwoSpaces(n: nat)
      modifies this
      ensures str == old(str) + Spaces(2 * n)
    {
      for i := 0 to n
        invariant str == old(str) + Spaces(2 * i)
      {
        Append("  ");
        assert Spaces(2 * i) + "  " == Spaces(2 * (i + 1));
      }
    }

    method AppendPadding(keysz: nat)
      modifies this
      ensures str == old(str) + Padding(keysz)
    {
      Append(" ");
      var j := keysz + 1;
      while j < Align
        invariant keysz + 1 <= j && (j <= Align || j == keysz + 1)
        invariant str == old(str) + Spaces(j - keysz)
      {
        Append(" ");
        assert Spaces(j - keysz) + " " == Spaces(j + 1 - keysz);
        j := j + 1;
      }
    }

    method AppendValue(idt: nat, keysz: nat, value: string)
      modifies this
      ensures str == old(str) + if value == "" then "" else Padding(keysz) + Body(idt, Lines(value))
    {
      var split := Split(value);
      for i := 0 to |split|
        invariant str == old(str) + if i == 0 then "" else Padding(keysz) + Body(idt, split[..i])
      {
        assert split[..i + 1][..i] == split[..i];
        if i == 0 {
          AppendPadding(keysz);
        } else {
          Grown(old(str), Padding(keysz), Body(idt, split[..i]), Spaces(2 * idt), split[i]);
          Append([Newline]);
          AppendTwoSpaces(idt);
        }
        Append(split[i]);
      }
      assert split[..|split|] == split;
    }

    method AppendHead(u: Unicode, idt: nat, key: string) returns (keysz: nat)
      modifies this
      ensures str == old(str) + Head(idt, key) && keysz == HeadWidth(u, idt, key)
    {
      AppendTwoSpaces(idt);
      keysz := idt * 2;
      if key != "" {
        Append(key + ":");
        var w := StrWidth(u, key);
        keysz := keysz + w + 1;
      }
    }

    /** fwupd_codec_string_append() */
    method StringAppend(u: Unicode, idt: nat, key: string, value: Option<string>)
      modifies this
      ensures str == old(str) + Rendered(u, idt, key, value)
    {
      if idt * 2 >= Align {
        return;
      }
      if value.None? {
        return;
      }
      var keysz := AppendHead(u, idt, key);
      AppendValue(idt, keysz, value.value);
      Append([Newline]);
      if value.value != "" {
        Joined(old(str), Head(idt, key), Padding(keysz), Body(idt, Lines(value.value)));
      }
    }
  }

  // ---------------------------------------------------------------- reading it back

  /** Undoes the indent of the further lines. */
  ghost function Unindent(idt: nat, s: string): string
    decreases |s|
  {
    var i := LineEnd(s);
    if i + 1 + 2 * idt > |s| then s else s[..i] + [Newline] + Unindent(idt, s[i + 1 + 2 * idt..])
  }

  /** The value behind a printed text with a known indent and key. */
  ghost function ReadBack(u: Unicode, idt: nat, key: string, text: string): Option<string> {
    var start := |Head(idt, key)|;
    var pad := |Padding(HeadWidth(u, idt, key))|;
    if text == "" then None
    else if |text| <= start + pad then Some("")
    else Some(Unindent(idt, text[start + pad..|text| - 1]))
  }

  lemma {:induction false} BodyCons(idt: nat, a: string, lines: seq<string>)
    requires lines != []
    ensures Body(idt, [a] + lines) == a + [Newline] + Spaces(2 * idt) + Body(idt, lines)
    decreases |lines|
  {
    var n := |lines| - 1;
    assert ([a] + lines)[..n + 1] == [a] + lines[..n];
    if n > 0 { BodyCons(idt, a, lines[..n]); } else { assert [a] + lines[..n] == [a]; }
  }

  lemma LineEndAt(a: string, t: string)
    requires Newline !in a
    ensures LineEnd(a + [Newline] + t) == |a|
  {
    var s := a + [Newline] + t;
    var i := LineEnd(s);
    assert s[|a|] == Newline;
    assert forall j :: 0 <= j < |a| ==> s[j] == a[j];
  }

  lemma LinesSingle(s: string)
    requires Newline !in s
    ensures Lines(s) == [s]
  {
    var i := LineEnd(s);
  }

  lemma LinesAt(a: string, t: string)
    requires Newline !in a
    ensures Lines(a + [Newline] + t) == [a] + Lines(t)
  {
    var s := a + [Newline] + t;
    LineEndAt(a, t);
    assert s[..|a|] == a && s[|a| + 1..] == t;
  }

  /** A text is a single line, or a line and the rest. */
  lemma Break(s: string) returns (a: string, rest: string)
    requires Newline in s
    ensures Newline !in a && s == a + [Newline] + rest
  {
    var i := LineEnd(s);
    a, rest := s[..i], s[i + 1..];
  }

  lemma UnindentSingle(idt: nat, s: string)
    requires Newline !in s
    ensures Unindent(idt, s) == s
  {
    var i := LineEnd(s);
  }

  lemma LineEndIs(s: string, n: nat)
    requires n < |s| && s[n] == Newline && forall j :: 0 <= j < n ==> s[j] != Newline
    ensures LineEnd(s) == n
  {
  }

  lemma UnindentAt(idt: nat, s: string, n: nat)
    requires n < |s| && s[n] == Newline && n + 1 + 2 * idt <= |s| && forall j :: 0 <= j < n ==> s[j] != Newline
    ensures Unindent(idt, s) == s[..n] + [Newline] + Unindent(idt, s[n + 1 + 2 * idt..])
  {
    LineEndIs(s, n);
  }

  lemma HeadFacts(a: string, sp: string, t: string)
    requires Newline !in a
    ensures var s := a + [Newline] + sp + t;
            && s[|a|] == Newline && s[..|a|] == a && s[|a| + 1 + |sp|..] == t
            && forall j :: 0 <= j < |a| ==> s[j] != Newline
  {
    var s := a + [Newline] + sp + t;
    assert forall j :: 0 <= j < |a| ==> s[j] == a[j];
  }

  lemma {:induction false} UnindentBody(idt: nat, value: string)
    ensures Unindent(idt, Body(idt, Lines(value))) == value
    decreases |value|
  {
    if Newline in value {
      var a, rest := Break(value);
      var tail := Body(idt, Lines(rest));
      LinesAt(a, rest);
      UnindentBody(idt, rest);
      BodyCons(idt, a, Lines(rest));
      HeadFacts(a, Spaces(2 * idt), tail);
      UnindentAt(idt, a + [Newline] + Spaces(2 * idt) + tail, |a|);
    } else {
      LinesSingle(value);
      UnindentSingle(idt, value);
    }
  }

  /** For every indent below 12, key and value, the value can be read back from the printed text. */
  lemma ReadBackRendered(u: Unicode, idt: nat, key: string, value: Option<string>)
    requires 2 * idt < Align
    ensures ReadBack(u, idt, key, Rendered(u, idt, key, value)) == value
  {
    if value.Some? && value.value != "" {
      var head, pad, body := Head(idt, key), Padding(HeadWidth(u, idt, key)), Body(idt, Lines(value.value));
      var text := head + pad + body + [Newline];
      assert text[|head| + |pad|..|text| - 1] == body;
      UnindentBody(idt, value.value);
    }
  }

  /** So the printed text determines the value: even a missing, an empty and a blank one differ. */
  lemma TextDeterminesValue(u: Unicode, idt: nat, key: string, value: Option<string>, value': Option<string>)
    requires 2 * idt < Align && Rendered(u, idt, key, value) == Rendered(u, idt, key, value')
    ensures value == value'
  {
    ReadBackRendered(u, idt, key, value);
    ReadBackRendered(u, idt, key, value');
  }

  // ---------------------------------------------------------------- columns

  /** Blanks and colons are one column wide. */
  ghost predicate PlainBlanks(u: Unicode) {
    CharWidth(u, ' ') == 1 && CharWidth(u, ':') == 1
  }

  lemma {:induction false} WidthConcat(u: Unicode, a: string, b: string)
    ensures Width(u, a + b) == Width(u, a) + Width(u, b)
    decreases |b|
  {
    if b == "" {
      assert a + b == a;
    } else {
      assert (a + b)[..|a + b| - 1] == a + b[..|b| - 1];
      WidthConcat(u, a, b[..|b| - 1]);
    }
  }

  lemma {:induction false} WidthSpaces(u: Unicode, n: nat)
    requires PlainBlanks(u)
    ensures Width(u, Spaces(n)) == n
  {
    if n > 0 {
      WidthSpaces(u, n - 1);
      assert Spaces(n)[..n - 1] == Spaces(n - 1);
    }
  }

  lemma WidthHead(u: Unicode, idt: nat, key: string)
    requires PlainBlanks(u)
    ensures Width(u, Head(idt, key)) == HeadWidth(u, idt, key)
  {
    WidthSpaces(u, 2 * idt);
    if key != "" {
      WidthConcat(u, Spaces(2 * idt), key + ":");
      WidthConcat(u, key, ":");
      assert Width(u, ":") == Width(u, "") + 1;
    } else {
      assert Head(idt, key) == Spaces(2 * idt);
    }
  }

  /** A value starts in column 24, or one blank behind a key that reaches further: with a key, at
      max(24, 2 * indent + width(key) + 2). */
  lemma ValueColumn(u: Unicode, idt: nat, key: string, value: string)
    requires PlainBlanks(u) && idt < 12 && value != ""
    ensures var before := Head(idt, key) + Padding(HeadWidth(u, idt, key));
            var column := 2 * idt + if key != "" then Width(u, key) + 2 else 1;
            && before + Lines(value)[0] <= Rendered(u, idt, key, Some(value))
            && Width(u, before) == if column < 24 then 24 else column
  {
    var w := HeadWidth(u, idt, key);
    WidthHead(u, idt, key);
    WidthConcat(u, Head(idt, key), Padding(w));
    WidthSpaces(u, |Padding(w)|);
    assert Padding(w) == Spaces(|Padding(w)|);
    FirstLine(idt, Lines(value));
  }

  lemma {:induction false} FirstLine(idt: nat, lines: seq<string>)
    requires lines != []
    ensures lines[0] <= Body(idt, lines)
    decreases |lines|
  {
    if |lines| > 1 { FirstLine(idt, lines[..|lines| - 1]); }
  }

  // ---------------------------------------------------------------- several values

  lemma {:induction false} LinesConcat(v: string, w: string)
    ensures Lines(v + [Newline] + w) == Lines(v) + Lines(w)
    decreases |v|
  {
    if Newline in v {
      var a, rest := Break(v);
      LinesConcat(rest, w);
      LinesAt(a, rest);
      LinesAt(a, rest + [Newline] + w);
      Assoc(a + [Newline], rest, [Newline], w);
    } else {
      LinesSingle(v);
      LinesAt(v, w);
    }
  }

  lemma {:induction false} BodyConcat(idt: nat, a: seq<string>, b: seq<string>)
    requires a != [] && b != []
    ensures Body(idt, a + b) == Body(idt, a) + [Newline] + Spaces(2 * idt) + Body(idt, b)
    decreases |b|
  {
    var n := |b| - 1;
    assert (a + b)[..|a| + n] == a + b[..n];
    if n > 0 { BodyConcat(idt, a, b[..n]); } else { assert a + b[..n] == a; }
  }

  lemma Assoc(a: string, b: string, c: string, d: string)
    ensures a + (b + c + d) == a + b + c + d
  {
  }

  lemma Grown(text: string, pad: string, body: string, sp: string, line: string)
    ensures text + (pad + body) + [Newline] + sp + line == text + (pad + (body + [Newline] + sp + line))
  {
  }

  lemma Joined(text: string, head: string, pad: string, body: string)
    ensures text + head + (pad + body) + [Newline] == text + (head + pad + body + [Newline])
  {
  }

  lemma Join3(a: string, sp: string, t: string)
    ensures a + [Newline] + sp + t == a + ([Newline] + sp) + t == a + [Newline] + (sp + t)
  {
  }

  /** Text without a newline in front of a value joins its first line. */
  lemma LeadingText(idt: nat, lead: string, value: string)
    requires Newline !in lead
    ensures Body(idt, Lines(lead + value)) == lead + Body(idt, Lines(value))
  {
    if Newline in value {
      var a, rest := Break(value);
      LinesAt(a, rest);
      LinesAt(lead + a, rest);
      Assoc(lead, a, [Newline], rest);
      BodyCons(idt, lead + a, Lines(rest));
      BodyCons(idt, a, Lines(rest));
      Assoc(lead, a, [Newline] + Spaces(2 * idt), Body(idt, Lines(rest)));
      Join3(a, Spaces(2 * idt), Body(idt, Lines(rest)));
      Join3(lead + a, Spaces(2 * idt), Body(idt, Lines(rest)));
    } else {
      LinesSingle(value);
      LinesSingle(lead + value);
    }
  }

  /** What stands between the indent and the value. */
  ghost function Lead(u: Unicode, idt: nat, key: string): string {
    (if key != "" then key + ":" else "") + Padding(HeadWidth(u, idt, key))
  }

  /** A value may hold lines that look like another entry: what two appends print can also be printed
      by one. */
  lemma ContinuationLooksLikeEntry(u: Unicode, idt: nat, key: string, value: string, key': string, value': string)
    requires 2 * idt < Align && value != "" && value' != "" && Newline !in key'
    ensures Rendered(u, idt, key, Some(value + [Newline] + (Lead(u, idt, key') + value')))
         == Rendered(u, idt, key, Some(value)) + Rendered(u, idt, key', Some(value'))
  {
    var lead := Lead(u, idt, key');
    var before := Head(idt, key) + Padding(HeadWidth(u, idt, key));
    var x, y := Body(idt, Lines(value)), Body(idt, Lines(value'));
    LinesConcat(value, lead + value');
    BodyConcat(idt, Lines(value), Lines(lead + value'));
    LeadingText(idt, lead, value');
    assert Head(idt, key') + Padding(HeadWidth(u, idt, key')) == Spaces(2 * idt) + lead;
    Regroup(before, x, Spaces(2 * idt), lead, y);
  }

  lemma Regroup(a: string, x: string, sp: string, lead: string, y: string)
    ensures a + (x + [Newline] + sp + (lead + y)) + [Newline] == (a + x + [Newline]) + (sp + lead + y + [Newline])
  {
  }

  // ---------------------------------------------------------------- whole listings

  type Entries = seq<(string, string)>

  /** What appending several values under known keys prints. */
  ghost function Listing(u: Unicode, idt: nat, entries: Entries): string {
    if entries == [] then ""
    else Rendered(u, idt, entries[0].0, Some(entries[0].1)) + Listing(u, idt, entries[1..])
  }

  ghost predicate SameKeys(a: Entries, b: Entries) {
    |a| == |b| && forall i :: 0 <= i < |a| ==> a[i].0 == b[i].0
  }

  ghost predicate SingleLines(a: Entries) {
    forall i :: 0 <= i < |a| ==> Newline !in a[i].1
  }

  lemma ListingTwo(u: Unicode, idt: nat, e: (string, string), f: (string, string), rest: Entries)
    ensures Listing(u, idt, [e, f] + rest)
         == (Rendered(u, idt, e.0, Some(e.1)) + Rendered(u, idt, f.0, Some(f.1))) + Listing(u, idt, rest)
  {
    var all := [e, f] + rest;
    assert all[1..] == [f] + rest && all[1..][1..] == rest;
    AssocThree(Rendered(u, idt, e.0, Some(e.1)), Rendered(u, idt, f.0, Some(f.1)), Listing(u, idt, rest));
  }

  lemma AssocThree(a: string, b: string, c: string)
    ensures a + (b + c) == (a + b) + c
  {
  }

  /** A line of the first value and a line of the second can change sides. */
  lemma PairPrintsAlike(u: Unicode, idt: nat, k: string, k': string, x: string, y: string, z: string)
    requires 2 * idt < Align && x != "" && y != "" && z != "" && Newline !in k'
    ensures var lead := Lead(u, idt, k');
            Rendered(u, idt, k, Some(x + [Newline] + (lead + y))) + Rendered(u, idt, k', Some(z))
              == Rendered(u, idt, k, Some(x)) + Rendered(u, idt, k', Some(y + [Newline] + (lead + z)))
  {
    ContinuationLooksLikeEntry(u, idt, k, x, k', y);
    ContinuationLooksLikeEntry(u, idt, k', y, k', z);
    AssocThree(Rendered(u, idt, k, Some(x)), Rendered(u, idt, k', Some(y)), Rendered(u, idt, k', Some(z)));
  }

  /** With two keys and any further entries there are always two listings that print alike. */
  lemma SameKeysPrintAlike(u: Unicode, idt: nat, k: string, k': string, x: string, y: string, z: string, rest: Entries)
    requires 2 * idt < Align && x != "" && y != "" && z != "" && Newline !in k'
    ensures var (first, second) := (x + [Newline] + (Lead(u, idt, k') + y), y + [Newline] + (Lead(u, idt, k') + z));
            first != x && Listing(u, idt, [(k, first), (k', z)] + rest) == Listing(u, idt, [(k, x), (k', second)] + rest)
  {
    var (first, second) := (x + [Newline] + (Lead(u, idt, k') + y), y + [Newline] + (Lead(u, idt, k') + z));
    assert |first| > |x|;
    PairPrintsAlike(u, idt, k, k', x, y, z);
    ListingTwo(u, idt, (k, first), (k', z), rest);
    ListingTwo(u, idt, (k, x), (k', second), rest);
  }

  ghost predicate HasKeys(a: Entries, keys: seq<string>) {
    |a| == |keys| && forall i :: 0 <= i < |a| ==> a[i].0 == keys[i]
  }

  /** The printed text tells apart any two lists of values under these keys. */
  ghost predicate Determined(u: Unicode, idt: nat, keys: seq<string>) {
    forall a, b :: HasKeys(a, keys) && HasKeys(b, keys) && Listing(u, idt, a) == Listing(u, idt, b) ==> a == b
  }

  /** Arbitrary values are determined by the listing if and only if there is at most one key. */
  lemma DeterminedIff(u: Unicode, idt: nat, keys: seq<string>)
    requires 2 * idt < Align && forall i :: 0 <= i < |keys| ==> Newline !in keys[i]
    ensures Determined(u, idt, keys) <==> |keys| <= 1
  {
    if |keys| <= 1 {
      forall a, b | HasKeys(a, keys) && HasKeys(b, keys) && Listing(u, idt, a) == Listing(u, idt, b) ensures a == b {
        if |keys| == 1 { OneKeyDetermined(u, idt, a, b); }
      }
    } else {
      TwoKeysAmbiguous(u, idt, keys);
    }
  }

  lemma TwoKeysAmbiguous(u: Unicode, idt: nat, keys: seq<string>)
    requires 2 * idt < Align && |keys| > 1 && Newline !in keys[1]
    ensures !Determined(u, idt, keys)
  {
    AmbiguousBefore(u, idt, keys, "x", Blank(keys[2..]));
  }

  /** The keys with empty values. */
  ghost function Blank(keys: seq<string>): (a: Entries)
    ensures HasKeys(a, keys)
  {
    seq(|keys|, i requires 0 <= i < |keys| => (keys[i], ""))
  }

  lemma AmbiguousBefore(u: Unicode, idt: nat, keys: seq<string>, x: string, rest: Entries)
    requires 2 * idt < Align && |keys| > 1 && Newline !in keys[1] && x != "" && HasKeys(rest, keys[2..])
    ensures !Determined(u, idt, keys)
  {
    var more := x + [Newline] + (Lead(u, idt, keys[1]) + x);
    SameKeysPrintAlike(u, idt, keys[0], keys[1], x, x, x, rest);
    PrintAlike(u, idt, keys, (more, x), (x, more), rest);
  }

  lemma PrintAlike(u: Unicode, idt: nat, keys: seq<string>, v: (string, string), w: (string, string), rest: Entries)
    requires |keys| == |rest| + 2 && (forall i :: 0 <= i < |rest| ==> rest[i].0 == keys[i + 2]) && v.0 != w.0
    requires Listing(u, idt, [(keys[0], v.0), (keys[1], v.1)] + rest) == Listing(u, idt, [(keys[0], w.0), (keys[1], w.1)] + rest)
    ensures !Determined(u, idt, keys)
  {
    var (a, b) := ([(keys[0], v.0), (keys[1], v.1)] + rest, [(keys[0], w.0), (keys[1], w.1)] + rest);
    WithKeys(keys, v.0, v.1, rest);
    WithKeys(keys, w.0, w.1, rest);
    assert a[0] != b[0];
  }

  lemma WithKeys(keys: seq<string>, v: string, w: string, rest: Entries)
    requires |keys| == |rest| + 2 && forall i :: 0 <= i < |rest| ==> rest[i].0 == keys[i + 2]
    ensures HasKeys([(keys[0], v), (keys[1], w)] + rest, keys)
  {
  }

  lemma OneKeyDetermined(u: Unicode, idt: nat, a: Entries, b: Entries)
    requires 2 * idt < Align && SameKeys(a, b) && |a| == 1 && Listing(u, idt, a) == Listing(u, idt, b)
    ensures a == b
  {
    ListingOne(u, idt, a);
    ListingOne(u, idt, b);
    TextDeterminesValue(u, idt, a[0].0, Some(a[0].1), Some(b[0].1));
    assert a == [a[0]] && b == [b[0]];
  }

  lemma ListingOne(u: Unicode, idt: nat, a: Entries)
    requires |a| == 1
    ensures Listing(u, idt, a) == Rendered(u, idt, a[0].0, Some(a[0].1))
  {
    assert a[1..] == [];
  }

  // ---------------------------------------------------------------- single lines

  ghost function Breaks(s: string): nat {
    if s == "" then 0 else Breaks(s[..|s| - 1]) + if s[|s| - 1] == Newline then 1 else 0
  }

  lemma {:induction false} BreaksConcat(a: string, b: string)
    ensures Breaks(a + b) == Breaks(a) + Breaks(b)
    decreases |b|
  {
    if b == "" {
      assert a + b == a;
    } else {
      assert (a + b)[..|a + b| - 1] == a + b[..|b| - 1];
      BreaksConcat(a, b[..|b| - 1]);
    }
  }

  lemma {:induction false} NoBreaks(s: string)
    ensures Breaks(s) == 0 <==> Newline !in s
  {
    if s != "" { NoBreaks(s[..|s| - 1]); }
  }

  /** The body has the line breaks of the value and no more. */
  lemma {:induction false} BreaksBody(idt: nat, value: string)
    ensures Breaks(Body(idt, Lines(value))) == Breaks(value)
    decreases |value|
  {
    if Newline in value {
      var a, rest := Break(value);
      var sp, tail := Spaces(2 * idt), Body(idt, Lines(rest));
      LinesAt(a, rest);
      BreaksBody(idt, rest);
      BodyCons(idt, a, Lines(rest));
      NoBreaks(sp);
      BreaksConcat(a + [Newline] + sp, tail);
      BreaksConcat(a + [Newline], sp);
      BreaksConcat(a + [Newline], rest);
    } else {
      LinesSingle(value);
    }
  }

  lemma BreaksRendered(u: Unicode, idt: nat, key: string, value: string)
    requires 2 * idt < Align
    ensures Breaks(Rendered(u, idt, key, Some(value))) == Breaks(Head(idt, key)) + Breaks(value) + 1
  {
    var head, pad := Head(idt, key), Padding(HeadWidth(u, idt, key));
    assert [Newline][..0] == "" && Breaks([Newline]) == 1;
    if value == "" {
      BreaksConcat(head, [Newline]);
    } else {
      var body := Body(idt, Lines(value));
      BreaksConcat(head + pad + body, [Newline]);
      BreaksConcat(head + pad, body);
      BreaksConcat(head, pad);
      NoBreaks(pad);
      BreaksBody(idt, value);
    }
  }

  /** Line breaks in all the values together. */
  ghost function ValueBreaks(a: Entries): nat {
    if a == [] then 0 else Breaks(a[0].1) + ValueBreaks(a[1..])
  }

  lemma {:induction false} SameBreaks(u: Unicode, idt: nat, a: Entries, b: Entries)
    requires 2 * idt < Align && SameKeys(a, b)
    ensures Breaks(Listing(u, idt, a)) - ValueBreaks(a) == Breaks(Listing(u, idt, b)) - ValueBreaks(b)
    decreases |a|
  {
    if a != [] {
      SameBreaks(u, idt, a[1..], b[1..]);
      BreaksRendered(u, idt, a[0].0, a[0].1);
      BreaksRendered(u, idt, b[0].0, b[0].1);
      BreaksConcat(Rendered(u, idt, a[0].0, Some(a[0].1)), Listing(u, idt, a[1..]));
      BreaksConcat(Rendered(u, idt, b[0].0, Some(b[0].1)), Listing(u, idt, b[1..]));
    }
  }

  lemma {:induction false} NoValueBreaks(a: Entries)
    ensures ValueBreaks(a) == 0 <==> SingleLines(a)
    decreases |a|
  {
    if a != [] {
      NoBreaks(a[0].1);
      NoValueBreaks(a[1..]);
      assert a == [a[0]] + a[1..];
    }
  }

  lemma SameFirstLine(a: string, x: string, b: string, y: string)
    requires Newline !in a && Newline !in b && a + [Newline] + x == b + [Newline] + y
    ensures a == b && x == y
  {
    LineEndAt(a, x);
    LineEndAt(b, y);
    var t := a + [Newline] + x;
    assert t[..|a|] == a && t[|a| + 1..] == x;
    assert t[..|b|] == b && t[|b| + 1..] == y;
  }

  /** What a single-line value prints behind its head. */
  ghost function Tail(u: Unicode, idt: nat, key: string, value: string): string {
    if value == "" then "" else Padding(HeadWidth(u, idt, key)) + value
  }

  lemma RenderedSingle(u: Unicode, idt: nat, key: string, value: string)
    requires 2 * idt < Align && Newline !in value
    ensures Rendered(u, idt, key, Some(value)) == Head(idt, key) + Tail(u, idt, key, value) + [Newline]
    ensures Newline !in Tail(u, idt, key, value)
  {
    LinesSingle(value);
    var (head, pad) := (Head(idt, key), Padding(HeadWidth(u, idt, key)));
    assert head + (pad + value) == head + pad + value && head + "" == head;
  }

  lemma TailDeterminesValue(u: Unicode, idt: nat, key: string, v: string, w: string)
    requires Tail(u, idt, key, v) == Tail(u, idt, key, w)
    ensures v == w
  {
    var pad := Padding(HeadWidth(u, idt, key));
    if v != "" && w != "" { Cancel(pad, v, w); }
  }

  lemma ListingCons(u: Unicode, idt: nat, a: Entries)
    requires 2 * idt < Align && a != [] && Newline !in a[0].1
    ensures Listing(u, idt, a)
         == Head(idt, a[0].0) + (Tail(u, idt, a[0].0, a[0].1) + [Newline] + Listing(u, idt, a[1..]))
  {
    RenderedSingle(u, idt, a[0].0, a[0].1);
    Assoc(Head(idt, a[0].0), Tail(u, idt, a[0].0, a[0].1), [Newline], Listing(u, idt, a[1..]));
  }

  lemma {:induction false} SingleLinesDiffer(u: Unicode, idt: nat, a: Entries, b: Entries)
    requires 2 * idt < Align && SameKeys(a, b) && SingleLines(a) && SingleLines(b)
    requires Listing(u, idt, a) == Listing(u, idt, b)
    ensures a == b
    decreases |a|
  {
    if a != [] {
      var key, v, w := a[0].0, a[0].1, b[0].1;
      var x, y := Listing(u, idt, a[1..]), Listing(u, idt, b[1..]);
      ListingCons(u, idt, a);
      ListingCons(u, idt, b);
      Cancel(Head(idt, key), Tail(u, idt, key, v) + [Newline] + x, Tail(u, idt, key, w) + [Newline] + y);
      RenderedSingle(u, idt, key, v);
      RenderedSingle(u, idt, key, w);
      SameFirstLine(Tail(u, idt, key, v), x, Tail(u, idt, key, w), y);
      TailDeterminesValue(u, idt, key, v, w);
      SingleLinesDiffer(u, idt, a[1..], b[1..]);
      assert a == [a[0]] + a[1..] && b == [b[0]] + b[1..];
    }
  }

  /** A listing of single-line values, empty ones included, is told apart from every other listing under
      the same keys, whatever lines that one has. */
  lemma ListingDeterminesValues(u: Unicode, idt: nat, a: Entries, b: Entries)
    requires 2 * idt < Align && SameKeys(a, b) && SingleLines(a) && Listing(u, idt, a) == Listing(u, idt, b)
    ensures a == b
  {
    SameBreaks(u, idt, a, b);
    NoValueBreaks(a);
    NoValueBreaks(b);
    SingleLinesDiffer(u, idt, a, b);
  }

  lemma Cancel(head: string, x: string, y: string)
    requires head + x == head + y
    ensures x == y
  {
    assert (head + x)[|head|..] == x && (head + y)[|head|..] == y;
  }

  ghost function Count(which: char -> bool, text: string): nat {
    if text == "" then 0 else Count(which, text[..|text| - 1]) + if which(text[|text| - 1]) then 1 else 0
  }

  /** A wide character takes two columns, one of no width none, and any other one. */
  lemma {:induction false} WidthMeaning(u: Unicode, text: string)
    ensures Width(u, text) == 2 * Count(u.isWide, text) + Count(c => !u.isWide(c) && !u.isZeroWidth(c), text)
  {
    if text != "" { WidthMeaning(u, text[..|text| - 1]); }
  }

  /** Nothing is printed exactly when there is no value or the indent is 12 or more; an empty value leaves the
      key alone on its line. */
  lemma PrintsNothingIff(u: Unicode, idt: nat, key: string, value: Option<string>)
    ensures Rendered(u, idt, key, value) == "" <==> idt >= 12 || value.None?
    ensures idt < 12 && value == Some("") && key != "" ==>
        Rendered(u, idt, key, value) == Spaces(2 * idt) + key + ":" + [Newline]
  {
    if idt < 12 && value.Some? { assert Rendered(u, idt, key, value)[|Rendered(u, idt, key, value)| - 1] == Newline; }
    assert key != "" ==> Head(idt, key) + [Newline] == Spaces(2 * idt) + key + ":" + [Newline];
  }
}
