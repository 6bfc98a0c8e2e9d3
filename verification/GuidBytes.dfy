/** Hex digits, native integers and the GUID text format.
    Bytes go through a packed native struct, so the byte order of the host is a parameter here. */
module GuidBytes {
  import opened Wrappers

  newtype byte = x: int | 0 <= x < 256

  type Guid = g: seq<byte> | |g| == 16 witness seq(16, i => 0)

  type Sha1Digest = d: seq<byte> | |d| == 20 witness seq(20, i => 0)

  /** A C string has no NUL inside. */
  type CString = s: string | '\0' !in s witness ""

  datatype Endian = Little | Big

  // ---------------------------------------------------------------- hex digits

  predicate IsHex(c: char) {
    '0' <= c <= '9' || 'a' <= c <= 'f' || 'A' <= c <= 'F'
  }

  predicate AllHex(s: string) {
    forall i :: 0 <= i < |s| ==> IsHex(s[i])
  }

  function HexVal(c: char): (v: nat)
    requires IsHex(c)
    ensures v < 16
  {
    if c <= '9' then c as nat - 48 else if 'a' <= c then c as nat - 87 else c as nat - 55
  }

  function HexChar(v: nat): (c: char)
    requires v < 16
    ensures IsHex(c)
  {
    if v < 10 then (48 + v) as char else (87 + v) as char
  }

  /** The digits are the usual ones, in lower case when printed and in either case when read. */
  lemma DigitsAreUsual(v: nat)
    requires v < 16
    ensures HexChar(v) == "0123456789abcdef"[v]
    ensures HexVal("0123456789abcdef"[v]) == v && HexVal("0123456789ABCDEF"[v]) == v
  {
  }

  function LowerChar(c: char): char {
    if 'A' <= c <= 'Z' then (c as int + 32) as char else c
  }

  ghost function Lower(s: string): string {
    seq(|s|, i requires 0 <= i < |s| => LowerChar(s[i]))
  }

  /** g_ascii_string_to_unsigned() in base 16 without the range check. */
  function HexValue(s: string): nat
    requires AllHex(s)
  {
    if s == "" then 0 else HexValue(s[..|s| - 1]) * 16 + HexVal(s[|s| - 1])
  }

  /** Only digits are accepted: no sign, space or prefix. */
  function ToUnsigned(s: string, max: nat): Option<nat> {
    if s != "" && AllHex(s) && HexValue(s) <= max then Some(HexValue(s)) else None
  }

  /** printf("%0*x", width, v) for a value that fits. */
  function Hex(v: nat, width: nat): string {
    if width == 0 then "" else Hex(v / 16, width - 1) + [HexChar(v % 16)]
  }

  // ---------------------------------------------------------------- native integers

  function ValueBE(bs: seq<byte>): nat {
    if bs == [] then 0 else ValueBE(bs[..|bs| - 1]) * 256 + bs[|bs| - 1] as nat
  }

  function BytesBE(v: nat, n: nat): (bs: seq<byte>)
    ensures |bs| == n
  {
    if n == 0 then [] else BytesBE(v / 256, n - 1) + [(v % 256) as byte]
  }

  function Reverse(bs: seq<byte>): (r: seq<byte>)
    ensures |r| == |bs| && forall i :: 0 <= i < |bs| ==> r[i] == bs[|bs| - 1 - i]
  {
    seq(|bs|, i requires 0 <= i < |bs| => bs[|bs| - 1 - i])
  }

  /** Reading an integer field of the struct on a given host. */
  function Load(host: Endian, bs: seq<byte>): nat {
    if host.Big? then ValueBE(bs) else ValueBE(Reverse(bs))
  }

  /** Writing an integer field of n bytes. */
  function Store(host: Endian, v: nat, n: nat): seq<byte> {
    if host.Big? then BytesBE(v, n) else Reverse(BytesBE(v, n))
  }

  /** GUINTxx_FROM_LE() and its relatives: swap unless the host already has that order. */
  function Swap(host: Endian, order: Endian, v: nat, n: nat): nat {
    if host == order then v else ValueBE(Reverse(BytesBE(v, n)))
  }

  lemma {:induction false} BytesOfValue(bs: seq<byte>)
    ensures BytesBE(ValueBE(bs), |bs|) == bs
  {
    if bs != [] { BytesOfValue(bs[..|bs| - 1]); }
  }

  lemma ReverseTwice(bs: seq<byte>)
    ensures Reverse(Reverse(bs)) == bs
  {
  }

  lemma LoadSwapped(host: Endian, order: Endian, bs: seq<byte>)
    ensures Swap(host, order, Load(host, bs), |bs|) == Load(order, bs)
  {
    BytesOfValue(bs);
    BytesOfValue(Reverse(bs));
    ReverseTwice(bs);
  }

  lemma StoreSwapped(host: Endian, order: Endian, bs: seq<byte>)
    ensures Store(host, Swap(host, order, ValueBE(bs), |bs|), |bs|) == if order.Big? then bs else Reverse(bs)
  {
    BytesOfValue(bs);
    if host != order { BytesOfValue(Reverse(bs)); }
    ReverseTwice(bs);
  }

  // ---------------------------------------------------------------- reference: two digits a byte

  ghost function ByteText(b: byte): (t: string)
    ensures |t| == 2
  {
    [HexChar(b as nat / 16), HexChar(b as nat % 16)]
  }

  ghost function PairByte(c: char, d: char): byte
    requires IsHex(c) && IsHex(d)
  {
    (HexVal(c) * 16 + HexVal(d)) as byte
  }

  /** Each byte as two lower-case digits. */
  ghost function Text(bs: seq<byte>): (t: string)
    ensures |t| == 2 * |bs| && AllHex(t)
  {
    if bs == [] then "" else Text(bs[..|bs| - 1]) + ByteText(bs[|bs| - 1])
  }

  /** Each two digits as a byte. */
  ghost function Pairs(s: string): (bs: seq<byte>)
    requires AllHex(s)
    ensures |bs| == |s| / 2
  {
    seq(|s| / 2, k requires 0 <= k < |s| / 2 => PairByte(s[2 * k], s[2 * k + 1]))
  }

  lemma PairOfText(b: byte)
    ensures PairByte(ByteText(b)[0], ByteText(b)[1]) == b
  {
  }

  lemma TextOfPair(c: char, d: char)
    requires IsHex(c) && IsHex(d)
    ensures ByteText(PairByte(c, d)) == [LowerChar(c), LowerChar(d)]
  {
    var v := PairByte(c, d) as nat;
    assert v / 16 == HexVal(c) && v % 16 == HexVal(d);
  }

  lemma TwoDigits(v: nat, b: byte, n: nat)
    ensures Hex(v * 256 + b as nat, n + 2) == Hex(v, n) + ByteText(b)
  {
    var w, x := v * 256 + b as nat, b as nat;
    assert w / 16 == v * 16 + x / 16 && w % 16 == x % 16;
    assert (v * 16 + x / 16) / 16 == v && (v * 16 + x / 16) % 16 == x / 16;
    assert Hex(w, n + 2) == Hex(v * 16 + x / 16, n + 1) + [HexChar(x % 16)];
  }

  lemma TextSnoc(bs: seq<byte>, b: byte)
    ensures Text(bs + [b]) == Text(bs) + ByteText(b)
  {
    assert (bs + [b])[..|bs|] == bs;
  }

  lemma PairsSnoc(s: string, c: char, d: char)
    requires AllHex(s) && |s| % 2 == 0 && IsHex(c) && IsHex(d)
    ensures AllHex(s + [c, d]) && Pairs(s + [c, d]) == Pairs(s) + [PairByte(c, d)]
  {
  }

  lemma LastPair(s: string)
    requires |s| >= 2
    ensures s == s[..|s| - 2] + [s[|s| - 2], s[|s| - 1]]
  {
  }

  lemma {:induction false} HexIsText(bs: seq<byte>)
    ensures Hex(ValueBE(bs), 2 * |bs|) == Text(bs)
  {
    if bs != [] {
      var n := |bs| - 1;
      HexIsText(bs[..n]);
      TwoDigits(ValueBE(bs[..n]), bs[n], 2 * n);
    }
  }

  lemma {:induction false} ValueIsPairs(s: string)
    requires AllHex(s) && |s| % 2 == 0
    ensures HexValue(s) == ValueBE(Pairs(s))
  {
    if s != "" {
      var n := |s| - 2;
      ValueIsPairs(s[..n]);
      assert s[..n + 1][..n] == s[..n];
      LastPair(s);
      PairsSnoc(s[..n], s[n], s[n + 1]);
      assert Pairs(s)[..|Pairs(s)| - 1] == Pairs(s[..n]);
    }
  }

  lemma {:induction false} PairsOfText(bs: seq<byte>)
    ensures Pairs(Text(bs)) == bs
  {
    if bs != [] {
      var n := |bs| - 1;
      var t := ByteText(bs[n]);
      PairsOfText(bs[..n]);
      PairsSnoc(Text(bs[..n]), t[0], t[1]);
      PairOfText(bs[n]);
      assert t == [t[0], t[1]];
    }
  }

  lemma {:induction false} TextOfPairs(s: string)
    requires AllHex(s) && |s| % 2 == 0
    ensures Text(Pairs(s)) == Lower(s)
  {
    if s != "" {
      var n := |s| - 2;
      TextOfPairs(s[..n]);
      LastPair(s);
      PairsSnoc(s[..n], s[n], s[n + 1]);
      TextSnoc(Pairs(s[..n]), PairByte(s[n], s[n + 1]));
      TextOfPair(s[n], s[n + 1]);
      LowerSnoc(s);
    }
  }

  lemma LowerSnoc(s: string)
    requires |s| >= 2
    ensures Lower(s) == Lower(s[..|s| - 2]) + [LowerChar(s[|s| - 2]), LowerChar(s[|s| - 1])]
  {
  }

  lemma {:induction false} TextConcat(a: seq<byte>, b: seq<byte>)
    ensures Text(a + b) == Text(a) + Text(b)
  {
    if b == [] {
      assert a + b == a;
    } else {
      assert (a + b)[..|a + b| - 1] == a + b[..|b| - 1];
      TextConcat(a, b[..|b| - 1]);
    }
  }

  lemma PairsConcat(a: string, b: string)
    requires AllHex(a) && AllHex(b) && |a| % 2 == 0
    ensures AllHex(a + b) && Pairs(a + b) == Pairs(a) + Pairs(b)
  {
    var t := a + b;
    assert forall i :: 0 <= i < |a| ==> t[i] == a[i];
    assert forall i :: |a| <= i < |t| ==> t[i] == b[i - |a|];
  }

  // ---------------------------------------------------------------- the text format

  /** The 32 digits with dashes after the 8th, 12th, 16th and 20th. */
  ghost function Dashed(t: string): (s: string)
    requires |t| == 32
    ensures |s| == 36
  {
    t[..8] + "-" + t[8..12] + "-" + t[12..16] + "-" + t[16..20] + "-" + t[20..]
  }

  /** The text without the characters at the dash positions. */
  ghost function Digits(s: string): (t: string)
    requires |s| == 36
    ensures |t| == 32
  {
    s[..8] + s[9..13] + s[14..18] + s[19..23] + s[24..]
  }

  predicate DashAt(i: int) {
    i == 8 || i == 13 || i == 18 || i == 23
  }

  /** Dashes and digits where they belong. */
  ghost predicate WellFormed(s: string) {
    |s| == 36 && forall i :: 0 <= i < 36 ==> if DashAt(i) then s[i] == '-' else IsHex(s[i])
  }

  /** The byte permutation of the mixed-endian (DCE) encoding. */
  ghost function Order(mixed: bool, bs: seq<byte>): (r: Guid)
    requires |bs| == 16
  {
    if mixed then Reverse(bs[..4]) + Reverse(bs[4..6]) + Reverse(bs[6..8]) + bs[8..] else bs
  }

  lemma OrderTwice(mixed: bool, bs: seq<byte>)
    requires |bs| == 16
    ensures Order(mixed, Order(mixed, bs)) == bs
  {
    if mixed {
      var r := Order(mixed, bs);
      assert r[..4] == Reverse(bs[..4]) && r[4..6] == Reverse(bs[4..6]) && r[6..8] == Reverse(bs[6..8]);
      ReverseTwice(bs[..4]);
      ReverseTwice(bs[4..6]);
      ReverseTwice(bs[6..8]);
      assert r[8..] == bs[8..];
    }
  }

  lemma DashesOf(s: string)
    requires |s| == 36
    ensures s == Dashed(Digits(s)) <==> s[8] == '-' && s[13] == '-' && s[18] == '-' && s[23] == '-'
  {
    var t := Digits(s);
    assert t[..8] == s[..8] && t[8..12] == s[9..13] && t[12..16] == s[14..18] && t[16..20] == s[19..23] && t[20..] == s[24..];
    var r := Dashed(t);
    assert r[8] == '-' && r[13] == '-' && r[18] == '-' && r[23] == '-';
    assert r[..8] == s[..8] && r[9..13] == s[9..13] && r[14..18] == s[14..18] && r[19..23] == s[19..23] && r[24..] == s[24..];
  }

  lemma DigitAt(s: string, i: nat)
    requires |s| == 36 && i < 36 && !DashAt(i)
    ensures var dashes := if i < 8 then 0 else if i < 13 then 1 else if i < 18 then 2 else if i < 23 then 3 else 4;
            0 <= i - dashes < 32 && Digits(s)[i - dashes] == s[i]
  {
  }

  lemma HexDigitsOf(s: string)
    requires |s| == 36
    ensures AllHex(Digits(s)) <==> forall i :: 0 <= i < 36 && !DashAt(i) ==> IsHex(s[i])
  {
    if AllHex(Digits(s)) {
      forall i | 0 <= i < 36 && !DashAt(i) ensures IsHex(s[i]) { DigitAt(s, i); }
    }
    if forall i :: 0 <= i < 36 && !DashAt(i) ==> IsHex(s[i]) {
      forall k | 0 <= k < 32 ensures IsHex(Digits(s)[k]) {
        DigitAt(s, if k < 8 then k else if k < 12 then k + 1 else if k < 16 then k + 2 else if k < 20 then k + 3 else k + 4);
      }
    }
  }

  lemma WellFormedDigits(s: string)
    requires |s| == 36
    ensures WellFormed(s) <==> AllHex(Digits(s)) && s == Dashed(Digits(s))
  {
    DashesOf(s);
    HexDigitsOf(s);
    assert DashAt(8) && DashAt(13) && DashAt(18) && DashAt(23);
  }

  lemma DigitsOfDashed(t: string)
    requires |t| == 32
    ensures Digits(Dashed(t)) == t
  {
    var s := Dashed(t);
    assert s[..8] == t[..8] && s[9..13] == t[8..12] && s[14..18] == t[12..16] && s[19..23] == t[16..20] && s[24..] == t[20..];
  }
}
