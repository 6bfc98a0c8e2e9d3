/** Dumping a flash chip by its Intel flash descriptor: decode the region registers, size the image,
    and copy the possibly overlapping regions into one buffer. */
module IfdImage {
  import opened Wrappers

  newtype byte = x: int | 0 <= x < 256

  type u32 = n: nat | n < 0x1_0000_0000

  datatype Error = StructError | NotIfd(signature: u32)

  const Signature := 0x0FF0A55A

  const BlockSize := 0x1000

  // ---------------------------------------------------------------- registers

  /** struct.unpack_from("<I", ...) */
  function ReadU32(bs: seq<byte>, offset: nat): Option<u32> {
    if offset + 4 <= |bs| then
      Some(bs[offset] as nat + 0x100 * bs[offset + 1] as nat + 0x1_0000 * bs[offset + 2] as nat
           + 0x100_0000 * bs[offset + 3] as nat)
    else None
  }

  /** (map0 >> 24) & 0b111, with zero standing for all regions. */
  function NumRegions(map0: u32): (n: nat)
    ensures 1 <= n <= 10
  {
    var n := map0 / 0x100_0000 % 8;
    if n == 0 then 10 else n
  }

  /** (map0 >> 12) & 0xFF0 */
  function RegionBaseAddr(map0: u32): nat {
    map0 / 0x1_0000 % 0x100 * 0x10
  }

  function BaseBlock(reg: u32): nat {
    reg % 0x8000
  }

  function LimitBlock(reg: u32): nat {
    reg / 0x1_0000 % 0x8000
  }

  /** (reg << 12) & 0x07FFF000 */
  function FregBase(reg: u32): nat {
    BaseBlock(reg) * BlockSize
  }

  /** ((reg >> 4) & 0x07FFF000) | 0xFFF */
  function FregLimit(reg: u32): nat {
    LimitBlock(reg) * BlockSize + 0xFFF
  }

  datatype Region = Region(index: nat, offset: nat, size: nat)

  function RegionOf(index: nat, reg: u32): Region
    requires FregBase(reg) <= FregLimit(reg)
  {
    Region(index, FregBase(reg), FregLimit(reg) - FregBase(reg))
  }

  /** The valid regions among the registers, in order. */
  ghost function Kept(regs: seq<u32>): seq<Region> {
    if regs == [] then []
    else
      var n := |regs| - 1;
      if FregBase(regs[n]) > FregLimit(regs[n]) then Kept(regs[..n]) else Kept(regs[..n]) + [RegionOf(n, regs[n])]
  }

  /** A kept region comes from the register it names, whose base block is not above its limit block. */
  ghost predicate RegionFacts(regs: seq<u32>, r: Region) {
    && r.index < |regs| && r.offset % BlockSize == 0
    && BaseBlock(regs[r.index]) <= LimitBlock(regs[r.index])
    && r.offset == FregBase(regs[r.index]) && r.offset + r.size == FregLimit(regs[r.index])
  }

  lemma BlockOrder(reg: u32)
    ensures FregBase(reg) <= FregLimit(reg) <==> BaseBlock(reg) <= LimitBlock(reg)
  {
  }

  lemma LimitInBlock(reg: u32)
    ensures FregLimit(reg) % BlockSize == 0xFFF && FregLimit(reg) < 0x800_0000
  {
  }

  lemma RegionOfFacts(regs: seq<u32>, n: nat)
    requires n < |regs| && FregBase(regs[n]) <= FregLimit(regs[n])
    ensures RegionFacts(regs, RegionOf(n, regs[n]))
  {
    BlockOrder(regs[n]);
  }

  /** For all register values: exactly the registers whose base block is at most their limit block are
      kept, and each kept region is aligned and has the register's range. */
  lemma {:induction false} KeptFacts(regs: seq<u32>)
    ensures forall r | r in Kept(regs) :: RegionFacts(regs, r)
    ensures forall i :: 0 <= i < |regs| && BaseBlock(regs[i]) <= LimitBlock(regs[i]) ==>
      exists r :: r in Kept(regs) && r.index == i
    decreases |regs|
  {
    if regs != [] {
      var n := |regs| - 1;
      KeptFacts(regs[..n]);
      BlockOrder(regs[n]);
      if FregBase(regs[n]) <= FregLimit(regs[n]) {
        RegionOfFacts(regs, n);
        assert RegionOf(n, regs[n]) in Kept(regs);
      }
      forall i | 0 <= i < |regs| && BaseBlock(regs[i]) <= LimitBlock(regs[i])
        ensures exists r :: r in Kept(regs) && r.index == i
      {
        if i < n {
          assert regs[..n][i] == regs[i];
          var r :| r in Kept(regs[..n]) && r.index == i;
          assert r in Kept(regs);
        }
      }
    }
  }

  method ReadRegisters(ifd: seq<byte>, base: nat, n: nat) returns (regs: Option<seq<u32>>)
    ensures regs.Some? <==> base + 4 * n <= |ifd| || n == 0
    ensures regs.Some? ==> |regs.value| == n && forall i :: 0 <= i < n ==> Some(regs.value[i]) == ReadU32(ifd, base + 4 * i)
  {
    var rs: seq<u32> := [];
    for i := 0 to n
      invariant |rs| == i && forall j :: 0 <= j < i ==> Some(rs[j]) == ReadU32(ifd, base + 4 * j)
      invariant i > 0 ==> base + 4 * i <= |ifd|
    {
      var reg := ReadU32(ifd, base + 4 * i);
      if reg.None? {
        return None;
      }
      rs := rs + [reg.value];
    }
    return Some(rs);
  }

  method ParseRegions(regs: seq<u32>) returns (fregs: seq<Region>)
    ensures fregs == Kept(regs)
  {
    fregs := [];
    for i := 0 to |regs|
      invariant fregs == Kept(regs[..i])
    {
      assert regs[..i + 1][..i] == regs[..i];
      if FregBase(regs[i]) > FregLimit(regs[i]) {
        continue;
      }
      fregs := fregs + [RegionOf(i, regs[i])];
    }
    assert regs[..|regs|] == regs;
  }

  // ---------------------------------------------------------------- the image

  /** The size is the end of the furthest region. */
  ghost predicate IsImageSize(fregs: seq<Region>, size: nat) {
    && (forall r | r in fregs :: r.offset + r.size <= size)
    && (if fregs == [] then size == 0 else exists r :: r in fregs && r.offset + r.size == size)
  }

  method ImageSize(fregs: seq<Region>) returns (size: nat)
    ensures IsImageSize(fregs, size)
  {
    size := 0;
    for i := 0 to |fregs|
      invariant forall r | r in fregs[..i] :: r.offset + r.size <= size
      invariant if i == 0 then size == 0 else exists r :: r in fregs[..i] && r.offset + r.size == size
    {
      var r := fregs[i];
      assert r in fregs[..i + 1];
      assert forall x :: x in fregs[..i] ==> x in fregs[..i + 1];
      size := if size > r.offset + r.size then size else r.offset + r.size;
    }
    assert fregs[..|fregs|] == fregs;
  }

  /** How many bytes the read of each region delivers, or none for an I/O error. */
  type Reads = nat -> Option<nat>

  /** A read never delivers more than was asked for. */
  ghost predicate ShortReads(fregs: seq<Region>, got: Reads) {
    forall i :: 0 <= i < |fregs| && got(i).Some? ==> got(i).value <= fregs[i].size
  }

  /** Some region's read delivered the byte at this address. */
  ghost predicate Delivered(fregs: seq<Region>, got: Reads, a: nat) {
    exists i :: 0 <= i < |fregs| && got(i).Some? && fregs[i].offset <= a < fregs[i].offset + got(i).value
  }

  /** The flash contents wherever a read delivered them, and zero elsewhere. */
  ghost predicate IsImage(fregs: seq<Region>, flash: nat -> byte, got: Reads, image: seq<byte>) {
    forall a :: 0 <= a < |image| ==> image[a] == if Delivered(fregs, got, a) then flash(a) else 0
  }

  /** The copying loop, in place. */
  method CopyRegions(fregs: seq<Region>, flash: nat -> byte, got: Reads, blob: array<byte>)
    requires IsImageSize(fregs, blob.Length) && ShortReads(fregs, got)
    requires forall a :: 0 <= a < blob.Length ==> blob[a] == 0
    modifies blob
    ensures IsImage(fregs, flash, got, blob[..])
  {
    for i := 0 to |fregs|
      invariant forall a :: 0 <= a < blob.Length ==> blob[a] == if Delivered(fregs[..i], got, a) then flash(a) else 0
    {
      var freg := fregs[i];
      assert freg in fregs;
      DeliveredMore(fregs, got, i);
      if got(i).Some? {
        var n := got(i).value;
        forall k | 0 <= k < n {
          blob[freg.offset + k] := flash(freg.offset + k);
        }
      }
    }
    assert fregs[..|fregs|] == fregs;
  }

  ghost predicate DeliveredBy(fregs: seq<Region>, got: Reads, i: nat, a: nat)
    requires i < |fregs|
  {
    got(i).Some? && fregs[i].offset <= a < fregs[i].offset + got(i).value
  }

  lemma DeliveredMore(fregs: seq<Region>, got: Reads, i: nat)
    requires i < |fregs|
    ensures forall a: nat :: Delivered(fregs[..i + 1], got, a) <==>
        Delivered(fregs[..i], got, a) || DeliveredBy(fregs, got, i, a)
  {
    var now, was := fregs[..i + 1], fregs[..i];
    assert forall k :: 0 <= k < i ==> now[k] == was[k];
    forall a: nat
      ensures Delivered(now, got, a) <==> Delivered(was, got, a) || DeliveredBy(fregs, got, i, a)
    {
      if DeliveredBy(fregs, got, i, a) { assert now[i] == fregs[i]; }
      if Delivered(was, got, a) {
        var k :| 0 <= k < |was| && got(k).Some? && was[k].offset <= a < was[k].offset + got(k).value;
        assert now[k] == was[k];
      }
    }
  }

  /** Why there is no image, if there is none. */
  ghost function DescriptorError(ifd: seq<byte>): Option<Error> {
    if |ifd| < 32 then Some(StructError)
    else
      var signature := ReadU32(ifd, 16).value;
      if signature != Signature then Some(NotIfd(signature))
      else if Registers(ifd) == [] then Some(StructError)
      else None
  }

  method LoadRegisters(ifd: seq<byte>) returns (regs: Option<seq<u32>>)
    requires |ifd| >= 32
    ensures regs.None? <==> Registers(ifd) == []
    ensures regs.Some? ==> regs.value == Registers(ifd)
  {
    var map0 := ReadU32(ifd, 20).value;
    regs := ReadRegisters(ifd, RegionBaseAddr(map0), NumRegions(map0));
  }

  /** _read_partitions(): `ifd` is the first block of the flash, `flash` its contents by address. */
  method ReadPartitions(ifd: seq<byte>, flash: nat -> byte, got: Reads) returns (r: Result<seq<byte>, Error>)
    requires ShortReads(Kept(Registers(ifd)), got)
    ensures r.Err? ==> DescriptorError(ifd) == Some(r.error)
    ensures r.Ok? ==>
      && DescriptorError(ifd).None?
      && IsImageSize(Kept(Registers(ifd)), |r.value|) && IsImage(Kept(Registers(ifd)), flash, got, r.value)
  {
    if |ifd| < 32 {
      return Err(StructError);
    }
    var signature := ReadU32(ifd, 16).value;
    if signature != Signature {
      return Err(NotIfd(signature));
    }
    var regs := LoadRegisters(ifd);
    if regs.None? {
      return Err(StructError);
    }
    var fregs := ParseRegions(regs.value);
    var size := ImageSize(fregs);
    var blob := new byte[size](i => 0);
    CopyRegions(fregs, flash, got, blob);
    return Ok(blob[..]);
  }

  /** The region registers the descriptor points at; none when they run past its end. */
  ghost function Registers(ifd: seq<byte>): seq<u32> {
    if |ifd| < 32 then []
    else
      var map0 := ReadU32(ifd, 20).value;
      var base, n := RegionBaseAddr(map0), NumRegions(map0);
      if base + 4 * n > |ifd| then [] else seq(n, i requires 0 <= i < n => ReadU32(ifd, base + 4 * i).value)
  }

  /** Every kept region lies inside the image, whatever the registers. */
  lemma RegionsFit(regs: seq<u32>, size: nat, r: Region)
    requires IsImageSize(Kept(regs), size) && r in Kept(regs)
    ensures r.offset % BlockSize == 0 && r.offset + r.size <= size < 0x800_0000
    ensures size % BlockSize == 0xFFF
  {
    KeptFacts(regs);
    var far :| far in Kept(regs) && far.offset + far.size == size;
    assert RegionFacts(regs, far) && RegionFacts(regs, r);
    LimitInBlock(regs[far.index]);
  }

  /** The range that a register gives its region covers the last byte of another register's block exactly
      when it begins at or before that block and ends in a later one. */
  lemma CoversLimit(reg: u32, other: u32)
    ensures FregBase(reg) <= FregLimit(other) < FregLimit(reg) <==> BaseBlock(reg) <= LimitBlock(other) < LimitBlock(reg)
  {
  }

  /** When every read is complete, the byte at the limit of a region is in the image if and only if some
      register has its base at or before that block and its limit in a later one.  No region delivers the
      last byte of its own range. */
  lemma LimitByteNotRead(regs: seq<u32>, got: Reads, j: nat)
    requires j < |Kept(regs)| && forall i :: 0 <= i < |Kept(regs)| ==> got(i) == Some(Kept(regs)[i].size)
    ensures var r := Kept(regs)[j];
            && r.index < |regs|
            && (Delivered(Kept(regs), got, FregLimit(regs[r.index])) <==>
                  exists k: nat :: k < |regs| && BaseBlock(regs[k]) <= LimitBlock(regs[r.index]) < LimitBlock(regs[k]))
  {
    KeptFacts(regs);
    var rs := Kept(regs);
    assert RegionFacts(regs, rs[j]);
    var reg := regs[rs[j].index];
    if Delivered(rs, got, FregLimit(reg)) {
      var i :| 0 <= i < |rs| && got(i).Some? && rs[i].offset <= FregLimit(reg) < rs[i].offset + got(i).value;
      assert RegionFacts(regs, rs[i]);
      CoversLimit(regs[rs[i].index], reg);
    }
    if k: nat :| k < |regs| && BaseBlock(regs[k]) <= LimitBlock(reg) < LimitBlock(regs[k]) {
      var r :| r in rs && r.index == k;
      var i :| 0 <= i < |rs| && rs[i] == r;
      assert RegionFacts(regs, rs[i]);
      CoversLimit(regs[k], reg);
    }
  }

  // ---------------------------------------------------------------- descriptors as they are written

  /** Four bytes, least significant first. */
  ghost function U32Bytes(v: u32): seq<byte> {
    [(v % 0x100) as byte, (v / 0x100 % 0x100) as byte, (v / 0x1_0000 % 0x100) as byte, (v / 0x100_0000) as byte]
  }

  ghost predicate HasU32(bs: seq<byte>, offset: nat, v: u32) {
    offset + 4 <= |bs| && bs[offset..offset + 4] == U32Bytes(v)
  }

  lemma SplitU32(a: byte, b: byte, c: byte, d: byte)
    ensures var v := a as nat + 0x100 * b as nat + 0x1_0000 * c as nat + 0x100_0000 * d as nat;
            U32Bytes(v) == [a, b, c, d]
  {
    var (x, y, z) := (d as nat, c as nat + 0x100 * d as nat, b as nat + 0x100 * c as nat + 0x1_0000 * d as nat);
    var v := a as nat + 0x100 * z;
    LowByte(a, z);
    LowByte(b, y);
    LowByte(c, x);
    assert v / 0x1_0000 == v / 0x100 / 0x100 && v / 0x100_0000 == v / 0x1_0000 / 0x100;
  }

  lemma LowByte(a: byte, rest: nat)
    ensures (a as nat + 0x100 * rest) % 0x100 == a as nat && (a as nat + 0x100 * rest) / 0x100 == rest
  {
  }

  lemma JoinU32(v: u32)
    ensures v % 0x100 + 0x100 * (v / 0x100 % 0x100) + 0x1_0000 * (v / 0x1_0000 % 0x100) + 0x100_0000 * (v / 0x100_0000) == v
  {
    assert v / 0x1_0000 == v / 0x100 / 0x100 && v / 0x100_0000 == v / 0x1_0000 / 0x100;
  }

  /** A number is read exactly where it was written. */
  lemma ReadWritten(bs: seq<byte>, offset: nat, v: u32)
    ensures ReadU32(bs, offset) == Some(v) <==> HasU32(bs, offset, v)
  {
    JoinU32(v);
    if offset + 4 <= |bs| {
      var part := bs[offset..offset + 4];
      assert part == [bs[offset], bs[offset + 1], bs[offset + 2], bs[offset + 3]];
      SplitU32(part[0], part[1], part[2], part[3]);
    }
  }

  /** A region as its register has it: first and last block, and two bits that mean nothing. */
  datatype Span = Span(base: nat, limit: nat, low: bool, high: bool) {
    ghost predicate Valid() { base < 0x8000 && limit < 0x8000 }

    ghost function Register(): u32
      requires Valid()
    {
      base + (if low then 0x8000 else 0) + 0x1_0000 * limit + if high then 0x8000_0000 else 0
    }
  }

  /** A descriptor: the spans, the address of their registers in units of 16 bytes, and the bits around the
      two fields of the first map that are used. */
  datatype Layout = Layout(spans: seq<Span>, table: nat, below: nat, above: nat) {
    ghost predicate Valid() {
      && (1 <= |spans| <= 7 || |spans| == 10) && table < 0x100 && below < 0x1_0000 && above < 0x20
      && forall i :: 0 <= i < |spans| ==> spans[i].Valid()
    }

    ghost function Map0(): u32
      requires Valid()
    {
      below + 0x1_0000 * table + 0x100_0000 * (if |spans| == 10 then 0 else |spans|) + 0x800_0000 * above
    }
  }

  /** The bytes hold the descriptor. */
  ghost predicate Describes(layout: Layout, ifd: seq<byte>)
    requires layout.Valid()
  {
    && |ifd| >= 32 && HasU32(ifd, 16, Signature) && HasU32(ifd, 20, layout.Map0())
    && forall i :: 0 <= i < |layout.spans| ==> HasU32(ifd, 0x10 * layout.table + 4 * i, layout.spans[i].Register())
  }

  /** The regions whose last block is not before their first, each without its very last byte. */
  ghost function RegionsOf(spans: seq<Span>): seq<Region> {
    if spans == [] then []
    else
      var (n, p) := (|spans| - 1, spans[|spans| - 1]);
      RegionsOf(spans[..n]) + if p.base <= p.limit then [Region(n, 0x1000 * p.base, 0x1000 * (p.limit - p.base) + 0xFFF)] else []
  }

  lemma RegisterBlocks(p: Span)
    requires p.Valid()
    ensures BaseBlock(p.Register()) == p.base && LimitBlock(p.Register()) == p.limit
  {
    var (low, high) := (if p.low then 1 else 0, if p.high then 1 else 0);
    var (reg, upper) := (p.Register(), p.limit + 0x8000 * high);
    Digit(p.base, 0x8000, low + 2 * upper);
    Digit(p.base + 0x8000 * low, 0x1_0000, upper);
    Digit(p.limit, 0x8000, high);
    assert reg == p.base + 0x8000 * (low + 2 * upper) == p.base + 0x8000 * low + 0x1_0000 * upper;
  }

  lemma Digit(low: nat, unit: nat, high: nat)
    requires low < unit
    ensures (low + unit * high) % unit == low && (low + unit * high) / unit == high
  {
    var v := low + unit * high;
    assert v == v % unit + unit * (v / unit);
    Quotient(unit, low, high, v % unit, v / unit);
  }

  lemma Quotient(unit: nat, a: nat, x: nat, b: nat, y: nat)
    requires a < unit && b < unit && a + unit * x == b + unit * y
    ensures a == b && x == y
  {
    if x < y { Multiple(unit, y - x); }
    if y < x { Multiple(unit, x - y); }
  }

  lemma Multiple(unit: nat, n: nat)
    requires n > 0
    ensures unit * n >= unit
  {
  }

  lemma MapFields(layout: Layout)
    requires layout.Valid()
    ensures NumRegions(layout.Map0()) == |layout.spans| && RegionBaseAddr(layout.Map0()) == 0x10 * layout.table
  {
    var map0 := layout.Map0();
    var code := if |layout.spans| == 10 then 0 else |layout.spans|;
    assert map0 / 0x1_0000 == layout.table + 0x100 * (code + 8 * layout.above);
    assert map0 / 0x100_0000 == code + 8 * layout.above;
  }

  lemma {:induction false} KeptSpans(spans: seq<Span>, regs: seq<u32>)
    requires |regs| == |spans| && forall i :: 0 <= i < |spans| ==> spans[i].Valid() && regs[i] == spans[i].Register()
    ensures Kept(regs) == RegionsOf(spans)
    decreases |spans|
  {
    if spans != [] {
      var n := |spans| - 1;
      KeptSpans(spans[..n], regs[..n]);
      RegisterBlocks(spans[n]);
      BlockOrder(regs[n]);
    }
  }

  lemma DescribedRegisters(layout: Layout, ifd: seq<byte>)
    requires layout.Valid() && Describes(layout, ifd)
    ensures |Registers(ifd)| == |layout.spans|
    ensures forall i :: 0 <= i < |layout.spans| ==> Registers(ifd)[i] == layout.spans[i].Register()
  {
    MapFields(layout);
    ReadWritten(ifd, 20, layout.Map0());
    var n := |layout.spans|;
    assert HasU32(ifd, 0x10 * layout.table + 4 * (n - 1), layout.spans[n - 1].Register());
    forall i | 0 <= i < n ensures Registers(ifd)[i] == layout.spans[i].Register() {
      ReadWritten(ifd, 0x10 * layout.table + 4 * i, layout.spans[i].Register());
    }
  }

  /** Whatever descriptor the bytes hold, decoding them gives back its regions. */
  lemma DecodesLayout(layout: Layout, ifd: seq<byte>)
    requires layout.Valid() && Describes(layout, ifd)
    ensures DescriptorError(ifd).None? && Kept(Registers(ifd)) == RegionsOf(layout.spans)
  {
    ReadWritten(ifd, 16, Signature);
    DescribedRegisters(layout, ifd);
    KeptSpans(layout.spans, Registers(ifd));
  }

  ghost function SpanOf(reg: u32): Span {
    Span(reg % 0x8000, reg / 0x1_0000 % 0x8000, reg / 0x8000 % 2 == 1, reg / 0x8000_0000 == 1)
  }

  lemma SpanOfRegister(reg: u32)
    ensures SpanOf(reg).Valid() && SpanOf(reg).Register() == reg
  {
    var (low, limit) := (reg / 0x8000, reg / 0x1_0000);
    assert reg == reg % 0x8000 + 0x8000 * low;
    assert limit == low / 2 && low == low % 2 + 2 * limit;
    assert reg / 0x8000_0000 == limit / 0x8000 && limit == limit % 0x8000 + 0x8000 * (limit / 0x8000);
  }

  /** Nothing else is taken for a descriptor. */
  lemma OnlyLayouts(ifd: seq<byte>) returns (layout: Layout)
    requires DescriptorError(ifd).None?
    ensures layout.Valid() && Describes(layout, ifd)
  {
    var (map0, regs) := (ReadU32(ifd, 20).value, Registers(ifd));
    layout := Layout(seq(|regs|, i requires 0 <= i < |regs| => SpanOf(regs[i])), map0 / 0x1_0000 % 0x100,
                     map0 % 0x1_0000, map0 / 0x800_0000);
    ReadWritten(ifd, 16, Signature);
    ReadWritten(ifd, 20, map0);
    MapOf(map0);
    forall i | 0 <= i < |regs| ensures layout.spans[i].Valid() && layout.spans[i].Register() == regs[i] {
      SpanOfRegister(regs[i]);
    }
    assert layout.Map0() == map0;
    forall i | 0 <= i < |regs| ensures HasU32(ifd, 0x10 * layout.table + 4 * i, layout.spans[i].Register()) {
      ReadWritten(ifd, 0x10 * layout.table + 4 * i, regs[i]);
    }
  }

  lemma MapOf(map0: u32)
    ensures map0 == map0 % 0x1_0000 + 0x1_0000 * (map0 / 0x1_0000 % 0x100) + 0x100_0000 * (map0 / 0x100_0000 % 8)
                    + 0x800_0000 * (map0 / 0x800_0000)
    ensures map0 / 0x800_0000 < 0x20
  {
    assert map0 / 0x100_0000 == map0 / 0x1_0000 / 0x100 && map0 / 0x800_0000 == map0 / 0x100_0000 / 8;
  }

  /** Of a block that is long enough and begins otherwise, the signature it has instead is reported. */
  lemma WrongSignature(ifd: seq<byte>, v: u32)
    ensures DescriptorError(ifd) == Some(NotIfd(v)) <==> |ifd| >= 32 && HasU32(ifd, 16, v) && v != 0x0FF0A55A
  {
    ReadWritten(ifd, 16, v);
  }
}
