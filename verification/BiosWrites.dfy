/** Which writes to a BIOS setting succeed, what they store, and what a history of adds and writes comes to. */
module BiosWrites {
  import opened Wrappers
  import opened BiosSetting

  // ---------------------------------------------------------------- one write

  /** The setting can take this value. */
  ghost predicate Acceptable(env: Env, s: Setting, value: string) {
    match s.kind
    case Integer => exists n :: env.strtoull(value) == Some(n) && s.lowerBound <= n <= s.upperBound
    case String => s.lowerBound <= |value| <= s.upperBound
    case Enumeration =>
      && s.possible != []
      && (if s.toRaw.Some? then value in s.toRaw.value || (s.fromRaw.Some? && value in s.fromRaw.value)
          else exists p :: p in s.possible && Matches(env, value, p))
    case UnknownKind => false
  }

  lemma MatchListed(env: Env, possible: seq<string>, value: string)
    ensures FirstMatch(env, value, possible).Some? <==> exists p :: p in possible && Matches(env, value, p)
  {
    FirstMatchMeaning(env, value, possible);
    if p :| p in possible && Matches(env, value, p) {
      var i :| 0 <= i < |possible| && possible[i] == p;
    }
  }

  /** Over hardware that works, a write succeeds if and only if the setting is not read-only, the value is
      not the cached one, and the setting can take it. */
  lemma WriteSucceedsIff(env: Env, s: Setting, value: string)
    ensures WriteError(env, s, value, Works).None? <==>
        !s.readOnly && s.current != Some(value) && Acceptable(env, s, value)
  {
    if s.kind.Enumeration? { MatchListed(env, s.possible, value); }
  }

  /** Otherwise the first of these that applies says why. */
  lemma WriteRefused(env: Env, s: Setting, value: string, io: Io)
    ensures s.current == Some(value) ==> WriteError(env, s, value, io) == Some(NothingToDo)
    ensures s.current != Some(value) && s.readOnly ==> WriteError(env, s, value, io) == Some(NotSupported)
    ensures s.current != Some(value) && !s.readOnly && !Acceptable(env, s, value) ==>
        WriteError(env, s, value, io)
          == Some(if s.kind.Integer? && env.strtoull(value).None? then InvalidData else NotSupported)
    ensures s.current != Some(value) && !s.readOnly && Acceptable(env, s, value) && io != Works ==>
        WriteError(env, s, value, io) == Some(if io.Fails? then io.error else NotSupported)
  {
    if s.kind.Enumeration? { MatchListed(env, s.possible, value); }
  }

  /** A number or text is stored and cached as it is.  An enumeration stores the raw value of a display value,
      a raw value as it is, or else the first listed match, and caches the display value of what it stored
      if that has one.  Nothing else changes. */
  lemma WriteStores(env: Env, s: Setting, value: string)
    requires WriteError(env, s, value, Works).None?
    ensures var w := Write(env, s, value, Works);
            && w == s.(hardware := w.hardware, current := w.current)
            && (if !s.kind.Enumeration? then w.hardware == value && w.current == Some(value)
                else if s.toRaw.Some? then
                  && (value in s.toRaw.value ==> w.hardware == s.toRaw.value[value])
                  && (value !in s.toRaw.value ==> w.hardware == value)
                  && (s.fromRaw.Some? && w.hardware in s.fromRaw.value ==> w.current == Some(s.fromRaw.value[w.hardware]))
                else exists i: nat :: IsFirstMatch(env, value, s.possible, i) && w.hardware == s.possible[i])
            && (s.fromRaw.None? ==> w.current == Some(value))
  {
    FirstMatchMeaning(env, value, s.possible);
  }

  // ---------------------------------------------------------------- which values match

  /** The words that count as yes and as no, in lower case. */
  lemma PolarityIff(key: string)
    ensures IsPositive(key) <==> key in {"true", "1", "on"} || exists p, q :: key == p + "enable" + q
    ensures IsNegative(key) <==> key in {"false", "0", "off"} || exists p, q :: key == p + "disable" + q
  {
    ContainsIff(key, "enable");
    ContainsIff(key, "disable");
  }

  lemma ContainsIff(s: string, part: string)
    ensures Contains(s, part) <==> exists p, q :: s == p + part + q
  {
    if i :| 0 <= i <= |s| && part <= s[i..] {
      assert s == s[..i] + part + s[i + |part|..];
    }
    if p, q :| s == p + part + q {
      assert s[|p|..] == part + q;
    }
  }

  // ---------------------------------------------------------------- a history of adds and writes

  /** The i-th operation writes to the hardware. */
  ghost predicate WritesAt(env: Env, s: Setting, ops: seq<Op>, i: nat) {
    i < |ops| && ops[i].WriteOp? && Succeeds(env, Run(env, s, ops[..i]), ops[i])
  }

  lemma WritesPrefix(env: Env, s: Setting, ops: seq<Op>, i: nat)
    requires ops != [] && i < |ops| - 1
    ensures WritesAt(env, s, ops, i) <==> WritesAt(env, s, ops[..|ops| - 1], i)
  {
    assert ops[..|ops| - 1][..i] == ops[..i];
  }

  /** The i-th operation is the last that writes to the hardware, and leaves this there. */
  ghost predicate LastWriteAt(env: Env, s: Setting, ops: seq<Op>, i: nat, hardware: string) {
    && WritesAt(env, s, ops, i) && (forall j: nat | j > i :: !WritesAt(env, s, ops, j))
    && hardware == Write(env, Run(env, s, ops[..i]), ops[i].value, Works).hardware
  }

  lemma WriteStep(env: Env, s: Setting, ops: seq<Op>)
    requires ops != []
    ensures var (n, now) := (|ops| - 1, Run(env, s, ops).hardware);
            if WritesAt(env, s, ops, n) then LastWriteAt(env, s, ops, n, now) else now == Run(env, s, ops[..n]).hardware
  {
  }

  lemma LastWriteStays(env: Env, s: Setting, ops: seq<Op>, i: nat, hardware: string)
    requires ops != [] && LastWriteAt(env, s, ops[..|ops| - 1], i, hardware) && !WritesAt(env, s, ops, |ops| - 1)
    ensures LastWriteAt(env, s, ops, i, hardware)
  {
    assert ops[..|ops| - 1][..i] == ops[..i];
    forall j: nat | j < |ops| - 1 ensures WritesAt(env, s, ops, j) <==> WritesAt(env, s, ops[..|ops| - 1], j) {
      WritesPrefix(env, s, ops, j);
    }
  }

  /** After any run the hardware holds what the last successful write stored, or what it held before. */
  lemma {:induction false} HardwareIsLastWrite(env: Env, s: Setting, ops: seq<Op>)
    ensures var hardware := Run(env, s, ops).hardware;
            || (hardware == s.hardware && forall i: nat :: !WritesAt(env, s, ops, i))
            || exists i: nat :: LastWriteAt(env, s, ops, i, hardware)
    decreases |ops|
  {
    if ops != [] {
      var n := |ops| - 1;
      HardwareIsLastWrite(env, s, ops[..n]);
      WriteStep(env, s, ops);
      if !WritesAt(env, s, ops, n) {
        if i: nat :| LastWriteAt(env, s, ops[..n], i, Run(env, s, ops[..n]).hardware) {
          LastWriteStays(env, s, ops, i, Run(env, s, ops[..n]).hardware);
        } else {
          forall i: nat ensures !WritesAt(env, s, ops, i) {
            if i < n { WritesPrefix(env, s, ops, i); }
          }
        }
      }
    }
  }

  lemma {:induction false} StaysReadOnly(env: Env, s: Setting, ops: seq<Op>)
    ensures Run(env, s, ops).readOnly == s.readOnly
    decreases |ops|
  {
    if ops != [] { StaysReadOnly(env, s, ops[..|ops| - 1]); }
  }

  /** Whatever is done to a read-only setting, the hardware keeps what it held. */
  lemma ReadOnlyKept(env: Env, s: Setting, ops: seq<Op>)
    requires s.readOnly
    ensures Run(env, s, ops).hardware == s.hardware
  {
    HardwareIsLastWrite(env, s, ops);
    forall i: nat ensures !WritesAt(env, s, ops, i) {
      if i < |ops| { StaysReadOnly(env, s, ops[..i]); }
    }
  }

  /** The operation lists this value. */
  ghost predicate Lists(op: Op, v: string) {
    (op.Add? || op.AddFull?) && op.v == v
  }

  ghost predicate Listed(ops: seq<Op>, v: string) {
    exists i: nat :: i < |ops| && Lists(ops[i], v)
  }

  ghost predicate HasRaw(ops: seq<Op>, v: string) {
    exists i: nat :: i < |ops| && ops[i].AddFull? && ops[i].v == v
  }

  ghost predicate HasDisplay(ops: seq<Op>, raw: string) {
    exists i: nat :: i < |ops| && ops[i].AddFull? && ops[i].raw == raw
  }

  lemma HistoryAppend(ops: seq<Op>, op: Op, v: string)
    ensures Listed(ops + [op], v) <==> Listed(ops, v) || Lists(op, v)
    ensures HasRaw(ops + [op], v) <==> HasRaw(ops, v) || (op.AddFull? && op.v == v)
    ensures HasDisplay(ops + [op], v) <==> HasDisplay(ops, v) || (op.AddFull? && op.raw == v)
  {
    var more := ops + [op];
    assert forall i :: 0 <= i < |ops| ==> more[i] == ops[i];
    assert more[|ops|] == op;
  }

  /** What a fresh setting knows after any run: exactly the values that were added. */
  lemma {:induction false} KnownIff(env: Env, kind: Kind, hardware: string, ops: seq<Op>, v: string)
    ensures var s := Run(env, Fresh(kind, hardware), ops);
            && (v in s.possible <==> Listed(ops, v))
            && ((s.toRaw.Some? && v in s.toRaw.value) <==> HasRaw(ops, v))
            && ((s.fromRaw.Some? && v in s.fromRaw.value) <==> HasDisplay(ops, v))
    decreases |ops|
  {
    if ops != [] {
      var n := |ops| - 1;
      KnownIff(env, kind, hardware, ops[..n], v);
      HistoryAppend(ops[..n], ops[n], v);
      assert ops == ops[..n] + [ops[n]];
      TablesAfter(env, Run(env, Fresh(kind, hardware), ops[..n]), ops[n]);
    }
  }

  /** Values are listed in the order in which they were first added. */
  lemma {:induction false} ListedInOrder(env: Env, kind: Kind, hardware: string, ops: seq<Op>, i: nat, j: nat, n: nat)
    requires i < j < |Run(env, Fresh(kind, hardware), ops).possible| && n < |ops|
    requires Lists(ops[n], Run(env, Fresh(kind, hardware), ops).possible[j])
    ensures exists m: nat :: m < n && Lists(ops[m], Run(env, Fresh(kind, hardware), ops).possible[i])
    decreases |ops|
  {
    var (k, s) := (|ops| - 1, Run(env, Fresh(kind, hardware), ops));
    var was := Run(env, Fresh(kind, hardware), ops[..k]);
    assert was.possible <= s.possible;
    if n < k {
      KnownIff(env, kind, hardware, ops[..k], s.possible[j]);
      assert Lists(ops[..k][n], s.possible[j]);
      ListedInOrder(env, kind, hardware, ops[..k], i, j, n);
    } else {
      KnownIff(env, kind, hardware, ops[..k], s.possible[i]);
      assert was.possible[i] == s.possible[i];
    }
  }
}
