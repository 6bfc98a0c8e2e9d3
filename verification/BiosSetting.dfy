/** A BIOS setting: possible values, raw-value tables, a cached current value and the hardware value
    behind it. */
module BiosSetting {
  import opened Wrappers

  datatype Kind = UnknownKind | Enumeration | Integer | String

  datatype Error = NothingToDo | NotSupported | InvalidData | Device(code: nat)

  /** Library functions the setting relies on: g_utf8_strdown() and the number parser. */
  datatype Env = Env(lower: string -> string, strtoull: string -> Option<nat>)

  /** What the subclass does when asked to write or read the hardware. */
  datatype Io = NotImplemented | Fails(error: Error) | Works

  datatype Setting = Setting(
    kind: Kind,
    readOnly: bool,
    lowerBound: nat,
    upperBound: nat,
    possible: seq<string>,
    toRaw: Option<map<string, string>>,
    fromRaw: Option<map<string, string>>,
    current: Option<string>,
    // the value the firmware holds
    hardware: string)

  function Fresh(kind: Kind, hardware: string): Setting {
    Setting(kind, false, 0, 0, [], None, None, None, hardware)
  }

  // ---------------------------------------------------------------- adding values

  function AddPossible(s: Setting, v: string): Setting {
    if v in s.possible then s else s.(possible := s.possible + [v])
  }

  function AddPossibleFull(s: Setting, v: string, raw: string): Setting {
    var to := if s.toRaw.Some? then s.toRaw.value else map[];
    var from := if s.fromRaw.Some? then s.fromRaw.value else map[];
    AddPossible(s.(toRaw := Some(to[v := raw]), fromRaw := Some(from[raw := v])), v)
  }

  // ---------------------------------------------------------------- mapping

  predicate Contains(s: string, part: string) {
    exists i :: 0 <= i <= |s| && part <= s[i..]
  }

  /** fwupd_bios_setting_key_is_positive() */
  predicate IsPositive(key: string) {
    Contains(key, "enable") || key == "true" || key == "1" || key == "on"
  }

  /** fwupd_bios_setting_key_is_negative() */
  predicate IsNegative(key: string) {
    Contains(key, "disable") || key == "false" || key == "0" || key == "off"
  }

  /** Equal ignoring case, or of the same polarity. */
  predicate Matches(env: Env, key: string, possible: string) {
    var k, p := env.lower(key), env.lower(possible);
    k == p || (IsPositive(p) && IsPositive(k)) || (IsNegative(p) && IsNegative(k))
  }

  /** The first listed value that matches. */
  ghost function FirstMatch(env: Env, key: string, possible: seq<string>): Option<string> {
    if possible == [] then None
    else if Matches(env, key, possible[0]) then Some(possible[0])
    else FirstMatch(env, key, possible[1..])
  }

  /** fwupd_bios_setting_map_possible_value() */
  ghost function MapValue(env: Env, s: Setting, key: string): Result<string, Error> {
    if s.possible == [] then Err(NotSupported)
    else if s.toRaw.Some? then
      if key in s.toRaw.value then Ok(s.toRaw.value[key])
      else if s.fromRaw.Some? && key in s.fromRaw.value then Ok(key)
      else Err(NotSupported)
    else
      match FirstMatch(env, key, s.possible)
      case Some(v) => Ok(v)
      case None => Err(NotSupported)
  }

  // ---------------------------------------------------------------- writing and reading

  /** fwupd_bios_setting_validate_value(): None when the value is acceptable. */
  function Validate(env: Env, s: Setting, value: string): Option<Error> {
    match s.kind
    case Integer =>
      (match env.strtoull(value)
       case None => Some(InvalidData)
       case Some(n) => if n < s.lowerBound || n > s.upperBound then Some(NotSupported) else None)
    case String => if |value| < s.lowerBound || |value| > s.upperBound then Some(NotSupported) else None
    case Enumeration => None
    case UnknownKind => Some(NotSupported)
  }

  ghost function RawOf(env: Env, s: Setting, value: string): Result<string, Error> {
    if s.kind.Enumeration? then MapValue(env, s, value) else Ok(value)
  }

  /** Why a write is refused, if it is. */
  ghost function WriteError(env: Env, s: Setting, value: string, io: Io): Option<Error> {
    if s.current == Some(value) then Some(NothingToDo)
    else if s.readOnly then Some(NotSupported)
    else if RawOf(env, s, value).Err? then Some(RawOf(env, s, value).error)
    else if Validate(env, s, RawOf(env, s, value).value).Some? then Validate(env, s, RawOf(env, s, value).value)
    else match io
         case NotImplemented => Some(NotSupported)
         case Fails(e) => Some(e)
         case Works => None
  }

  /** What is cached after `raw` was written for `value`. */
  ghost function Displayed(s: Setting, value: string, raw: string): string {
    if s.kind.Enumeration? && s.fromRaw.Some? && raw in s.fromRaw.value then s.fromRaw.value[raw] else value
  }

  ghost function Write(env: Env, s: Setting, value: string, io: Io): Setting {
    if WriteError(env, s, value, io).Some? then s
    else
      var raw := RawOf(env, s, value).value;
      s.(hardware := raw, current := Some(Displayed(s, value, raw)))
  }

  ghost function SetupError(s: Setting, io: Io): Option<Error> {
    match io
    case NotImplemented => Some(NotSupported)
    case Fails(e) => Some(e)
    case Works => if s.fromRaw.Some? && s.hardware !in s.fromRaw.value then Some(NotSupported) else None
  }

  ghost function Setup(s: Setting, io: Io): Setting {
    if SetupError(s, io).Some? then s
    else s.(current := Some(if s.fromRaw.Some? then s.fromRaw.value[s.hardware] else s.hardware))
  }

  // ---------------------------------------------------------------- the object

  class FwupdBiosSetting {
    var kind: Kind
    var readOnly: bool
    var lowerBound: nat
    var upperBound: nat
    var possibleValues: seq<string>
    var toRaw: Option<map<string, string>>
    var fromRaw: Option<map<string, string>>
    var currentValue: Option<string>
    var hardware: string

    ghost function Model(): Setting
      reads this
    {
      Setting(kind, readOnly, lowerBound, upperBound, possibleValues, toRaw, fromRaw, currentValue, hardware)
    }

    constructor (kind: Kind, hardware: string)
      ensures Model() == Fresh(kind, hardware)
    {
      this.kind, this.hardware := kind, hardware;
      readOnly, lowerBound, upperBound := false, 0, 0;
      possibleValues, toRaw, fromRaw, currentValue := [], None, None, None;
    }

    /** fwupd_bios_setting_has_possible_value(): with no values listed, anything goes. */
    method HasPossibleValue(val: string) returns (r: bool)
      ensures r <==> possibleValues == [] || val in possibleValues
    {
      if |possibleValues| == 0 {
        return true;
      }
      for i := 0 to |possibleValues|
        invariant val !in possibleValues[..i]
      {
        if possibleValues[i] == val {
          return true;
        }
      }
      return false;
    }

    /** fwupd_bios_setting_add_possible_value() */
    method AddPossibleValue(v: string)
      modifies this
      ensures Model() == AddPossible(old(Model()), v)
    {
      var has := HasPossibleValue(v);
      if |possibleValues| > 0 && has {
        return;
      }
      possibleValues := possibleValues + [v];
    }

    /** fwupd_bios_setting_add_possible_value_full() */
    method AddPossibleValueFull(v: string, raw: string)
      modifies this
      ensures Model() == AddPossibleFull(old(Model()), v, raw)
    {
      if toRaw.None? {
        toRaw := Some(map[]);
      }
      toRaw := Some(toRaw.value[v := raw]);
      if fromRaw.None? {
        fromRaw := Some(map[]);
      }
      fromRaw := Some(fromRaw.value[raw := v]);
      AddPossibleValue(v);
    }

    method MapPossibleValue(env: Env, key: string) returns (r: Result<string, Error>)
      requires kind.Enumeration?
      ensures r == MapValue(env, Model(), key)
    {
      if |possibleValues| == 0 {
        return Err(NotSupported);
      }
      if toRaw.Some? {
        if key in toRaw.value {
          return Ok(toRaw.value[key]);
        }
        if fromRaw.Some? && key in fromRaw.value {
          return Ok(key);
        }
        return Err(NotSupported);
      }
      var lowerKey := env.lower(key);
      var positiveKey, negativeKey := IsPositive(lowerKey), IsNegative(lowerKey);
      var i := 0;
      while i < |possibleValues|
        invariant 0 <= i <= |possibleValues|
        invariant FirstMatch(env, key, possibleValues) == FirstMatch(env, key, possibleValues[i..])
      {
        var possible := possibleValues[i];
        var lowerPossible := env.lower(possible);
        if lowerPossible == lowerKey {
          return Ok(possible);
        }
        if (IsPositive(lowerPossible) && positiveKey) || (IsNegative(lowerPossible) && negativeKey) {
          return Ok(possible);
        }
        assert possibleValues[i..][1..] == possibleValues[i + 1..];
        i := i + 1;
      }
      return Err(NotSupported);
    }

    /** fwupd_bios_setting_write_value() */
    method WriteValue(env: Env, value: string, io: Io) returns (error: Option<Error>)
      modifies this
      ensures error == old(WriteError(env, Model(), value, io))
      ensures error.Some? ==> Model() == old(Model())
      ensures Model() == old(Write(env, Model(), value, io))
    {
      if currentValue == Some(value) {
        return Some(NothingToDo);
      }
      if readOnly {
        return Some(NotSupported);
      }
      var raw := value;
      if kind.Enumeration? {
        var mapped := MapPossibleValue(env, value);
        if mapped.Err? {
          return Some(mapped.error);
        }
        raw := mapped.value;
      }
      var setting := Setting(kind, readOnly, lowerBound, upperBound, possibleValues, toRaw, fromRaw, currentValue, hardware);
      var invalid := Validate(env, setting, raw);
      if invalid.Some? {
        return invalid;
      }
      match io {
        case NotImplemented => return Some(NotSupported);
        case Fails(e) => return Some(e);
        case Works => hardware := raw;
      }
      var display := value;
      if kind.Enumeration? && fromRaw.Some? && raw in fromRaw.value {
        display := fromRaw.value[raw];
      }
      currentValue := Some(display);
      return None;
    }

    /** fwupd_bios_setting_setup() */
    method SetupValue(io: Io) returns (error: Option<Error>)
      modifies this
      ensures error == old(SetupError(Model(), io))
      ensures error.Some? ==> Model() == old(Model())
      ensures Model() == old(Setup(Model(), io))
    {
      match io {
        case NotImplemented => return Some(NotSupported);
        case Fails(e) => return Some(e);
        case Works =>
      }
      var raw := hardware;
      if fromRaw.Some? {
        if raw !in fromRaw.value {
          return Some(NotSupported);
        }
        currentValue := Some(fromRaw.value[raw]);
      } else {
        currentValue := Some(raw);
      }
      return None;
    }
  }

  // ---------------------------------------------------------------- whole runs

  datatype Op =
    | Add(v: string)
    | AddFull(v: string, raw: string)
    | WriteOp(value: string, io: Io)
    | SetupOp(io: Io)

  ghost function Apply(env: Env, s: Setting, op: Op): Setting {
    match op
    case Add(v) => AddPossible(s, v)
    case AddFull(v, raw) => AddPossibleFull(s, v, raw)
    case WriteOp(value, io) => Write(env, s, value, io)
    case SetupOp(io) => Setup(s, io)
  }

  ghost function Run(env: Env, s: Setting, ops: seq<Op>): Setting {
    if ops == [] then s else Apply(env, Run(env, s, ops[..|ops| - 1]), ops[|ops| - 1])
  }

  ghost predicate Succeeds(env: Env, s: Setting, op: Op) {
    match op
    case WriteOp(value, io) => WriteError(env, s, value, io).None?
    case SetupOp(io) => SetupError(s, io).None?
    case _ => true
  }

  ghost predicate NoDuplicates(xs: seq<string>) {
    forall i, j :: 0 <= i < j < |xs| ==> xs[i] != xs[j]
  }

  /** A display value with a raw value: that raw value has a display value too. */
  ghost predicate RawKnown(s: Setting, v: string) {
    s.toRaw.Some? && s.fromRaw.Some? && v in s.toRaw.value ==> s.toRaw.value[v] in s.fromRaw.value
  }

  /** A raw value with a display value: that display value is listed and has a raw value too. */
  ghost predicate DisplayKnown(s: Setting, r: string) {
    s.toRaw.Some? && s.fromRaw.Some? && r in s.fromRaw.value ==>
      s.fromRaw.value[r] in s.possible && s.fromRaw.value[r] in s.toRaw.value
  }

  /** The two tables need not be inverse, but each raw value has a listed display value. */
  ghost predicate Tables(s: Setting) {
    && NoDuplicates(s.possible)
    && s.toRaw.Some? == s.fromRaw.Some?
    && (forall v :: RawKnown(s, v))
    && (forall r :: DisplayKnown(s, r))
  }

  /** The cached value is the display value of what the hardware holds, and a listed one. */
  ghost predicate Coherent(s: Setting) {
    && s.fromRaw.Some? && s.hardware in s.fromRaw.value
    && s.current == Some(s.fromRaw.value[s.hardware]) && s.current.value in s.possible
  }

  lemma TablesAddFull(s: Setting, v: string, raw: string)
    requires Tables(s)
    ensures Tables(AddPossibleFull(s, v, raw)) && s.possible <= AddPossibleFull(s, v, raw).possible
  {
    var s' := AddPossibleFull(s, v, raw);
    forall x ensures RawKnown(s', x) { assert RawKnown(s, x); }
    forall r ensures DisplayKnown(s', r) { assert DisplayKnown(s, r); }
  }

  /** An operation that adds no raw value leaves the tables alone. */
  lemma TablesKept(s: Setting, s': Setting)
    requires Tables(s) && s'.toRaw == s.toRaw && s'.fromRaw == s.fromRaw
    requires NoDuplicates(s'.possible) && s.possible <= s'.possible
    ensures Tables(s')
  {
    forall x ensures RawKnown(s', x) { assert RawKnown(s, x); }
    forall r ensures DisplayKnown(s', r) { assert DisplayKnown(s, r); }
  }

  lemma TablesStep(env: Env, s: Setting, op: Op)
    requires Tables(s)
    ensures Tables(Apply(env, s, op)) && Apply(env, s, op).kind == s.kind
  {
    if op.AddFull? { TablesAddFull(s, op.v, op.raw); } else { TablesKept(s, Apply(env, s, op)); }
  }

  lemma {:induction false} TablesRun(env: Env, s: Setting, ops: seq<Op>)
    requires Tables(s)
    ensures Tables(Run(env, s, ops)) && Run(env, s, ops).kind == s.kind
    decreases |ops|
  {
    if ops != [] {
      TablesRun(env, s, ops[..|ops| - 1]);
      TablesStep(env, Run(env, s, ops[..|ops| - 1]), ops[|ops| - 1]);
    }
  }

  lemma MapsIntoTable(env: Env, s: Setting, value: string)
    requires Tables(s) && s.fromRaw.Some? && MapValue(env, s, value).Ok?
    ensures MapValue(env, s, value).value in s.fromRaw.value
    ensures s.fromRaw.value[MapValue(env, s, value).value] in s.possible
  {
    var raw := MapValue(env, s, value).value;
    assert RawKnown(s, value);
    assert DisplayKnown(s, raw);
  }

  /** A write that succeeds stores a raw value that has a display value. */
  lemma WriteCoherent(env: Env, s: Setting, value: string, io: Io)
    requires Tables(s) && s.kind.Enumeration? && s.fromRaw.Some? && WriteError(env, s, value, io).None?
    ensures Coherent(Write(env, s, value, io))
  {
    MapsIntoTable(env, s, value);
  }

  /** After any run of adds, writes and setups of an enumeration with raw values, a write or setup that
      succeeds leaves cache and hardware coherent, and a setup right after it changes nothing. */
  lemma SuccessIsCoherent(env: Env, hardware: string, ops: seq<Op>, op: Op)
    requires op.WriteOp? || op.SetupOp?
    requires var s := Run(env, Fresh(Enumeration, hardware), ops); s.fromRaw.Some? && Succeeds(env, s, op)
    ensures var s := Apply(env, Run(env, Fresh(Enumeration, hardware), ops), op);
            Coherent(s) && forall io :: Setup(s, io) == s
  {
    var s := Run(env, Fresh(Enumeration, hardware), ops);
    TablesRun(env, Fresh(Enumeration, hardware), ops);
    if op.WriteOp? { WriteCoherent(env, s, op.value, op.io); } else { assert DisplayKnown(s, s.hardware); }
  }

  /** The operations of a run that succeed. */
  ghost function Successful(env: Env, s: Setting, ops: seq<Op>): seq<Op> {
    if ops == [] then []
    else
      var (init, op) := (ops[..|ops| - 1], ops[|ops| - 1]);
      Successful(env, s, init) + if Succeeds(env, Run(env, s, init), op) then [op] else []
  }

  /** Failed operations leave no trace: any run comes to the same as the run of its successful operations
      alone, in which each of them succeeds again. */
  lemma {:induction false} FailuresLeaveNoTrace(env: Env, s: Setting, ops: seq<Op>)
    ensures Run(env, s, ops) == Run(env, s, Successful(env, s, ops))
    ensures Successful(env, s, Successful(env, s, ops)) == Successful(env, s, ops)
    decreases |ops|
  {
    if ops != [] {
      var (init, op) := (ops[..|ops| - 1], ops[|ops| - 1]);
      FailuresLeaveNoTrace(env, s, init);
      RunAppend(env, s, Successful(env, s, init), op);
      if !Succeeds(env, Run(env, s, init), op) { assert Successful(env, s, ops) == Successful(env, s, init); }
    }
  }

  lemma RunAppend(env: Env, s: Setting, ops: seq<Op>, op: Op)
    ensures Run(env, s, ops + [op]) == Apply(env, Run(env, s, ops), op)
    ensures Successful(env, s, ops + [op])
         == Successful(env, s, ops) + if Succeeds(env, Run(env, s, ops), op) then [op] else []
  {
    assert (ops + [op])[..|ops|] == ops;
  }

  lemma AddFullCoherent(s: Setting, v: string, raw: string)
    requires Coherent(s)
    ensures Coherent(AddPossibleFull(s, v, raw)) <==> raw != s.hardware || Some(v) == s.current
  {
    var s' := AddPossibleFull(s, v, raw);
    assert s'.fromRaw.value == s.fromRaw.value[raw := v];
    assert s.current.value in s'.possible;
  }

  /** What the hardware is given was checked: a number within the bounds, a text of a length within
      them, or for an enumeration a listed value or the raw value of one. */
  lemma OnlyCheckedValues(env: Env, s: Setting, value: string)
    requires Tables(s) && WriteError(env, s, value, Works).None?
    ensures var hardware := Write(env, s, value, Works).hardware;
            match s.kind
            case Integer =>
              env.strtoull(hardware).Some? && s.lowerBound <= env.strtoull(hardware).value <= s.upperBound
            case String => s.lowerBound <= |hardware| <= s.upperBound
            case Enumeration => if s.fromRaw.Some? then hardware in s.fromRaw.value else hardware in s.possible
            case UnknownKind => false
  {
    if s.kind.Enumeration? {
      if s.fromRaw.Some? { MapsIntoTable(env, s, value); } else { FirstMatchMeaning(env, value, s.possible); }
    }
  }

  /** Once coherent, every operation keeps it so, except a redefinition of the very raw value the
      hardware holds. */
  lemma StaysCoherent(env: Env, s: Setting, op: Op)
    requires Tables(s) && s.kind.Enumeration? && Coherent(s)
    ensures Coherent(Apply(env, s, op)) <==> !(op.AddFull? && op.raw == s.hardware && Some(op.v) != s.current)
  {
    match op
    case AddFull(v, raw) => AddFullCoherent(s, v, raw);
    case WriteOp(value, io) =>
      if Succeeds(env, s, op) { WriteCoherent(env, s, value, io); }
    case SetupOp(io) => assert Setup(s, io) == s;
    case Add(v) =>
  }

  /** The i-th operation is the last that gave `value` a raw value. */
  ghost predicate LastAddOf(ops: seq<Op>, value: string, i: nat) {
    && i < |ops| && ops[i].AddFull? && ops[i].v == value
    && forall j :: i < j < |ops| && ops[j].AddFull? ==> ops[j].v != value
  }

  /** The i-th operation is the last that gave `raw` a display value. */
  ghost predicate LastAddFor(ops: seq<Op>, raw: string, i: nat) {
    && i < |ops| && ops[i].AddFull? && ops[i].raw == raw
    && forall j :: i < j < |ops| && ops[j].AddFull? ==> ops[j].raw != raw
  }

  /** Nothing but an add writes to the tables. */
  lemma TablesAfter(env: Env, s: Setting, op: Op)
    ensures var r := Apply(env, s, op);
            if op.AddFull? then
              && r.toRaw == Some((if s.toRaw.Some? then s.toRaw.value else map[])[op.v := op.raw])
              && r.fromRaw == Some((if s.fromRaw.Some? then s.fromRaw.value else map[])[op.raw := op.v])
            else r.toRaw == s.toRaw && r.fromRaw == s.fromRaw
  {
  }

  /** In each table the last add wins. */
  lemma {:induction false} ToRawIsLast(env: Env, s: Setting, ops: seq<Op>, i: nat)
    requires i < |ops| && ops[i].AddFull? && LastAddOf(ops, ops[i].v, i)
    ensures var to := Run(env, s, ops).toRaw;
            to.Some? && ops[i].v in to.value && to.value[ops[i].v] == ops[i].raw
    decreases |ops|
  {
    var n := |ops| - 1;
    TablesAfter(env, Run(env, s, ops[..n]), ops[n]);
    if i < n { ToRawIsLast(env, s, ops[..n], i); }
  }

  lemma {:induction false} FromRawIsLast(env: Env, s: Setting, ops: seq<Op>, i: nat)
    requires i < |ops| && ops[i].AddFull? && LastAddFor(ops, ops[i].raw, i)
    ensures var from := Run(env, s, ops).fromRaw;
            from.Some? && ops[i].raw in from.value && from.value[ops[i].raw] == ops[i].v
    decreases |ops|
  {
    var n := |ops| - 1;
    TablesAfter(env, Run(env, s, ops[..n]), ops[n]);
    if i < n { FromRawIsLast(env, s, ops[..n], i); }
  }

  /** The last of the operations from i on that gave `raw` a display value. */
  lemma {:induction false} FindLastAddFor(ops: seq<Op>, raw: string, i: nat) returns (k: nat)
    requires i < |ops| && ops[i].AddFull? && ops[i].raw == raw
    ensures i <= k && LastAddFor(ops, raw, k)
    decreases |ops| - i
  {
    k := i;
    if j :| i < j < |ops| && ops[j].AddFull? && ops[j].raw == raw {
      k := FindLastAddFor(ops, raw, j);
    }
  }

  /** After any run, a display value that is written is cached as it was written if and only if no add
      gave its raw value another display value since its own last add. */
  lemma ReadsBackWhatWasWritten(env: Env, s: Setting, ops: seq<Op>, i: nat, io: Io)
    requires s.kind.Enumeration? && Tables(s) && i < |ops| && ops[i].AddFull? && LastAddOf(ops, ops[i].v, i)
    requires WriteError(env, Run(env, s, ops), ops[i].v, io).None?
    ensures Write(env, Run(env, s, ops), ops[i].v, io).current == Some(ops[i].v) <==>
        forall j :: i < j < |ops| && ops[j].AddFull? ==> ops[j].raw != ops[i].raw
  {
    var k := FindLastAddFor(ops, ops[i].raw, i);
    TablesRun(env, s, ops);
    ToRawIsLast(env, s, ops, i);
    FromRawIsLast(env, s, ops, k);
  }

  // ---------------------------------------------------------------- fuzzy mapping

  /** The value at `i` is the first that matches. */
  ghost predicate IsFirstMatch(env: Env, key: string, possible: seq<string>, i: nat) {
    i < |possible| && Matches(env, key, possible[i]) && forall j :: 0 <= j < i ==> !Matches(env, key, possible[j])
  }

  lemma {:induction false} FirstMatchMeaning(env: Env, key: string, possible: seq<string>)
    ensures FirstMatch(env, key, possible).None? <==> forall i :: 0 <= i < |possible| ==> !Matches(env, key, possible[i])
    ensures FirstMatch(env, key, possible).Some? ==>
      exists i: nat :: IsFirstMatch(env, key, possible, i) && possible[i] == FirstMatch(env, key, possible).value
  {
    if possible != [] {
      if Matches(env, key, possible[0]) {
        assert IsFirstMatch(env, key, possible, 0);
      } else {
        var rest := possible[1..];
        FirstMatchMeaning(env, key, rest);
        assert forall i :: 1 <= i < |possible| ==> possible[i] == rest[i - 1];
        if FirstMatch(env, key, rest).Some? {
          var i: nat :| IsFirstMatch(env, key, rest, i) && rest[i] == FirstMatch(env, key, rest).value;
          assert IsFirstMatch(env, key, possible, i + 1);
        }
      }
    }
  }

  lemma FirstMatchAt(env: Env, key: string, possible: seq<string>, i: nat)
    requires IsFirstMatch(env, key, possible, i)
    ensures FirstMatch(env, key, possible) == Some(possible[i])
  {
    FirstMatchMeaning(env, key, possible);
    var k: nat :| IsFirstMatch(env, key, possible, k) && possible[k] == FirstMatch(env, key, possible).value;
  }

  ghost predicate Positive(env: Env, v: string) {
    IsPositive(env.lower(v))
  }

  ghost predicate Negative(env: Env, v: string) {
    IsNegative(env.lower(v))
  }

  /** Mapping a mapped value changes nothing, for every key. */
  ghost predicate Idempotent(env: Env, possible: seq<string>) {
    forall key :: FirstMatch(env, key, possible).Some? ==>
      FirstMatch(env, FirstMatch(env, key, possible).value, possible) == FirstMatch(env, key, possible)
  }

  /** The first positive value is negative too, and a negative value is listed before it. */
  ghost predicate PositiveTrap(env: Env, possible: seq<string>) {
    exists j, i :: 0 <= j < i < |possible| && Negative(env, possible[j]) && Positive(env, possible[i])
      && Negative(env, possible[i]) && forall k :: 0 <= k < i ==> !Positive(env, possible[k])
  }

  ghost predicate NegativeTrap(env: Env, possible: seq<string>) {
    exists j, i :: 0 <= j < i < |possible| && Positive(env, possible[j]) && Negative(env, possible[i])
      && Positive(env, possible[i]) && forall k :: 0 <= k < i ==> !Negative(env, possible[k])
  }

  /** If no first positive or negative value is ambiguous, a match of a match is a match. */
  lemma MapTwice(env: Env, possible: seq<string>, key: string)
    requires !PositiveTrap(env, possible) && !NegativeTrap(env, possible) && FirstMatch(env, key, possible).Some?
    ensures FirstMatch(env, FirstMatch(env, key, possible).value, possible) == FirstMatch(env, key, possible)
  {
    FirstMatchMeaning(env, key, possible);
    var i: nat :| IsFirstMatch(env, key, possible, i) && possible[i] == FirstMatch(env, key, possible).value;
    var v := possible[i];
    forall j | 0 <= j < i
      ensures !Matches(env, v, possible[j])
    {
      assert !Matches(env, key, possible[j]);
    }
    FirstMatchAt(env, v, possible, i);
  }

  lemma PositiveTrapBreaks(env: Env, possible: seq<string>)
    requires env.lower("on") == "on" && PositiveTrap(env, possible)
    ensures !Idempotent(env, possible)
  {
    var j, i :| 0 <= j < i < |possible| && Negative(env, possible[j]) && Positive(env, possible[i])
      && Negative(env, possible[i]) && forall k :: 0 <= k < i ==> !Positive(env, possible[k]);
    Polarity("on");
    assert forall k :: 0 <= k < i ==> !Matches(env, "on", possible[k]);
    FirstMatchAt(env, "on", possible, i);
    TrapMoves(env, possible, j, i);
  }

  lemma NegativeTrapBreaks(env: Env, possible: seq<string>)
    requires env.lower("off") == "off" && NegativeTrap(env, possible)
    ensures !Idempotent(env, possible)
  {
    var j, i :| 0 <= j < i < |possible| && Positive(env, possible[j]) && Negative(env, possible[i])
      && Positive(env, possible[i]) && forall k :: 0 <= k < i ==> !Negative(env, possible[k]);
    Polarity("off");
    assert forall k :: 0 <= k < i ==> !Matches(env, "off", possible[k]);
    FirstMatchAt(env, "off", possible, i);
    TrapMoves(env, possible, j, i);
  }

  lemma Polarity(key: string)
    requires key == "on" || key == "off"
    ensures IsNegative(key) <==> key == "off"
    ensures IsPositive(key) <==> key == "on"
  {
  }

  lemma TrapMoves(env: Env, possible: seq<string>, j: nat, i: nat)
    requires j < i < |possible| && Matches(env, possible[i], possible[j]) && env.lower(possible[i]) != env.lower(possible[j])
    requires forall k :: 0 <= k < i ==> env.lower(possible[k]) != env.lower(possible[i])
    ensures FirstMatch(env, possible[i], possible).Some? && FirstMatch(env, possible[i], possible) != Some(possible[i])
  {
    FirstMatchMeaning(env, possible[i], possible);
    var k: nat :| IsFirstMatch(env, possible[i], possible, k) && possible[k] == FirstMatch(env, possible[i], possible).value;
  }

  /** Mapping is idempotent for every key exactly when neither the first positive nor the first
      negative value is ambiguous behind a value of the other polarity; listing no ambiguous value at
      all is enough. */
  lemma IdempotentIff(env: Env, possible: seq<string>)
    requires env.lower("on") == "on" && env.lower("off") == "off"
    ensures Idempotent(env, possible) <==> !PositiveTrap(env, possible) && !NegativeTrap(env, possible)
  {
    if PositiveTrap(env, possible) {
      PositiveTrapBreaks(env, possible);
    } else if NegativeTrap(env, possible) {
      NegativeTrapBreaks(env, possible);
    } else {
      forall key | FirstMatch(env, key, possible).Some?
        ensures FirstMatch(env, FirstMatch(env, key, possible).value, possible) == FirstMatch(env, key, possible)
      {
        MapTwice(env, possible, key);
      }
    }
  }

  /** Without raw values: after a successful write the cached spelling maps to the hardware value, and
      unless an ambiguous value is in the way it still does after a following setup. */
  lemma FuzzyWriteThenSetup(env: Env, s: Setting, value: string)
    requires s.kind.Enumeration? && s.toRaw.None? && s.fromRaw.None? && WriteError(env, s, value, Works).None?
    ensures var w := Write(env, s, value, Works);
            MapValue(env, w, w.current.value) == Ok(w.hardware)
    ensures var w := Setup(Write(env, s, value, Works), Works);
            && w.current == Some(w.hardware) && w.hardware in s.possible
            && (!PositiveTrap(env, s.possible) && !NegativeTrap(env, s.possible) ==>
                  MapValue(env, w, w.current.value) == Ok(w.hardware))
  {
    FirstMatchMeaning(env, value, s.possible);
    if !PositiveTrap(env, s.possible) && !NegativeTrap(env, s.possible) { MapTwice(env, s.possible, value); }
  }
}
