/** Turning captured USB control frames into the device phases of an emulation. */
module Pcap {
  import opened Wrappers
  import opened Allocator

  /** A field of a captured frame: one text when it occurs once, else one text for each occurrence. */
  datatype Column = Text(text: string) | List(texts: seq<string>)

  type Layers = map<string, Column>

  /** A control frame with descriptors. `wanted` says that it is a reply whose vendor and product were asked for. */
  datatype Frame = Frame(types: seq<string>, wanted: bool, layers: Layers)

  datatype Error = KeyError | IndexError | OverflowError | UnknownDescriptor

  const Device := 1

  const Configuration := 2

  const StringDescriptor := 3

  const InterfaceType := 4

  const EndpointType := 5

  const Extra := 33

  const InterfaceNumber := "usb_usb_bInterfaceNumber"

  const EndpointAddress := "usb_usb_bEndpointAddress"

  const InterfaceTable := [
    (InterfaceNumber, "InterfaceNumber"), ("usb_usb_bInterfaceClass", "InterfaceClass"),
    ("usb_usb_bInterfaceSubClass", "InterfaceSubClass"), ("usb_usb_bInterfaceProtocol", "InterfaceProtocol"),
    ("usb_usb_iInterface", "Interface"), ("usb_usb_bNumEndpoints", "NumEndpoints")]

  const EndpointTable := [
    (EndpointAddress, "EndpointAddress"), ("usb_usb_bInterval", "Interval"),
    ("usb_usb_wMaxPacketSize", "MaxPacketSize")]

  // ---------------------------------------------------------------- reading a frame

  /** len(): of a text, its number of characters. */
  function Len(c: Column): nat {
    match c
    case Text(t) => |t|
    case List(ts) => |ts|
  }

  /** The subscript: of a text, one of its characters. */
  function Subscript(layers: Layers, key: string, i: nat): Result<string, Error> {
    if key !in layers then Err(KeyError)
    else if i >= Len(layers[key]) then Err(IndexError)
    else Ok(if layers[key].Text? then [layers[key].text[i]] else layers[key].texts[i])
  }

  /** A text stands for itself; a list is subscripted. */
  function Value(layers: Layers, key: string, i: nat): Result<string, Error> {
    if key in layers && layers[key].Text? then Ok(layers[key].text) else Subscript(layers, key, i)
  }

  /** The first n fields of the i-th interface; a zero interface number is left out. */
  function InterfaceFields(parse: string -> int, layers: Layers, i: nat, n: nat): Result<Fields, Error>
    requires n <= |InterfaceTable|
  {
    if n == 0 then Ok(map[])
    else
      var r := InterfaceFields(parse, layers, i, n - 1);
      if r.Err? then r
      else
        var (key, name) := InterfaceTable[n - 1];
        var v := Value(layers, key, i);
        if v.Err? then Err(v.error)
        else if key == InterfaceNumber && parse(v.value) == 0 then r
        else Ok(r.value[name := parse(v.value)])
  }

  /** The first n fields of the i-th endpoint; zeros are left out. */
  function EndpointFields(parse: string -> int, layers: Layers, i: nat, n: nat): Result<Fields, Error>
    requires n <= |EndpointTable|
  {
    if n == 0 then Ok(map[])
    else
      var r := EndpointFields(parse, layers, i, n - 1);
      if r.Err? then r
      else
        var (key, name) := EndpointTable[n - 1];
        var v := Subscript(layers, key, i);
        if v.Err? then Err(v.error)
        else if parse(v.value) == 0 then r
        else Ok(r.value[name := parse(v.value)])
  }

  /** What a field of the i-th descriptor should read, by the name it has in the capture. */
  ghost predicate Reads(parse: string -> int, layers: Layers, key: string, i: nat, v: int) {
    && key in layers
    && (if layers[key].Text? then v == parse(layers[key].text) else i < |layers[key].texts| && v == parse(layers[key].texts[i]))
  }

  /** The fields of an interface, by name; a zero interface number is left out. */
  lemma InterfaceFieldsMeaning(parse: string -> int, layers: Layers, i: nat)
    requires InterfaceFields(parse, layers, i, |InterfaceTable|).Ok?
    ensures var f := InterfaceFields(parse, layers, i, |InterfaceTable|).value;
            && f.Keys - {"InterfaceNumber"}
               == {"InterfaceClass", "InterfaceSubClass", "InterfaceProtocol", "Interface", "NumEndpoints"}
            && (if "InterfaceNumber" in f
                then f["InterfaceNumber"] != 0 && Reads(parse, layers, "usb_usb_bInterfaceNumber", i, f["InterfaceNumber"])
                else Reads(parse, layers, "usb_usb_bInterfaceNumber", i, 0))
            && Reads(parse, layers, "usb_usb_bInterfaceClass", i, f["InterfaceClass"])
            && Reads(parse, layers, "usb_usb_bInterfaceSubClass", i, f["InterfaceSubClass"])
            && Reads(parse, layers, "usb_usb_bInterfaceProtocol", i, f["InterfaceProtocol"])
            && Reads(parse, layers, "usb_usb_iInterface", i, f["Interface"])
            && Reads(parse, layers, "usb_usb_bNumEndpoints", i, f["NumEndpoints"])
  {
    var first, c, s, p, t, e := InterfaceChain(parse, layers, i, 1);
    NamesDiffer();
    FiveMore(first, "InterfaceClass", c, "InterfaceSubClass", s, "InterfaceProtocol", p, "Interface", t, "NumEndpoints", e);
  }

  lemma InterfaceChain(parse: string -> int, layers: Layers, i: nat, k: nat)
    returns (first: Fields, c: int, s: int, p: int, t: int, e: int)
    requires k == 1 && InterfaceFields(parse, layers, i, |InterfaceTable|).Ok?
    ensures if first == map[] then Reads(parse, layers, "usb_usb_bInterfaceNumber", i, 0)
            else exists v :: v != 0 && first == map["InterfaceNumber" := v] && Reads(parse, layers, "usb_usb_bInterfaceNumber", i, v)
    ensures Reads(parse, layers, "usb_usb_bInterfaceClass", i, c) && Reads(parse, layers, "usb_usb_bInterfaceSubClass", i, s)
    ensures Reads(parse, layers, "usb_usb_bInterfaceProtocol", i, p) && Reads(parse, layers, "usb_usb_iInterface", i, t)
    ensures Reads(parse, layers, "usb_usb_bNumEndpoints", i, e)
    ensures InterfaceFields(parse, layers, i, |InterfaceTable|).value
         == first["InterfaceClass" := c]["InterfaceSubClass" := s]["InterfaceProtocol" := p]["Interface" := t]["NumEndpoints" := e]
  {
    var n := InterfaceField(parse, layers, i, k);
    c := InterfaceField(parse, layers, i, k + 1);
    s := InterfaceField(parse, layers, i, k + 2);
    p := InterfaceField(parse, layers, i, k + 3);
    t := InterfaceField(parse, layers, i, k + 4);
    e := InterfaceField(parse, layers, i, k + 5);
    first := InterfaceFields(parse, layers, i, k).value;
    if n != 0 { assert first == map["InterfaceNumber" := n] && "InterfaceNumber" in first; }
  }

  lemma {:induction false} FieldsBefore(parse: string -> int, layers: Layers, i: nat, m: nat, n: nat)
    requires m <= n <= |InterfaceTable| && InterfaceFields(parse, layers, i, n).Ok?
    ensures InterfaceFields(parse, layers, i, m).Ok?
  {
    if m < n { FieldsBefore(parse, layers, i, m, n - 1); }
  }

  lemma InterfaceField(parse: string -> int, layers: Layers, i: nat, n: nat) returns (v: int)
    requires 1 <= n <= |InterfaceTable| && InterfaceFields(parse, layers, i, |InterfaceTable|).Ok?
    ensures InterfaceFields(parse, layers, i, n).Ok? && InterfaceFields(parse, layers, i, n - 1).Ok?
    ensures Reads(parse, layers, InterfaceTable[n - 1].0, i, v)
    ensures InterfaceFields(parse, layers, i, n).value
         == if InterfaceTable[n - 1].0 == InterfaceNumber && v == 0 then InterfaceFields(parse, layers, i, n - 1).value
            else InterfaceFields(parse, layers, i, n - 1).value[InterfaceTable[n - 1].1 := v]
  {
    FieldsBefore(parse, layers, i, n, |InterfaceTable|);
    FieldsBefore(parse, layers, i, n - 1, |InterfaceTable|);
    v := parse(Value(layers, InterfaceTable[n - 1].0, i).value);
  }

  lemma FiveMore(f: Fields, a: string, va: int, b: string, vb: int, c: string, vc: int, d: string, vd: int, e: string, ve: int)
    requires a != b && a != c && a != d && a != e && b != c && b != d && b != e && c != d && c != e && d != e
    ensures var g := f[a := va][b := vb][c := vc][d := vd][e := ve];
            g.Keys == f.Keys + {a, b, c, d, e} && g[a] == va && g[b] == vb && g[c] == vc && g[d] == vd && g[e] == ve
  {
  }

  lemma NamesDiffer()
    ensures var (n, c, s, p, i, e) := ("InterfaceNumber", "InterfaceClass", "InterfaceSubClass", "InterfaceProtocol", "Interface", "NumEndpoints");
            n != c && n != s && n != p && n != i && n != e && c != s && c != p && c != i && c != e && s != p && s != i && s != e
            && p != i && p != e && i != e
  {
    assert "InterfaceSubClass"[9] != "InterfaceProtocol"[9];
  }

  /** The fields of an endpoint, by name, zeros left out; a single text is read by its characters. */
  lemma EndpointFieldsMeaning(parse: string -> int, layers: Layers, i: nat)
    requires EndpointFields(parse, layers, i, |EndpointTable|).Ok?
    ensures var f := EndpointFields(parse, layers, i, |EndpointTable|).value;
            && f.Keys <= {"EndpointAddress", "Interval", "MaxPacketSize"}
            && HasUnlessZero(parse, layers, "usb_usb_bEndpointAddress", i, f, "EndpointAddress")
            && HasUnlessZero(parse, layers, "usb_usb_bInterval", i, f, "Interval")
            && HasUnlessZero(parse, layers, "usb_usb_wMaxPacketSize", i, f, "MaxPacketSize")
  {
    assert "EndpointAddress" != "Interval" && "EndpointAddress" != "MaxPacketSize" && "Interval" != "MaxPacketSize";
    EndpointField(parse, layers, i, 1);
    EndpointField(parse, layers, i, 2);
    EndpointField(parse, layers, i, 3);
  }

  lemma {:induction false} EndpointBefore(parse: string -> int, layers: Layers, i: nat, m: nat, n: nat)
    requires m <= n <= |EndpointTable| && EndpointFields(parse, layers, i, n).Ok?
    ensures EndpointFields(parse, layers, i, m).Ok?
  {
    if m < n { EndpointBefore(parse, layers, i, m, n - 1); }
  }

  lemma EndpointField(parse: string -> int, layers: Layers, i: nat, n: nat)
    requires 1 <= n <= |EndpointTable| && EndpointFields(parse, layers, i, |EndpointTable|).Ok?
    ensures EndpointFields(parse, layers, i, n).Ok? && EndpointFields(parse, layers, i, n - 1).Ok?
    ensures var (key, name) := EndpointTable[n - 1];
            var (before, f) := (EndpointFields(parse, layers, i, n - 1).value, EndpointFields(parse, layers, i, n).value);
            && (name !in before ==> HasUnlessZero(parse, layers, key, i, f, name))
            && f - {name} == before - {name} && f.Keys <= before.Keys + {name}
  {
    EndpointBefore(parse, layers, i, n, |EndpointTable|);
    EndpointBefore(parse, layers, i, n - 1, |EndpointTable|);
  }

  ghost predicate HasUnlessZero(parse: string -> int, layers: Layers, key: string, i: nat, f: Fields, name: string) {
    && key in layers && i < Len(layers[key])
    && var v := if layers[key].Text? then parse([layers[key].text[i]]) else parse(layers[key].texts[i]);
       if v == 0 then name !in f else name in f && f[name] == v
  }

  // ---------------------------------------------------------------- what a descriptor means

  datatype Action = Skip | NewDevice | Build(op: Op)

  ghost function DecodeInterface(parse: string -> int, layers: Layers, d: nat, i: nat): Result<Action, Error> {
    if InterfaceNumber !in layers then Err(KeyError)
    else if Len(layers[InterfaceNumber]) <= i then Ok(Skip)
    else
      var length := Subscript(layers, "usb_usb_bLength", d);
      var fields := InterfaceFields(parse, layers, i, |InterfaceTable|);
      if length.Err? then Err(length.error)
      else if fields.Err? then Err(fields.error)
      else Ok(Build(Announce(parse(length.value), fields.value)))
  }

  ghost function DecodeEndpoint(parse: string -> int, layers: Layers, i: nat): Result<Action, Error> {
    if EndpointAddress !in layers then Err(KeyError)
    else if Len(layers[EndpointAddress]) <= i then Ok(Skip)
    else
      var fields := EndpointFields(parse, layers, i, |EndpointTable|);
      if fields.Err? then Err(fields.error) else Ok(Build(Arrive(Endpoint(fields.value))))
  }

  /** The d-th descriptor of a frame, when i interfaces and e endpoints have been read. */
  ghost function Decode(parse: string -> int, f: Frame, d: nat, i: nat, e: nat): Result<Action, Error>
    requires d < |f.types|
  {
    var kind := parse(f.types[d]);
    if kind == Device then Ok(if f.wanted then NewDevice else Skip)
    else if kind == InterfaceType then DecodeInterface(parse, f.layers, d, i)
    else if kind == EndpointType then DecodeEndpoint(parse, f.layers, e)
    else if kind == Configuration || kind == StringDescriptor || kind == Extra then Ok(Skip)
    else Err(UnknownDescriptor)
  }

  // ---------------------------------------------------------------- the history of a run

  /** What has been built: the descriptors of each saved device and of the current one, and how many
      endpoints were counted for earlier devices that were never saved. */
  datatype Trace = Trace(past: seq<seq<Op>>, current: Option<seq<Op>>, stale: nat) {

    ghost function Ops(): seq<Op> {
      if current.Some? then current.value else []
    }

    ghost function Interfaces(): nat {
      |Announced(Ops())|
    }

    ghost function Endpoints(): nat {
      stale + |Arrived(Ops())|
    }

    /** A new device: one with interfaces is saved and both counters restart; one without is forgotten,
        and the endpoint counter goes on. */
    ghost function Renewed(): Trace {
      if Interfaces() > 0 then Trace(past + [Ops()], Some([]), 0) else Trace(past, Some([]), Endpoints())
    }

    ghost function Done(action: Action): Result<Trace, Error> {
      match action
      case Skip => Ok(this)
      case NewDevice => Ok(Renewed())
      case Build(op) =>
        if current.None? then Err(KeyError)
        else if op.Announce? && !InByte(op.fields) then Err(OverflowError)
        else Ok(Trace(past, Some(current.value + [op]), stale))
    }
  }

  /** The string index of an interface is recorded as one byte. */
  predicate InByte(fields: Fields) {
    "Interface" in fields && 0 <= fields["Interface"] < 256
  }

  ghost function Next(parse: string -> int, t: Trace, f: Frame, d: nat): Result<Trace, Error>
    requires d < |f.types|
  {
    var action := Decode(parse, f, d, t.Interfaces(), t.Endpoints());
    if action.Err? then Err(action.error) else t.Done(action.value)
  }

  /** After the first n descriptors of a frame. */
  ghost function Within(parse: string -> int, t: Trace, f: Frame, n: nat): Result<Trace, Error>
    requires n <= |f.types|
  {
    if n == 0 then Ok(t)
    else
      var r := Within(parse, t, f, n - 1);
      if r.Err? then r else Next(parse, r.value, f, n - 1)
  }

  const Start := Trace([], None, 0)

  ghost function Run(parse: string -> int, frames: seq<Frame>): Result<Trace, Error> {
    if frames == [] then Ok(Start)
    else
      var r := Run(parse, frames[..|frames| - 1]);
      var f := frames[|frames| - 1];
      if r.Err? then r else Within(parse, r.value, f, |f.types|)
  }

  ghost function Phases(past: seq<seq<Op>>): seq<seq<Interface>> {
    seq(|past|, i requires 0 <= i < |past| => Alloc(past[i]))
  }

  // ---------------------------------------------------------------- the converter

  class Pcap2Emulation {
    const parse: string -> int
    var device: Option<seq<Interface>>
    var phases: seq<seq<Interface>>
    var interfaceIndex: nat
    var endpointIndex: nat
    ghost var trace: Trace

    /** The fields are what the history of descriptors says: the current and the saved devices are
        allocated first fit, interface_index counts the interfaces of the current device, and
        endpoint_index the endpoints read since it was last reset. */
    ghost predicate Valid()
      reads this
    {
      && device == (if trace.current.Some? then Some(Alloc(trace.current.value)) else None)
      && phases == Phases(trace.past)
      && interfaceIndex == trace.Interfaces() && endpointIndex == trace.Endpoints()
    }

    constructor (parse: string -> int)
      ensures Valid() && trace == Start && this.parse == parse
    {
      this.parse := parse;
      device, phases, interfaceIndex, endpointIndex := None, [], 0, 0;
      trace := Start;
    }

    /** _save_phase(), without a device nothing to save. */
    method SavePhase()
      requires device.Some?
      modifies this
      ensures device == old(device) && phases == old(phases) + [old(device).value]
      ensures interfaceIndex == 0 && endpointIndex == 0 && trace == old(trace)
    {
      phases := phases + [device.value];
      interfaceIndex := 0;
      endpointIndex := 0;
    }

    /** _get_interface_descriptor() */
    method GetInterfaceDescriptor(layers: Layers, d: nat) returns (r: Result<Action, Error>)
      ensures r == DecodeInterface(parse, layers, d, interfaceIndex)
    {
      if InterfaceNumber !in layers {
        return Err(KeyError);
      }
      if Len(layers[InterfaceNumber]) <= interfaceIndex {
        return Ok(Skip);
      }
      var length := Subscript(layers, "usb_usb_bLength", d);
      if length.Err? {
        return Err(length.error);
      }
      var fields: Fields := map[];
      for j := 0 to |InterfaceTable|
        invariant InterfaceFields(parse, layers, interfaceIndex, j) == Ok(fields)
      {
        var (key, name) := InterfaceTable[j];
        var v := Value(layers, key, interfaceIndex);
        if v.Err? {
          ErrStaysInterface(parse, layers, interfaceIndex, j + 1, |InterfaceTable|);
          return Err(v.error);
        }
        if !(key == InterfaceNumber && parse(v.value) == 0) {
          fields := fields[name := parse(v.value)];
        }
      }
      return Ok(Build(Announce(parse(length.value), fields)));
    }

    /** _get_endpoint_descriptor() */
    method GetEndpointDescriptor(layers: Layers, i: nat) returns (r: Result<Fields, Error>)
      ensures r == EndpointFields(parse, layers, i, |EndpointTable|)
    {
      var fields: Fields := map[];
      for j := 0 to |EndpointTable|
        invariant EndpointFields(parse, layers, i, j) == Ok(fields)
      {
        var (key, name) := EndpointTable[j];
        var v := Subscript(layers, key, i);
        if v.Err? {
          ErrStaysEndpoint(parse, layers, i, j + 1, |EndpointTable|);
          return Err(v.error);
        }
        if parse(v.value) != 0 {
          fields := fields[name := parse(v.value)];
        }
      }
      return Ok(fields);
    }

    /** The search for the first interface with a missing endpoint. */
    method AddEndpoint(e: Endpoint)
      requires device.Some?
      modifies this`device
      ensures device == Some(Place(old(device).value, e))
    {
      var ifaces := device.value;
      for j := 0 to |ifaces|
        invariant device == old(device) && j <= FirstRoom(ifaces)
      {
        if HasRoom(ifaces[j]) {
          device := Some(ifaces[j := ifaces[j].(endpoints := ifaces[j].endpoints + [e])]);
          return;
        }
      }
    }

    method DeviceDescriptor(wanted: bool)
      requires Valid()
      modifies this
      ensures Valid() && trace == if wanted then old(trace).Renewed() else old(trace)
    {
      if !wanted {
        return;
      }
      ghost var t := trace;
      SameCount(t.Ops());
      if device.Some? && |device.value| > 0 {
        SavePhase();
      }
      device := Some([]);
      trace := t.Renewed();
      PhasesAppend(t.past, t.Ops());
    }

    method InterfaceDescriptor(layers: Layers, d: nat) returns (error: Option<Error>)
      requires Valid()
      modifies this
      ensures var r := DecodeInterface(parse, layers, d, old(interfaceIndex));
              Outcome(old(trace), r, error)
    {
      var r := GetInterfaceDescriptor(layers, d);
      if r.Err? {
        return Some(r.error);
      }
      if r.value.Skip? {
        return None;
      }
      if device.None? {
        return Some(KeyError);
      }
      var op := r.value.op;
      device := Some(device.value + [Interface(op.length, op.fields, [])]);
      if !InByte(op.fields) {
        return Some(OverflowError);
      }
      interfaceIndex := interfaceIndex + 1;
      Extended(trace.current.value, op);
      trace := Trace(trace.past, Some(trace.current.value + [op]), trace.stale);
      return None;
    }

    method EndpointDescriptor(layers: Layers) returns (error: Option<Error>)
      requires Valid()
      modifies this
      ensures var r := DecodeEndpoint(parse, layers, old(endpointIndex));
              Outcome(old(trace), r, error)
    {
      if EndpointAddress !in layers {
        return Some(KeyError);
      }
      if Len(layers[EndpointAddress]) > endpointIndex {
        var fields := GetEndpointDescriptor(layers, endpointIndex);
        if fields.Err? {
          return Some(fields.error);
        }
        if device.None? {
          return Some(KeyError);
        }
        AddEndpoint(Endpoint(fields.value));
        endpointIndex := endpointIndex + 1;
        ghost var op := Arrive(Endpoint(fields.value));
        Extended(trace.current.value, op);
        trace := Trace(trace.past, Some(trace.current.value + [op]), trace.stale);
      }
      return None;
    }

    /** No error: the history is extended as decoded. An error stops the whole conversion. */
    ghost predicate Outcome(t: Trace, r: Result<Action, Error>, error: Option<Error>)
      reads this
    {
      var next := if r.Err? then Err(r.error) else t.Done(r.value);
      if error.None? then Valid() && next == Ok(trace) else next == Err(error.value)
    }

    /** The branches on the descriptor type. */
    method Descriptor(f: Frame, d: nat) returns (error: Option<Error>)
      requires Valid() && d < |f.types|
      modifies this
      ensures Outcome(old(trace), Decode(parse, f, d, old(interfaceIndex), old(endpointIndex)), error)
    {
      var kind := parse(f.types[d]);
      error := None;
      if kind == Device {
        DeviceDescriptor(f.wanted);
      } else if kind == InterfaceType {
        error := InterfaceDescriptor(f.layers, d);
      } else if kind == EndpointType {
        error := EndpointDescriptor(f.layers);
      } else if !(kind == Configuration || kind == StringDescriptor || kind == Extra) {
        error := Some(UnknownDescriptor);
      }
    }

    /** The loop over the descriptors of one frame. */
    method ControlFrame(f: Frame) returns (error: Option<Error>)
      requires Valid()
      modifies this
      ensures var r := Within(parse, old(trace), f, |f.types|);
              if error.None? then Valid() && r == Ok(trace) else r == Err(error.value)
    {
      for d := 0 to |f.types|
        invariant Valid() && Within(parse, old(trace), f, d) == Ok(trace)
      {
        error := Descriptor(f, d);
        if error.Some? {
          ErrStaysWithin(parse, old(trace), f, d + 1, |f.types|);
          return;
        }
      }
      return None;
    }

    /** The loop over the frames. */
    method ReadFrames(frames: seq<Frame>) returns (error: Option<Error>)
      requires Valid() && trace == Start
      modifies this
      ensures var r := Run(parse, frames);
              if error.None? then Valid() && r == Ok(trace) else r == Err(error.value)
    {
      for n := 0 to |frames|
        invariant Valid() && Run(parse, frames[..n]) == Ok(trace)
      {
        assert frames[..n + 1][..n] == frames[..n];
        error := ControlFrame(frames[n]);
        if error.Some? {
          ErrStaysRun(parse, frames, n + 1);
          return;
        }
      }
      assert frames[..|frames|] == frames;
      return None;
    }

    /** parse_file(): the last device is saved too, even one without interfaces. */
    method ParseFile(frames: seq<Frame>) returns (error: Option<Error>)
      requires Valid() && trace == Start
      modifies this
      ensures var r := Run(parse, frames);
              if error.Some? then r == Err(error.value)
              else r.Ok? && phases == Phases(r.value.past + if r.value.current.Some? then [r.value.Ops()] else [])
    {
      error := ReadFrames(frames);
      if error.Some? {
        return;
      }
      if device.Some? {
        SavePhase();
        PhasesAppend(trace.past, trace.Ops());
      } else {
        assert trace.past + [] == trace.past;
      }
    }
  }

  lemma PhasesAppend(past: seq<seq<Op>>, ops: seq<Op>)
    ensures Phases(past + [ops]) == Phases(past) + [Alloc(ops)]
  {
  }

  lemma SameCount(ops: seq<Op>)
    ensures |Alloc(ops)| == |Announced(ops)|
  {
    AllocIsShare(ops);
  }

  lemma Extended(ops: seq<Op>, op: Op)
    ensures Alloc(ops + [op]) == Apply(Alloc(ops), op)
    ensures |Announced(ops + [op])| == |Announced(ops)| + (if op.Announce? then 1 else 0)
    ensures |Arrived(ops + [op])| == |Arrived(ops)| + (if op.Arrive? then 1 else 0)
  {
    assert (ops + [op])[..|ops|] == ops;
  }

  lemma {:induction false} ErrStaysInterface(parse: string -> int, layers: Layers, i: nat, m: nat, n: nat)
    requires m <= n <= |InterfaceTable| && InterfaceFields(parse, layers, i, m).Err?
    ensures InterfaceFields(parse, layers, i, n) == InterfaceFields(parse, layers, i, m)
    decreases n
  {
    if m < n { ErrStaysInterface(parse, layers, i, m, n - 1); }
  }

  lemma {:induction false} ErrStaysEndpoint(parse: string -> int, layers: Layers, i: nat, m: nat, n: nat)
    requires m <= n <= |EndpointTable| && EndpointFields(parse, layers, i, m).Err?
    ensures EndpointFields(parse, layers, i, n) == EndpointFields(parse, layers, i, m)
    decreases n
  {
    if m < n { ErrStaysEndpoint(parse, layers, i, m, n - 1); }
  }

  lemma {:induction false} ErrStaysWithin(parse: string -> int, t: Trace, f: Frame, m: nat, n: nat)
    requires m <= n <= |f.types| && Within(parse, t, f, m).Err?
    ensures Within(parse, t, f, n) == Within(parse, t, f, m)
    decreases n
  {
    if m < n { ErrStaysWithin(parse, t, f, m, n - 1); }
  }

  lemma {:induction false} ErrStaysRun(parse: string -> int, frames: seq<Frame>, m: nat)
    requires m <= |frames| && Run(parse, frames[..m]).Err?
    ensures Run(parse, frames) == Run(parse, frames[..m])
    decreases |frames|
  {
    if m < |frames| {
      var init := frames[..|frames| - 1];
      assert init[..m] == frames[..m];
      ErrStaysRun(parse, init, m);
    } else {
      assert frames[..m] == frames;
    }
  }

  // ---------------------------------------------------------------- reading a frame again

  /** How many of the first n descriptors are of a kind. */
  ghost function Count(parse: string -> int, f: Frame, kind: int, n: nat): nat
    requires n <= |f.types|
  {
    if n == 0 then 0 else Count(parse, f, kind, n - 1) + if parse(f.types[n - 1]) == kind then 1 else 0
  }

  ghost function Entries(f: Frame, key: string): nat {
    if key in f.layers then Len(f.layers[key]) else 0
  }

  /** The frame starts no new device. */
  ghost predicate SameDevice(parse: string -> int, f: Frame) {
    f.wanted ==> forall d :: 0 <= d < |f.types| ==> parse(f.types[d]) != Device
  }

  /** A counter that is stepped c times but not beyond the limit. */
  function Counter(i: nat, c: nat, limit: nat): nat {
    if i + c <= limit then i + c else if i < limit then limit else i
  }

  lemma CounterStep(i: nat, c: nat, limit: nat)
    ensures var x := Counter(i, c, limit); Counter(i, c + 1, limit) == if x < limit then x + 1 else x
  {
  }

  /** The descriptor is of the kind, and its column has an entry left. */
  ghost predicate Takes(parse: string -> int, f: Frame, d: nat, kind: int, key: string, index: nat)
    requires d < |f.types|
  {
    parse(f.types[d]) == kind && index < Entries(f, key)
  }

  ghost predicate TakesInterface(parse: string -> int, v: Trace, f: Frame, d: nat)
    requires d < |f.types|
  {
    Takes(parse, f, d, InterfaceType, InterfaceNumber, v.Interfaces())
  }

  ghost predicate TakesEndpoint(parse: string -> int, v: Trace, f: Frame, d: nat)
    requires d < |f.types|
  {
    Takes(parse, f, d, EndpointType, EndpointAddress, v.Endpoints())
  }

  ghost function LengthOf(parse: string -> int, f: Frame, d: nat): Option<int> {
    var length := Subscript(f.layers, "usb_usb_bLength", d);
    if length.Ok? then Some(parse(length.value)) else None
  }

  /** One descriptor of a frame that starts no device either changes nothing or adds the entry that the
      counter points at. */
  lemma OneStep(parse: string -> int, v: Trace, f: Frame, d: nat) returns (op: Op)
    requires d < |f.types| && (f.wanted ==> parse(f.types[d]) != Device) && Next(parse, v, f, d).Ok?
    ensures var u := Next(parse, v, f, d).value;
            if TakesInterface(parse, v, f, d) || TakesEndpoint(parse, v, f, d) then
              v.current.Some? && u == Trace(v.past, Some(v.current.value + [op]), v.stale)
            else u == v
    ensures TakesInterface(parse, v, f, d) ==>
        && op.Announce? && InterfaceFields(parse, f.layers, v.Interfaces(), |InterfaceTable|) == Ok(op.fields)
        && LengthOf(parse, f, d) == Some(op.length) && InByte(op.fields)
    ensures TakesEndpoint(parse, v, f, d) ==>
        op.Arrive? && EndpointFields(parse, f.layers, v.Endpoints(), |EndpointTable|) == Ok(op.endpoint.fields)
  {
    var action := Decode(parse, f, d, v.Interfaces(), v.Endpoints()).value;
    op := if action.Build? then action.op else Announce(0, map[]);
  }

  lemma StepCounters(parse: string -> int, v: Trace, f: Frame, d: nat)
    requires d < |f.types| && (f.wanted ==> parse(f.types[d]) != Device) && Next(parse, v, f, d).Ok?
    ensures var u := Next(parse, v, f, d).value;
            && u.past == v.past && u.stale == v.stale && u.current.Some? == v.current.Some?
            && u.Interfaces() == v.Interfaces() + (if TakesInterface(parse, v, f, d) then 1 else 0)
            && u.Endpoints() == v.Endpoints() + (if TakesEndpoint(parse, v, f, d) then 1 else 0)
  {
    var op := OneStep(parse, v, f, d);
    Extended(v.Ops(), op);
  }

  /** Within a frame both counters step with their descriptors, up to the length of their columns. */
  lemma {:induction false} Progress(parse: string -> int, t: Trace, f: Frame, n: nat)
    requires n <= |f.types| && SameDevice(parse, f) && Within(parse, t, f, n).Ok?
    ensures var u := Within(parse, t, f, n).value;
            && u.past == t.past && u.stale == t.stale && u.current.Some? == t.current.Some?
            && u.Interfaces() == Counter(t.Interfaces(), Count(parse, f, InterfaceType, n), Entries(f, InterfaceNumber))
            && u.Endpoints() == Counter(t.Endpoints(), Count(parse, f, EndpointType, n), Entries(f, EndpointAddress))
  {
    if n > 0 {
      Progress(parse, t, f, n - 1);
      StepCounters(parse, Within(parse, t, f, n - 1).value, f, n - 1);
      CounterStep(t.Interfaces(), Count(parse, f, InterfaceType, n - 1), Entries(f, InterfaceNumber));
      CounterStep(t.Endpoints(), Count(parse, f, EndpointType, n - 1), Entries(f, EndpointAddress));
    }
  }

  lemma Assoc(a: seq<Op>, b: seq<Op>, c: seq<Op>)
    ensures (a + b) + c == a + (b + c)
  {
  }

  ghost function WithOp(u: Trace, op: Op): Trace {
    Trace(u.past, Some(u.Ops() + [op]), u.stale)
  }

  /** From `t` to `u` these operations were added; without a new interface they are all endpoints. */
  ghost predicate Added(t: Trace, u: Trace, added: seq<Op>) {
    && u.Ops() == t.Ops() + added
    && t.Interfaces() <= u.Interfaces() && t.Endpoints() <= u.Endpoints()
    && |added| == u.Interfaces() - t.Interfaces() + u.Endpoints() - t.Endpoints()
    && (u.Interfaces() == t.Interfaces() ==> forall k :: 0 <= k < |added| ==> added[k].Arrive?)
  }

  lemma AddedOne(t: Trace, v: Trace, added: seq<Op>, op: Op)
    requires Added(t, v, added) && v.stale == t.stale
    ensures Added(t, WithOp(v, op), added + [op])
  {
    Extended(v.Ops(), op);
    Assoc(t.Ops(), added, [op]);
  }

  lemma AddsStep(parse: string -> int, t: Trace, v: Trace, f: Frame, d: nat, added: seq<Op>) returns (more: seq<Op>)
    requires d < |f.types| && SameDevice(parse, f) && Next(parse, v, f, d).Ok? && Added(t, v, added) && v.stale == t.stale
    ensures Added(t, Next(parse, v, f, d).value, more) && Next(parse, v, f, d).value.stale == t.stale
  {
    var op := OneStep(parse, v, f, d);
    more := added;
    if TakesInterface(parse, v, f, d) || TakesEndpoint(parse, v, f, d) {
      AddedOne(t, v, added, op);
      more := added + [op];
    }
  }

  /** A frame that starts no device only adds to the current one. */
  lemma {:induction false} Adds(parse: string -> int, t: Trace, f: Frame, n: nat) returns (added: seq<Op>)
    requires n <= |f.types| && SameDevice(parse, f) && Within(parse, t, f, n).Ok?
    ensures Added(t, Within(parse, t, f, n).value, added) && Within(parse, t, f, n).value.stale == t.stale
  {
    added := [];
    if n > 0 {
      added := Adds(parse, t, f, n - 1);
      added := AddsStep(parse, t, Within(parse, t, f, n - 1).value, f, n - 1, added);
    }
  }

  /** A frame that starts no device leaves the interfaces unchanged exactly when it has no interface left
      to add, and no endpoint left or no place for one. */
  lemma UnchangedIff(parse: string -> int, t: Trace, f: Frame)
    requires SameDevice(parse, f) && Within(parse, t, f, |f.types|).Ok?
    ensures Alloc(Within(parse, t, f, |f.types|).value.Ops()) == Alloc(t.Ops()) <==>
        && (Count(parse, f, InterfaceType, |f.types|) == 0 || Entries(f, InterfaceNumber) <= t.Interfaces())
        && (|| Count(parse, f, EndpointType, |f.types|) == 0 || Entries(f, EndpointAddress) <= t.Endpoints()
            || AllFull(Alloc(t.Ops())))
  {
    var u := Within(parse, t, f, |f.types|).value;
    Progress(parse, t, f, |f.types|);
    var added := Adds(parse, t, f, |f.types|);
    if u.Interfaces() == t.Interfaces() {
      UnchangedByArrivals(t.Ops(), added);
    } else {
      SameCount(t.Ops());
      SameCount(u.Ops());
    }
  }

  /** A column with no more entries than there are descriptors of its kind, as lists have. */
  ghost predicate Complete(parse: string -> int, f: Frame, kind: int, key: string) {
    Count(parse, f, kind, |f.types|) >= Entries(f, key)
  }

  /** Every descriptor of a kind that was read finds the column of its kind exhausted. */
  ghost predicate Exhausted(parse: string -> int, u: Trace, f: Frame) {
    && (Count(parse, f, InterfaceType, |f.types|) == 0 || Entries(f, InterfaceNumber) <= u.Interfaces())
    && (Count(parse, f, EndpointType, |f.types|) == 0 || Entries(f, EndpointAddress) <= u.Endpoints())
  }

  lemma {:induction false} Counted(parse: string -> int, f: Frame, d: nat, n: nat)
    requires d < n <= |f.types|
    ensures Count(parse, f, parse(f.types[d]), n) > 0
    decreases n
  {
    if d < n - 1 { Counted(parse, f, d, n - 1); }
  }

  lemma {:induction false} ReadBefore(parse: string -> int, t: Trace, f: Frame, d: nat, n: nat) returns (v: Trace)
    requires d < n <= |f.types| && Within(parse, t, f, n).Ok?
    ensures Next(parse, v, f, d).Ok?
    decreases n
  {
    if d < n - 1 { v := ReadBefore(parse, t, f, d, n - 1); } else { v := Within(parse, t, f, n - 1).value; }
  }

  /** The column of the d-th descriptor is exhausted, if it has one. */
  ghost predicate NothingFor(parse: string -> int, u: Trace, f: Frame, d: nat)
    requires d < |f.types|
  {
    && (parse(f.types[d]) == InterfaceType ==> Entries(f, InterfaceNumber) <= u.Interfaces())
    && (parse(f.types[d]) == EndpointType ==> Entries(f, EndpointAddress) <= u.Endpoints())
  }

  /** A descriptor that could be read once is skipped when its column is exhausted. */
  lemma Skipped(parse: string -> int, v: Trace, u: Trace, f: Frame, d: nat)
    requires d < |f.types| && SameDevice(parse, f) && Next(parse, v, f, d).Ok? && NothingFor(parse, u, f, d)
    ensures Next(parse, u, f, d) == Ok(u)
  {
  }

  lemma {:induction false} AllSkipped(parse: string -> int, t: Trace, u: Trace, f: Frame, n: nat)
    requires n <= |f.types| && SameDevice(parse, f) && Within(parse, t, f, |f.types|).Ok? && Exhausted(parse, u, f)
    ensures Within(parse, u, f, n) == Ok(u)
  {
    if n > 0 {
      AllSkipped(parse, t, u, f, n - 1);
      var v := ReadBefore(parse, t, f, n - 1, |f.types|);
      Counted(parse, f, n - 1, |f.types|);
      Skipped(parse, v, u, f, n - 1);
    }
  }

  /** Processing the same configuration frame once more, with an entry for each descriptor, succeeds and
      changes nothing, neither the interfaces nor a counter, whatever was read before. */
  lemma ReadAgain(parse: string -> int, t: Trace, f: Frame)
    requires SameDevice(parse, f) && Within(parse, t, f, |f.types|).Ok?
    requires Complete(parse, f, InterfaceType, InterfaceNumber) && Complete(parse, f, EndpointType, EndpointAddress)
    ensures var u := Within(parse, t, f, |f.types|).value;
            Within(parse, u, f, |f.types|) == Ok(u)
  {
    Progress(parse, t, f, |f.types|);
    AllSkipped(parse, t, Within(parse, t, f, |f.types|).value, f, |f.types|);
  }

  // ---------------------------------------------------------------- single descriptors

  /** A single interface is not reported in lists: each of its fields is one text. */
  ghost predicate InterfaceTexts(f: Frame) {
    && InterfaceNumber in f.layers && f.layers[InterfaceNumber].Text?
    && forall k :: 0 <= k < |InterfaceTable| ==> InterfaceTable[k].0 in f.layers && f.layers[InterfaceTable[k].0].Text?
  }

  /** A text is read the same whatever the counter says. */
  lemma {:induction false} SameFields(parse: string -> int, f: Frame, i: nat, i': nat, n: nat)
    requires n <= |InterfaceTable| && InterfaceTexts(f)
    ensures InterfaceFields(parse, f.layers, i, n) == InterfaceFields(parse, f.layers, i', n)
  {
    if n > 0 {
      SameFields(parse, f, i, i', n - 1);
      assert InterfaceTable[n - 1].0 in f.layers;
    }
  }

  lemma {:induction false} OnlyOne(parse: string -> int, f: Frame, kind: int, n: nat) returns (d: nat)
    requires n <= |f.types| && Count(parse, f, kind, n) == 1
    ensures d < n && parse(f.types[d]) == kind && forall e :: 0 <= e < n && parse(f.types[e]) == kind ==> e == d
    decreases n
  {
    if parse(f.types[n - 1]) == kind {
      d := n - 1;
      forall e | 0 <= e < n - 1 ensures parse(f.types[e]) != kind {
        if parse(f.types[e]) == kind { Counted(parse, f, e, n - 1); }
      }
    } else {
      d := OnlyOne(parse, f, kind, n - 1);
    }
  }

  /** What the d-th descriptor announces when it takes the first interface. */
  ghost function FirstOp(parse: string -> int, f: Frame, d: nat): Op {
    var fields := InterfaceFields(parse, f.layers, 0, |InterfaceTable|);
    var length := LengthOf(parse, f, d);
    Announce(if length.Some? then length.value else 0, if fields.Ok? then fields.value else map[])
  }

  ghost predicate Readable(parse: string -> int, f: Frame, d: nat) {
    && LengthOf(parse, f, d).Some? && InterfaceFields(parse, f.layers, 0, |InterfaceTable|).Ok?
    && InByte(FirstOp(parse, f, d).fields)
  }

  lemma TakesFirst(parse: string -> int, v: Trace, f: Frame, d: nat)
    requires d < |f.types| && SameDevice(parse, f) && Next(parse, v, f, d).Ok? && Announced(v.Ops()) == []
    requires parse(f.types[d]) == InterfaceType && Entries(f, InterfaceNumber) > 0
    ensures Readable(parse, f, d) && v.current.Some? && Next(parse, v, f, d).value == WithOp(v, FirstOp(parse, f, d))
  {
    var op := OneStep(parse, v, f, d);
  }

  lemma SameAnnouncedStep(parse: string -> int, v: Trace, f: Frame, e: nat)
    requires e < |f.types| && SameDevice(parse, f) && Next(parse, v, f, e).Ok? && parse(f.types[e]) != InterfaceType
    ensures Announced(Next(parse, v, f, e).value.Ops()) == Announced(v.Ops())
  {
    var op := OneStep(parse, v, f, e);
    if TakesEndpoint(parse, v, f, e) { assert (v.Ops() + [op])[..|v.Ops()|] == v.Ops(); }
  }

  lemma FirstAnnounced(v: Trace, op: Op)
    requires Announced(v.Ops()) == [] && op.Announce?
    ensures Announced(WithOp(v, op).Ops()) == [Interface(op.length, op.fields, [])]
  {
    assert (v.Ops() + [op])[..|v.Ops()|] == v.Ops();
  }

  /** The first reading of a single interface, at the d-th descriptor. */
  lemma {:induction false} FirstReading(parse: string -> int, t: Trace, f: Frame, d: nat, n: nat)
    requires d < |f.types| && n <= |f.types| && SameDevice(parse, f) && Within(parse, t, f, n).Ok?
    requires Announced(t.Ops()) == []
    requires parse(f.types[d]) == InterfaceType && Entries(f, InterfaceNumber) > 0
    requires forall e :: 0 <= e < |f.types| && e != d ==> parse(f.types[e]) != InterfaceType
    ensures var (u, op) := (Within(parse, t, f, n).value, FirstOp(parse, f, d));
            if n <= d then Announced(u.Ops()) == []
            else Announced(u.Ops()) == [Interface(op.length, op.fields, [])] && Readable(parse, f, d)
  {
    if n > 0 {
      var v := Within(parse, t, f, n - 1).value;
      FirstReading(parse, t, f, d, n - 1);
      if n - 1 == d {
        TakesFirst(parse, v, f, d);
        FirstAnnounced(v, FirstOp(parse, f, d));
      } else {
        SameAnnouncedStep(parse, v, f, n - 1);
      }
    }
  }

  /** The next reading of a single interface: the same descriptor adds the same interface. */
  lemma NextReading(parse: string -> int, u: Trace, f: Frame, d: nat)
    requires d < |f.types| && parse(f.types[d]) == InterfaceType && u.current.Some? && InterfaceTexts(f)
    requires u.Interfaces() < Entries(f, InterfaceNumber) && Readable(parse, f, d)
    ensures Next(parse, u, f, d) == Ok(WithOp(u, FirstOp(parse, f, d)))
  {
    SameFields(parse, f, 0, u.Interfaces(), |InterfaceTable|);
  }

  /** All but the d-th descriptor have nothing left to read. */
  ghost predicate OthersRead(parse: string -> int, u: Trace, f: Frame, d: nat) {
    forall e :: 0 <= e < |f.types| && e != d ==> parse(f.types[e]) != InterfaceType && NothingFor(parse, u, f, e)
  }

  lemma SkipsBefore(parse: string -> int, t: Trace, u: Trace, f: Frame, d: nat, e: nat)
    requires d < |f.types| && e < |f.types| && e != d && SameDevice(parse, f) && OthersRead(parse, u, f, d)
    requires Within(parse, t, f, |f.types|).Ok?
    ensures Next(parse, u, f, e) == Ok(u)
  {
    var v := ReadBefore(parse, t, f, e, |f.types|);
    Skipped(parse, v, u, f, e);
  }

  lemma ReadAfterToo(parse: string -> int, u: Trace, f: Frame, d: nat, op: Op)
    requires OthersRead(parse, u, f, d) && op.Announce?
    ensures OthersRead(parse, WithOp(u, op), f, d)
  {
    Extended(u.Ops(), op);
  }

  lemma WithinNext(parse: string -> int, u: Trace, f: Frame, n: nat, w: Trace, w': Trace)
    requires n < |f.types| && Within(parse, u, f, n) == Ok(w) && Next(parse, w, f, n) == Ok(w')
    ensures Within(parse, u, f, n + 1) == Ok(w')
  {
  }

  lemma {:induction false} SecondBefore(parse: string -> int, t: Trace, u: Trace, f: Frame, d: nat, n: nat)
    requires n <= d < |f.types| && SameDevice(parse, f) && Within(parse, t, f, |f.types|).Ok? && OthersRead(parse, u, f, d)
    ensures Within(parse, u, f, n) == Ok(u)
  {
    if n > 0 {
      SecondBefore(parse, t, u, f, d, n - 1);
      SkipsBefore(parse, t, u, f, d, n - 1);
      WithinNext(parse, u, f, n - 1, u, u);
    }
  }

  lemma {:induction false} SecondAfter(parse: string -> int, t: Trace, u: Trace, f: Frame, d: nat, w: Trace, n: nat)
    requires d < n <= |f.types| && SameDevice(parse, f) && Within(parse, t, f, |f.types|).Ok? && OthersRead(parse, w, f, d)
    requires Within(parse, u, f, d + 1) == Ok(w)
    ensures Within(parse, u, f, n) == Ok(w)
  {
    if n > d + 1 {
      SecondAfter(parse, t, u, f, d, w, n - 1);
      SkipsBefore(parse, t, w, f, d, n - 1);
      WithinNext(parse, u, f, n - 1, w, w);
    }
  }

  lemma SecondReading(parse: string -> int, t: Trace, u: Trace, f: Frame, d: nat, op: Op)
    requires d < |f.types| && SameDevice(parse, f) && Within(parse, t, f, |f.types|).Ok? && OthersRead(parse, u, f, d)
    requires Next(parse, u, f, d) == Ok(WithOp(u, op)) && op.Announce?
    ensures Within(parse, u, f, |f.types|) == Ok(WithOp(u, op))
  {
    SecondBefore(parse, t, u, f, d, d);
    WithinNext(parse, u, f, d, u, WithOp(u, op));
    ReadAfterToo(parse, u, f, d, op);
    SecondAfter(parse, t, u, f, d, WithOp(u, op), |f.types|);
  }

  /** The characters of the text are counted as if they were interfaces.  So reading the frame of a single
      interface again succeeds, and changes nothing if and only if its number has one character; a longer
      one adds the very same interface once more. */
  lemma SingleInterfaceRepeats(parse: string -> int, t: Trace, f: Frame) returns (op: Op)
    requires SameDevice(parse, f) && Count(parse, f, InterfaceType, |f.types|) == 1 && t.Interfaces() == 0
    requires InterfaceTexts(f) && f.layers[InterfaceNumber].text != ""
    requires Within(parse, t, f, |f.types|).Ok? && Complete(parse, f, EndpointType, EndpointAddress)
    ensures var u := Within(parse, t, f, |f.types|).value;
            && op.Announce? && Announced(u.Ops()) == [Interface(op.length, op.fields, [])]
            && Within(parse, u, f, |f.types|)
                 == Ok(if |f.layers[InterfaceNumber].text| == 1 then u else WithOp(u, op))
  {
    var u := Within(parse, t, f, |f.types|).value;
    var d := OnlyOne(parse, f, InterfaceType, |f.types|);
    op := FirstOp(parse, f, d);
    FirstReading(parse, t, f, d, |f.types|);
    Progress(parse, t, f, |f.types|);
    if |f.layers[InterfaceNumber].text| == 1 {
      AllSkipped(parse, t, u, f, |f.types|);
    } else {
      NextReading(parse, u, f, d);
      forall e | 0 <= e < |f.types| && e != d ensures NothingFor(parse, u, f, e) {
        Counted(parse, f, e, |f.types|);
      }
      SecondReading(parse, t, u, f, d, op);
    }
  }

  /** A single endpoint is reported in texts too. */
  ghost predicate EndpointTexts(layers: Layers) {
    forall k :: 0 <= k < |EndpointTable| ==>
      EndpointTable[k].0 in layers && layers[EndpointTable[k].0].Text? && layers[EndpointTable[k].0].text != ""
  }

  /** What the capture says about a single endpoint, zeros left out. */
  ghost function WholeFields(parse: string -> int, layers: Layers, n: nat): Fields
    requires n <= |EndpointTable| && EndpointTexts(layers)
  {
    if n == 0 then map[]
    else
      var v := parse(layers[EndpointTable[n - 1].0].text);
      var before := WholeFields(parse, layers, n - 1);
      if v == 0 then before else before[EndpointTable[n - 1].1 := v]
  }

  /** The first character of a text reads like the whole of it. */
  ghost predicate ReadsAlike(parse: string -> int, layers: Layers, k: nat)
    requires k < |EndpointTable| && EndpointTexts(layers)
  {
    var text := layers[EndpointTable[k].0].text;
    parse([text[0]]) == parse(text)
  }

  lemma EndpointNames(n: nat)
    requires n < |EndpointTable|
    ensures forall k :: 0 <= k < n ==> EndpointTable[k].1 != EndpointTable[n].1
  {
  }

  lemma {:induction false} OnlyNames(parse: string -> int, layers: Layers, n: nat, name: string)
    requires n <= |EndpointTable| && EndpointTexts(layers) && forall k :: 0 <= k < n ==> EndpointTable[k].1 != name
    ensures EndpointFields(parse, layers, 0, n).Ok?
    ensures name !in EndpointFields(parse, layers, 0, n).value && name !in WholeFields(parse, layers, n)
  {
    if n > 0 { OnlyNames(parse, layers, n - 1, name); }
  }

  lemma FieldsStep(parse: string -> int, layers: Layers, n: nat)
    requires 0 < n <= |EndpointTable| && EndpointTexts(layers) && EndpointFields(parse, layers, 0, n - 1).Ok?
    ensures var (name, text) := (EndpointTable[n - 1].1, layers[EndpointTable[n - 1].0].text);
            var (v, before) := (parse([text[0]]), EndpointFields(parse, layers, 0, n - 1).value);
            EndpointFields(parse, layers, 0, n) == Ok(if v == 0 then before else before[name := v])
  {
  }

  lemma {:induction false} FirstCharacters(parse: string -> int, layers: Layers, n: nat)
    requires n <= |EndpointTable| && EndpointTexts(layers)
    ensures EndpointFields(parse, layers, 0, n) == Ok(WholeFields(parse, layers, n)) <==>
        forall k :: 0 <= k < n ==> ReadsAlike(parse, layers, k)
  {
    if n > 0 {
      var (name, text) := (EndpointTable[n - 1].1, layers[EndpointTable[n - 1].0].text);
      FirstCharacters(parse, layers, n - 1);
      EndpointNames(n - 1);
      OnlyNames(parse, layers, n - 1, name);
      FieldsStep(parse, layers, n);
      var (some, all) := (EndpointFields(parse, layers, 0, n - 1).value, WholeFields(parse, layers, n - 1));
      SameUpdate(some, all, name, parse([text[0]]), parse(text));
      assert ReadsAlike(parse, layers, n - 1) <==> parse([text[0]]) == parse(text);
    }
  }

  /** Two maps with a new name each, or none for a zero, are equal exactly when both parts are. */
  lemma SameUpdate(a: Fields, b: Fields, name: string, v: int, w: int)
    requires name !in a && name !in b
    ensures (if v == 0 then a else a[name := v]) == (if w == 0 then b else b[name := w]) <==> a == b && v == w
  {
    var (a', b') := (if v == 0 then a else a[name := v], if w == 0 then b else b[name := w]);
    assert a' - {name} == a && b' - {name} == b;
    assert (name in a' <==> v != 0) && (name in b' <==> w != 0);
  }

  // ---------------------------------------------------------------- what a new device gets

  /** The interfaces are the first entries of a frame, and the endpoints those from a given one on. */
  ghost predicate Taken(parse: string -> int, layers: Layers, first: nat, ops: seq<Op>) {
    ops == []
    || (var (init, op) := (ops[..|ops| - 1], ops[|ops| - 1]);
        && Taken(parse, layers, first, init)
        && TakesNext(parse, layers, |Announced(init)|, first + |Arrived(init)|, op))
  }

  ghost predicate TakesNext(parse: string -> int, layers: Layers, i: nat, e: nat, op: Op) {
    match op
    case Announce(_, fields) => InterfaceFields(parse, layers, i, |InterfaceTable|) == Ok(fields)
    case Arrive(endpoint) => EndpointFields(parse, layers, e, |EndpointTable|) == Ok(endpoint.fields)
  }

  lemma {:induction false} TakenEntries(parse: string -> int, layers: Layers, first: nat, ops: seq<Op>, k: nat)
    requires Taken(parse, layers, first, ops)
    ensures k < |Announced(ops)| ==> InterfaceFields(parse, layers, k, |InterfaceTable|) == Ok(Announced(ops)[k].fields)
    ensures k < |Arrived(ops)| ==> EndpointFields(parse, layers, first + k, |EndpointTable|) == Ok(Arrived(ops)[k].fields)
  {
    if ops != [] { TakenEntries(parse, layers, first, ops[..|ops| - 1], k); }
  }

  /** What a new device takes from one frame are the entries of its columns, in order: the interfaces
      from the first, the endpoints from the inherited counter on. */
  lemma TakenInOrder(parse: string -> int, t: Trace, f: Frame, u: Trace, k: nat)
    requires SameDevice(parse, f) && t.current == Some([]) && Within(parse, t, f, |f.types|) == Ok(u)
    ensures k < |Announced(u.Ops())| ==>
        InterfaceFields(parse, f.layers, k, |InterfaceTable|) == Ok(Announced(u.Ops())[k].fields)
    ensures k < |Arrived(u.Ops())| ==>
        EndpointFields(parse, f.layers, t.stale + k, |EndpointTable|) == Ok(Arrived(u.Ops())[k].fields)
  {
    FrameTaken(parse, t, f, |f.types|);
    TakenEntries(parse, f.layers, t.stale, u.Ops(), k);
  }

  lemma TakenMore(parse: string -> int, layers: Layers, first: nat, ops: seq<Op>, op: Op)
    requires Taken(parse, layers, first, ops)
    requires TakesNext(parse, layers, |Announced(ops)|, first + |Arrived(ops)|, op)
    ensures Taken(parse, layers, first, ops + [op])
  {
    assert (ops + [op])[..|ops|] == ops;
  }

  lemma StepTaken(parse: string -> int, v: Trace, f: Frame, d: nat)
    requires d < |f.types| && (f.wanted ==> parse(f.types[d]) != Device) && Next(parse, v, f, d).Ok?
    requires Taken(parse, f.layers, v.stale, v.Ops())
    ensures Taken(parse, f.layers, v.stale, Next(parse, v, f, d).value.Ops())
  {
    var op := OneStep(parse, v, f, d);
    if TakesInterface(parse, v, f, d) || TakesEndpoint(parse, v, f, d) {
      TakenMore(parse, f.layers, v.stale, v.Ops(), op);
    }
  }

  lemma {:induction false} FrameTaken(parse: string -> int, t: Trace, f: Frame, n: nat)
    requires n <= |f.types| && SameDevice(parse, f) && Within(parse, t, f, n).Ok? && t.current == Some([])
    ensures Taken(parse, f.layers, t.stale, Within(parse, t, f, n).value.Ops())
  {
    if n > 0 {
      FrameTaken(parse, t, f, n - 1);
      Progress(parse, t, f, n - 1);
      StepTaken(parse, Within(parse, t, f, n - 1).value, f, n - 1);
    }
  }

  /** A new device takes as many endpoints of a frame as it has descriptors and entries, exactly when no
      endpoints of an earlier device are still counted, or the entries suffice even so. */
  lemma TakesAllIff(parse: string -> int, t: Trace, f: Frame)
    requires SameDevice(parse, f) && Within(parse, t, f, |f.types|).Ok? && t.current == Some([])
    ensures var u := Within(parse, t, f, |f.types|).value;
            var c := Count(parse, f, EndpointType, |f.types|);
            var entries := Entries(f, EndpointAddress);
            |Arrived(u.Ops())| == Min(c, entries) <==> t.stale == 0 || c == 0 || entries == 0 || t.stale + c <= entries
  {
    Progress(parse, t, f, |f.types|);
  }

  /** The characters of the texts are subscripted as if they were endpoints.  So of a single endpoint a new
      device records the first characters, and that is right if and only if each of its texts reads like its
      first character. */
  lemma SingleEndpointIff(parse: string -> int, t: Trace, f: Frame)
    requires SameDevice(parse, f) && Within(parse, t, f, |f.types|).Ok? && t.current == Some([]) && t.stale == 0
    requires Count(parse, f, EndpointType, |f.types|) == 1 && EndpointTexts(f.layers)
    ensures var arrived := Arrived(Within(parse, t, f, |f.types|).value.Ops());
            && |arrived| == 1
            && (arrived[0] == Endpoint(WholeFields(parse, f.layers, |EndpointTable|)) <==>
                  forall k :: 0 <= k < |EndpointTable| ==> ReadsAlike(parse, f.layers, k))
  {
    assert EndpointTable[0].0 == EndpointAddress;
    Progress(parse, t, f, |f.types|);
    TakenInOrder(parse, t, f, Within(parse, t, f, |f.types|).value, 0);
    FirstCharacters(parse, f.layers, |EndpointTable|);
  }

  /** In a frame with its descriptors in order, each endpoint comes after an interface of the same device. */
  ghost predicate InOrder(parse: string -> int, f: Frame) {
    forall d :: 0 <= d < |f.types| && parse(f.types[d]) == EndpointType ==> AfterInterface(parse, f, d)
  }

  ghost predicate AfterInterface(parse: string -> int, f: Frame, n: nat)
    requires n <= |f.types|
  {
    && n > 0 && parse(f.types[n - 1]) != Device
    && (parse(f.types[n - 1]) == InterfaceType || AfterInterface(parse, f, n - 1))
  }

  /** The interface column, in frames that have one, has something in it. */
  ghost predicate NoEmptyColumn(f: Frame) {
    InterfaceNumber in f.layers ==> Len(f.layers[InterfaceNumber]) > 0
  }

  /** A device without interfaces has no endpoint counted. */
  ghost predicate Clean(t: Trace) {
    t.stale == 0 && (t.Interfaces() == 0 ==> t.Endpoints() == 0)
  }

  lemma DeviceStep(parse: string -> int, v: Trace, f: Frame, d: nat)
    requires d < |f.types| && parse(f.types[d]) == Device && Clean(v)
    ensures Next(parse, v, f, d).Ok? && Clean(Next(parse, v, f, d).value)
  {
  }

  lemma InOrderStep(parse: string -> int, v: Trace, f: Frame, d: nat)
    requires d < |f.types| && InOrder(parse, f) && NoEmptyColumn(f) && Next(parse, v, f, d).Ok?
    requires Clean(v) && (AfterInterface(parse, f, d) ==> v.Interfaces() > 0)
    ensures var u := Next(parse, v, f, d).value;
            Clean(u) && (AfterInterface(parse, f, d + 1) ==> u.Interfaces() > 0)
  {
    if parse(f.types[d]) == Device {
      DeviceStep(parse, v, f, d);
    } else {
      StepCounters(parse, v, f, d);
    }
  }

  lemma {:induction false} InOrderFrame(parse: string -> int, t: Trace, f: Frame, n: nat)
    requires n <= |f.types| && InOrder(parse, f) && NoEmptyColumn(f) && Within(parse, t, f, n).Ok? && Clean(t)
    ensures var u := Within(parse, t, f, n).value;
            Clean(u) && (AfterInterface(parse, f, n) ==> u.Interfaces() > 0)
  {
    if n > 0 {
      InOrderFrame(parse, t, f, n - 1);
      InOrderStep(parse, Within(parse, t, f, n - 1).value, f, n - 1);
    }
  }

  /** When every frame has its descriptors in order, no device inherits the endpoint counter of another. */
  lemma {:induction false} NoneInherited(parse: string -> int, frames: seq<Frame>)
    requires forall n :: 0 <= n < |frames| ==> InOrder(parse, frames[n]) && NoEmptyColumn(frames[n])
    ensures Run(parse, frames).Ok? ==> Clean(Run(parse, frames).value)
  {
    if frames != [] && Run(parse, frames).Ok? {
      NoneInherited(parse, frames[..|frames| - 1]);
      var f := frames[|frames| - 1];
      InOrderFrame(parse, Run(parse, frames[..|frames| - 1]).value, f, |f.types|);
    }
  }

  /** An endpoint read before any interface is still counted for the next device, which then misses the
      first endpoint of its own frame. */
  lemma InheritedCounter(parse: string -> int, t: Trace, f: Frame)
    requires t.Interfaces() == 0 && t.Endpoints() > 0
    requires SameDevice(parse, f) && Within(parse, t.Renewed(), f, |f.types|).Ok?
    requires Count(parse, f, EndpointType, |f.types|) == Entries(f, EndpointAddress) > 0
    ensures |Arrived(Within(parse, t.Renewed(), f, |f.types|).value.Ops())| < Entries(f, EndpointAddress)
  {
    TakesAllIff(parse, t.Renewed(), f);
    Progress(parse, t.Renewed(), f, |f.types|);
  }

  /** Such a device comes about: a device reply and then an endpoint descriptor alone. */
  lemma EndpointFirst(parse: string -> int, device: Frame, early: Frame)
    requires |device.types| == 1 && parse(device.types[0]) == Device && device.wanted
    requires |early.types| == 1 && parse(early.types[0]) == EndpointType
    requires Entries(early, EndpointAddress) > 0
    requires EndpointFields(parse, early.layers, 0, |EndpointTable|).Ok?
    ensures var r := Run(parse, [device, early]);
            r.Ok? && r.value.Interfaces() == 0 && r.value.Endpoints() == 1
  {
    var empty := Trace([], Some([]), 0);
    assert Within(parse, Start, device, 1) == Ok(empty);
    assert Run(parse, [device]) == Ok(empty) by { assert [device][..0] == []; }
    assert [device, early][..1] == [device];
    var e := Endpoint(EndpointFields(parse, early.layers, 0, |EndpointTable|).value);
    assert Next(parse, empty, early, 0) == Ok(Trace([], Some([] + [Arrive(e)]), 0));
    Extended([], Arrive(e));
    assert Within(parse, empty, early, 0) == Ok(empty);
  }

  // ---------------------------------------------------------------- descriptors by number

  /** What each kind of descriptor leads to, by the numbers of the USB standard. */
  lemma DecodeMeaning(parse: string -> int, f: Frame, d: nat, i: nat, e: nat)
    requires d < |f.types|
    ensures var (kind, r) := (parse(f.types[d]), Decode(parse, f, d, i, e));
            && (r == Ok(NewDevice) <==> kind == 1 && f.wanted)
            && (r == Err(UnknownDescriptor) <==> kind !in {1, 2, 3, 4, 5, 33})
            && (r.Ok? && r.value.Build? ==>
                  if r.value.op.Announce? then
                    kind == 4 && Entries(f, "usb_usb_bInterfaceNumber") > i && HasLength(parse, f.layers, d, r.value.op.length)
                  else kind == 5 && Entries(f, "usb_usb_bEndpointAddress") > e)
            && (kind == 4 && "usb_usb_bInterfaceNumber" in f.layers && Entries(f, "usb_usb_bInterfaceNumber") <= i ==> r == Ok(Skip))
            && (kind == 5 && "usb_usb_bEndpointAddress" in f.layers && Entries(f, "usb_usb_bEndpointAddress") <= e ==> r == Ok(Skip))
  {
    if parse(f.types[d]) == InterfaceType { NoUnknownField(parse, f.layers, i, |InterfaceTable|); }
    if parse(f.types[d]) == EndpointType { NoUnknownEndpoint(parse, f.layers, e, |EndpointTable|); }
  }

  lemma {:induction false} NoUnknownField(parse: string -> int, layers: Layers, i: nat, n: nat)
    requires n <= |InterfaceTable|
    ensures InterfaceFields(parse, layers, i, n) != Err(UnknownDescriptor)
  {
    if n > 0 { NoUnknownField(parse, layers, i, n - 1); }
  }

  lemma {:induction false} NoUnknownEndpoint(parse: string -> int, layers: Layers, i: nat, n: nat)
    requires n <= |EndpointTable|
    ensures EndpointFields(parse, layers, i, n) != Err(UnknownDescriptor)
  {
    if n > 0 { NoUnknownEndpoint(parse, layers, i, n - 1); }
  }

  /** The length of the d-th descriptor; of a single text, its d-th character. */
  ghost predicate HasLength(parse: string -> int, layers: Layers, d: nat, length: int) {
    && "usb_usb_bLength" in layers && d < Len(layers["usb_usb_bLength"])
    && length == match layers["usb_usb_bLength"] case Text(t) => parse([t[d]]) case List(ts) => parse(ts[d])
  }

  /** An interface stops the conversion for its string index exactly when that is not a byte. */
  lemma StopsUnlessByte(parse: string -> int, t: Trace, f: Frame, d: nat)
    requires d < |f.types| && t.current.Some?
    requires var r := Decode(parse, f, d, t.Interfaces(), t.Endpoints()); r.Ok? && r.value.Build? && r.value.op.Announce?
    ensures var fields := Decode(parse, f, d, t.Interfaces(), t.Endpoints()).value.op.fields;
            && "Interface" in fields
            && (Next(parse, t, f, d) == Err(OverflowError) <==> !(0 <= fields["Interface"] <= 255))
            && (Next(parse, t, f, d).Ok? <==> 0 <= fields["Interface"] <= 255)
  {
    InterfaceFieldsMeaning(parse, f.layers, t.Interfaces());
    assert "Interface" in {"InterfaceClass", "InterfaceSubClass", "InterfaceProtocol", "Interface", "NumEndpoints"};
  }
}
