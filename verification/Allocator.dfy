/** Handing USB endpoints to the interfaces of a device, first fit, as the descriptors arrive. */
module Allocator {

  type Fields = map<string, int>

  datatype Endpoint = Endpoint(fields: Fields)

  datatype Interface = Interface(length: int, fields: Fields, endpoints: seq<Endpoint>)

  /** The two descriptors that build up a device. */
  datatype Op = Announce(length: int, fields: Fields) | Arrive(endpoint: Endpoint)

  function Capacity(fields: Fields): nat {
    if "NumEndpoints" in fields && fields["NumEndpoints"] > 0 then fields["NumEndpoints"] else 0
  }

  predicate HasRoom(i: Interface) {
    "NumEndpoints" in i.fields && |i.endpoints| < i.fields["NumEndpoints"]
  }

  /** The first interface with a missing endpoint, or the number of interfaces. */
  function FirstRoom(ifaces: seq<Interface>): (p: nat)
    ensures p <= |ifaces| && (p < |ifaces| ==> HasRoom(ifaces[p])) && forall j :: 0 <= j < p ==> !HasRoom(ifaces[j])
  {
    if ifaces == [] || HasRoom(ifaces[0]) then 0 else FirstRoom(ifaces[1..]) + 1
  }

  function Place(ifaces: seq<Interface>, e: Endpoint): seq<Interface> {
    var p := FirstRoom(ifaces);
    if p == |ifaces| then ifaces else ifaces[p := ifaces[p].(endpoints := ifaces[p].endpoints + [e])]
  }

  function Apply(ifaces: seq<Interface>, op: Op): seq<Interface> {
    match op
    case Announce(length, fields) => ifaces + [Interface(length, fields, [])]
    case Arrive(e) => Place(ifaces, e)
  }

  /** The interfaces of a device after its descriptors. */
  function Alloc(ops: seq<Op>): seq<Interface> {
    if ops == [] then [] else Apply(Alloc(ops[..|ops| - 1]), ops[|ops| - 1])
  }

  // ---------------------------------------------------------------- the reference

  /** The announced interfaces, without endpoints. */
  ghost function Announced(ops: seq<Op>): seq<Interface> {
    if ops == [] then []
    else
      var (before, op) := (Announced(ops[..|ops| - 1]), ops[|ops| - 1]);
      if op.Announce? then before + [Interface(op.length, op.fields, [])] else before
  }

  ghost function Arrived(ops: seq<Op>): seq<Endpoint> {
    if ops == [] then []
    else
      var (before, op) := (Arrived(ops[..|ops| - 1]), ops[|ops| - 1]);
      if op.Arrive? then before + [op.endpoint] else before
  }

  /** How many endpoints the first n interfaces ask for. */
  ghost function Room(ifaces: seq<Interface>, n: nat): nat
    requires n <= |ifaces|
  {
    if n == 0 then 0 else Room(ifaces, n - 1) + Capacity(ifaces[n - 1].fields)
  }

  /** The endpoints that found a place, in order of arrival: those that came while fewer had been
      placed than the interfaces announced until then ask for. */
  ghost function Placed(ops: seq<Op>): seq<Endpoint> {
    if ops == [] then []
    else
      var (init, op) := (ops[..|ops| - 1], ops[|ops| - 1]);
      var before := Placed(init);
      if op.Arrive? && |before| < Room(Announced(init), |Announced(init)|) then before + [op.endpoint] else before
  }

  function Min(a: nat, b: nat): nat { if a < b then a else b }

  /** The share of the j-th interface when placed endpoints fill the interfaces one after another. */
  ghost function Share(ifaces: seq<Interface>, placed: seq<Endpoint>, j: nat): seq<Endpoint>
    requires j < |ifaces|
  {
    placed[Min(Room(ifaces, j), |placed|)..Min(Room(ifaces, j + 1), |placed|)]
  }

  // ---------------------------------------------------------------- first fit fills in order

  ghost predicate Holds(i: Interface, announced: seq<Interface>, placed: seq<Endpoint>, j: nat)
    requires j < |announced|
  {
    i == announced[j].(endpoints := Share(announced, placed, j))
  }

  /** Same headers as announced, and each interface holds its share of the placed endpoints. */
  ghost predicate Shared(ifaces: seq<Interface>, announced: seq<Interface>, placed: seq<Endpoint>) {
    && |ifaces| == |announced| && |placed| <= Room(announced, |announced|)
    && forall j {:trigger ifaces[j]} :: 0 <= j < |ifaces| ==> Holds(ifaces[j], announced, placed, j)
  }

  lemma {:induction false} RoomMonotone(ifaces: seq<Interface>, m: nat, n: nat)
    requires m <= n <= |ifaces|
    ensures Room(ifaces, m) <= Room(ifaces, n)
    decreases n
  {
    if m < n { RoomMonotone(ifaces, m, n - 1); }
  }

  lemma {:induction false} RoomPrefix(ifaces: seq<Interface>, more: seq<Interface>, n: nat)
    requires n <= |ifaces|
    ensures Room(ifaces + more, n) == Room(ifaces, n)
  {
    if n > 0 { RoomPrefix(ifaces, more, n - 1); }
  }

  lemma ShareSize(ifaces: seq<Interface>, placed: seq<Endpoint>, j: nat)
    requires j < |ifaces|
    ensures |Share(ifaces, placed, j)| <= Capacity(ifaces[j].fields)
    ensures |Share(ifaces, placed, j)| < Capacity(ifaces[j].fields) <==>
        |placed| < Room(ifaces, j + 1) && Room(ifaces, j) < Room(ifaces, j + 1)
  {
  }

  /** An interface has room exactly when the placed endpoints do not reach its end. */
  lemma RoomAt(ifaces: seq<Interface>, announced: seq<Interface>, placed: seq<Endpoint>, j: nat)
    requires Shared(ifaces, announced, placed) && j < |ifaces|
    ensures HasRoom(ifaces[j]) <==> |placed| < Room(announced, j + 1) && Room(announced, j) < Room(announced, j + 1)
  {
    ShareSize(announced, placed, j);
  }

  /** With every interface before p full, the placed endpoints reach p. */
  lemma {:induction false} FullBefore(ifaces: seq<Interface>, announced: seq<Interface>, placed: seq<Endpoint>, p: nat)
    requires Shared(ifaces, announced, placed) && p <= |ifaces|
    requires forall j :: 0 <= j < p ==> !HasRoom(ifaces[j])
    ensures Room(announced, p) <= |placed|
  {
    if p > 0 {
      FullBefore(ifaces, announced, placed, p - 1);
      RoomAt(ifaces, announced, placed, p - 1);
    }
  }

  lemma ShareGrows(announced: seq<Interface>, placed: seq<Endpoint>, e: Endpoint, j: nat)
    requires j < |announced|
    ensures Share(announced, placed + [e], j)
         == Share(announced, placed, j) + if Room(announced, j) <= |placed| < Room(announced, j + 1) then [e] else []
  {
    SliceGrows(placed, e, Room(announced, j), Room(announced, j + 1));
  }

  lemma SliceGrows(s: seq<Endpoint>, e: Endpoint, a: nat, b: nat)
    requires a <= b
    ensures (s + [e])[Min(a, |s| + 1)..Min(b, |s| + 1)]
         == s[Min(a, |s|)..Min(b, |s|)] + if a <= |s| < b then [e] else []
  {
  }

  lemma HoldsBeside(i: Interface, announced: seq<Interface>, placed: seq<Endpoint>, e: Endpoint, p: nat, j: nat)
    requires p < |announced| && j < |announced| && j != p && Holds(i, announced, placed, j)
    requires Room(announced, p) <= |placed| < Room(announced, p + 1)
    ensures Holds(i, announced, placed + [e], j)
  {
    ShareGrows(announced, placed, e, j);
    if j < p { RoomMonotone(announced, j + 1, p); } else { RoomMonotone(announced, p + 1, j); }
  }

  lemma PlaceShared(ifaces: seq<Interface>, announced: seq<Interface>, placed: seq<Endpoint>, e: Endpoint)
    requires Shared(ifaces, announced, placed)
    ensures FirstRoom(ifaces) == |ifaces| <==> |placed| == Room(announced, |announced|)
    ensures Shared(Place(ifaces, e), announced,
                   if |placed| < Room(announced, |announced|) then placed + [e] else placed)
  {
    var p := FirstRoom(ifaces);
    FullBefore(ifaces, announced, placed, p);
    if p < |ifaces| {
      RoomAt(ifaces, announced, placed, p);
      RoomMonotone(announced, p + 1, |announced|);
      ShareGrows(announced, placed, e, p);
      forall j | 0 <= j < |ifaces| ensures Holds(Place(ifaces, e)[j], announced, placed + [e], j) {
        if j != p { HoldsBeside(ifaces[j], announced, placed, e, p, j); }
      }
    }
  }

  lemma HoldsStill(i: Interface, announced: seq<Interface>, more: seq<Interface>, placed: seq<Endpoint>, j: nat)
    requires j < |announced| && Holds(i, announced, placed, j)
    ensures Holds(i, announced + more, placed, j)
  {
    RoomPrefix(announced, more, j);
    RoomPrefix(announced, more, j + 1);
  }

  lemma AnnounceShared(ifaces: seq<Interface>, announced: seq<Interface>, placed: seq<Endpoint>, i: Interface)
    requires Shared(ifaces, announced, placed) && i.endpoints == []
    ensures Shared(ifaces + [i], announced + [i], placed)
  {
    var n := |announced|;
    var ifaces' := ifaces + [i];
    RoomPrefix(announced, [i], n);
    forall j | 0 <= j < |ifaces'| ensures Holds(ifaces'[j], announced + [i], placed, j)
    {
      if j < n {
        assert ifaces'[j] == ifaces[j];
        HoldsStill(ifaces[j], announced, [i], placed, j);
      } else {
        assert Share(announced + [i], placed, n) == [];
      }
    }
  }

  /** For every sequence of descriptors, first fit gives each interface exactly its share of the
      endpoints that found a place. */
  lemma {:induction false} AllocIsShare(ops: seq<Op>)
    ensures Shared(Alloc(ops), Announced(ops), Placed(ops))
  {
    if ops != [] {
      var (init, op) := (ops[..|ops| - 1], ops[|ops| - 1]);
      AllocIsShare(init);
      match op
      case Announce(length, fields) =>
        AnnounceShared(Alloc(init), Announced(init), Placed(init), Interface(length, fields, []));
      case Arrive(e) => PlaceShared(Alloc(init), Announced(init), Placed(init), e);
    }
  }

  // ---------------------------------------------------------------- consequences

  ghost function Concat(ifaces: seq<Interface>, n: nat): seq<Endpoint>
    requires n <= |ifaces|
  {
    if n == 0 then [] else Concat(ifaces, n - 1) + ifaces[n - 1].endpoints
  }

  ghost predicate Full(i: Interface) {
    |i.endpoints| == Capacity(i.fields)
  }

  ghost predicate AllFull(ifaces: seq<Interface>) {
    forall j :: 0 <= j < |ifaces| ==> Full(ifaces[j])
  }

  lemma {:induction false} ConcatShares(ifaces: seq<Interface>, announced: seq<Interface>, placed: seq<Endpoint>, n: nat)
    requires Shared(ifaces, announced, placed) && n <= |ifaces|
    ensures Concat(ifaces, n) == placed[..Min(Room(announced, n), |placed|)]
  {
    if n > 0 {
      ConcatShares(ifaces, announced, placed, n - 1);
      RoomMonotone(announced, n - 1, n);
      assert Holds(ifaces[n - 1], announced, placed, n - 1);
      TakeMore(placed, Min(Room(announced, n - 1), |placed|), Min(Room(announced, n), |placed|));
    }
  }

  lemma TakeMore(s: seq<Endpoint>, a: nat, b: nat)
    requires a <= b <= |s|
    ensures s[..a] + s[a..b] == s[..b]
  {
  }

  /** The endpoints of all interfaces together are the placed ones, in order of arrival. */
  lemma KeepsArrivalOrder(ops: seq<Op>)
    ensures Concat(Alloc(ops), |Alloc(ops)|) == Placed(ops)
  {
    AllocIsShare(ops);
    ConcatShares(Alloc(ops), Announced(ops), Placed(ops), |Alloc(ops)|);
    assert Placed(ops)[..|Placed(ops)|] == Placed(ops);
  }

  lemma EmptyBehind(announced: seq<Interface>, placed: seq<Endpoint>, p: nat, j: nat)
    requires p < j < |announced| && |placed| < Room(announced, p + 1)
    ensures Share(announced, placed, j) == []
  {
    RoomMonotone(announced, p + 1, j);
  }

  lemma SharedShape(ifaces: seq<Interface>, announced: seq<Interface>, placed: seq<Endpoint>, j: nat)
    requires Shared(ifaces, announced, placed) && j < |ifaces|
    ensures j < FirstRoom(ifaces) ==> Full(ifaces[j])
    ensures j > FirstRoom(ifaces) ==> ifaces[j].endpoints == []
  {
    var p := FirstRoom(ifaces);
    assert Holds(ifaces[j], announced, placed, j);
    if j < p {
      ShareSize(announced, placed, j);
    } else if j > p {
      RoomAt(ifaces, announced, placed, p);
      EmptyBehind(announced, placed, p, j);
    }
  }

  /** The interfaces before the first one with room are full, and those behind it are empty. */
  lemma FullThenEmpty(ops: seq<Op>, j: nat)
    requires j < |Alloc(ops)|
    ensures j < FirstRoom(Alloc(ops)) ==> Full(Alloc(ops)[j])
    ensures j > FirstRoom(Alloc(ops)) ==> Alloc(ops)[j].endpoints == []
  {
    AllocIsShare(ops);
    SharedShape(Alloc(ops), Announced(ops), Placed(ops), j);
  }

  /** An endpoint is dropped exactly when every interface announced so far is full; then nothing changes. */
  lemma DroppedWhenFull(ops: seq<Op>, e: Endpoint)
    ensures Placed(ops + [Arrive(e)]) == Placed(ops) + [e] || Placed(ops + [Arrive(e)]) == Placed(ops)
    ensures Placed(ops + [Arrive(e)]) == Placed(ops) <==> AllFull(Alloc(ops))
    ensures Alloc(ops + [Arrive(e)]) == Alloc(ops) <==> Placed(ops + [Arrive(e)]) == Placed(ops)
  {
    var ifaces := Alloc(ops);
    var p := FirstRoom(ifaces);
    assert (ops + [Arrive(e)])[..|ops|] == ops;
    AllocIsShare(ops);
    PlaceShared(ifaces, Announced(ops), Placed(ops), e);
    FullIsNoRoom(ifaces, Announced(ops), Placed(ops));
    if p < |ifaces| {
      assert |Placed(ops + [Arrive(e)])| == |Placed(ops)| + 1;
      assert |Place(ifaces, e)[p].endpoints| == |ifaces[p].endpoints| + 1;
    } else {
      assert Placed(ops + [Arrive(e)]) == Placed(ops);
    }
  }

  lemma FullIsNoRoom(ifaces: seq<Interface>, announced: seq<Interface>, placed: seq<Endpoint>)
    requires Shared(ifaces, announced, placed)
    ensures FirstRoom(ifaces) == |ifaces| <==> AllFull(ifaces)
  {
    forall j | 0 <= j < |ifaces| ensures Full(ifaces[j]) <==> !HasRoom(ifaces[j]) {
      ShareSize(announced, placed, j);
    }
  }

  /** How many endpoints the announced interfaces ask for. */
  ghost function Asked(ops: seq<Op>): nat {
    Room(Announced(ops), |Announced(ops)|)
  }

  lemma FullIsAsked(ops: seq<Op>)
    ensures |Placed(ops)| <= Asked(ops) && (AllFull(Alloc(ops)) <==> |Placed(ops)| == Asked(ops))
  {
    AllocIsShare(ops);
    PlaceShared(Alloc(ops), Announced(ops), Placed(ops), Endpoint(map[]));
    FullIsNoRoom(Alloc(ops), Announced(ops), Placed(ops));
  }

  lemma ArrivalFills(ops: seq<Op>, e: Endpoint)
    ensures Announced(ops + [Arrive(e)]) == Announced(ops)
    ensures |Placed(ops + [Arrive(e)])| == Min(Asked(ops), |Placed(ops)| + 1)
    ensures |Placed(ops + [Arrive(e)])| == |Placed(ops)| ==> Alloc(ops + [Arrive(e)]) == Alloc(ops)
  {
    FullIsAsked(ops);
    DroppedWhenFull(ops, e);
    assert (ops + [Arrive(e)])[..|ops|] == ops;
  }

  lemma {:induction false} ArrivalsFill(ops: seq<Op>, added: seq<Op>)
    requires forall k :: 0 <= k < |added| ==> added[k].Arrive?
    ensures Announced(ops + added) == Announced(ops)
    ensures |Placed(ops + added)| == Min(Asked(ops), |Placed(ops)| + |added|)
    ensures |Placed(ops + added)| == |Placed(ops)| ==> Alloc(ops + added) == Alloc(ops)
    decreases |added|
  {
    if added == [] {
      assert ops + added == ops;
      FullIsAsked(ops);
    } else {
      var (init, op) := (added[..|added| - 1], added[|added| - 1]);
      ArrivalsFill(ops, init);
      ArrivalFills(ops + init, op.endpoint);
      assert ops + added == (ops + init) + [Arrive(op.endpoint)];
    }
  }

  /** Endpoints that arrive together change the interfaces exactly when there are any and an interface
      still misses one. */
  lemma UnchangedByArrivals(ops: seq<Op>, added: seq<Op>)
    requires forall k :: 0 <= k < |added| ==> added[k].Arrive?
    ensures Alloc(ops + added) == Alloc(ops) <==> added == [] || AllFull(Alloc(ops))
  {
    ArrivalsFill(ops, added);
    FullIsAsked(ops);
    if |Placed(ops + added)| > |Placed(ops)| { MorePlacedDiffers(ops, ops + added); }
  }

  lemma MorePlacedDiffers(a: seq<Op>, b: seq<Op>)
    requires |Placed(a)| < |Placed(b)|
    ensures Alloc(a) != Alloc(b)
  {
    KeepsArrivalOrder(a);
    KeepsArrivalOrder(b);
  }

  /** No more endpoints have arrived than the interfaces ask for. */
  ghost predicate Enough(ops: seq<Op>) {
    |Arrived(ops)| <= Asked(ops)
  }

  lemma {:induction false} PlacedAtMost(ops: seq<Op>)
    ensures |Placed(ops)| <= |Arrived(ops)|
    ensures |Placed(ops)| == |Arrived(ops)| ==> Placed(ops) == Arrived(ops)
  {
    if ops != [] { PlacedAtMost(ops[..|ops| - 1]); }
  }

  /** The last descriptor loses no endpoint exactly when there are enough places behind it. */
  lemma LastNotLost(ops: seq<Op>)
    requires ops != []
    ensures Placed(ops) == Arrived(ops) <==> Placed(ops[..|ops| - 1]) == Arrived(ops[..|ops| - 1]) && Enough(ops)
  {
    var init := ops[..|ops| - 1];
    PlacedAtMost(init);
    AllocIsShare(init);
    if ops[|ops| - 1].Announce? {
      var n := |Announced(init)|;
      RoomPrefix(Announced(init), Announced(ops)[n..], n);
      assert Announced(ops) == Announced(init) + Announced(ops)[n..];
    }
  }

  ghost predicate AlwaysEnough(ops: seq<Op>) {
    forall k :: 0 <= k <= |ops| ==> Enough(ops[..k])
  }

  lemma AlwaysEnoughSplit(init: seq<Op>, op: Op)
    ensures AlwaysEnough(init + [op]) <==> AlwaysEnough(init) && Enough(init + [op])
  {
    var (ops, n) := (init + [op], |init|);
    assert ops[..n + 1] == ops;
    assert forall k :: 0 <= k <= n ==> init[..k] == ops[..k];
  }

  /** No endpoint is lost exactly when at no moment more have arrived than were asked for. */
  lemma {:induction false} NothingLost(ops: seq<Op>)
    ensures Placed(ops) == Arrived(ops) <==> AlwaysEnough(ops)
  {
    if ops != [] {
      var (init, op) := (ops[..|ops| - 1], ops[|ops| - 1]);
      NothingLost(init);
      LastNotLost(ops);
      assert ops == init + [op];
      AlwaysEnoughSplit(init, op);
    }
  }
}
