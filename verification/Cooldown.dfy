/** The per-URI download cooldown list of FwupdClient. */
module Cooldown {
  import opened Wrappers

  /** Smallest time between two requests of the same URI, in milliseconds. */
  const UriDelta := 1500

  datatype Error = NotReachable(elapsedMs: int)

  /** Integer division as in C: towards zero. */
  function TruncDiv(a: int, b: int): int
    requires b > 0
  {
    if a >= 0 then a / b else -((-a) / b)
  }

  /** Whole milliseconds between two monotonic clock readings in microseconds. */
  function ElapsedMs(now: int, time: int): int {
    TruncDiv(now - time, 1000)
  }

  lemma ElapsedMonotone(now: int, later: int, time: int)
    requires now <= later
    ensures ElapsedMs(now, time) <= ElapsedMs(later, time)
  {
  }

  // ---------------------------------------------------------------- the list as a value

  datatype Entry = Entry(uri: string, time: int)

  ghost predicate Stale(e: Entry, now: int) {
    ElapsedMs(now, e.time) > UriDelta
  }

  /** The entries that are not stale, in their old order. */
  ghost function Kept(es: seq<Entry>, now: int): seq<Entry> {
    if es == [] then []
    else if Stale(es[0], now) then Kept(es[1..], now)
    else [es[0]] + Kept(es[1..], now)
  }

  /** The time of the oldest entry for a URI. */
  ghost function First(es: seq<Entry>, uri: string): Option<int> {
    if es == [] then None
    else if es[0].uri == uri then Some(es[0].time)
    else First(es[1..], uri)
  }

  ghost predicate Refused(es: seq<Entry>, uri: string, now: int) {
    First(es, uri).Some? && ElapsedMs(now, First(es, uri).value) < UriDelta
  }

  /** By the clock, in microseconds: a URI is refused for one and a half seconds, and its entry is dropped a
      whole millisecond after that. */
  lemma ByTheClock(es: seq<Entry>, e: Entry, uri: string, now: int)
    ensures Refused(es, uri, now) <==> exists time :: First(es, uri) == Some(time) && now - time < 1_500_000
    ensures Stale(e, now) <==> now - e.time >= 1_501_000
  {
  }

  // ---------------------------------------------------------------- the list in place

  class DownloadItem {
    const uri: string
    const time: int

    constructor (uri: string, time: int)
      ensures this.uri == uri && this.time == time
    {
      this.uri, this.time := uri, time;
    }
  }

  ghost function EntriesOf(items: seq<DownloadItem>): (es: seq<Entry>)
    ensures |es| == |items|
    ensures forall i :: 0 <= i < |items| ==> es[i] == Entry(items[i].uri, items[i].time)
  {
    seq(|items|, i requires 0 <= i < |items| => Entry(items[i].uri, items[i].time))
  }

  ghost predicate Distinct(items: seq<DownloadItem>) {
    forall i, j :: 0 <= i < j < |items| ==> items[i] != items[j]
  }

  /** The items that are not among `gone`, in their old order. */
  ghost function Without(items: seq<DownloadItem>, gone: seq<DownloadItem>): seq<DownloadItem> {
    if items == [] then []
    else if items[0] in gone then Without(items[1..], gone)
    else [items[0]] + Without(items[1..], gone)
  }

  class DownloadItems {
    var items: seq<DownloadItem>

    ghost predicate Valid()
      reads this
    {
      Distinct(items)
    }

    ghost function Entries(): seq<Entry>
      reads this
    {
      EntriesOf(items)
    }

    constructor ()
      ensures Valid() && Entries() == []
    {
      items := [];
    }

    /** g_ptr_array_remove(): drops the first occurrence of a pointer. */
    method RemovePointer(item: DownloadItem)
      requires Valid()
      modifies this
      ensures Valid() && items == Without(old(items), [item])
    {
      var i := 0;
      while i < |items| && items[i] != item
        invariant 0 <= i <= |items|
        invariant forall j :: 0 <= j < i ==> items[j] != item
      {
        i := i + 1;
      }
      WithoutOne(items, item, i);
      if i < |items| {
        items := items[..i] + items[i + 1..];
      }
    }

    /** fwupd_client_download_item_prune(): first collect, then remove one pointer at a time. */
    method Prune(now: int)
      requires Valid()
      modifies this
      ensures Valid() && Entries() == Kept(old(Entries()), now)
    {
      var remove: seq<DownloadItem> := [];
      for i := 0 to |items|
        invariant forall x :: x in remove <==> x in items[..i] && Stale(Entry(x.uri, x.time), now)
      {
        if ElapsedMs(now, items[i].time) > UriDelta {
          remove := remove + [items[i]];
        }
      }
      WithoutNone(items, remove[..0]);
      var k := 0;
      while k < |remove|
        invariant 0 <= k <= |remove|
        invariant Valid() && items == Without(old(items), remove[..k])
      {
        RemovePointer(remove[k]);
        WithoutTwice(old(items), remove[..k], remove[k]);
        assert remove[..k + 1] == remove[..k] + [remove[k]];
        k := k + 1;
      }
      assert remove[..k] == remove;
      WithoutIsKept(old(items), remove, now);
    }

    /** fwupd_client_download_item_find_by_uri() */
    method FindByUri(uri: string) returns (item: DownloadItem?)
      ensures item == null <==> First(Entries(), uri).None?
      ensures item != null ==> item in items && item.uri == uri && First(Entries(), uri) == Some(item.time)
    {
      var i := 0;
      while i < |items|
        invariant 0 <= i <= |items|
        invariant First(Entries(), uri) == First(Entries()[i..], uri)
      {
        if items[i].uri == uri {
          return items[i];
        }
        assert Entries()[i..][1..] == Entries()[i + 1..];
        i := i + 1;
      }
      return null;
    }

    /** fwupd_client_download_item_add() */
    method Add(uri: string, now: int) returns (r: Result<(), Error>)
      requires Valid()
      modifies this
      ensures Valid()
      ensures r.Err? <==> Refused(old(Entries()), uri, now)
      ensures Entries() == if r.Ok? then old(Entries()) + [Entry(uri, now)] else old(Entries())
    {
      var item := FindByUri(uri);
      if item != null {
        var delta := ElapsedMs(now, item.time);
        if delta < UriDelta {
          return Err(NotReachable(delta));
        }
      }
      var added := new DownloadItem(uri, now);
      ghost var was := Entries();
      items := items + [added];
      assert Entries() == was + [Entry(uri, now)];
      return Ok(());
    }
  }

  lemma {:induction false} WithoutMember(items: seq<DownloadItem>, gone: seq<DownloadItem>)
    ensures forall x :: x in Without(items, gone) <==> x in items && x !in gone
    ensures Distinct(items) ==> Distinct(Without(items, gone))
  {
    if items != [] {
      WithoutMember(items[1..], gone);
      if Distinct(items) {
        assert items[0] !in items[1..];
      }
    }
  }

  lemma {:induction false} WithoutNone(items: seq<DownloadItem>, gone: seq<DownloadItem>)
    requires forall x | x in items :: x !in gone
    ensures Without(items, gone) == items
  {
    if items != [] { WithoutNone(items[1..], gone); }
  }

  lemma {:induction false} WithoutOne(items: seq<DownloadItem>, item: DownloadItem, i: nat)
    requires Distinct(items) && i <= |items|
    requires forall j :: 0 <= j < i ==> items[j] != item
    requires i < |items| ==> items[i] == item
    ensures Without(items, [item]) == if i < |items| then items[..i] + items[i + 1..] else items
    ensures Distinct(Without(items, [item]))
  {
    WithoutMember(items, [item]);
    if i == |items| {
      WithoutNone(items, [item]);
    } else if i == 0 {
      WithoutNone(items[1..], [item]);
    } else {
      WithoutOne(items[1..], item, i - 1);
      OneGone(items, i);
    }
  }

  lemma OneGone(items: seq<DownloadItem>, i: nat)
    requires 0 < i < |items|
    ensures [items[0]] + (items[1..][..i - 1] + items[1..][i..]) == items[..i] + items[i + 1..]
  {
    assert items[..i] == [items[0]] + items[1..][..i - 1];
    assert items[1..][i..] == items[i + 1..];
  }

  lemma {:induction false} WithoutTwice(items: seq<DownloadItem>, gone: seq<DownloadItem>, item: DownloadItem)
    ensures Without(Without(items, gone), [item]) == Without(items, gone + [item])
  {
    if items != [] {
      WithoutTwice(items[1..], gone, item);
      if items[0] !in gone {
        assert Without(items, gone)[1..] == Without(items[1..], gone);
      }
    }
  }

  /** Removing the collected pointers one by one is the order-preserving filter. */
  lemma {:induction false} WithoutIsKept(items: seq<DownloadItem>, gone: seq<DownloadItem>, now: int)
    requires forall x | x in items :: x in gone <==> Stale(Entry(x.uri, x.time), now)
    ensures EntriesOf(Without(items, gone)) == Kept(EntriesOf(items), now)
  {
    if items == [] {
      assert EntriesOf(Without(items, gone)) == [];
    } else {
      WithoutIsKept(items[1..], gone, now);
      assert EntriesOf(items)[1..] == EntriesOf(items[1..]);
      if items[0] !in gone {
        assert EntriesOf(Without(items, gone)) == [EntriesOf(items)[0]] + EntriesOf(Without(items[1..], gone));
      }
    }
  }

  // ---------------------------------------------------------------- whole runs

  /** One critical section; the clock was read at `sampled`, the lock taken at `locked`. */
  datatype Op = Add(uri: string, sampled: int, locked: int) | Prune(sampled: int, locked: int)

  ghost function Apply(es: seq<Entry>, op: Op): seq<Entry> {
    match op
    case Add(uri, now, _) => if Refused(es, uri, now) then es else es + [Entry(uri, now)]
    case Prune(now, _) => Kept(es, now)
  }

  ghost function RunFrom(es: seq<Entry>, ops: seq<Op>): seq<Entry> {
    if ops == [] then es else Apply(RunFrom(es, ops[..|ops| - 1]), ops[|ops| - 1])
  }

  ghost function Run(ops: seq<Op>): seq<Entry> {
    RunFrom([], ops)
  }

  lemma RunNext(ops: seq<Op>, m: nat)
    requires m < |ops|
    ensures Run(ops[..m + 1]) == Apply(Run(ops[..m]), ops[m])
  {
    assert ops[..m + 1][..m] == ops[..m];
  }

  /** The clock never goes back, and every thread reads it before it takes the lock. */
  ghost predicate WellTimed(ops: seq<Op>) {
    && (forall i :: 0 <= i < |ops| ==> ops[i].sampled <= ops[i].locked)
    && (forall i, j :: 0 <= i < j < |ops| ==> ops[i].locked <= ops[j].locked)
  }

  lemma {:induction false} FirstAppend(es: seq<Entry>, e: Entry, uri: string)
    ensures First(es + [e], uri) ==
      if First(es, uri).Some? then First(es, uri) else if e.uri == uri then Some(e.time) else None
  {
    if es != [] {
      assert (es + [e])[1..] == es[1..] + [e];
      FirstAppend(es[1..], e, uri);
    }
  }

  lemma {:induction false} FirstKept(es: seq<Entry>, now: int, uri: string)
    requires First(es, uri).Some? && ElapsedMs(now, First(es, uri).value) <= UriDelta
    ensures First(Kept(es, now), uri) == First(es, uri)
  {
    if es[0].uri != uri { FirstKept(es[1..], now, uri); }
  }

  /** While fewer than 1500 ms have passed since the entry for `uri` was made, no critical section
      removes or hides it. */
  lemma EntrySurvives(es: seq<Entry>, op: Op, uri: string, t: int)
    requires First(es, uri) == Some(t) && op.sampled <= op.locked && ElapsedMs(op.locked, t) < UriDelta
    ensures First(Apply(es, op), uri) == Some(t)
  {
    ElapsedMonotone(op.sampled, op.locked, t);
    match op
    case Add(u, now, _) => FirstAppend(es, Entry(u, now), uri);
    case Prune(now, _) => FirstKept(es, now, uri);
  }

  lemma {:induction false} EntryLasts(ops: seq<Op>, k: nat, m: nat, limit: int)
    requires WellTimed(ops) && k < m <= |ops| && ops[k].Add? && First(Run(ops[..k]), ops[k].uri).None?
    requires forall i :: k < i < m ==> ops[i].locked <= limit
    requires ElapsedMs(limit, ops[k].sampled) < UriDelta
    ensures First(Run(ops[..m]), ops[k].uri) == Some(ops[k].sampled)
    decreases m
  {
    assert ops[..m][..m - 1] == ops[..m - 1];
    if m == k + 1 {
      FirstAppend(Run(ops[..k]), Entry(ops[k].uri, ops[k].sampled), ops[k].uri);
    } else {
      EntryLasts(ops, k, m - 1, limit);
      ElapsedMonotone(ops[m - 1].locked, limit, ops[k].sampled);
      EntrySurvives(Run(ops[..m - 1]), ops[m - 1], ops[k].uri, ops[k].sampled);
    }
  }

  /** A URI accepted while the list had no entry for it is refused by every later add until 1500 whole
      milliseconds have passed, through any interleaving of adds and prunes, although each thread may
      have read the clock long before it got the lock. */
  lemma CooldownHolds(ops: seq<Op>, k: nat, j: nat)
    requires WellTimed(ops) && k < j < |ops|
    requires ops[k].Add? && First(Run(ops[..k]), ops[k].uri).None?
    requires ops[j].Add? && ops[j].uri == ops[k].uri && ElapsedMs(ops[j].locked, ops[k].sampled) < UriDelta
    ensures Refused(Run(ops[..j]), ops[j].uri, ops[j].sampled)
  {
    EntryLasts(ops, k, j, ops[j].locked);
    ElapsedMonotone(ops[j].sampled, ops[j].locked, ops[k].sampled);
  }

  /** Measured by the clock the second thread read, the cooldown can end early: the entry is pruned
      between the reading and the lock. */
  lemma EarlyReadingMayPass()
    ensures var ops := [Add("u", 0, 0), Prune(1501000, 1501000), Add("u", 1000000, 1501000)];
            && WellTimed(ops) && ElapsedMs(ops[2].sampled, ops[0].sampled) < UriDelta
            && !Refused(Run(ops[..2]), "u", ops[2].sampled)
  {
    var ops := [Add("u", 0, 0), Prune(1501000, 1501000), Add("u", 1000000, 1501000)];
    RunNext(ops, 0);
    RunNext(ops, 1);
    assert Run(ops[..0]) == [] && Run(ops[..1]) == [Entry("u", 0)];
    assert Kept([Entry("u", 0)], 1501000) == [];
  }

  /** The times at which a URI is listed, oldest entry first. */
  ghost function Times(es: seq<Entry>, uri: string): seq<int> {
    if es == [] then []
    else (if es[0].uri == uri then [es[0].time] else []) + Times(es[1..], uri)
  }

  lemma {:induction false} FirstOfTimes(es: seq<Entry>, uri: string)
    ensures First(es, uri) == if Times(es, uri) == [] then None else Some(Times(es, uri)[0])
  {
    if es != [] { FirstOfTimes(es[1..], uri); }
  }

  lemma {:induction false} TimesAppend(es: seq<Entry>, e: Entry, uri: string)
    ensures Times(es + [e], uri) == Times(es, uri) + if e.uri == uri then [e.time] else []
  {
    if es == [] {
      assert es + [e] == [e];
    } else {
      assert (es + [e])[1..] == es[1..] + [e];
      TimesAppend(es[1..], e, uri);
      var (a, b, c) := (if es[0].uri == uri then [es[0].time] else [], Times(es[1..], uri), if e.uri == uri then [e.time] else []);
      assert a + (b + c) == (a + b) + c;
    }
  }

  lemma {:induction false} TimesKept(es: seq<Entry>, now: int, uri: string)
    requires |Times(es, uri)| <= 1
    ensures Times(Kept(es, now), uri)
         == if Times(es, uri) != [] && ElapsedMs(now, Times(es, uri)[0]) > UriDelta then [] else Times(es, uri)
  {
    if es != [] { TimesKept(es[1..], now, uri); }
  }

  /** Some prune among the operations k + 1 to m - 1 had read the clock more than 1500 ms past `time`. */
  ghost predicate LatePrune(ops: seq<Op>, k: nat, m: nat, time: int) {
    exists i :: k < i < m && i < |ops| && PrunesLate(ops[i], time)
  }

  ghost predicate NoOtherAdd(ops: seq<Op>, k: nat, m: nat, uri: string) {
    forall i :: k < i < m && i < |ops| && ops[i].Add? ==> ops[i].uri != uri
  }

  /** The only entry of a URI is there until a prune has read more than 1500 ms past it. */
  lemma {:induction false} OnlyEntryUntilPruned(ops: seq<Op>, k: nat, m: nat)
    requires k < m <= |ops| && ops[k].Add? && First(Run(ops[..k]), ops[k].uri).None?
    requires NoOtherAdd(ops, k, m, ops[k].uri)
    ensures Times(Run(ops[..m]), ops[k].uri) == if LatePrune(ops, k, m, ops[k].sampled) then [] else [ops[k].sampled]
    decreases m
  {
    var uri, t, before := ops[k].uri, ops[k].sampled, Run(ops[..m - 1]);
    RunNext(ops, m - 1);
    if m == k + 1 {
      EntryBegins(before, ops[k]);
    } else {
      OnlyEntryUntilPruned(ops, k, m - 1);
      LatePruneStep(ops, k, m, t);
      EntryGoesOn(before, ops[m - 1], uri, t, LatePrune(ops, k, m - 1, t));
    }
  }

  lemma EntryBegins(es: seq<Entry>, op: Op)
    requires op.Add? && First(es, op.uri).None?
    ensures Times(Apply(es, op), op.uri) == [op.sampled]
  {
    FirstOfTimes(es, op.uri);
    TimesAppend(es, Entry(op.uri, op.sampled), op.uri);
  }

  lemma EntryGoesOn(es: seq<Entry>, op: Op, uri: string, t: int, gone: bool)
    requires Times(es, uri) == (if gone then [] else [t]) && (op.Add? ==> op.uri != uri)
    ensures Times(Apply(es, op), uri) == if gone || PrunesLate(op, t) then [] else [t]
  {
    TimesApply(es, op, uri);
  }

  /** An operation takes its reading more than 1500 ms past `time` and prunes. */
  ghost predicate PrunesLate(op: Op, time: int) {
    op.Prune? && ElapsedMs(op.sampled, time) > UriDelta
  }

  lemma TimesApply(es: seq<Entry>, op: Op, uri: string)
    requires |Times(es, uri)| <= 1 && (op.Add? ==> op.uri != uri)
    ensures Times(Apply(es, op), uri)
         == if Times(es, uri) != [] && PrunesLate(op, Times(es, uri)[0]) then [] else Times(es, uri)
  {
    match op
    case Add(u, now, _) => TimesAppend(es, Entry(u, now), uri);
    case Prune(now, _) => TimesKept(es, now, uri);
  }

  lemma LatePruneStep(ops: seq<Op>, k: nat, m: nat, time: int)
    requires k + 1 < m <= |ops|
    ensures LatePrune(ops, k, m, time) <==> LatePrune(ops, k, m - 1, time) || PrunesLate(ops[m - 1], time)
  {
  }

  /** The cooldown by the clock that the caller read: with no other add of the URI in between, an add that
      read less than 1500 ms is refused if and only if no prune in between had read more than that.  No
      assumption is made about who reads or locks when. */
  lemma ReadingRefusedIff(ops: seq<Op>, k: nat, j: nat)
    requires k < j < |ops| && ops[k].Add? && First(Run(ops[..k]), ops[k].uri).None?
    requires ops[j].Add? && ops[j].uri == ops[k].uri && NoOtherAdd(ops, k, j, ops[k].uri)
    requires ElapsedMs(ops[j].sampled, ops[k].sampled) < UriDelta
    ensures Refused(Run(ops[..j]), ops[j].uri, ops[j].sampled) <==> !LatePrune(ops, k, j, ops[k].sampled)
  {
    OnlyEntryUntilPruned(ops, k, j);
    FirstOfTimes(Run(ops[..j]), ops[k].uri);
  }

  /** The lookup returns the oldest entry, so a URI that was accepted while an older entry for it was
      still listed has no cooldown of its own: the next add is refused exactly when there was none. */
  lemma NextAddRefused(es: seq<Entry>, uri: string, t: int, now: int)
    requires !Refused(es, uri, t) && t <= now && ElapsedMs(now, t) < UriDelta
    ensures Refused(es + [Entry(uri, t)], uri, now) <==> First(es, uri).None?
  {
    FirstAppend(es, Entry(uri, t), uri);
    if First(es, uri).Some? { ElapsedMonotone(t, now, First(es, uri).value); }
  }
}
