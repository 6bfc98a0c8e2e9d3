/** Sums over the calls that are in flight. */
module CallSums {
  import opened Notify

  ghost function SomeCall(calls: map<CallId, Call>): CallId
    requires calls != map[]
    ensures SomeCall(calls) in calls
  {
    assert calls.Keys != {};
    var c :| c in calls;
    c
  }

  ghost function Total(calls: map<CallId, Call>, weight: Call -> nat): nat
    decreases |calls|
  {
    if calls == map[] then 0
    else
      var c := SomeCall(calls);
      weight(calls[c]) + Total(calls - {c}, weight)
  }

  lemma {:induction false} TotalRemove(calls: map<CallId, Call>, weight: Call -> nat, c: CallId)
    requires c in calls
    ensures Total(calls, weight) == weight(calls[c]) + Total(calls - {c}, weight)
    decreases |calls|
  {
    var d := SomeCall(calls);
    if d != c {
      TotalRemove(calls - {d}, weight, c);
      TotalRemove(calls - {c}, weight, d);
      assert calls - {d} - {c} == calls - {c} - {d};
    }
  }

  /** A call that moves on, or a new one, changes the sum by its own weight only. */
  lemma TotalMove(calls: map<CallId, Call>, weight: Call -> nat, c: CallId, call: Call)
    ensures Total(calls[c := call], weight) + (if c in calls then weight(calls[c]) else 0)
         == Total(calls, weight) + weight(call)
  {
    TotalRemove(calls[c := call], weight, c);
    assert calls[c := call] - {c} == calls - {c};
    if c in calls { TotalRemove(calls, weight, c); } else { assert calls - {c} == calls; }
  }

  lemma {:induction false} TotalZero(calls: map<CallId, Call>, weight: Call -> nat)
    requires forall c | c in calls :: weight(calls[c]) == 0
    ensures Total(calls, weight) == 0
    decreases |calls|
  {
    if calls != map[] { TotalZero(calls - {SomeCall(calls)}, weight); }
  }
}
