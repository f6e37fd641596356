/**
 The transition detector `_get_status_changes` (ecl2df/wellconnstatus.py): one
 forward scan over a connection's flow-indicator (CPI) series, starting from a
 previous value of 0, emitting a dated OPEN when the value turns positive after
 having been 0 and a dated SHUT when it turns 0 after having been positive.

 Dates are a type parameter (they are only copied); values are reals.
 */
module Detector {
  import opened Optional

  datatype Status = Open | Shut

  /** One `(date, status)` tuple of the result list. */
  datatype Change<D> = Change(date: D, status: Status)

  /** How many observations `zip(dates, conn_values)` yields: the shorter length. */
  function Span<D>(dates: seq<D>, values: seq<real>): (n: nat)
    ensures n <= |dates| && n <= |values|
    ensures n == |dates| || n == |values|
  {
    if |dates| <= |values| then |dates| else |values|
  }

  /** The decision taken at one observation, given the value seen before it. */
  function Step(prev: real, value: real): Option<Status>
  {
    if value > 0.0 && prev == 0.0 then Some(Open)
    else if prev > 0.0 && value == 0.0 then Some(Shut)
    else None
  }

  /** The (at most one) change a decision appends. */
  function Emit<D>(date: D, decision: Option<Status>): (out: seq<Change<D>>)
    ensures |out| <= 1
  {
    match decision
    case Some(s) => [Change(date, s)]
    case None => []
  }

  /** The scan as a recursion over the zipped observations, carrying the
      previous value along. */
  function Scan<D>(dates: seq<D>, values: seq<real>, prev: real): (r: seq<Change<D>>)
    ensures |r| <= Span(dates, values)
    decreases |dates|
  {
    if |dates| == 0 || |values| == 0 then []
    else Emit(dates[0], Step(prev, values[0])) + Scan(dates[1..], values[1..], values[0])
  }

  /** `_get_status_changes(dates, conn_values)`: the scan from a previous value of 0. */
  function StatusChanges<D>(dates: seq<D>, values: seq<real>): (r: seq<Change<D>>)
    ensures |r| <= Span(dates, values)
  {
    Scan(dates, values, 0.0)
  }

  // ---------------------------------------------------------------------------
  // The same behaviour read by index: what decides an event at observation t.

  /** The value the scan compares against at index t: 0 before the first. */
  function PrevValue(values: seq<real>, t: nat): real
    requires t <= |values|
  {
    if t == 0 then 0.0 else values[t - 1]
  }

  /** A connection opens at t: it flows at t and did not flow (exactly 0) just before. */
  predicate OpensAt(values: seq<real>, t: nat)
    requires t < |values|
  {
    values[t] > 0.0 && (t == 0 || values[t - 1] == 0.0)
  }

  /** A connection shuts at t: it flowed just before t and is exactly 0 at t. */
  predicate ShutsAt(values: seq<real>, t: nat)
    requires t < |values|
  {
    0 < t && values[t - 1] > 0.0 && values[t] == 0.0
  }

  /** The status change recorded at index t, if any. */
  function StatusAt(values: seq<real>, t: nat): (s: Option<Status>)
    requires t < |values|
    ensures s == Some(Open) <==> OpensAt(values, t)
    ensures s == Some(Shut) <==> ShutsAt(values, t)
    ensures s == None <==> !OpensAt(values, t) && !ShutsAt(values, t)
  {
    Step(PrevValue(values, t), values[t])
  }

  /** The changes among the first n observations, accumulated front to back. */
  function EventsUpTo<D>(dates: seq<D>, values: seq<real>, n: nat): (r: seq<Change<D>>)
    requires n <= Span(dates, values)
    ensures |r| <= n
  {
    if n == 0 then []
    else EventsUpTo(dates, values, n - 1) + Emit(dates[n - 1], StatusAt(values, n - 1))
  }

  /** The indices among the first n observations at which a change is recorded. */
  function EventIndices(values: seq<real>, n: nat): (idx: seq<nat>)
    requires n <= |values|
    ensures |idx| <= n
    ensures forall m :: 0 <= m < |idx| ==> idx[m] < n && StatusAt(values, idx[m]).Some?
    ensures forall m, m' :: 0 <= m < m' < |idx| ==> idx[m] < idx[m']
    ensures forall t :: 0 <= t < n && StatusAt(values, t).Some? ==> t in idx
  {
    if n == 0 then []
    else EventIndices(values, n - 1) + (if StatusAt(values, n - 1).Some? then [n - 1] else [])
  }

  /** The prefix accumulation lists exactly the changes at the event indices,
      each dated with the date at its own index. */
  lemma {:induction false} EventsUpToByIndex<D>(dates: seq<D>, values: seq<real>, n: nat)
    requires n <= Span(dates, values)
    ensures |EventsUpTo(dates, values, n)| == |EventIndices(values, n)|
    ensures forall m :: 0 <= m < |EventIndices(values, n)| ==>
      EventsUpTo(dates, values, n)[m]
        == Change(dates[EventIndices(values, n)[m]], StatusAt(values, EventIndices(values, n)[m]).value)
  {
    if n > 0 {
      EventsUpToByIndex(dates, values, n - 1);
    }
  }

  /** The recursive scan, resumed after n observations with the value at n-1 as
      its previous value, completes the first n observations' changes. */
  lemma {:induction false} ScanResumes<D>(dates: seq<D>, values: seq<real>, n: nat)
    requires n <= Span(dates, values)
    ensures StatusChanges(dates, values)
      == EventsUpTo(dates, values, n) + Scan(dates[n..], values[n..], PrevValue(values, n))
  {
    if n == 0 {
      assert dates[0..] == dates && values[0..] == values;
    } else {
      ScanResumes(dates, values, n - 1);
      var ds, vs := dates[n - 1..], values[n - 1..];
      assert ds[1..] == dates[n..] && vs[1..] == values[n..];
      assert Scan(ds, vs, PrevValue(values, n - 1))
        == Emit(dates[n - 1], StatusAt(values, n - 1)) + Scan(dates[n..], values[n..], PrevValue(values, n));
    }
  }

  /** The scan carrying a previous value and the reading by index agree. */
  lemma StatusChangesByIndex<D>(dates: seq<D>, values: seq<real>)
    ensures StatusChanges(dates, values) == EventsUpTo(dates, values, Span(dates, values))
  {
    var n := Span(dates, values);
    ScanResumes(dates, values, n);
    assert |dates[n..]| == 0 || |values[n..]| == 0;
  }

  /** Characterisation of the result: the changes are, in increasing index
      order, exactly those at the indices where OpensAt or ShutsAt holds among
      the zipped observations, each dated with the date at its index. */
  lemma StatusChangesCharacterised<D>(dates: seq<D>, values: seq<real>)
    ensures var r, idx := StatusChanges(dates, values), EventIndices(values, Span(dates, values));
      && |r| == |idx|
      && (forall m :: 0 <= m < |idx| ==> r[m] == Change(dates[idx[m]], StatusAt(values, idx[m]).value))
  {
    StatusChangesByIndex(dates, values);
    EventsUpToByIndex(dates, values, Span(dates, values));
  }

  /** The loop of lines 57-65, over the zipped observations, with `prev_value`
      starting at 0. */
  method GetStatusChanges<D>(dates: seq<D>, values: seq<real>) returns (changes: seq<Change<D>>)
    ensures changes == StatusChanges(dates, values)
  {
    changes := [];
    var prev := 0.0;
    var n := Span(dates, values);
    var t := 0;
    while t < n
      invariant t <= n
      invariant prev == PrevValue(values, t)
      invariant changes == EventsUpTo(dates, values, t)
    {
      var date, value := dates[t], values[t];
      if value > 0.0 && prev == 0.0 {
        changes := changes + [Change(date, Open)];
      } else if prev > 0.0 && value == 0.0 {
        changes := changes + [Change(date, Shut)];
      }
      prev := value;
      t := t + 1;
    }
    StatusChangesByIndex(dates, values);
  }
}
