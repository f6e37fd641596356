/**
 What the module docstring of ecl2df/wellconnstatus.py promises about the
 status history of one connection: OPEN when CPI > 0, SHUT when CPI = 0, the
 earliest change always OPEN, never-open connections excluded.
 */
module DetectorProperties {
  import opened Optional
  import opened Detector

  /** The flow indicator is never negative (the docstring's OPEN/SHUT reading
      only covers CPI > 0 and CPI = 0). */
  predicate NonNegative(values: seq<real>)
  {
    forall t :: 0 <= t < |values| ==> values[t] >= 0.0
  }

  /** The opposite status. */
  function Other(s: Status): Status
  {
    match s
    case Open => Shut
    case Shut => Open
  }

  /** Statuses alternate, the first one being `first`. */
  predicate AlternatesFrom<D>(r: seq<Change<D>>, first: Status)
  {
    forall m :: 0 <= m < |r| ==> r[m].status == (if m % 2 == 0 then first else Other(first))
  }

  /** The docstring's invariant: the first change is OPEN and no two
      consecutive changes have the same status. */
  predicate Alternates<D>(r: seq<Change<D>>)
  {
    && (|r| > 0 ==> r[0].status == Open)
    && (forall m :: 0 < m < |r| ==> r[m].status != r[m - 1].status)
  }

  /** A change put in front of a sequence alternating from the other status. */
  lemma AlternatesFromCons<D>(c: Change<D>, r: seq<Change<D>>)
    requires AlternatesFrom(r, Other(c.status))
    ensures AlternatesFrom([c] + r, c.status)
  {
  }

  /** From a non-negative previous value over non-negative values, the scan
      alternates, starting with SHUT when the connection was flowing and with
      OPEN when it was not. */
  lemma {:induction false} ScanAlternates<D>(dates: seq<D>, values: seq<real>, prev: real)
    requires prev >= 0.0 && NonNegative(values)
    ensures AlternatesFrom(Scan(dates, values, prev), if prev > 0.0 then Shut else Open)
    decreases |dates|
  {
    if |dates| > 0 && |values| > 0 {
      var v := values[0];
      assert NonNegative(values[1..]);
      ScanAlternates(dates[1..], values[1..], v);
      var rest := Scan(dates[1..], values[1..], v);
      var head := Emit(dates[0], Step(prev, v));
      if head != [] {
        AlternatesFromCons(head[0], rest);
      }
    }
  }

  /** Non-negative series: the first change is OPEN and changes alternate. */
  lemma StatusChangesAlternate<D>(dates: seq<D>, values: seq<real>)
    requires NonNegative(values)
    ensures Alternates(StatusChanges(dates, values))
  {
    var r := StatusChanges(dates, values);
    ScanAlternates(dates, values, 0.0);
    forall m | 0 < m < |r|
      ensures r[m].status != r[m - 1].status
    {
      assert (m - 1) % 2 != m % 2;
    }
  }

  /** A negative value is not treated as 0: nothing is emitted at it, nor at
      the observation just after it. */
  lemma NegativeSilences(values: seq<real>, t: nat)
    requires t < |values| && values[t] < 0.0
    ensures StatusAt(values, t) == None
    ensures t + 1 < |values| ==> StatusAt(values, t + 1) == None
  {
  }

  /** A negative value breaks alternation: a shut through a negative value is
      never emitted, so a later OPEN follows the first one directly. */
  lemma NegativeBreaksAlternation<D>(d0: D, d1: D, d2: D, d3: D)
    ensures StatusChanges([d0, d1, d2, d3], [1.0, -1.0, 0.0, 1.0])
      == [Change(d0, Open), Change(d3, Open)]
    ensures !Alternates(StatusChanges([d0, d1, d2, d3], [1.0, -1.0, 0.0, 1.0]))
  {
    var ds, vs := [d0, d1, d2, d3], [1.0, -1.0, 0.0, 1.0];
    assert ds[1..] == [d1, d2, d3] && vs[1..] == [-1.0, 0.0, 1.0];
    assert ds[2..] == [d2, d3] && vs[2..] == [0.0, 1.0];
    assert ds[3..] == [d3] && vs[3..] == [1.0];
    assert Scan([d3], [1.0], 0.0) == [Change(d3, Open)] by {
      assert [d3][1..] == [] && [1.0][1..] == [];
    }
    assert Scan(ds[2..], vs[2..], -1.0) == [Change(d3, Open)] by {
      assert ds[2..][1..] == [d3] && vs[2..][1..] == [1.0];
    }
    assert Scan(ds[1..], vs[1..], 1.0) == [Change(d3, Open)] by {
      assert ds[1..][1..] == ds[2..] && vs[1..][1..] == vs[2..];
    }
    var r := StatusChanges(ds, vs);
    assert r[1].status == r[0].status;
  }

  /** Once no observed value is positive, nothing more is emitted from a
      non-positive previous value. */
  lemma {:induction false} ScanNeverPositive<D>(dates: seq<D>, values: seq<real>, prev: real)
    requires prev <= 0.0
    requires forall t :: 0 <= t < Span(dates, values) ==> values[t] <= 0.0
    ensures Scan(dates, values, prev) == []
    decreases |dates|
  {
    if |dates| > 0 && |values| > 0 {
      assert values[0] <= 0.0;
      ScanNeverPositive(dates[1..], values[1..], values[0]);
    }
  }

  /** A connection whose indicator never exceeds 0 (all zero, in particular)
      has no status changes and so is excluded. */
  lemma NeverOpenExcluded<D>(dates: seq<D>, values: seq<real>)
    requires forall t :: 0 <= t < Span(dates, values) ==> values[t] <= 0.0
    ensures StatusChanges(dates, values) == []
  {
    ScanNeverPositive(dates, values, 0.0);
  }

  /** Conversely, for a non-negative series, no change at all means every
      observed value is 0. */
  lemma ExcludedOnlyIfAllZero<D>(dates: seq<D>, values: seq<real>)
    requires NonNegative(values)
    requires StatusChanges(dates, values) == []
    ensures forall t :: 0 <= t < Span(dates, values) ==> values[t] == 0.0
  {
    var n := Span(dates, values);
    StatusChangesCharacterised(dates, values);
    forall t | 0 <= t < n
      ensures values[t] == 0.0
    {
      if values[t] != 0.0 {
        PositiveOpens(values, n, t);
        assert false;
      }
    }
  }

  /** A non-negative series with a non-zero value among the first n has an
      event among them: the first positive value opens the connection. */
  lemma PositiveOpens(values: seq<real>, n: nat, t: nat)
    requires t < n <= |values|
    requires NonNegative(values) && values[t] != 0.0
    ensures |EventIndices(values, n)| > 0
  {
    var f := FirstPositive(values, t);
    assert OpensAt(values, f);
    assert f in EventIndices(values, n);
  }

  /** The first positive index at or before t (given one at t). */
  function FirstPositive(values: seq<real>, t: nat): (f: nat)
    requires t < |values| && NonNegative(values) && values[t] != 0.0
    ensures f <= t && values[f] > 0.0
    ensures forall u :: 0 <= u < f ==> values[u] == 0.0
  {
    if exists u :: 0 <= u < t && values[u] != 0.0 then
      var u :| 0 <= u < t && values[u] != 0.0;
      FirstPositive(values, u)
    else t
  }

  /** From a flowing previous value over flowing values, nothing is emitted. */
  lemma {:induction false} ScanStaysOpen<D>(dates: seq<D>, values: seq<real>, prev: real)
    requires prev > 0.0
    requires forall t :: 0 <= t < Span(dates, values) ==> values[t] > 0.0
    ensures Scan(dates, values, prev) == []
    decreases |dates|
  {
    if |dates| > 0 && |values| > 0 {
      ScanStaysOpen(dates[1..], values[1..], values[0]);
    }
  }

  /** A connection flowing at every observation opens at the first date and
      never shuts: the previous value starts at 0, not at the first value. */
  lemma AlwaysOpenOpensOnce<D>(dates: seq<D>, values: seq<real>)
    requires Span(dates, values) >= 1
    requires forall t :: 0 <= t < Span(dates, values) ==> values[t] > 0.0
    ensures StatusChanges(dates, values) == [Change(dates[0], Open)]
  {
    ScanStaysOpen(dates[1..], values[1..], values[0]);
  }

  /** Over non-negative values: a non-empty scan ends in OPEN exactly when
      the last observed value is positive; an empty one leaves the flowing
      state of the previous value unchanged. */
  lemma {:induction false} ScanLast<D>(dates: seq<D>, values: seq<real>, prev: real)
    requires prev >= 0.0 && NonNegative(values)
    requires Span(dates, values) >= 1
    ensures var r, last := Scan(dates, values, prev), values[Span(dates, values) - 1];
      && (|r| > 0 ==> (r[|r| - 1].status == Open <==> last > 0.0))
      && (|r| == 0 ==> (last > 0.0 <==> prev > 0.0))
    decreases |dates|
  {
    var v := values[0];
    var head := Emit(dates[0], Step(prev, v));
    if Span(dates[1..], values[1..]) >= 1 {
      assert NonNegative(values[1..]);
      ScanLast(dates[1..], values[1..], v);
      assert values[1..][Span(dates[1..], values[1..]) - 1] == values[Span(dates, values) - 1];
    }
  }

  /** Non-negative series: the last change is OPEN exactly when the last
      observed value is positive, and the number of changes is odd exactly
      when the connection ends open. */
  lemma LastChangeMatchesLastValue<D>(dates: seq<D>, values: seq<real>)
    requires NonNegative(values)
    requires Span(dates, values) >= 1
    ensures var r, last := StatusChanges(dates, values), values[Span(dates, values) - 1];
      && (|r| > 0 ==> (r[|r| - 1].status == Open <==> last > 0.0))
      && (|r| % 2 == 1 <==> last > 0.0)
  {
    var r := StatusChanges(dates, values);
    ScanLast(dates, values, 0.0);
    ScanAlternates(dates, values, 0.0);
    if |r| > 0 {
      assert r[|r| - 1].status == (if (|r| - 1) % 2 == 0 then Open else Shut);
    }
  }

  /** A connection that opens, shuts, reopens and shuts again. */
  lemma OpenShutCycle<D>(ds: seq<D>)
    requires |ds| == 7
    ensures StatusChanges(ds, [0.0, 0.0, 5.0, 5.0, 0.0, 3.0, 0.0])
      == [Change(ds[2], Open), Change(ds[4], Shut), Change(ds[5], Open), Change(ds[6], Shut)]
  {
    var vs := [0.0, 0.0, 5.0, 5.0, 0.0, 3.0, 0.0];
    StatusChangesByIndex(ds, vs);
    assert EventsUpTo(ds, vs, 2) == [];
    assert EventsUpTo(ds, vs, 4) == [Change(ds[2], Open)];
    assert EventsUpTo(ds, vs, 5) == [Change(ds[2], Open), Change(ds[4], Shut)];
  }
}
