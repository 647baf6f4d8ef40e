/** The focus-time interval recorder of `FocusTimeContoller.store`: an
    in-memory collection of intervals in place of the MongoDB collection. */
module FocusTime {
  import opened Outcomes

  /** A stored interval; `id` stands for the document's `_id`, the instants are
      integer milliseconds. */
  datatype Interval = Interval(id: nat, timeFrom: int, timeTo: int)

  /** dayjs `a.isBefore(b)` at millisecond precision. */
  predicate IsBefore(a: int, b: int) {
    a < b
  }

  /** An interval whose end does not come before its start. */
  predicate Ordered(iv: Interval) {
    !IsBefore(iv.timeTo, iv.timeFrom)
  }

  /** The invariant of the collection: every interval is ordered, ids are
      unique and below the next fresh id. */
  predicate ValidIntervals(ivs: seq<Interval>, nextId: nat) {
    && (forall i :: 0 <= i < |ivs| ==> Ordered(ivs[i]) && ivs[i].id < nextId)
    && forall i, j :: 0 <= i < j < |ivs| ==> ivs[i].id != ivs[j].id
  }

  /** The check `store` makes before it writes anything: the outcome for a
      pair of instants, or None when they may be stored. */
  function CheckInterval(timeFrom: int, timeTo: int): (r: Option<Error>)
    ensures r.Some? <==> timeTo < timeFrom
    ensures r.Some? ==> r.value == InvalidInterval
  {
    if IsBefore(timeTo, timeFrom) then Some(InvalidInterval) else None
  }

  class FocusTimeController {
    var intervals: seq<Interval>
    var nextId: nat

    ghost predicate Valid()
      reads this
    {
      ValidIntervals(intervals, nextId)
    }

    constructor ()
      ensures Valid() && intervals == [] && nextId == 0
    {
      intervals := [];
      nextId := 0;
    }

    /** `store`: refuse an interval whose end is strictly before its start
        (equal instants are accepted), otherwise append it exactly as given. */
    method Store(timeFrom: int, timeTo: int) returns (r: Result<Interval>)
      requires Valid()
      modifies this
      ensures Valid()
      ensures r.Err? <==> timeTo < timeFrom
      ensures r.Err? ==> r.error == InvalidInterval && intervals == old(intervals) && nextId == old(nextId)
      ensures r.Ok? ==> && r.value == Interval(old(nextId), timeFrom, timeTo)
                        && intervals == old(intervals) + [r.value]
                        && nextId == old(nextId) + 1
    {
      var check := CheckInterval(timeFrom, timeTo);
      if check.Some? {
        return Err(check.value);
      }
      var iv := Interval(nextId, timeFrom, timeTo);
      intervals := intervals + [iv];
      nextId := nextId + 1;
      r := Ok(iv);
    }
  }

  /** Two examples: an end one hour before the start is refused, equal
      instants are stored. */
  method IntervalExamples()
  {
    var c := new FocusTimeController();
    var nine := 1_704_099_600_000;
    var refused := c.Store(nine + 3_600_000, nine);
    assert refused == Err(InvalidInterval) && c.intervals == [];
    var stored := c.Store(nine, nine);
    assert stored == Ok(Interval(0, nine, nine)) && c.intervals == [Interval(0, nine, nine)];
  }
}
