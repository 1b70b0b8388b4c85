/** The next posting slots of an account (`apps/calendar/services.py`, `_next_slot_datetimes`).
    A datetime counts seconds; its date is the ordinal `t / DAY`. */
module Slots {
  import opened Posts
  import opened Prelude

  /** A row of `PostingSlot`: `time` is the second of the day, `dayOfWeek` 0 is Monday. */
  datatype Slot = Slot(dayOfWeek: int, time: int, active: bool)

  const HORIZON_DAYS := 60

  /** `date.weekday()`: ordinal 1 is a Monday. */
  function Weekday(date: int): int {
    (date + 6) % 7
  }

  /** `order_by("day_of_week", "time")` over rows unique in those columns. */
  ghost predicate InOrder(slots: seq<Slot>) {
    && (forall i, j | 0 <= i < j < |slots| :: Earlier(slots[i], slots[j]))
    && (forall s | s in slots :: 0 <= s.dayOfWeek < 7 && 0 <= s.time < DAY)
  }

  predicate Earlier(a: Slot, b: Slot) {
    a.dayOfWeek < b.dayOfWeek || (a.dayOfWeek == b.dayOfWeek && a.time < b.time)
  }

  ghost predicate IsSlotTime(slots: seq<Slot>, t: int) {
    Slot(Weekday(DateOf(t)), t % DAY, true) in slots
  }

  /** A slot time that may be handed out: after `after`, and within 60 calendar days of its date. */
  ghost predicate IsCandidate(slots: seq<Slot>, after: int, t: int) {
    IsSlotTime(slots, t) && t > after && DateOf(t) < DateOf(after) + HORIZON_DAYS
  }

  /** The loop looks at its limit only after appending, so a limit below 1 acts like 1. */
  function Limit(count: int): nat {
    if count < 1 then 1 else count
  }

  /** Exactly the first candidates, in order, none skipped. */
  ghost predicate AreTheFirst(times: seq<int>, slots: seq<Slot>, after: int, count: int) {
    && |times| <= Limit(count)
    && Increasing(times)
    && (forall t | t in times :: IsCandidate(slots, after, t))
    && (forall t | IsCandidate(slots, after, t) && t !in times :: |times| == Limit(count) && times[|times| - 1] < t)
  }

  method NextSlotDatetimes(slots: seq<Slot>, after: int, count: int) returns (results: seq<int>)
    requires InOrder(slots)
    ensures AreTheFirst(results, slots, after, count)
  {
    results := [];
    if !exists i | 0 <= i < |slots| :: slots[i].active {
      return;
    }
    var currentDate := DateOf(after);
    for dayOffset := 0 to HORIZON_DAYS
      invariant |results| < Limit(count) && Increasing(results)
      invariant forall t | t in results :: IsCandidate(slots, after, t) && DateOf(t) < currentDate + dayOffset
      invariant forall t | IsCandidate(slots, after, t) && DateOf(t) < currentDate + dayOffset :: t in results
    {
      var checkDate := currentDate + dayOffset;
      var full;
      results, full := SlotsOfDay(slots, after, count, checkDate, results);
      if full {
        return;
      }
    }
  }

  /** The inner loop: the slots of one day. `full` tells that the limit was reached. */
  method SlotsOfDay(slots: seq<Slot>, after: int, count: int, checkDate: int, before: seq<int>)
    returns (results: seq<int>, full: bool)
    requires InOrder(slots) && DateOf(after) <= checkDate < DateOf(after) + HORIZON_DAYS
    requires |before| < Limit(count) && Increasing(before)
    requires forall t | t in before :: IsCandidate(slots, after, t) && DateOf(t) < checkDate
    requires forall t | IsCandidate(slots, after, t) && DateOf(t) < checkDate :: t in before
    ensures if full then AreTheFirst(results, slots, after, count)
            else
              && |results| < Limit(count) && Increasing(results)
              && (forall t | t in results :: IsCandidate(slots, after, t) && DateOf(t) < checkDate + 1)
              && (forall t | IsCandidate(slots, after, t) && DateOf(t) < checkDate + 1 :: t in results)
  {
    results, full := before, false;
    DayBegins(results, slots, after, checkDate);
    var weekday := Weekday(checkDate);
    for j := 0 to |slots|
      invariant |results| < Limit(count) && Collected(results, slots, after, checkDate, j)
    {
      var slot := slots[j];
      var slotDt := checkDate * DAY + slot.time;
      if slot.dayOfWeek != weekday || !slot.active || slotDt <= after {
        SlotSkipped(results, slots, after, checkDate, j);
        continue;
      }
      SlotTaken(results, slots, after, checkDate, j);
      results := results + [slotDt];
      if |results| >= count {
        LimitReached(results, slots, after, count, checkDate, j);
        return results, true;
      }
    }
    DayDone(results, slots, after, checkDate);
  }

  /** The candidates before `checkDate` and among its first `j` slots, in order. */
  ghost predicate Collected(results: seq<int>, slots: seq<Slot>, after: int, checkDate: int, j: nat)
    requires j <= |slots|
  {
    && Increasing(results)
    && (forall t | t in results :: IsCandidate(slots, after, t) && Done(slots, checkDate, j, t))
    && (forall t | IsCandidate(slots, after, t) && Done(slots, checkDate, j, t) :: t in results)
  }

  /** The slot `j` of the day is posted at. */
  predicate Fits(slots: seq<Slot>, after: int, checkDate: int, j: nat)
    requires j < |slots|
  {
    slots[j].dayOfWeek == Weekday(checkDate) && slots[j].active && checkDate * DAY + slots[j].time > after
  }

  lemma SlotSkipped(results: seq<int>, slots: seq<Slot>, after: int, checkDate: int, j: nat)
    requires InOrder(slots) && j < |slots| && Collected(results, slots, after, checkDate, j)
    requires !Fits(slots, after, checkDate, j)
    ensures Collected(results, slots, after, checkDate, j + 1)
  {
    DoneGrows(slots, checkDate, j);
  }

  lemma SlotTaken(results: seq<int>, slots: seq<Slot>, after: int, checkDate: int, j: nat)
    requires InOrder(slots) && DateOf(after) <= checkDate < DateOf(after) + HORIZON_DAYS
    requires j < |slots| && Collected(results, slots, after, checkDate, j) && Fits(slots, after, checkDate, j)
    ensures Collected(results + [checkDate * DAY + slots[j].time], slots, after, checkDate, j + 1)
  {
    var slotDt := checkDate * DAY + slots[j].time;
    assert slots[j] in slots;
    DateAndTime(slotDt, checkDate, slots[j].time);
    assert IsCandidate(slots, after, slotDt);
    forall k | 0 <= k < |results| ensures results[k] < slotDt {
      assert results[k] in results;
      DoneIsEarlier(slots, checkDate, j, results[k]);
    }
    DoneGrows(slots, checkDate, j);
    assert forall t :: t in results + [slotDt] <==> t in results || t == slotDt;
  }

  lemma LimitReached(results: seq<int>, slots: seq<Slot>, after: int, count: int, checkDate: int, j: nat)
    requires InOrder(slots) && j < |slots| && Fits(slots, after, checkDate, j)
    requires Collected(results, slots, after, checkDate, j + 1) && |results| == Limit(count)
    requires results[|results| - 1] == checkDate * DAY + slots[j].time
    ensures AreTheFirst(results, slots, after, count)
  {
    forall t | IsCandidate(slots, after, t) && t !in results ensures results[|results| - 1] < t {
      NotDoneIsLater(slots, checkDate, j, t);
    }
  }

  lemma DayBegins(results: seq<int>, slots: seq<Slot>, after: int, checkDate: int)
    requires Increasing(results)
    requires forall t | t in results :: IsCandidate(slots, after, t) && DateOf(t) < checkDate
    requires forall t | IsCandidate(slots, after, t) && DateOf(t) < checkDate :: t in results
    ensures Collected(results, slots, after, checkDate, 0)
  {
  }

  lemma DayDone(results: seq<int>, slots: seq<Slot>, after: int, checkDate: int)
    requires Collected(results, slots, after, checkDate, |slots|)
    ensures Increasing(results)
    ensures forall t | t in results :: IsCandidate(slots, after, t) && DateOf(t) < checkDate + 1
    ensures forall t | IsCandidate(slots, after, t) && DateOf(t) < checkDate + 1 :: t in results
  {
    assert slots[..|slots|] == slots;
    forall t | IsCandidate(slots, after, t) && DateOf(t) < checkDate + 1
      ensures Done(slots, checkDate, |slots|, t)
    {
    }
  }

  /** `t` lies before `checkDate`, or on it at one of the first `j` slots. */
  ghost predicate Done(slots: seq<Slot>, checkDate: int, j: nat, t: int)
    requires j <= |slots|
  {
    DateOf(t) < checkDate
    || (DateOf(t) == checkDate && Slot(Weekday(checkDate), t % DAY, true) in slots[..j])
  }

  lemma DoneGrows(slots: seq<Slot>, checkDate: int, j: nat)
    requires InOrder(slots) && j < |slots|
    ensures forall t :: Done(slots, checkDate, j + 1, t) <==>
              Done(slots, checkDate, j, t)
              || (t == checkDate * DAY + slots[j].time && slots[j].active && slots[j].dayOfWeek == Weekday(checkDate))
  {
    assert slots[..j + 1] == slots[..j] + [slots[j]];
    assert slots[j] in slots;
    forall t
      ensures Done(slots, checkDate, j + 1, t) <==>
                Done(slots, checkDate, j, t)
                || (t == checkDate * DAY + slots[j].time && slots[j].active && slots[j].dayOfWeek == Weekday(checkDate))
    {
      DateAndTime(t, checkDate, slots[j].time);
      var s := Slot(Weekday(checkDate), t % DAY, true);
      assert s in slots[..j + 1] <==> s in slots[..j] || s == slots[j];
    }
  }

  lemma DateAndTime(t: int, date: int, time: int)
    requires 0 <= time < DAY
    ensures DateOf(t) == date && t % DAY == time <==> t == date * DAY + time
  {
  }

  lemma DoneIsEarlier(slots: seq<Slot>, checkDate: int, j: nat, t: int)
    requires InOrder(slots) && j < |slots| && Done(slots, checkDate, j, t)
    requires slots[j].dayOfWeek == Weekday(checkDate)
    ensures t < checkDate * DAY + slots[j].time
  {
    assert slots[j] in slots;
    if DateOf(t) == checkDate {
      var i :| 0 <= i < j && slots[i] == Slot(Weekday(checkDate), t % DAY, true);
      assert Earlier(slots[i], slots[j]);
    }
  }

  lemma NotDoneIsLater(slots: seq<Slot>, checkDate: int, j: nat, t: int)
    requires InOrder(slots) && j < |slots| && IsSlotTime(slots, t) && !Done(slots, checkDate, j + 1, t)
    requires slots[j].dayOfWeek == Weekday(checkDate)
    ensures checkDate * DAY + slots[j].time < t
  {
    assert slots[j] in slots;
    assert forall k | 0 <= k <= j :: slots[..j + 1][k] == slots[k];
    if DateOf(t) == checkDate {
      var i :| 0 <= i < |slots| && slots[i] == Slot(Weekday(checkDate), t % DAY, true);
      assert Earlier(slots[j], slots[i]);
    }
  }

  // ---------------------------------------------------------------------
  // Consequences
  // ---------------------------------------------------------------------

  /** The later the start, the later each slot: the i-th slot after a later moment is never an earlier one. */
  lemma {:induction false} LaterStartLaterSlots(r: seq<int>, after: int, count: int,
                                                q: seq<int>, after': int, count': int, slots: seq<Slot>, i: nat)
    requires AreTheFirst(r, slots, after, count) && AreTheFirst(q, slots, after', count') && after <= after'
    requires i < |r| && i < |q|
    ensures r[i] <= q[i]
  {
    if i > 0 {
      LaterStartLaterSlots(r, after, count, q, after', count', slots, i - 1);
    }
    assert q[i] in q && r[i] in r;
    assert IsSlotTime(slots, q[i]) && q[i] > after;
    var _, _ := IsCandidate(slots, after, q[i]), q[i] in r;
  }

  lemma {:induction false} SublistIsShorter(q: seq<int>, r: seq<int>)
    requires Increasing(q) && Increasing(r) && forall t | t in q :: t in r
    ensures |q| <= |r|
  {
    if q != [] {
      var n := |q| - 1;
      assert q[n] in q;
      var j :| 0 <= j < |r| && r[j] == q[n];
      forall t | t in q[..n] ensures t in r[..j] {
        assert t in q;
        var i :| 0 <= i < |r| && r[i] == t;
        assert i < j && r[..j][i] == t;
      }
      SublistIsShorter(q[..n], r[..j]);
    }
  }

  lemma NoLongerList(r: seq<int>, q: seq<int>, slots: seq<Slot>, after: int, count: int)
    requires AreTheFirst(r, slots, after, count) && AreTheFirst(q, slots, after, count)
    ensures |q| <= |r|
  {
    if |r| < Limit(count) {
      SublistIsShorter(q, r);
    }
  }

  /** The first slots are one list. */
  lemma FirstSlotsAreUnique(r: seq<int>, q: seq<int>, slots: seq<Slot>, after: int, count: int)
    requires AreTheFirst(r, slots, after, count) && AreTheFirst(q, slots, after, count)
    ensures r == q
  {
    NoLongerList(r, q, slots, after, count);
    NoLongerList(q, r, slots, after, count);
    forall i | 0 <= i < |r| ensures r[i] == q[i] {
      LaterStartLaterSlots(r, after, count, q, after, count, slots, i);
      LaterStartLaterSlots(q, after, count, r, after, count, slots, i);
    }
  }
}
