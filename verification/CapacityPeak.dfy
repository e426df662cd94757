/** The 15-minute capacity-tariff window: a streaming accumulator that keeps, in constant
    space, exactly what a specification over the whole history of samples says. */
module CapacityPeak {
  import opened CArithmetic

  const WINDOW := 900

  /** What one call reports: the power over one second and the date. */
  datatype Sample = Sample(power: int, month: nat, year: nat)

  type History = seq<Sample>

  ghost predicate Powers32(h: History) {
    forall i :: 0 <= i < |h| ==> IsInt32(h[i].power)
  }

  // ------------------------------------------------------------------ specification

  ghost function Sum(h: History): int {
    if |h| == 0 then 0 else Sum(h[..|h| - 1]) + h[|h| - 1].power
  }

  /** The samples of the unfinished window. */
  ghost function Open(h: History): History {
    h[|h| - |h| % WINDOW..]
  }

  /** The b-th complete window. */
  ghost function Window(h: History, b: nat): History
    requires (b + 1) * WINDOW <= |h|
  {
    h[b * WINDOW..(b + 1) * WINDOW]
  }

  /** The windows are the quarter hours of the history. */
  lemma QuarterHours(h: History, b: nat)
    requires (b + 1) * WINDOW <= |h|
    ensures |Window(h, b)| == 15 * 60
    ensures forall i :: 0 <= i < 15 * 60 ==> Window(h, b)[i] == h[15 * 60 * b + i]
  {
  }

  ghost function Mean(h: History, b: nat): int
    requires (b + 1) * WINDOW <= |h|
  {
    TruncDiv(Sum(Window(h, b)), WINDOW)
  }

  ghost function DateBefore(h: History, i: nat): (nat, nat)
    requires i <= |h|
  {
    if i == 0 then (0, 0) else (h[i - 1].month, h[i - 1].year)
  }

  /** Sample i carries another month or year than the sample before it. */
  ghost predicate DateChange(h: History, i: nat)
    requires i < |h|
  {
    DateBefore(h, i) != (h[i].month, h[i].year)
  }

  /** Window b was completed at or after the last change of month or year. */
  ghost predicate ThisMonth(h: History, b: nat)
    requires (b + 1) * WINDOW <= |h|
  {
    forall i :: (b + 1) * WINDOW <= i < |h| ==> !DateChange(h, i)
  }

  /** `peak` is the maximum of 0 and the means of this month's windows. */
  ghost predicate IsPeak(h: History, peak: int) {
    && peak >= 0
    && (forall b: nat :: (b + 1) * WINDOW <= |h| && ThisMonth(h, b) ==> Mean(h, b) <= peak)
    && (peak == 0 || exists b: nat :: (b + 1) * WINDOW <= |h| && ThisMonth(h, b) && Mean(h, b) == peak)
  }

  // ------------------------------------------------------------------ the state

  class CapacityState {
    var accumulatedWs: int
    var windowElapsedS: nat
    var windowAvgW: int
    var windowValid: bool
    var monthlyPeakW: int
    var peakMonth: nat
    var peakYearOffset: nat
    var limitW: int
    ghost var history: History

    /** The fields are what the specification says of the history. */
    ghost predicate Valid()
      reads this
    {
      && Powers32(history)
      && IsInt32(limitW)
      && windowElapsedS == |history| % WINDOW
      && accumulatedWs == Sum(Open(history))
      && windowValid == (|history| >= WINDOW)
      && windowAvgW == (if |history| >= WINDOW then Mean(history, |history| / WINDOW - 1) else 0)
      && (peakMonth, peakYearOffset) == DateBefore(history, |history|)
      && IsPeak(history, monthlyPeakW)
    }

    constructor ()
      ensures Valid() && history == [] && limitW == 0
    {
      accumulatedWs, windowElapsedS, windowAvgW, windowValid := 0, 0, 0, false;
      monthlyPeakW, peakMonth, peakYearOffset, limitW := 0, 0, 0, 0;
      history := [];
    }

    method SetLimit(limit: int)
      requires Valid() && IsInt32(limit)
      modifies this`limitW
      ensures Valid() && limitW == limit
    {
      limitW := limit;
    }

    /** The end of a window: record its mean and start the next. */
    method CloseWindow()
      requires IsInt32(TruncDiv(accumulatedWs, WINDOW))
      modifies this
      ensures windowAvgW == old(TruncDiv(accumulatedWs, WINDOW)) && windowValid
      ensures monthlyPeakW == Max(old(monthlyPeakW), windowAvgW)
      ensures accumulatedWs == 0 && windowElapsedS == 0
      ensures unchanged(`peakMonth, `peakYearOffset, `limitW, `history)
    {
      windowAvgW := ToInt32(TruncDiv(accumulatedWs, WINDOW));
      windowValid := true;
      if windowAvgW > monthlyPeakW {
        monthlyPeakW := windowAvgW;
      }
      accumulatedWs := 0;
      windowElapsedS := 0;
    }

    /** capacity_tick_1s: the state follows the specification of the longer history. */
    method Tick1s(power: int, month: nat, year: nat)
      requires Valid() && IsInt32(power)
      modifies this
      ensures Valid() && limitW == old(limitW)
      ensures history == old(history) + [Sample(power, month, year)]
    {
      hide IsPeak, Mean, Sum, Open, Powers32, TruncDiv, Window;
      ghost var h, s := history, Sample(power, month, year);
      TickPeak(h, s, monthlyPeakW);
      TickWindow(h, s);
      if month != peakMonth || year != peakYearOffset {
        monthlyPeakW := 0;
        peakMonth := month;
        peakYearOffset := year;
      }
      accumulatedWs := accumulatedWs + power;
      windowElapsedS := windowElapsedS + 1;
      if windowElapsedS >= WINDOW {
        CloseWindow();
      }
      history := history + [s];
    }

    /** capacity_get_headroom_w. */
    method HeadroomW() returns (headroom: int)
      requires Valid()
      ensures headroom == Headroom(history, limitW)
    {
      if limitW == 0 {
        return INT32_MAX;
      }
      if windowElapsedS == 0 {
        return limitW;
      }
      var budgetWs := limitW * WINDOW;
      var remainingWs := budgetWs - accumulatedWs;
      var remainingS := WINDOW - windowElapsedS;   // never 0: a full window is closed by the tick
      headroom := ToInt32(TruncDiv(remainingWs, remainingS));
    }
  }

  // ------------------------------------------------------------------ lemmas of the refinement

  lemma {:induction false} SumBounds(h: History)
    requires Powers32(h)
    ensures INT32_MIN * |h| <= Sum(h) <= INT32_MAX * |h|
  {
    if |h| > 0 {
      SumBounds(h[..|h| - 1]);
    }
  }

  /** One sample more: the open window grows, and on the 900th sample it is the new window. */
  lemma {:induction false} Extend(h: History, s: Sample)
    ensures Sum(Open(h) + [s]) == Sum(Open(h)) + s.power
    ensures |h| % WINDOW < WINDOW - 1 ==>
              Open(h + [s]) == Open(h) + [s] && (|h| + 1) % WINDOW == |h| % WINDOW + 1
                  && (|h| + 1) / WINDOW == |h| / WINDOW
    ensures |h| % WINDOW == WINDOW - 1 ==>
              && Open(h + [s]) == [] && (|h| + 1) % WINDOW == 0 && (|h| + 1) / WINDOW == |h| / WINDOW + 1
              && |h| + 1 == (|h| / WINDOW + 1) * WINDOW
              && Window(h + [s], |h| / WINDOW) == Open(h) + [s]
  {
    assert (Open(h) + [s])[..|Open(h)|] == Open(h);
  }

  /** The sum of a full window fits 64 bits by far and its mean fits 32 bits. */
  lemma {:induction false} TickFits(h: History, s: Sample)
    requires Powers32(h) && IsInt32(s.power)
    ensures Powers32(h + [s]) && Sum([]) == 0
    ensures INT32_MIN * WINDOW <= Sum(Open(h)) + s.power <= INT32_MAX * WINDOW
    ensures IsInt32(TruncDiv(Sum(Open(h)) + s.power, WINDOW))
  {
    SumBounds(Open(h));
    TruncDivBounds(Sum(Open(h)) + s.power, WINDOW, INT32_MIN, INT32_MAX);
  }

  /** The window fields prescribed for the longer history. */
  lemma {:induction false} TickWindow(h: History, s: Sample)
    requires Powers32(h) && IsInt32(s.power)
    ensures var h' := h + [s];
            && Powers32(h')
            && IsInt32(TruncDiv(Sum(Open(h)) + s.power, WINDOW))
            && (if |h| % WINDOW == WINDOW - 1
                then && |h'| % WINDOW == 0 && |h'| >= WINDOW && Sum(Open(h')) == 0
                     && Mean(h', |h'| / WINDOW - 1) == TruncDiv(Sum(Open(h)) + s.power, WINDOW)
                else && |h'| % WINDOW == |h| % WINDOW + 1 && Sum(Open(h')) == Sum(Open(h)) + s.power
                     && (|h'| >= WINDOW <==> |h| >= WINDOW)
                     && (|h| >= WINDOW ==> Mean(h', |h'| / WINDOW - 1) == Mean(h, |h| / WINDOW - 1)))
  {
    hide TruncDiv, Mean;
    Extend(h, s);
    TickFits(h, s);
    if |h| % WINDOW == WINDOW - 1 {
      NewWindow(h, s);
    } else if |h| >= WINDOW {
      OldWindow(h, s, |h| / WINDOW - 1);
    }
  }

  /** What one sample does to the recorded peak. */
  ghost function NextPeak(h: History, s: Sample, peak: int): int {
    var kept := if DateBefore(h, |h|) != (s.month, s.year) then 0 else peak;
    if |h| % WINDOW == WINDOW - 1 then Max(kept, TruncDiv(Sum(Open(h)) + s.power, WINDOW)) else kept
  }

  lemma {:induction false} TickPeak(h: History, s: Sample, peak: int)
    requires IsPeak(h, peak)
    ensures IsPeak(h + [s], NextPeak(h, s, peak))
  {
    hide Mean, ThisMonth, Sum, Open, TruncDiv;
    var h' := h + [s];
    forall b: nat | (b + 1) * WINDOW <= |h|
      ensures Mean(h', b) == Mean(h, b)
      ensures ThisMonth(h', b) <==> ThisMonth(h, b) && DateBefore(h, |h|) == (s.month, s.year)
    {
      OldWindow(h, s, b);
    }
    if |h| % WINDOW == WINDOW - 1 {
      NewWindow(h, s);
      assert forall b: nat {:trigger Mean(h', b)} :: (b + 1) * WINDOW <= |h'| ==>
          (b + 1) * WINDOW <= |h| || b == |h| / WINDOW;
    } else {
      assert forall b: nat {:trigger Mean(h', b)} :: (b + 1) * WINDOW <= |h'| ==> (b + 1) * WINDOW <= |h|;
    }
  }

  /** The window that the sample completes. */
  lemma {:induction false} NewWindow(h: History, s: Sample)
    requires |h| % WINDOW == WINDOW - 1
    ensures (|h| / WINDOW + 1) * WINDOW == |h| + 1
    ensures ThisMonth(h + [s], |h| / WINDOW)
    ensures Mean(h + [s], |h| / WINDOW) == TruncDiv(Sum(Open(h)) + s.power, WINDOW)
  {
    Extend(h, s);
  }

  /** The windows completed before. */
  lemma {:induction false} OldWindow(h: History, s: Sample, b: nat)
    requires (b + 1) * WINDOW <= |h|
    ensures Mean(h + [s], b) == Mean(h, b)
    ensures ThisMonth(h + [s], b) <==> ThisMonth(h, b) && DateBefore(h, |h|) == (s.month, s.year)
  {
    assert Window(h + [s], b) == Window(h, b);
    MonthStep(h, s, b);
  }

  /** An old window still counts unless the new sample changes the date. */
  lemma {:induction false} MonthStep(h: History, s: Sample, b: nat)
    requires (b + 1) * WINDOW <= |h|
    ensures ThisMonth(h + [s], b) <==> ThisMonth(h, b) && DateBefore(h, |h|) == (s.month, s.year)
  {
    forall i: nat | i < |h|
      ensures DateChange(h + [s], i) == DateChange(h, i)
    {
    }
    assert DateChange(h + [s], |h|) <==> DateBefore(h, |h|) != (s.month, s.year);
  }

  // ------------------------------------------------------------------ headroom

  /** The value reported to the regulation. */
  ghost function Headroom(h: History, limit: int): int {
    if limit == 0 then INT32_MAX
    else if |h| % WINDOW == 0 then limit
    else ToInt32(TruncDiv(limit * WINDOW - Sum(Open(h)), WINDOW - |h| % WINDOW))
  }

  /** A limit of 0 is none: every power fits, and the value reported fits too. */
  lemma NoLimit(h: History)
    ensures forall p :: IsInt32(p) ==> p <= Headroom(h, 0)
    ensures IsInt32(Headroom(h, 0))
  {
  }

  /** The reported value is the quotient itself: the conversion to 32 bits loses nothing. */
  ghost predicate HeadroomFits(h: History, limit: int) {
    IsInt32(TruncDiv(limit * WINDOW - Sum(Open(h)), WINDOW - |h| % WINDOW))
  }

  /** It loses nothing while limit and powers stay below 1.19 MW. */
  lemma {:induction false} HeadroomFitsInPractice(h: History, limit: int)
    requires 0 <= limit <= 1_190_000
    requires forall i :: 0 <= i < |h| ==> -1_190_000 <= h[i].power <= 1_190_000
    ensures HeadroomFits(h, limit)
  {
    SumWithin(Open(h), 1_190_000);
    var r, s := limit * WINDOW - Sum(Open(h)), WINDOW - |h| % WINDOW;
    assert INT32_MIN * s <= INT32_MIN && INT32_MAX <= INT32_MAX * s;
    TruncDivBounds(r, s, INT32_MIN, INT32_MAX);
  }

  lemma {:induction false} SumWithin(h: History, m: int)
    requires m >= 0
    requires forall i :: 0 <= i < |h| ==> -m <= h[i].power <= m
    ensures -m * |h| <= Sum(h) <= m * |h|
  {
    if |h| > 0 {
      SumWithin(h[..|h| - 1], m);
    }
  }

  lemma {:induction false} SumConcat(a: History, b: History)
    ensures Sum(a + b) == Sum(a) + Sum(b)
  {
    if |b| == 0 {
      assert a + b == a;
    } else {
      assert (a + b)[..|a + b| - 1] == a + b[..|b| - 1];
      SumConcat(a, b[..|b| - 1]);
    }
  }

  lemma {:induction false} SumConstant(h: History, p: int)
    requires forall i :: 0 <= i < |h| ==> h[i].power == p
    ensures Sum(h) == p * |h|
  {
    if |h| > 0 {
      SumConstant(h[..|h| - 1], p);
    }
  }

  /** The rest of the current window at constant power p, whatever the dates. */
  ghost predicate RestAt(h: History, rest: History, p: int) {
    && |rest| == WINDOW - |h| % WINDOW
    && forall i :: 0 <= i < |rest| ==> rest[i].power == p
  }

  lemma {:induction false} RestCompletes(h: History, rest: History, p: int)
    requires RestAt(h, rest, p)
    ensures (|h| / WINDOW + 1) * WINDOW == |h + rest|
    ensures Sum(Window(h + rest, |h| / WINDOW)) == Sum(Open(h)) + p * |rest|
  {
    assert Window(h + rest, |h| / WINDOW) == Open(h) + rest;
    SumConcat(Open(h), rest);
    SumConstant(rest, p);
  }

  /** Drawing exactly the reported headroom until the window closes records an average of at
      most the limit, from any state of the window, over budget or not. */
  lemma {:induction false} HeadroomIsSafe(h: History, limit: int, rest: History)
    requires limit > 0 && HeadroomFits(h, limit)
    requires RestAt(h, rest, Headroom(h, limit))
    ensures (|h| / WINDOW + 1) * WINDOW == |h + rest|
    ensures Mean(h + rest, |h| / WINDOW) <= limit
  {
    var p, s := Headroom(h, limit), |rest|;
    RestCompletes(h, rest, p);
    if |h| % WINDOW == 0 {
      assert Sum(Open(h)) == 0;
    }
    var total := Sum(Open(h)) + p * s;
    assert total < limit * WINDOW + WINDOW by {
      if |h| % WINDOW != 0 {
        var r := limit * WINDOW - Sum(Open(h));
        assert p == TruncDiv(r, s);
        assert r < 0 ==> p * s < r + s by { assert (p - 1) * s == p * s - s; }
      }
    }
    BelowNextMultiple(total, limit);
  }

  lemma {:induction false} BelowNextMultiple(total: int, limit: int)
    requires limit >= 0 && total < (limit + 1) * WINDOW
    ensures TruncDiv(total, WINDOW) <= limit
  {
    MultiplyOrder(limit + 1, TruncDiv(total, WINDOW), WINDOW);
  }

  /** While the budget is not exceeded the headroom is tight: one watt more breaks it. */
  lemma {:induction false} HeadroomIsTight(h: History, limit: int, rest: History, more: History)
    requires limit > 0 && HeadroomFits(h, limit)
    requires Sum(Open(h)) <= limit * WINDOW
    requires RestAt(h, rest, Headroom(h, limit)) && RestAt(h, more, Headroom(h, limit) + 1)
    ensures (|h| / WINDOW + 1) * WINDOW == |h + rest| == |h + more|
    ensures Sum(Window(h + rest, |h| / WINDOW)) <= limit * WINDOW < Sum(Window(h + more, |h| / WINDOW))
  {
    var p, s := Headroom(h, limit), |rest|;
    RestCompletes(h, rest, p);
    RestCompletes(h, more, p + 1);
    if |h| % WINDOW == 0 {
      assert Sum(Open(h)) == 0;
    } else {
      var r := limit * WINDOW - Sum(Open(h));
      assert p == TruncDiv(r, s);
    }
  }

  /** In every second from the from-th on, the power is at most the headroom reported before it. */
  ghost predicate Obeys(h: History, from: nat, limit: int) {
    forall i :: from <= i < |h| ==> HeadroomFits(h[..i], limit) && h[i].power <= Headroom(h[..i], limit)
  }

  /** From any moment within the budget of the running window, as the start of a window is, an
      obedient installation never leaves the budget ... */
  lemma {:induction false} ObedientWithinBudget(h: History, from: nat, limit: int)
    requires limit > 0 && from <= |h| && Obeys(h, from, limit)
    requires Sum(Open(h[..from])) <= limit * WINDOW
    ensures Sum(Open(h)) <= limit * WINDOW
  {
    hide Obeys, Headroom, HeadroomFits, Window;
    if |h| == from {
      assert h[..from] == h;
    } else {
      var front, s := h[..|h| - 1], h[|h| - 1];
      ObedientFront(h, from, limit);
      assert front[..from] == h[..from] && h == front + [s];
      ObedientWithinBudget(front, from, limit);
      Extend(front, s);
      WithinBudgetStep(front, s, limit);
    }
  }

  lemma ObedientFront(h: History, from: nat, limit: int)
    requires from < |h| && Obeys(h, from, limit)
    ensures Obeys(h[..|h| - 1], from, limit)
    ensures HeadroomFits(h[..|h| - 1], limit) && h[|h| - 1].power <= Headroom(h[..|h| - 1], limit)
  {
    var front := h[..|h| - 1];
    forall i | from <= i < |front|
      ensures front[..i] == h[..i]
    {
    }
  }

  lemma {:induction false} WithinBudgetStep(h: History, s: Sample, limit: int)
    requires limit > 0 && HeadroomFits(h, limit) && s.power <= Headroom(h, limit)
    requires Sum(Open(h)) <= limit * WINDOW
    ensures Sum(Open(h)) + s.power <= limit * WINDOW
  {
    if |h| % WINDOW == 0 {
      assert Sum(Open(h)) == 0;
    } else {
      var r, n := limit * WINDOW - Sum(Open(h)), WINDOW - |h| % WINDOW;
      MultiplyOrder(1, n, TruncDiv(r, n));
    }
  }

  /** ... so no average that is recorded afterwards exceeds the limit ... */
  lemma {:induction false} ObedientPeak(h: History, from: nat, limit: int, b: nat)
    requires limit > 0 && from <= |h| && Obeys(h, from, limit)
    requires Sum(Open(h[..from])) <= limit * WINDOW
    requires from < (b + 1) * WINDOW <= |h|
    ensures Mean(h, b) <= limit
    decreases |h|
  {
    hide Mean, Sum, Open, TruncDiv, Obeys, Headroom, HeadroomFits;
    var front, s := h[..|h| - 1], h[|h| - 1];
    ObedientFront(h, from, limit);
    assert front[..from] == h[..from] && h == front + [s];
    if (b + 1) * WINDOW <= |front| {
      ObedientPeak(front, from, limit, b);
      OldWindow(front, s, b);
    } else {
      NewWindow(front, s);
      ObedientWithinBudget(front, from, limit);
      WithinBudgetStep(front, s, limit);
      BelowNextMultiple(Sum(Open(front)) + s.power, limit);
    }
  }

  /** ... and no peak of a month all of whose averages are recorded afterwards. */
  lemma {:induction false} ObedientMonth(h: History, from: nat, limit: int, peak: int)
    requires limit > 0 && from <= |h| && Obeys(h, from, limit) && IsPeak(h, peak)
    requires Sum(Open(h[..from])) <= limit * WINDOW
    requires forall b: nat :: (b + 1) * WINDOW <= |h| && ThisMonth(h, b) ==> from < (b + 1) * WINDOW
    ensures peak <= limit
  {
    hide Mean, Sum, Open, Obeys, ThisMonth;
    if peak > 0 {
      var b: nat :| (b + 1) * WINDOW <= |h| && ThisMonth(h, b) && Mean(h, b) == peak;
      ObedientPeak(h, from, limit, b);
    }
  }
}
