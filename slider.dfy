/**
 * The time-range slider: the pip filter `dateFilter`, the `throttle` wrapper of
 * its "update" handler, and the "end" handler that always re-renders.
 */
module Slider {

  /**
   * The `%` of JavaScript, which truncates toward zero (the remainder takes the
   * dividend's sign), unlike Dafny's Euclidean `%`.
   */
  function JsRem(a: int, m: int): (r: int)
    requires m > 0
    ensures a >= 0 ==> 0 <= r < m
    ensures a < 0 ==> -m < r <= 0
    ensures (a - r) % m == 0
  {
    var b := if a >= 0 then a else -a;
    var q := b / m;
    assert b - b % m == m * q;
    if a >= 0 then
      MultipleRem(q, m);
      a % m
    else
      assert a + b % m == m * -q;
      MultipleRem(-q, m);
      -((-a) % m)
  }

  /** A multiple of the modulus leaves no remainder. */
  lemma MultipleRem(k: int, m: int)
    requires m > 0
    ensures (m * k) % m == 0
  {
    var x := m * k;
    var d := k - x / m;
    assert m * d == x % m;
  }

  /**
   * dateFilter: the pip type of a slider step. 1 is a large pip with its value
   * (every hundred years), 2 a small pip with its value (every ten), 0 a pip
   * without a value (every five), -1 no pip.
   */
  function DateFilter(value: int): (t: int)
    ensures t in {-1, 0, 1, 2}
  {
    if JsRem(value, 100) == 0 then 1
    else if JsRem(value, 10) == 0 then 2
    else if JsRem(value, 5) == 0 then 0
    else -1
  }

  /** The pips are symmetric about year 0: JavaScript's `%` keeps the dividend's sign only. */
  lemma DateFilterSymmetric(value: int)
    ensures DateFilter(-value) == DateFilter(value)
  {
  }

  function Abs(x: int): nat
  {
    if x < 0 then -x else x
  }

  /** A multiple of 100 is one of 10. */
  lemma HundredsAreTens(a: nat)
    requires a % 100 == 0
    ensures a % 10 == 0
  {
    var q := a / 100;
    assert a == 100 * q;
    assert a / 10 == 10 * q;
  }

  /** A multiple of 10 is one of 5. */
  lemma TensAreFives(a: nat)
    requires a % 10 == 0
    ensures a % 5 == 0
  {
    var q := a / 10;
    assert a == 10 * q;
    assert a / 5 == 2 * q;
  }

  /** The pip type read off the year's divisibility, for years of either sign. */
  lemma DateFilterByDivisibility(value: int)
    ensures DateFilter(value) == 1 <==> Abs(value) % 100 == 0
    ensures DateFilter(value) == 2 <==> Abs(value) % 10 == 0 && Abs(value) % 100 != 0
    ensures DateFilter(value) == 0 <==> Abs(value) % 5 == 0 && Abs(value) % 10 != 0
    ensures DateFilter(value) == -1 <==> Abs(value) % 5 != 0
  {
    var a := Abs(value);
    DateFilterSymmetric(value);
    assert DateFilter(value) == DateFilter(a);
    if a % 100 == 0 {
      HundredsAreTens(a);
      TensAreFives(a);
    } else if a % 10 == 0 {
      TensAreFives(a);
    }
  }

  /** The arguments the "update" and "end" handlers pass on: the two years. */
  datatype Range = Range(startYear: int, endYear: int)

  /**
   * The closure built by `throttle(func, limit)`: the flag `inThrottle` and,
   * standing for `func`, the log of the calls that reached it.
   */
  class Throttle {
    var inThrottle: bool
    var calls: seq<Range>

    constructor ()
      ensures !inThrottle && calls == []
    {
      inThrottle := false;
      calls := [];
    }

    /** A call of the throttled function: passed on and the flag set, or dropped. */
    method Call(args: Range) returns (invoked: bool)
      modifies this
      ensures invoked == !old(inThrottle)
      ensures inThrottle
      ensures calls == if invoked then old(calls) + [args] else old(calls)
    {
      invoked := !inThrottle;
      if !inThrottle {
        calls := calls + [args];
        inThrottle := true;
      }
    }

    /** The `setTimeout` callback `limit` milliseconds after a passed-on call. */
    method TimerExpired()
      modifies this
      ensures !inThrottle && calls == old(calls)
    {
      inThrottle := false;
    }
  }

  /** What reaches the slider: drag updates, timer expiries and the release. */
  datatype SliderEvent = Update(range: Range) | TimerExpired | End(range: Range)

  /** The slider's state: the throttle flag and the re-renders requested so far. */
  datatype SliderState = SliderState(inThrottle: bool, renders: seq<Range>)

  /** One event: updates go through the throttle, the release re-renders regardless. */
  function Step(s: SliderState, e: SliderEvent): (t: SliderState)
    ensures e.Update? && s.inThrottle ==> t == s
    ensures e.Update? && !s.inThrottle ==> t == SliderState(true, s.renders + [e.range])
    ensures e.TimerExpired? ==> t == SliderState(false, s.renders)
    ensures e.End? ==> t == SliderState(s.inThrottle, s.renders + [e.range])
    ensures s.inThrottle && !t.inThrottle ==> e.TimerExpired?
  {
    match e
    case Update(r) => if s.inThrottle then s else SliderState(true, s.renders + [r])
    case TimerExpired => SliderState(false, s.renders)
    case End(r) => SliderState(s.inThrottle, s.renders + [r])
  }

  /**
   * The slider's two handlers on one event, over the throttle object: an update
   * goes through `Call` and re-renders when it is passed on, the timer resets
   * the flag, the release re-renders directly. Together they take the step
   * `Step` describes.
   */
  method Handle(th: Throttle, renders: seq<Range>, e: SliderEvent) returns (renders': seq<Range>)
    modifies th
    ensures SliderState(th.inThrottle, renders') == Step(SliderState(old(th.inThrottle), renders), e)
    ensures th.calls == if e.Update? && !old(th.inThrottle) then old(th.calls) + [e.range] else old(th.calls)
  {
    match e
    case Update(r) =>
      var invoked := th.Call(r);
      renders' := if invoked then renders + [r] else renders;
    case TimerExpired =>
      th.TimerExpired();
      renders' := renders;
    case End(r) =>
      renders' := renders + [r];
  }

  function Run(s: SliderState, events: seq<SliderEvent>): SliderState
    decreases |events|
  {
    if events == [] then s else Step(Run(s, events[..|events| - 1]), events[|events| - 1])
  }

  /** The requests the slider issues never get shorter. */
  lemma {:induction false} RunExtends(s: SliderState, events: seq<SliderEvent>)
    ensures |s.renders| <= |Run(s, events).renders|
    ensures Run(s, events).renders[..|s.renders|] == s.renders
    decreases |events|
  {
    if events != [] {
      RunExtends(s, events[..|events| - 1]);
    }
  }

  /** A release always ends with a render of the released range, whatever the flag. */
  lemma ReleaseRendersLast(s: SliderState, events: seq<SliderEvent>, r: Range)
    ensures var t := Run(s, events + [End(r)]);
      |t.renders| >= 1 && t.renders[|t.renders| - 1] == r
  {
    assert (events + [End(r)])[..|events|] == events;
  }

  function CountTimers(events: seq<SliderEvent>): nat
    decreases |events|
  {
    if events == [] then 0
    else CountTimers(events[..|events| - 1]) + (if events[|events| - 1].TimerExpired? then 1 else 0)
  }

  function CountEnds(events: seq<SliderEvent>): nat
    decreases |events|
  {
    if events == [] then 0
    else CountEnds(events[..|events| - 1]) + (if events[|events| - 1].End? then 1 else 0)
  }

  /**
   * Throttling bounds the renders: between two timer expiries at most one drag
   * update gets through; every other render comes from a release.
   */
  lemma {:induction false} ThrottleBoundsRenders(s: SliderState, events: seq<SliderEvent>)
    ensures var t := Run(s, events);
      |t.renders| - |s.renders| + (if t.inThrottle then 0 else 1)
      <= CountTimers(events) + CountEnds(events) + (if s.inThrottle then 0 else 1)
    decreases |events|
  {
    if events != [] {
      ThrottleBoundsRenders(s, events[..|events| - 1]);
    }
  }

  /** A drag update that arrives while throttled is dropped and not replayed later. */
  lemma DroppedUpdateNotQueued(s: SliderState, r: Range, rest: seq<SliderEvent>)
    requires s.inThrottle
    ensures Run(s, [Update(r)] + rest) == Run(s, rest)
    decreases |rest|
  {
    if rest != [] {
      var all := [Update(r)] + rest;
      assert all[..|all| - 1] == [Update(r)] + rest[..|rest| - 1];
      DroppedUpdateNotQueued(s, r, rest[..|rest| - 1]);
    } else {
      assert [Update(r)][..0] == [];
    }
  }
}
