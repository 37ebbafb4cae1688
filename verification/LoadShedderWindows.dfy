/** Whom the load shedder admits, what it counts, and how its limit moves when a window of samples closes. */
module LoadShedderWindows {
  import opened Basics
  import opened LoadShedder

  // ---------- admission ----------

  /** Each tier gets as far beyond the limit as its reserve, and nobody beyond 1000. */
  lemma TiersInOrder(r: Route)
    ensures Admits(r, Anonymous) <==> r.active < r.limit && r.active < 1000
    ensures Admits(r, Free) <==> r.active < r.limit && r.active < 1000
    ensures Admits(r, Pro) <==> r.active < r.limit + 10 && r.active < 1000
    ensures Admits(r, Enterprise) <==> r.active < r.limit + 20 && r.active < 1000
    ensures Admits(r, Admin) <==> r.active < r.limit + 50 && r.active < 1000
  {
  }

  function ShedOf(r: Route, p: Priority): nat {
    if p in r.shed then r.shed[p] else 0
  }

  /** How many requests of a tier were turned away. */
  function Refused(r: Route, target: int, events: seq<Event>, p: Priority): nat {
    if events == [] then 0 else
      var before := events[..|events| - 1];
      Refused(r, target, before, p)
      + if events[|events| - 1] == Arrival(p) && !Admits(Run(r, target, before), p) then 1 else 0
  }

  lemma {:induction false} ShedIsCounted(r: Route, target: int, events: seq<Event>, p: Priority)
    ensures ShedOf(Run(r, target, events), p) == ShedOf(r, p) + Refused(r, target, events, p)
  {
    if events != [] {
      ShedIsCounted(r, target, events[..|events| - 1], p);
      hide Admits, Lowered, Raised;
    }
  }

  /** The response that closes a window: the twentieth since the last one closed. */
  predicate Closes(r: Route, e: Event) {
    e.ResponseEvent? && e.id in r.open && r.completed >= 19
  }

  /** The most requests that were active at a time in the window that is open: what the next one begins with, or more. */
  function Peak(r: Route, target: int, events: seq<Event>): nat {
    if events == [] then r.highWater else
      var before, active := events[..|events| - 1], Run(r, target, events).active;
      if Closes(Run(r, target, before), events[|events| - 1]) then active else Max(Peak(r, target, before), active)
  }

  /** The latencies of the responses in the window that is open. */
  function Latencies(r: Route, target: int, events: seq<Event>): int {
    if events == [] then r.latencyTotal else
      var before, e := events[..|events| - 1], events[|events| - 1];
      if Closes(Run(r, target, before), e) then 0
      else Latencies(r, target, before) + if e.ResponseEvent? && e.id in Run(r, target, before).open then e.latency else 0
  }

  lemma {:induction false} WindowIsMeasured(r: Route, target: int, events: seq<Event>)
    requires r.active <= r.highWater
    ensures
      var now := Run(r, target, events);
      now.active <= now.highWater == Peak(r, target, events) && now.latencyTotal == Latencies(r, target, events)
  {
    if events != [] {
      var before, e := events[..|events| - 1], events[|events| - 1];
      WindowIsMeasured(r, target, before);
      hide Admits, Lowered, Raised;
      assert Run(r, target, events) == Step(Run(r, target, before), target, e);
    }
  }

  // ---------- the limit ----------

  /** Down by a fifth, rounded down, to no less than five. */
  predicate IsLowered(limit: nat, next: nat) {
    if 4 * limit < 25 then next == 5 else 5 * next <= 4 * limit < 5 * next + 5
  }

  /** Up by a twentieth, rounded up, and by one at least, to no more than 1000. */
  ghost predicate IsRaised(limit: nat, next: nat) {
    exists g: nat :: IsStep(limit, g) && next == if limit + g < 1000 then limit + g else 1000
  }

  predicate IsStep(limit: nat, g: nat) {
    g >= 1 && 20 * g >= limit && (g > 1 ==> 20 * (g - 1) < limit)
  }

  lemma RaisedIsRaised(limit: nat)
    ensures IsRaised(limit, Raised(limit))
  {
    assert IsStep(limit, Max(1, (limit + 19) / 20));
  }

  /**
   * A closing window lowers the limit if its responses took longer than the target on average; if not, it raises
   * the limit where that was reached; otherwise it leaves it. No other event moves the limit.
   */
  lemma LimitMoves(r: Route, target: int, e: Event)
    ensures
      var next := Step(r, target, e).limit;
      if !Closes(r, e) then next == r.limit
      else if r.latencyTotal + e.latency > target * (r.completed + 1) then IsLowered(r.limit, next)
      else if r.highWater >= r.limit then IsRaised(r.limit, next)
      else next == r.limit
  {
    hide Raised, IsRaised;
    RaisedIsRaised(r.limit);
  }

  // ---------- busy fast windows ----------

  function RaisedTimes(limit: nat, n: nat): nat {
    if n == 0 then limit else Raised(RaisedTimes(limit, n - 1))
  }

  ghost predicate AllFast(events: seq<Event>, target: int) {
    forall e :: e in events && e.ResponseEvent? ==> e.latency <= target
  }

  /** Whenever a window closes, the limit had been reached in it. */
  ghost predicate AllBusy(r: Route, target: int, events: seq<Event>) {
    events == [] ||
    var before := events[..|events| - 1];
    && AllBusy(r, target, before)
    && (Closes(Run(r, target, before), events[|events| - 1]) ==>
          Run(r, target, before).highWater >= Run(r, target, before).limit)
  }

  lemma FastAdds(total: int, target: int, completed: nat, latency: int)
    requires total <= target * completed && latency <= target
    ensures total + latency <= target * (completed + 1)
  {
  }

  lemma FastStep(r: Route, target: int, e: Event, limit: nat, n: nat)
    requires e.ResponseEvent? && e.id in r.open && e.latency <= target && r.latencyTotal <= target * r.completed
    requires Closes(r, e) ==> r.highWater >= r.limit
    requires r.completed == n % 20 && r.limit == RaisedTimes(limit, n / 20)
    ensures
      var r' := Step(r, target, e);
      && r'.latencyTotal <= target * r'.completed && r'.completed == (n + 1) % 20
      && r'.limit == RaisedTimes(limit, (n + 1) / 20)
  {
    FastAdds(r.latencyTotal, target, r.completed, e.latency);
    hide Lowered, Raised;
    assert target * 0 == 0;
    if n % 20 == 19 {
      assert (n + 1) / 20 == n / 20 + 1;
    } else {
      assert (n + 1) / 20 == n / 20;
    }
  }

  /** With fast responses only, in windows that reach the limit, every twenty releases raise the limit once. */
  lemma {:induction false} BusyFastWindowsRaise(r0: Route, target: int, events: seq<Event>)
    requires AllFast(events, target) && AllBusy(r0, target, events)
    requires r0.latencyTotal <= target * r0.completed && r0.completed < 20
    ensures
      var r := Run(r0, target, events);
      var n := r0.completed + Releases(r0, target, events);
      r.latencyTotal <= target * r.completed && r.completed == n % 20 && r.limit == RaisedTimes(r0.limit, n / 20)
  {
    if events != [] {
      var before, e := events[..|events| - 1], events[|events| - 1];
      BusyFastWindowsRaise(r0, target, before);
      var r := Run(r0, target, before);
      assert e in events;
      hide RaisedTimes, Adapt, Admits;
      if e.ResponseEvent? && e.id in r.open {
        FastStep(r, target, e, r0.limit, r0.completed + Releases(r0, target, before));
      }
    }
  }

  /** The limits that such windows lead through from the bottom, 22 windows to a part. */
  const FIRST_PART: seq<nat> :=
    [5, 6, 7, 8, 9, 10, 11, 12, 13, 14, 15, 16, 17, 18, 19, 20, 21, 23, 25, 27, 29, 31, 33]
  const SECOND_PART: seq<nat> :=
    [33, 35, 37, 39, 41, 44, 47, 50, 53, 56, 59, 62, 66, 70, 74, 78, 82, 87, 92, 97, 102, 108, 114]
  const THIRD_PART: seq<nat> :=
    [114, 120, 126, 133, 140, 147, 155, 163, 172, 181, 191, 201, 212, 223, 235, 247, 260, 273, 287, 302, 318, 334, 351]
  const FOURTH_PART: seq<nat> :=
    [351, 369, 388, 408, 429, 451, 474, 498, 523, 550, 578, 607, 638, 670, 704, 740, 777, 816, 857, 900, 945, 993, 1000]

  lemma {:induction false} AscendsFirst(n: nat)
    requires n <= 22
    ensures RaisedTimes(5, n) == FIRST_PART[n]
  {
    if n > 0 {
      AscendsFirst(n - 1);
    }
  }

  lemma {:induction false} AscendsSecond(n: nat)
    requires n <= 22
    ensures RaisedTimes(33, n) == SECOND_PART[n]
  {
    if n > 0 {
      AscendsSecond(n - 1);
    }
  }

  lemma {:induction false} AscendsThird(n: nat)
    requires n <= 22
    ensures RaisedTimes(114, n) == THIRD_PART[n]
  {
    if n > 0 {
      AscendsThird(n - 1);
    }
  }

  lemma {:induction false} AscendsFourth(n: nat)
    requires n <= 22
    ensures RaisedTimes(351, n) == FOURTH_PART[n]
  {
    if n > 0 {
      AscendsFourth(n - 1);
    }
  }

  lemma {:induction false} RaisedTimesAdd(limit: nat, m: nat, n: nat)
    ensures RaisedTimes(limit, m + n) == RaisedTimes(RaisedTimes(limit, m), n)
  {
    if n > 0 {
      RaisedTimesAdd(limit, m, n - 1);
      hide Raised;
    }
  }

  lemma AscentFrom5()
    ensures RaisedTimes(5, 87) == 993 && RaisedTimes(5, 88) == 1000
  {
    hide RaisedTimes;
    AscendsFirst(22);
    AscendsSecond(22);
    AscendsThird(22);
    AscendsFourth(21);
    AscendsFourth(22);
    RaisedTimesAdd(5, 22, 22);
    RaisedTimesAdd(5, 44, 22);
    RaisedTimesAdd(5, 66, 21);
    RaisedTimesAdd(5, 66, 22);
  }

  lemma {:induction false} RaisedTimesMonotone(a: nat, b: nat, n: nat)
    requires a <= b
    ensures RaisedTimes(a, n) <= RaisedTimes(b, n) && (b <= 1000 ==> RaisedTimes(b, n) <= 1000)
  {
    if n > 0 {
      RaisedTimesMonotone(a, b, n - 1);
    }
  }

  lemma {:induction false} RaisedTimesGrows(limit: nat, m: nat, n: nat)
    requires limit <= 1000 && m <= n
    ensures RaisedTimes(limit, m) <= RaisedTimes(limit, n) <= 1000
  {
    RaisedTimesMonotone(limit, limit, n);
    if m < n {
      RaisedTimesGrows(limit, m, n - 1);
    }
  }

  /** 88 of these windows are enough to reach 1000 from any limit within the bounds; from five, 87 are not. */
  lemma BusyFastWindowsReachTheMaximum(r0: Route, target: int, events: seq<Event>)
    requires AllFast(events, target) && AllBusy(r0, target, events) && 5 <= r0.limit <= 1000
    requires r0.latencyTotal <= target * r0.completed && r0.completed < 20
    ensures Releases(r0, target, events) >= 1760 ==> Run(r0, target, events).limit == 1000
    ensures RaisedTimes(5, 87) < 1000
  {
    hide RaisedTimes, Run, Releases, AllFast, AllBusy;
    AscentFrom5();
    BusyFastWindowsRaise(r0, target, events);
    var n := (r0.completed + Releases(r0, target, events)) / 20;
    if n >= 88 {
      RaisedTimesMonotone(5, r0.limit, 88);
      RaisedTimesGrows(r0.limit, 88, n);
    }
  }
}
