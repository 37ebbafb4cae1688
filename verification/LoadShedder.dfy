/**
 * The adaptive load shedder of one route class (`createLoadShedder` in indexer/src/loadShedder.js):
 * requests arrive, and their responses fire `finish`, `close` or both, in any order.
 */
module LoadShedder {
  import opened Wrappers
  import opened Basics

  const MIN_LIMIT: nat := 5
  const MAX_LIMIT: nat := 1000
  const SAMPLE_WINDOW: nat := 20

  datatype Priority = Anonymous | Free | Pro | Enterprise | Admin

  function Reserve(p: Priority): nat {
    match p
    case Anonymous => 0
    case Free => 0
    case Pro => 10
    case Enterprise => 20
    case Admin => 50
  }

  /** The route's counters, and the admitted requests whose `released` flag is still false. */
  datatype Route = Route(
    limit: nat, active: nat, completed: nat, latencyTotal: int, highWater: nat, shed: map<Priority, nat>,
    open: set<nat>, nextId: nat)

  predicate Admits(r: Route, p: Priority) {
    r.active < Min(MAX_LIMIT, r.limit + Reserve(p))
  }

  function Arrive(r: Route, p: Priority): Route {
    if !Admits(r, p) then r.(shed := r.shed[p := (if p in r.shed then r.shed[p] else 0) + 1])
    else r.(active := r.active + 1, highWater := Max(r.highWater, r.active + 1),
            open := r.open + {r.nextId}, nextId := r.nextId + 1)
  }

  /** Math.floor(limit * 0.8), at least MIN_LIMIT. */
  function Lowered(limit: nat): nat {
    Max(MIN_LIMIT, 4 * limit / 5)
  }

  /** limit + max(1, Math.ceil(limit * 0.05)), at most MAX_LIMIT. */
  function Raised(limit: nat): nat {
    Min(MAX_LIMIT, limit + Max(1, (limit + 19) / 20))
  }

  /** Closing a full sample window: the average is above the target, or else the limit was reached, or neither. */
  function Adapt(r: Route, target: int): Route {
    if r.completed < SAMPLE_WINDOW then r else
      var limit := if r.latencyTotal > target * r.completed then Lowered(r.limit)
                   else if r.highWater >= r.limit then Raised(r.limit)
                   else r.limit;
      r.(limit := limit, completed := 0, latencyTotal := 0, highWater := r.active)
  }

  function Release(r: Route, target: int, id: nat, latency: int): Route {
    if id !in r.open then r
    else Adapt(r.(open := r.open - {id}, active := if r.active > 0 then r.active - 1 else 0,
                  completed := r.completed + 1, latencyTotal := r.latencyTotal + latency), target)
  }

  class RouteShedder {
    const target: int
    var limit: nat
    var active: nat
    var completed: nat
    var latencyTotal: int
    var windowHighWater: nat
    var shed: map<Priority, nat>
    var open: set<nat>
    var nextId: nat

    ghost function State(): Route
      reads this
    {
      Route(limit, active, completed, latencyTotal, windowHighWater, shed, open, nextId)
    }

    constructor (limit: nat, target: int)
      ensures State() == Fresh(limit) == Route(limit, 0, 0, 0, 0, map[], {}, 0) && this.target == target
    {
      this.target, this.limit := target, limit;
      active, completed, latencyTotal, windowHighWater, shed, open, nextId := 0, 0, 0, 0, map[], {}, 0;
    }

    /** None answers 503; Some is the admitted request whose release is hooked to its response. */
    method Middleware(priority: Priority) returns (r: Option<nat>)
      modifies this
      ensures State() == Arrive(old(State()), priority)
      ensures r == if Admits(old(State()), priority) then Some(old(nextId)) else None
      ensures r.None? ==> forall p :: Reserve(p) <= Reserve(priority) ==> !Admits(old(State()), p)
      ensures old(Inv(State(), MIN_LIMIT, MAX_LIMIT)) ==> Inv(State(), MIN_LIMIT, MAX_LIMIT)
    {
      if Inv(State(), MIN_LIMIT, MAX_LIMIT) {
        StepKeepsInv(State(), target, Arrival(priority), MIN_LIMIT, MAX_LIMIT);
      }
      ShedTogether(State(), priority);
      ghost var before := State();
      assert Step(before, target, Arrival(priority)) == Arrive(before, priority);
      hide Inv, Reserve, Step;
      var allowedConcurrent := Min(MAX_LIMIT, limit + Reserve(priority));
      if active >= allowedConcurrent {
        shed := shed[priority := (if priority in shed then shed[priority] else 0) + 1];
        return None;
      }
      active := active + 1;
      windowHighWater := Max(windowHighWater, active);
      open := open + {nextId};
      r := Some(nextId);
      nextId := nextId + 1;
    }

    /** The handler of both `finish` and `close`. */
    method ReleaseRequest(id: nat, latency: int)
      modifies this
      ensures State() == Release(old(State()), target, id, latency)
      ensures old(Inv(State(), MIN_LIMIT, MAX_LIMIT)) ==> Inv(State(), MIN_LIMIT, MAX_LIMIT)
    {
      if Inv(State(), MIN_LIMIT, MAX_LIMIT) {
        StepKeepsInv(State(), target, ResponseEvent(id, latency), MIN_LIMIT, MAX_LIMIT);
      }
      hide Inv;
      if id !in open { return; }
      open := open - {id};
      active := if active > 0 then active - 1 else 0;
      completed := completed + 1;
      latencyTotal := latencyTotal + latency;
      if completed >= SAMPLE_WINDOW {
        if latencyTotal > target * completed {
          limit := Lowered(limit);
        } else if windowHighWater >= limit {
          limit := Raised(limit);
        }
        completed := 0;
        latencyTotal := 0;
        windowHighWater := active;
      }
    }
  }

  // ---------- every run ----------

  function Fresh(limit: nat): Route {
    Route(limit, 0, 0, 0, 0, map[], {}, 0)
  }

  /** A request arrives, or one of the two response events of request `id` fires. */
  datatype Event = Arrival(priority: Priority) | ResponseEvent(id: nat, latency: int)

  function Step(r: Route, target: int, e: Event): Route {
    match e
    case Arrival(p) => Arrive(r, p)
    case ResponseEvent(id, latency) => Release(r, target, id, latency)
  }

  function Run(r: Route, target: int, events: seq<Event>): Route {
    if events == [] then r
    else Step(Run(r, target, events[..|events| - 1]), target, events[|events| - 1])
  }

  ghost predicate Inv(r: Route, lo: nat, hi: nat) {
    && r.active == |r.open| <= MAX_LIMIT
    && r.active <= r.highWater
    && r.completed < SAMPLE_WINDOW
    && (forall id :: id in r.open ==> id < r.nextId)
    && lo <= r.limit <= hi
  }

  lemma StepKeepsInv(r: Route, target: int, e: Event, lo: nat, hi: nat)
    requires lo <= MIN_LIMIT && hi >= MAX_LIMIT && Inv(r, lo, hi)
    ensures Inv(Step(r, target, e), lo, hi)
    ensures e.ResponseEvent? && e.id in r.open ==> r.active > 0
  {
  }

  /**
   * On every run from a fresh route: `active` is the number of admitted requests not yet released, never
   * more than 1000; the high-water mark is not below it; and the limit stays within 5 and 1000, or within
   * whatever lies further out that it was configured to.
   */
  lemma {:induction false} RunsKeepInv(limit: nat, target: int, events: seq<Event>)
    ensures Inv(Run(Fresh(limit), target, events), Min(MIN_LIMIT, limit), Max(MAX_LIMIT, limit))
  {
    if events != [] {
      RunsKeepInv(limit, target, events[..|events| - 1]);
      StepKeepsInv(Run(Fresh(limit), target, events[..|events| - 1]), target, events[|events| - 1],
                   Min(MIN_LIMIT, limit), Max(MAX_LIMIT, limit));
      hide Inv, Step;
    }
  }

  /** Each request is released once: the second of its two response events, whenever it comes, changes nothing. */
  lemma {:induction false} SecondEventIsIgnored(r: Route, target: int, id: nat, latency: int, events: seq<Event>, again: int)
    requires id < r.nextId
    ensures
      var later := Run(Release(r, target, id, latency), target, events);
      Release(later, target, id, again) == later
  {
    NeverReopened(Release(r, target, id, latency), target, id, events);
    hide Run, Adapt;
  }

  lemma {:induction false} NeverReopened(r: Route, target: int, id: nat, events: seq<Event>)
    requires id < r.nextId && id !in r.open
    ensures id < Run(r, target, events).nextId && id !in Run(r, target, events).open
  {
    if events != [] {
      NeverReopened(r, target, id, events[..|events| - 1]);
    }
  }

  /** Where a rank is shed, so are those with no larger reserve. */
  lemma ShedTogether(r: Route, priority: Priority)
    ensures !Admits(r, priority) ==> forall p :: Reserve(p) <= Reserve(priority) ==> !Admits(r, p)
  {
  }

  // ---------- slow windows ----------

  function LoweredTimes(limit: nat, n: nat): nat {
    if n == 0 then limit else Lowered(LoweredTimes(limit, n - 1))
  }

  /** Every response event that takes effect is slower than the target; how many there are. */
  ghost predicate AllSlow(events: seq<Event>, target: int) {
    forall e :: e in events && e.ResponseEvent? ==> e.latency > target
  }

  function Releases(r: Route, target: int, events: seq<Event>): nat {
    if events == [] then 0 else
      var e := events[|events| - 1];
      Releases(r, target, events[..|events| - 1])
      + if e.ResponseEvent? && e.id in Run(r, target, events[..|events| - 1]).open then 1 else 0
  }

  ghost predicate SlowSoFar(r: Route, target: int) {
    r.latencyTotal >= target * r.completed && (r.completed > 0 ==> r.latencyTotal > target * r.completed)
  }

  lemma SlowAdds(total: int, target: int, completed: nat, latency: int)
    requires total >= target * completed && latency > target
    ensures total + latency > target * (completed + 1)
  {
  }

  /** With nothing but slow responses, in this window too so far, every twenty releases lower the limit once. */
  lemma {:induction false} SlowWindowsLower(r0: Route, target: int, events: seq<Event>)
    requires AllSlow(events, target) && SlowSoFar(r0, target) && r0.completed < SAMPLE_WINDOW
    ensures
      var r := Run(r0, target, events);
      var n := r0.completed + Releases(r0, target, events);
      SlowSoFar(r, target) && r.completed == n % 20 && r.limit == LoweredTimes(r0.limit, n / 20)
  {
    if events != [] {
      var before, e := events[..|events| - 1], events[|events| - 1];
      SlowWindowsLower(r0, target, before);
      var r := Run(r0, target, before);
      assert e in events;
      hide SlowSoFar, LoweredTimes, Adapt, Admits;
      if e.ResponseEvent? && e.id in r.open {
        SlowStep(r, target, e.id, e.latency, r0.limit, r0.completed + Releases(r0, target, before));
      } else if e.Arrival? {
        ArrivalKeepsWindow(r, target, e.priority);
      }
    }
  }

  /** Closing a window, slow or not, moves a limit within the bounds to one within the bounds. */
  lemma AnyWindow(r: Route, target: int, id: nat, latency: int)
    requires id in r.open && r.completed < SAMPLE_WINDOW && MIN_LIMIT <= r.limit <= MAX_LIMIT
    ensures
      var r' := Release(r, target, id, latency);
      if r.completed == SAMPLE_WINDOW - 1
      then r'.completed == 0 && SlowSoFar(r', target) && MIN_LIMIT <= r'.limit <= MAX_LIMIT
      else r'.completed == r.completed + 1 && r'.limit == r.limit
  {
    assert target * 0 == 0;
  }

  /** After `n` releases, counting those of the open window: it closed at `first`, and each further one lowers the limit. */
  ghost predicate SinceSlow(r: Route, target: int, limit: nat, first: nat, n: nat) {
    && MIN_LIMIT <= limit <= MAX_LIMIT && MIN_LIMIT <= first <= MAX_LIMIT
    && if n < 20 then r.completed == n && r.limit == limit
       else SlowSoFar(r, target) && r.completed == n % 20 && r.limit == LoweredTimes(first, n / 20 - 1)
  }

  lemma SlowRelease(r: Route, target: int, id: nat, latency: int, limit: nat, first: nat, n: nat) returns (first': nat)
    requires SinceSlow(r, target, limit, first, n) && id in r.open && latency > target
    ensures SinceSlow(Release(r, target, id, latency), target, limit, first', n + 1)
  {
    first' := first;
    if n < 20 {
      hide LoweredTimes, SlowSoFar;
      AnyWindow(r, target, id, latency);
      hide Release;
      if n == 19 { first' := Release(r, target, id, latency).limit; }
      FirstWindow(first', n);
    } else {
      hide SlowSoFar, LoweredTimes, Release;
      FirstWindow(first, n);
      SlowStep(r, target, id, latency, first, n - 20);
    }
  }

  lemma SlowArrival(r: Route, target: int, p: Priority, limit: nat, first: nat, n: nat)
    requires SinceSlow(r, target, limit, first, n)
    ensures SinceSlow(Arrive(r, p), target, limit, first, n)
  {
    if n >= 20 { ArrivalKeepsWindow(r, target, p); }
    hide SlowSoFar, LoweredTimes;
  }

  /** From any state on. */
  lemma {:induction false} SlowFromNowOn(r0: Route, target: int, events: seq<Event>) returns (first: nat)
    requires AllSlow(events, target) && r0.completed < SAMPLE_WINDOW && MIN_LIMIT <= r0.limit <= MAX_LIMIT
    ensures SinceSlow(Run(r0, target, events), target, r0.limit, first, r0.completed + Releases(r0, target, events))
  {
    if events == [] {
      first := r0.limit;
    } else {
      var before, e := events[..|events| - 1], events[|events| - 1];
      first := SlowFromNowOn(r0, target, before);
      var r := Run(r0, target, before);
      var n := r0.completed + Releases(r0, target, before);
      assert e in events;
      hide SinceSlow, Adapt, Arrive;
      if e.Arrival? {
        SlowArrival(r, target, e.priority, r0.limit, first, n);
      } else if e.id in r.open {
        first := SlowRelease(r, target, e.id, e.latency, r0.limit, first, n);
      }
    }
  }

  lemma FirstWindow(first: nat, n: nat)
    ensures n == 19 ==> LoweredTimes(first, (n + 1) / 20 - 1) == first
    ensures n >= 20 ==> n / 20 - 1 == (n - 20) / 20 && n % 20 == (n - 20) % 20
    ensures n >= 20 ==> (n + 1) / 20 - 1 == (n - 20 + 1) / 20 && (n + 1) % 20 == (n - 20 + 1) % 20
  {
  }

  lemma ArrivalKeepsWindow(r: Route, target: int, p: Priority)
    requires SlowSoFar(r, target)
    ensures SlowSoFar(Arrive(r, p), target)
    ensures Arrive(r, p).completed == r.completed && Arrive(r, p).limit == r.limit
  {
  }

  lemma SlowStep(r: Route, target: int, id: nat, latency: int, limit: nat, n: nat)
    requires SlowSoFar(r, target) && id in r.open && latency > target
    requires r.completed == n % 20 && r.limit == LoweredTimes(limit, n / 20)
    ensures
      var r' := Release(r, target, id, latency);
      SlowSoFar(r', target) && r'.completed == (n + 1) % 20 && r'.limit == LoweredTimes(limit, (n + 1) / 20)
  {
    hide Lowered, Raised;
    SlowAdds(r.latencyTotal, target, r.completed, latency);
    assert target * 0 == 0;
    if n % 20 == 19 {
      assert (n + 1) / 20 == n / 20 + 1;
    } else {
      assert (n + 1) / 20 == n / 20;
    }
  }

  lemma {:induction false} LoweredTimesMonotone(a: nat, b: nat, n: nat)
    requires a <= b
    ensures LoweredTimes(a, n) <= LoweredTimes(b, n)
  {
    if n > 0 {
      LoweredTimesMonotone(a, b, n - 1);
    }
  }

  lemma {:induction false} LoweredTimesAdd(limit: nat, m: nat, n: nat)
    ensures LoweredTimes(limit, m + n) == LoweredTimes(LoweredTimes(limit, m), n)
  {
    if n > 0 {
      LoweredTimesAdd(limit, m, n - 1);
      hide Lowered;
    }
  }

  lemma {:induction false} NeverBelowMinimum(limit: nat, n: nat)
    requires limit >= MIN_LIMIT
    ensures LoweredTimes(limit, n) >= MIN_LIMIT
  {
  }

  /** The limits that slow windows lead through from the top. */
  const DESCENT: seq<nat> :=
    [1000, 800, 640, 512, 409, 327, 261, 208, 166, 132, 105, 84, 67, 53, 42, 33, 26, 20, 16, 12, 9, 7, 5]

  lemma {:induction false} Descends(n: nat)
    requires n <= 22
    ensures LoweredTimes(1000, n) == DESCENT[n]
  {
    if n > 0 {
      Descends(n - 1);
    }
  }

  lemma DescentFrom1000()
    ensures LoweredTimes(1000, 21) == 7 && LoweredTimes(1000, 22) == 5
  {
    hide LoweredTimes;
    Descends(21);
    Descends(22);
  }

  lemma {:induction false} StaysAtMinimum(n: nat)
    ensures LoweredTimes(5, n) == 5
  {
    if n > 0 {
      StaysAtMinimum(n - 1);
    }
  }

  lemma ManyTimesLowered(limit: nat, n: nat)
    requires MIN_LIMIT <= limit <= MAX_LIMIT && n >= 22
    ensures LoweredTimes(limit, n) == MIN_LIMIT
  {
    hide LoweredTimes;
    DescentFrom1000();
    LoweredTimesAdd(limit, 22, n - 22);
    LoweredTimesMonotone(limit, 1000, 22);
    NeverBelowMinimum(limit, 22);
    StaysAtMinimum(n - 22);
  }

  /**
   * From any limit within the bounds, 22 slow windows are enough to reach the minimum; from 1000, 21 are not.
   * If responses turn slow in the middle of a window, that window comes on top.
   */
  lemma SlowWindowsReachTheMinimum(r0: Route, target: int, events: seq<Event>)
    requires r0.completed < SAMPLE_WINDOW && MIN_LIMIT <= r0.limit <= MAX_LIMIT && AllSlow(events, target)
    ensures Releases(r0, target, events) >= 460 ==> Run(r0, target, events).limit == MIN_LIMIT
    ensures SlowSoFar(r0, target) && Releases(r0, target, events) >= 440 ==> Run(r0, target, events).limit == MIN_LIMIT
    ensures LoweredTimes(MAX_LIMIT, 21) > MIN_LIMIT
  {
    hide LoweredTimes, Releases, Run, AllSlow, SlowSoFar;
    DescentFrom1000();
    var n := r0.completed + Releases(r0, target, events);
    var first := SlowFromNowOn(r0, target, events);
    if n / 20 - 1 >= 22 { ManyTimesLowered(first, n / 20 - 1); }
    if SlowSoFar(r0, target) {
      SlowWindowsLower(r0, target, events);
      if n / 20 >= 22 { ManyTimesLowered(r0.limit, n / 20); }
    }
  }

  lemma {:induction false} RunConcat(r: Route, target: int, a: seq<Event>, b: seq<Event>)
    ensures Run(r, target, a + b) == Run(Run(r, target, a), target, b)
  {
    if b == [] {
      assert a + b == a;
    } else {
      assert (a + b)[..|a + b| - 1] == a + b[..|b| - 1];
      RunConcat(r, target, a, b[..|b| - 1]);
      hide Step;
    }
  }

  /** So a route may turn slow at any time: 460 slow responses later its limit is at the minimum. */
  lemma TurningSlowReachesTheMinimum(limit: nat, target: int, before: seq<Event>, events: seq<Event>)
    requires MIN_LIMIT <= limit <= MAX_LIMIT && AllSlow(events, target)
    requires Releases(Run(Fresh(limit), target, before), target, events) >= 460
    ensures Run(Fresh(limit), target, before + events).limit == MIN_LIMIT
  {
    hide Run, Releases, AllSlow, LoweredTimes;
    RunsKeepInv(limit, target, before);
    RunConcat(Fresh(limit), target, before, events);
    SlowWindowsReachTheMinimum(Run(Fresh(limit), target, before), target, events);
  }
}
