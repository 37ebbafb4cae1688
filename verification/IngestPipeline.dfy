/**
 * The bounded ingest worker pool (indexer/src/ingestPipeline.js) as a step system: enqueue, a batch
 * ending well or badly, and drain may follow each other in any order.
 */
module IngestPipeline {
  import opened Basics

  datatype Config = Config(concurrency: nat, batchSize: nat, maxQueue: nat)

  /**
   * The pool's own state, and what has happened: items accepted, batches handed out in order,
   * batches ended, and drain callers let go.
   */
  datatype Pool<T> = Pool(
    queue: seq<T>, active: nat, drains: seq<nat>,
    accepted: seq<T>, dispatched: seq<seq<T>>, ended: nat, resolved: seq<nat>)

  function Dispatch<T>(cfg: Config, p: Pool<T>): Pool<T> {
    var n := Min(cfg.batchSize, |p.queue|);
    p.(queue := p.queue[n..], active := p.active + 1, dispatched := p.dispatched + [p.queue[..n]])
  }

  function Schedule<T>(cfg: Config, p: Pool<T>): Pool<T>
    decreases |p.queue|
  {
    if p.queue != [] && p.active < cfg.concurrency && cfg.batchSize > 0 then Schedule(cfg, Dispatch(cfg, p)) else p
  }

  predicate Idle<T>(p: Pool<T>) {
    p.queue == [] && p.active == 0
  }

  function NotifyDrain<T>(p: Pool<T>): Pool<T> {
    if Idle(p) then p.(drains := [], resolved := p.resolved + p.drains) else p
  }

  function Accepts<T>(cfg: Config, p: Pool<T>, items: seq<T>): (n: nat)
    ensures n <= |items|
  {
    var room := if |p.queue| < cfg.maxQueue then cfg.maxQueue - |p.queue| else 0;
    Min(|items|, room)
  }

  function Enqueue<T>(cfg: Config, p: Pool<T>, items: seq<T>): Pool<T> {
    var n := Accepts(cfg, p, items);
    if n == 0 then p
    else Schedule(cfg, p.(queue := p.queue + items[..n], accepted := p.accepted + items[..n]))
  }

  function End<T>(cfg: Config, p: Pool<T>): Pool<T>
    requires p.active > 0
  {
    Schedule(cfg, NotifyDrain(p.(active := p.active - 1, ended := p.ended + 1)))
  }

  function Drain<T>(p: Pool<T>, caller: nat): Pool<T> {
    if Idle(p) then p.(resolved := p.resolved + [caller]) else p.(drains := p.drains + [caller])
  }

  class Pipeline<T> {
    const cfg: Config
    var queue: seq<T>
    var activeWorkers: nat
    var pendingDrains: seq<nat>
    ghost var accepted: seq<T>
    ghost var dispatched: seq<seq<T>>
    ghost var ended: nat
    ghost var resolved: seq<nat>

    ghost function State(): Pool<T>
      reads this
    {
      Pool(queue, activeWorkers, pendingDrains, accepted, dispatched, ended, resolved)
    }

    constructor (cfg: Config)
      ensures this.cfg == cfg && State() == Pool([], 0, [], [], [], 0, []) && Inv(cfg, State())
    {
      this.cfg := cfg;
      queue, activeWorkers, pendingDrains := [], 0, [];
      accepted, dispatched, ended, resolved := [], [], 0, [];
    }

    method NotifyDrainers()
      modifies this
      ensures State() == NotifyDrain(old(State()))
    {
      if |queue| == 0 && activeWorkers == 0 {
        resolved := resolved + pendingDrains;
        pendingDrains := [];
      }
    }

    method ScheduleWork()
      modifies this
      ensures State() == Schedule(cfg, old(State()))
    {
      while |queue| > 0 && activeWorkers < cfg.concurrency
        invariant Schedule(cfg, State()) == Schedule(cfg, old(State()))
        decreases |queue|
      {
        var n := Min(cfg.batchSize, |queue|);
        var batch := queue[..n];
        if |batch| == 0 { break; }
        queue := queue[n..];
        activeWorkers := activeWorkers + 1;
        dispatched := dispatched + [batch];
      }
    }

    method EnqueueItems(items: seq<T>) returns (taken: nat, dropped: nat)
      modifies this
      ensures State() == Enqueue(cfg, old(State()), items)
      ensures taken + dropped == |items| && accepted == old(accepted) + items[..taken]
      ensures dropped > 0 ==> old(|queue|) + taken == Max(old(|queue|), cfg.maxQueue)
      ensures taken > 0 ==> old(|queue|) + taken <= cfg.maxQueue
      ensures old(Inv(cfg, State())) ==> Inv(cfg, State())
    {
      if Inv(cfg, State()) { StepKeepsInv(cfg, State(), Enqueued(items)); }
      ghost var n := TakesWhatFits(cfg, State(), items);
      hide Inv;
      if |items| == 0 { return 0, 0; }
      var overflow := if |queue| + |items| > cfg.maxQueue then |queue| + |items| - cfg.maxQueue else 0;
      taken := if overflow < |items| then |items| - overflow else 0;
      dropped := |items| - taken;
      if taken > 0 {
        queue := queue + items[..taken];
        accepted := accepted + items[..taken];
        ScheduleWork();
      }
    }

    /** The promise of a batch settles; whether it was fulfilled or rejected makes no difference to the pool. */
    method BatchEnded()
      requires activeWorkers > 0
      modifies this
      ensures State() == End(cfg, old(State()))
      ensures old(Inv(cfg, State())) ==> Inv(cfg, State())
    {
      if Inv(cfg, State()) { StepKeepsInv(cfg, State(), Ended); }
      hide Inv;
      activeWorkers := activeWorkers - 1;
      ended := ended + 1;
      NotifyDrainers();
      ScheduleWork();
    }

    method DrainCalled(caller: nat)
      modifies this
      ensures State() == Drain(old(State()), caller)
      ensures old(Inv(cfg, State())) ==> Inv(cfg, State())
    {
      if Inv(cfg, State()) { StepKeepsInv(cfg, State(), Drained(caller)); }
      hide Inv;
      if |queue| == 0 && activeWorkers == 0 {
        resolved := resolved + [caller];
        return;
      }
      pendingDrains := pendingDrains + [caller];
    }
  }

  lemma {:induction false} ScheduleAccepts<T>(cfg: Config, p: Pool<T>)
    ensures Schedule(cfg, p).accepted == p.accepted
    decreases |p.queue|
  {
    if p.queue != [] && p.active < cfg.concurrency && cfg.batchSize > 0 {
      ScheduleAccepts(cfg, Dispatch(cfg, p));
    }
  }

  /** As many leading items are accepted as the queue has room for, before any of them is handed out. */
  lemma TakesWhatFits<T>(cfg: Config, p: Pool<T>, items: seq<T>) returns (n: nat)
    ensures n <= |items| && Enqueue(cfg, p, items).accepted == p.accepted + items[..n]
    ensures n < |items| ==> |p.queue| + n == Max(|p.queue|, cfg.maxQueue)
    ensures n > 0 ==> |p.queue| + n <= cfg.maxQueue
  {
    n := Accepts(cfg, p, items);
    ScheduleAccepts(cfg, p.(queue := p.queue + items[..n], accepted := p.accepted + items[..n]));
    hide Schedule;
    assert n == 0 ==> p.accepted == p.accepted + items[..n];
  }

  // ---------- every interleaving ----------

  datatype Event<T> = Enqueued(items: seq<T>) | Ended | Drained(caller: nat)

  /** A batch can only end while one is running. */
  function Step<T>(cfg: Config, p: Pool<T>, e: Event<T>): Pool<T> {
    match e
    case Enqueued(items) => Enqueue(cfg, p, items)
    case Ended => if p.active > 0 then End(cfg, p) else p
    case Drained(caller) => Drain(p, caller)
  }

  function Run<T>(cfg: Config, events: seq<Event<T>>): Pool<T> {
    if events == [] then Pool([], 0, [], [], [], 0, [])
    else Step(cfg, Run(cfg, events[..|events| - 1]), events[|events| - 1])
  }

  ghost predicate Conserves<T>(cfg: Config, p: Pool<T>) {
    && p.accepted == Flatten(p.dispatched) + p.queue
    && |p.dispatched| == p.ended + p.active
    && forall b :: b in p.dispatched ==> 0 < |b| <= cfg.batchSize
  }

  ghost predicate WithinBounds<T>(cfg: Config, p: Pool<T>) {
    |p.queue| <= cfg.maxQueue && p.active <= cfg.concurrency
  }

  /** No item waits while a worker is free. */
  ghost predicate Busy<T>(cfg: Config, p: Pool<T>) {
    p.queue == [] || p.active == cfg.concurrency || cfg.batchSize == 0
  }

  ghost predicate NoOneStuck<T>(p: Pool<T>) {
    Idle(p) ==> p.drains == []
  }

  ghost predicate Inv<T>(cfg: Config, p: Pool<T>) {
    Conserves(cfg, p) && WithinBounds(cfg, p) && Busy(cfg, p) && NoOneStuck(p)
  }

  lemma DispatchConserves<T>(cfg: Config, p: Pool<T>)
    requires Conserves(cfg, p) && p.queue != [] && cfg.batchSize > 0
    ensures Conserves(cfg, Dispatch(cfg, p))
  {
  }

  lemma {:induction false} ScheduleKeeps<T>(cfg: Config, p: Pool<T>)
    requires Conserves(cfg, p) && WithinBounds(cfg, p) && NoOneStuck(p)
    ensures Inv(cfg, Schedule(cfg, p))
    decreases |p.queue|
  {
    if p.queue != [] && p.active < cfg.concurrency && cfg.batchSize > 0 {
      DispatchConserves(cfg, p);
      hide Conserves;
      ScheduleKeeps(cfg, Dispatch(cfg, p));
    }
  }

  lemma StepKeepsInv<T>(cfg: Config, p: Pool<T>, e: Event<T>)
    requires Inv(cfg, p)
    ensures Inv(cfg, Step(cfg, p, e))
  {
    hide Schedule;
    match e
    case Enqueued(items) =>
      var n := Accepts(cfg, p, items);
      if n > 0 {
        assert Flatten(p.dispatched) + p.queue + items[..n] == Flatten(p.dispatched) + (p.queue + items[..n]);
        ScheduleKeeps(cfg, p.(queue := p.queue + items[..n], accepted := p.accepted + items[..n]));
      }
    case Ended =>
      if p.active > 0 {
        ScheduleKeeps(cfg, NotifyDrain(p.(active := p.active - 1, ended := p.ended + 1)));
      }
    case Drained(caller) =>
  }

  /**
   * On every interleaving: what was accepted, in order, is the batches handed out followed by the queue;
   * the bounds hold; nothing waits while a worker is free; and no drain caller is left behind when idle.
   */
  lemma {:induction false} RunsKeepInv<T>(cfg: Config, events: seq<Event<T>>)
    ensures Inv(cfg, Run(cfg, events))
  {
    if events != [] {
      RunsKeepInv(cfg, events[..|events| - 1]);
      StepKeepsInv(cfg, Run(cfg, events[..|events| - 1]), events[|events| - 1]);
      hide Inv, Step;
    }
  }

  // ---------- drain ends ----------

  /** The drain callers that wait before a step, and the one that comes with it. */
  function Waiting<T>(p: Pool<T>, e: Event<T>): seq<nat> {
    if e.Drained? then p.drains + [e.caller] else p.drains
  }

  /** Drain callers are let go all together and in order, exactly by a step that leaves no item queued and no worker busy. */
  lemma DrainsWaitForIdle<T>(cfg: Config, p: Pool<T>, e: Event<T>)
    requires Inv(cfg, p)
    ensures
      var p', waiting := Step(cfg, p, e), Waiting(p, e);
      if p'.queue == [] && p'.active == 0 then p'.resolved == p.resolved + waiting && p'.drains == []
      else p'.resolved == p.resolved && p'.drains == waiting
  {
    hide Schedule, Conserves;
    match e
    case Enqueued(items) =>
      var n := Accepts(cfg, p, items);
      if n > 0 { BusyStays(cfg, p.(queue := p.queue + items[..n], accepted := p.accepted + items[..n])); }
    case Ended =>
      if p.active > 0 { BusyStays(cfg, NotifyDrain(p.(active := p.active - 1, ended := p.ended + 1))); }
    case Drained(caller) =>
  }

  /** Handing out batches lets nobody go, and makes nobody idle. */
  lemma {:induction false} BusyStays<T>(cfg: Config, p: Pool<T>)
    ensures
      var q := Schedule(cfg, p);
      q.drains == p.drains && q.resolved == p.resolved && (Idle(q) <==> Idle(p))
    decreases |p.queue|
  {
    if p.queue != [] && p.active < cfg.concurrency && cfg.batchSize > 0 {
      BusyStays(cfg, Dispatch(cfg, p));
    }
  }

  function Batches(items: nat, batchSize: nat): nat
    requires batchSize > 0
  {
    if items == 0 then 0 else 1 + Batches(items - Min(batchSize, items), batchSize)
  }

  /** The batches still to end: the running ones, and those the queue will be cut into. */
  function Work<T>(cfg: Config, p: Pool<T>): nat
    requires cfg.batchSize > 0
  {
    p.active + Batches(|p.queue|, cfg.batchSize)
  }

  lemma {:induction false} ScheduleKeepsWork<T>(cfg: Config, p: Pool<T>)
    requires cfg.batchSize > 0
    ensures Work(cfg, Schedule(cfg, p)) == Work(cfg, p)
    ensures Schedule(cfg, p).drains == p.drains && Schedule(cfg, p).resolved == p.resolved
    decreases |p.queue|
  {
    if p.queue != [] && p.active < cfg.concurrency {
      ScheduleKeepsWork(cfg, Dispatch(cfg, p));
    }
  }

  function EndMany<T>(cfg: Config, p: Pool<T>, n: nat): Pool<T> {
    if n == 0 then p else Step(cfg, EndMany(cfg, p, n - 1), Ended)
  }

  /** Every batch that ends leaves one less to end, and takes no drain caller off the list without letting it go. */
  lemma EndLessWork<T>(cfg: Config, p: Pool<T>)
    requires Inv(cfg, p) && cfg.batchSize > 0 && cfg.concurrency > 0
    ensures p.active > 0 <==> !Idle(p)
    ensures p.active > 0 ==> Work(cfg, End(cfg, p)) == Work(cfg, p) - 1
    ensures Work(cfg, p) == 0 <==> Idle(p)
    ensures var q := Step(cfg, p, Ended); q.resolved + q.drains == p.resolved + p.drains
  {
    hide Schedule, Conserves;
    if p.active > 0 {
      var q := p.(active := p.active - 1, ended := p.ended + 1);
      ScheduleKeepsWork(cfg, NotifyDrain(q));
      assert p.resolved + p.drains + [] == p.resolved + p.drains;
    }
  }

  /** Once no more items come, drain resolves: after exactly the outstanding batches have ended, for every caller. */
  lemma {:induction false} DrainResolves<T>(cfg: Config, p: Pool<T>, n: nat)
    requires Inv(cfg, p) && cfg.batchSize > 0 && cfg.concurrency > 0
    ensures Inv(cfg, EndMany(cfg, p, n))
    ensures n <= Work(cfg, p) ==> Work(cfg, EndMany(cfg, p, n)) == Work(cfg, p) - n
    ensures EndMany(cfg, p, n).resolved + EndMany(cfg, p, n).drains == p.resolved + p.drains
    ensures n == Work(cfg, p) ==> Idle(EndMany(cfg, p, n)) && EndMany(cfg, p, n).resolved == p.resolved + p.drains
  {
    EndLessWork(cfg, p);
    if n > 0 {
      DrainResolves(cfg, p, n - 1);
      var q := EndMany(cfg, p, n - 1);
      EndLessWork(cfg, q);
      StepKeepsInv(cfg, q, Ended);
      hide Step, Inv, Work;
      EndLessWork(cfg, EndMany(cfg, p, n));
    }
    LeftNoOne(cfg, EndMany(cfg, p, n));
  }

  lemma LeftNoOne<T>(cfg: Config, p: Pool<T>)
    requires Inv(cfg, p)
    ensures Idle(p) ==> p.resolved == p.resolved + p.drains
  {
  }
}
