/** AcquireBatch and ReleaseBatch of pkg/protection, split into their atomic steps and
    interleaved by any number of goroutines: the channel semaphore, the atomic counters
    and the compare-and-swap loop that keeps the high-water mark. */
module BatchLimiter {

  type Thread = nat

  /** Where a goroutine stands.  `current` is what its AddInt64 returned, `seen` the
      maximum it loaded, `fails` how many compare-and-swaps it has lost in this call. */
  datatype Stage =
    | Idle
    | AtSemaphore
    | Slotted
    | Counted(current: int)
    | Looping(current: int, fails: nat)
    | Loaded(current: int, fails: nat, seen: int)
    | Holding(current: int)
    | Lowered

  /** finished counts AcquireBatch calls that returned; saw collects the count each
      successful one obtained. */
  datatype State = State(
    slots: int, concurrent: int, maximum: int, total: int, rejected: int,
    stages: map<Thread, Stage>, finished: int, saw: seq<int>)

  datatype Config = Config(capacity: nat, maxBatchSize: int)

  datatype Event =
    | Begin(t: Thread, size: int, rateAllows: bool)
    | TakeSlot(t: Thread)
    | RefuseSlot(t: Thread, canceled: bool)
    | CountUp(t: Thread)
    | TotalUp(t: Thread)
    | Load(t: Thread)
    | CompareAndSwap(t: Thread)
    | CountDown(t: Thread)
    | FreeSlot(t: Thread)

  predicate Enabled(c: Config, s: State, e: Event) {
    e.t in s.stages &&
    var p := s.stages[e.t];
    match e
    case Begin(_, _, _) => p.Idle?
    case TakeSlot(_) => p.AtSemaphore? && s.slots < c.capacity
    // the default branch runs only when the channel is full; ctx.Done may win at any time
    case RefuseSlot(_, canceled) => p.AtSemaphore? && (canceled || s.slots >= c.capacity)
    case CountUp(_) => p.Slotted?
    case TotalUp(_) => p.Counted?
    case Load(_) => p.Looping?
    case CompareAndSwap(_) => p.Loaded?
    case CountDown(_) => p.Holding?      // each release is paired with a successful acquire
    case FreeSlot(_) => p.Lowered?
  }

  function At(s: State, t: Thread, p: Stage): State {
    s.(stages := s.stages[t := p])
  }

  function Step(c: Config, s: State, e: Event): State
    requires Enabled(c, s, e)
  {
    var p := s.stages[e.t];
    match e
    case Begin(t, size, rateAllows) =>
      if size > c.maxBatchSize || !rateAllows
      then s.(rejected := s.rejected + 1, finished := s.finished + 1)
      else At(s, t, AtSemaphore)
    case TakeSlot(t) => At(s, t, Slotted).(slots := s.slots + 1)
    case RefuseSlot(t, _) => At(s, t, Idle).(rejected := s.rejected + 1, finished := s.finished + 1)
    case CountUp(t) => At(s, t, Counted(s.concurrent + 1)).(concurrent := s.concurrent + 1)
    case TotalUp(t) => At(s, t, Looping(p.current, 0)).(total := s.total + 1)
    case Load(t) => At(s, t, Loaded(p.current, p.fails, s.maximum))
    case CompareAndSwap(t) =>
      if p.current <= p.seen
      then At(s, t, Holding(p.current)).(finished := s.finished + 1, saw := s.saw + [p.current])
      else if s.maximum == p.seen
      then At(s, t, Holding(p.current)).(maximum := p.current, finished := s.finished + 1, saw := s.saw + [p.current])
      else At(s, t, Looping(p.current, p.fails + 1))
    case CountDown(t) => At(s, t, Lowered).(concurrent := s.concurrent - 1)
    case FreeSlot(t) => At(s, t, Idle).(slots := s.slots - 1)
  }

  function Init(threads: set<Thread>): State {
    State(0, 0, 0, 0, 0, map t | t in threads :: Idle, 0, [])
  }

  predicate ValidRun(c: Config, s: State, es: seq<Event>)
    decreases |es|
  {
    es == [] || (Enabled(c, s, es[0]) && ValidRun(c, Step(c, s, es[0]), es[1..]))
  }

  function After(c: Config, s: State, es: seq<Event>): State
    requires ValidRun(c, s, es)
    decreases |es|
  {
    if es == [] then s else After(c, Step(c, s, es[0]), es[1..])
  }

  // ----- who is where

  predicate InSlot(p: Stage) {
    !p.Idle? && !p.AtSemaphore?
  }

  predicate InCount(p: Stage) {
    InSlot(p) && !p.Slotted? && !p.Lowered?
  }

  predicate InLoop(p: Stage) {
    p.Looping? || p.Loaded?
  }

  function Slotters(m: map<Thread, Stage>): set<Thread> {
    set t | t in m && InSlot(m[t])
  }

  function Counters(m: map<Thread, Stage>): set<Thread> {
    set t | t in m && InCount(m[t])
  }

  function Loopers(m: map<Thread, Stage>): set<Thread> {
    set t | t in m && InLoop(m[t])
  }

  function Bit(b: bool): int {
    if b then 1 else 0
  }

  /** Moving one goroutine changes each head count by at most itself. */
  lemma MoveCounts(m: map<Thread, Stage>, t: Thread, p: Stage)
    requires t in m
    ensures |Slotters(m[t := p])| == |Slotters(m)| - Bit(InSlot(m[t])) + Bit(InSlot(p))
    ensures |Counters(m[t := p])| == |Counters(m)| - Bit(InCount(m[t])) + Bit(InCount(p))
    ensures |Loopers(m[t := p])| == |Loopers(m)| - Bit(InLoop(m[t])) + Bit(InLoop(p))
  {
    var m' := m[t := p];
    assert Slotters(m') - {t} == Slotters(m) - {t};
    assert Counters(m') - {t} == Counters(m) - {t};
    assert Loopers(m') - {t} == Loopers(m) - {t};
    assert t in Slotters(m) <==> InSlot(m[t]);
    assert t in Slotters(m') <==> InSlot(p);
    assert t in Counters(m) <==> InCount(m[t]);
    assert t in Counters(m') <==> InCount(p);
    assert t in Loopers(m) <==> InLoop(m[t]);
    assert t in Loopers(m') <==> InLoop(p);
    hide Slotters, Counters, Loopers, InSlot, InCount, InLoop;
    SizesApart(Slotters(m), Slotters(m'), t);
    SizesApart(Counters(m), Counters(m'), t);
    SizesApart(Loopers(m), Loopers(m'), t);
  }

  lemma SizesApart(a: set<Thread>, b: set<Thread>, t: Thread)
    requires a - {t} == b - {t}
    ensures |b| == |a| - Bit(t in a) + Bit(t in b)
  {
    WithoutOne(a, t);
    WithoutOne(b, t);
  }

  lemma WithoutOne(a: set<Thread>, t: Thread)
    ensures |a| == |a - {t}| + Bit(t in a)
  {
    if t !in a {
      assert a - {t} == a;
    }
  }

  lemma SubsetSize(a: set<Thread>, b: set<Thread>)
    requires a <= b
    ensures |a| <= |b|
    ensures a < b ==> |a| < |b|
  {
    assert b == a + (b - a);
    if a < b {
      assert b - a != {};
    }
  }

  // ----- the invariant

  ghost predicate Counting(c: Config, s: State) {
    && s.slots == |Slotters(s.stages)| && s.concurrent == |Counters(s.stages)|
    && s.slots <= c.capacity
    && s.total + s.rejected == s.finished + |Loopers(s.stages)|
  }

  ghost predicate StageOk(c: Config, s: State, p: Stage) {
    match p
    case Counted(current) => 1 <= current <= c.capacity
    case Looping(current, fails) => 1 <= current <= c.capacity && fails <= s.maximum
    case Loaded(current, fails, seen) => 1 <= current <= c.capacity && fails <= seen <= s.maximum
    case Holding(current) => current <= s.maximum
    case _ => true
  }

  ghost predicate HighWater(c: Config, s: State) {
    && 0 <= s.maximum <= c.capacity
    && (forall t :: t in s.stages ==> StageOk(c, s, s.stages[t]))
    && (forall i :: 0 <= i < |s.saw| ==> 1 <= s.saw[i] <= s.maximum)
    && (s.maximum == 0 || s.maximum in s.saw)
  }

  ghost predicate Inv(c: Config, s: State) {
    Counting(c, s) && HighWater(c, s)
  }

  lemma CountsNested(s: State)
    ensures |Counters(s.stages)| <= |Slotters(s.stages)|
    ensures (exists t :: t in s.stages && s.stages[t].Slotted?) ==> |Counters(s.stages)| < |Slotters(s.stages)|
  {
    SubsetSize(Counters(s.stages), Slotters(s.stages));
    if t :| t in s.stages && s.stages[t].Slotted? {
      assert t in Slotters(s.stages) && t !in Counters(s.stages);
    }
  }

  lemma StepKeepsCounting(c: Config, s: State, e: Event)
    requires Enabled(c, s, e) && Counting(c, s)
    ensures Counting(c, Step(c, s, e))
  {
    var s' := Step(c, s, e);
    MoveCounts(s.stages, e.t, s'.stages[e.t]);
    assert s'.stages == s.stages[e.t := s'.stages[e.t]];
  }

  lemma StepKeepsHighWater(c: Config, s: State, e: Event)
    requires Enabled(c, s, e) && Inv(c, s)
    ensures HighWater(c, Step(c, s, e))
    ensures s.maximum <= Step(c, s, e).maximum
  {
    CountsNested(s);
    var s' := Step(c, s, e);
    assert s.maximum <= s'.maximum;
    forall t | t in s'.stages ensures StageOk(c, s', s'.stages[t]) {
      if t != e.t {
        assert StageOk(c, s, s.stages[t]);
      } else {
        assert StageOk(c, s, s.stages[e.t]);
      }
    }
    if e.CompareAndSwap? {
      assert StageOk(c, s, s.stages[e.t]);
      if s'.saw != s.saw {
        assert s'.saw[|s.saw|] == s.stages[e.t].current;
      }
      if s.maximum in s.saw {
        var i :| 0 <= i < |s.saw| && s.saw[i] == s.maximum;
        assert s'.saw[i] == s.maximum;
      }
    }
  }

  lemma {:induction false} RunKeepsInvariant(c: Config, s: State, es: seq<Event>)
    requires ValidRun(c, s, es) && Inv(c, s)
    ensures Inv(c, After(c, s, es)) && s.maximum <= After(c, s, es).maximum
    decreases |es|
  {
    if es != [] {
      StepKeepsCounting(c, s, es[0]);
      StepKeepsHighWater(c, s, es[0]);
      RunKeepsInvariant(c, Step(c, s, es[0]), es[1..]);
    }
  }

  lemma InitHolds(c: Config, threads: set<Thread>)
    ensures Inv(c, Init(threads))
  {
    var m := Init(threads).stages;
    assert Slotters(m) == {} && Counters(m) == {} && Loopers(m) == {};
  }

  // ----- theorems over every interleaving

  /** ConcurrentBatchOps never exceeds the occupied slots, nor they the capacity, and
      the counters account for every call that returned or is still in its loop. */
  lemma LimitHolds(c: Config, threads: set<Thread>, es: seq<Event>)
    requires ValidRun(c, Init(threads), es)
    ensures var s := After(c, Init(threads), es);
            && 0 <= s.concurrent <= s.slots <= c.capacity
            && s.total + s.rejected == s.finished + |Loopers(s.stages)|
  {
    InitHolds(c, threads);
    RunKeepsInvariant(c, Init(threads), es);
    CountsNested(After(c, Init(threads), es));
  }

  /** MaxConcurrentBatch never falls, and it is the largest count any finished acquire
      saw: an upper bound on all of them, and one of them. */
  lemma MaximumIsHighWater(c: Config, threads: set<Thread>, es: seq<Event>, more: seq<Event>)
    requires ValidRun(c, Init(threads), es) && ValidRun(c, After(c, Init(threads), es), more)
    ensures var s := After(c, Init(threads), es);
            && s.maximum <= After(c, s, more).maximum <= c.capacity
            && (forall i :: 0 <= i < |s.saw| ==> s.saw[i] <= s.maximum)
            && (if s.saw == [] then s.maximum == 0 else s.maximum in s.saw)
  {
    InitHolds(c, threads);
    RunKeepsInvariant(c, Init(threads), es);
    RunKeepsInvariant(c, After(c, Init(threads), es), more);
    var s := After(c, Init(threads), es);
    if s.saw != [] {
      assert 1 <= s.saw[0] <= s.maximum;
    }
  }

  /** A lost compare-and-swap means the maximum rose since it was loaded, so one acquire
      loses at most `capacity` of them: the loop cannot spin for ever. */
  lemma LoopTerminates(c: Config, threads: set<Thread>, es: seq<Event>, t: Thread)
    requires ValidRun(c, Init(threads), es)
    requires var s := After(c, Init(threads), es); t in s.stages && InLoop(s.stages[t])
    ensures var s := After(c, Init(threads), es);
            && s.stages[t].fails <= s.maximum <= c.capacity
            && (Enabled(c, s, CompareAndSwap(t)) && InLoop(Step(c, s, CompareAndSwap(t)).stages[t])
                ==> s.stages[t].seen < s.maximum && s.stages[t].fails < c.capacity)
  {
    InitHolds(c, threads);
    RunKeepsInvariant(c, Init(threads), es);
    var s := After(c, Init(threads), es);
    assert StageOk(c, s, s.stages[t]);
  }

  /** Nobody in the limiter: every slot is free again and the gauge reads zero. */
  lemma DrainedLimiterIsFree(c: Config, threads: set<Thread>, es: seq<Event>)
    requires ValidRun(c, Init(threads), es)
    requires var s := After(c, Init(threads), es); forall t :: t in s.stages ==> s.stages[t].Idle?
    ensures var s := After(c, Init(threads), es);
            s.slots == 0 && s.concurrent == 0 && s.total + s.rejected == s.finished
  {
    InitHolds(c, threads);
    RunKeepsInvariant(c, Init(threads), es);
    var m := After(c, Init(threads), es).stages;
    assert Slotters(m) == {} && Counters(m) == {} && Loopers(m) == {};
  }

  // ----- who is let in

  predicate NoBegin(es: seq<Event>, t: Thread) {
    forall i :: 0 <= i < |es| ==> !(es[i].Begin? && es[i].t == t)
  }

  lemma {:induction false} StaysIdle(c: Config, s: State, es: seq<Event>, t: Thread)
    requires ValidRun(c, s, es) && NoBegin(es, t) && t in s.stages && s.stages[t].Idle?
    ensures t in After(c, s, es).stages && After(c, s, es).stages[t].Idle?
    decreases |es|
  {
    if es != [] {
      assert forall i :: 0 <= i < |es[1..]| ==> es[1..][i] == es[i + 1];
      StaysIdle(c, Step(c, s, es[0]), es[1..], t);
    }
  }

  /** A batch over the size limit, or over the rate, is rejected on the spot: the rejection is
      counted, and whatever the others do the goroutine never reaches a slot before it asks
      again. */
  lemma RejectedNeverEnters(c: Config, s: State, t: Thread, size: int, rateAllows: bool, es: seq<Event>)
    requires size > c.maxBatchSize || !rateAllows
    requires ValidRun(c, s, [Begin(t, size, rateAllows)] + es) && NoBegin(es, t)
    ensures var s1 := Step(c, s, Begin(t, size, rateAllows));
            s1 == s.(rejected := s.rejected + 1, finished := s.finished + 1)
    ensures var s' := After(c, s, [Begin(t, size, rateAllows)] + es); t in s'.stages && s'.stages[t].Idle?
  {
    assert ([Begin(t, size, rateAllows)] + es)[1..] == es;
    StaysIdle(c, Step(c, s, Begin(t, size, rateAllows)), es, t);
  }

  function Entry(t: Thread, size: int): seq<Event> {
    [Begin(t, size, true), TakeSlot(t), CountUp(t), TotalUp(t), Load(t), CompareAndSwap(t)]
  }

  /** A batch within the limits gets in when a slot is free: undisturbed it takes the slot,
      is counted once in the gauge and the total, and raises the maximum if it is the most. */
  lemma FreeSlotAdmits(c: Config, s: State, t: Thread, size: int)
    requires t in s.stages && s.stages[t].Idle? && size <= c.maxBatchSize && s.slots < c.capacity
    ensures ValidRun(c, s, Entry(t, size))
    ensures After(c, s, Entry(t, size)) ==
            s.(slots := s.slots + 1, concurrent := s.concurrent + 1, total := s.total + 1, finished := s.finished + 1,
               maximum := if s.concurrent + 1 > s.maximum then s.concurrent + 1 else s.maximum,
               saw := s.saw + [s.concurrent + 1], stages := s.stages[t := Holding(s.concurrent + 1)])
  {
    var es := Entry(t, size);
    var s1 := Step(c, s, es[0]);
    var s2 := Step(c, s1, es[1]);
    var s3 := Step(c, s2, es[2]);
    var s4 := Step(c, s3, es[3]);
    var s5 := Step(c, s4, es[4]);
    var s6 := Step(c, s5, es[5]);
    assert es[1..][1..] == es[2..] && es[2..][1..] == es[3..] && es[3..][1..] == es[4..] && es[4..][1..] == es[5..] && es[5..][1..] == [];
    assert ValidRun(c, s6, []) && After(c, s6, []) == s6;
    assert ValidRun(c, s5, es[5..]) && After(c, s5, es[5..]) == s6;
    assert ValidRun(c, s4, es[4..]) && After(c, s4, es[4..]) == s6;
    assert ValidRun(c, s3, es[3..]) && After(c, s3, es[3..]) == s6;
    assert ValidRun(c, s2, es[2..]) && After(c, s2, es[2..]) == s6;
    assert ValidRun(c, s1, es[1..]) && After(c, s1, es[1..]) == s6;
  }

  /** With every slot taken a batch is turned away and counted as rejected; nothing else can
      happen to it. */
  lemma FullLimiterRefuses(c: Config, s: State, t: Thread, e: Event)
    requires t in s.stages && s.stages[t].AtSemaphore? && s.slots >= c.capacity && e.t == t
    ensures Enabled(c, s, e) <==> e.RefuseSlot?
    ensures Enabled(c, s, e) ==>
              Step(c, s, e) == s.(rejected := s.rejected + 1, finished := s.finished + 1, stages := s.stages[t := Idle])
  {
  }

  /** A release gives back one slot and one count, and a slot is then free. */
  lemma ReleaseFrees(c: Config, threads: set<Thread>, es: seq<Event>, t: Thread)
    requires ValidRun(c, Init(threads), es)
    requires var s := After(c, Init(threads), es); t in s.stages && s.stages[t].Holding?
    ensures var s := After(c, Init(threads), es);
            && ValidRun(c, s, [CountDown(t), FreeSlot(t)])
            && var s' := After(c, s, [CountDown(t), FreeSlot(t)]);
               && s' == s.(slots := s.slots - 1, concurrent := s.concurrent - 1, stages := s.stages[t := Idle])
               && 0 <= s'.slots < c.capacity
  {
    LimitHolds(c, threads, es);
    var s := After(c, Init(threads), es);
    var s1 := Step(c, s, CountDown(t));
    var s2 := Step(c, s1, FreeSlot(t));
    var both := [CountDown(t), FreeSlot(t)];
    assert both[1..] == [FreeSlot(t)] && [FreeSlot(t)][1..] == [];
    assert ValidRun(c, s2, []) && After(c, s2, []) == s2;
    assert ValidRun(c, s1, [FreeSlot(t)]) && After(c, s1, [FreeSlot(t)]) == s2;
    InitHolds(c, threads);
    RunKeepsInvariant(c, Init(threads), es);
    assert t in Slotters(s.stages);
  }
}
