/** Gateway and engine on their own threads, joined by the inbound ring: any interleaving of ring steps and message
    processing. */
module EngineThread {
  import opened Types
  import opened EngineSpec
  import R = RingSteps

  /** `pending` is a popped message not yet processed; `done` are the processed ones. */
  datatype System = System(ring: R.Ring<Inbound>, engine: Engine, log: seq<Outbound>, pending: Option<Inbound>,
                           done: seq<Inbound>)

  datatype Action = RingStep(a: R.Action<Inbound>) | Handle(tsc: nat)

  predicate Enabled(s: System, a: Action) {
    match a
    case RingStep(r) => R.Enabled(s.ring, r) && (r.PopBegin? ==> s.pending.None?)
    case Handle(_) => s.pending.Some?
  }

  function Do(s: System, a: Action): System
    requires Enabled(s, a)
  {
    match a
    case RingStep(r) =>
      s.(ring := R.Do(s.ring, r), pending := if r.PopStoreTail? then Some(s.ring.consumer.item) else s.pending)
    case Handle(tsc) =>
      var msg := s.pending.value;
      System(s.ring, Process(s.engine, msg), s.log + Emits(s.engine, msg, tsc), None, s.done + [msg])
  }

  ghost predicate Initial(s: System, capacity: nat) {
    R.Initial(s.ring) && s.engine == InitialEngine(capacity) && s.log == [] && s.pending == None && s.done == []
  }

  ghost predicate Runs(s: System, actions: seq<Action>, s': System)
    decreases |actions|
  {
    if actions == [] then s' == s else Enabled(s, actions[0]) && Runs(Do(s, actions[0]), actions[1..], s')
  }

  ghost predicate SystemOk(s: System, capacity: nat) {
    && R.RingOk(s.ring)
    && s.ring.popped == s.done + (if s.pending.Some? then [s.pending.value] else [])
    && (s.pending.Some? ==> s.ring.consumer.PopIdle?)
    && s.engine == EngineAfter(InitialEngine(capacity), s.done)
    && Strip(s.log) == Log(InitialEngine(capacity), s.done)
  }

  lemma StepOk(s: System, a: Action, capacity: nat)
    requires SystemOk(s, capacity) && Enabled(s, a)
    ensures SystemOk(Do(s, a), capacity)
  {
    hide Process, Emits, EngineAfter, Log;
    match a
    case RingStep(r) => R.StepOk(s.ring, r);
    case Handle(tsc) =>
      EngineSnoc(InitialEngine(capacity), s.done, s.pending.value);
      EmitsButForClock(s.engine, s.pending.value, tsc);
      StripAppend(s.log, Emits(s.engine, s.pending.value, tsc));
      hide Strip;
  }

  lemma {:induction false} RunOk(s: System, actions: seq<Action>, s': System, capacity: nat)
    requires SystemOk(s, capacity) && Runs(s, actions, s')
    ensures SystemOk(s', capacity)
    decreases |actions|
  {
    hide SystemOk, Enabled, Do;
    if actions != [] {
      StepOk(s, actions[0], capacity);
      RunOk(Do(s, actions[0]), actions[1..], s', capacity);
    }
  }

  /** Whatever the schedule, the processed messages are a prefix of those pushed, and book, counters and emitted log
      (timestamps aside) are the function of that prefix given by the sequential engine. */
  lemma EngineFollowsInput(s: System, actions: seq<Action>, s': System, capacity: nat)
    requires Initial(s, capacity) && Runs(s, actions, s')
    ensures s'.done <= s'.ring.pushed
    ensures s'.engine == EngineAfter(InitialEngine(capacity), s'.done)
    ensures Strip(s'.log) == Log(InitialEngine(capacity), s'.done)
  {
    hide Runs, Initial, SystemOk, Strip;
    InitialOk(s, capacity);
    RunOk(s, actions, s', capacity);
    SystemInfo(s', capacity);
  }

  lemma InitialOk(s: System, capacity: nat)
    requires Initial(s, capacity)
    ensures SystemOk(s, capacity)
  {
  }

  lemma SystemInfo(s: System, capacity: nat)
    requires SystemOk(s, capacity)
    ensures s.done <= s.ring.pushed && s.engine == EngineAfter(InitialEngine(capacity), s.done)
    ensures Strip(s.log) == Log(InitialEngine(capacity), s.done)
  {
    hide EngineAfter, Log, Strip;
  }

  /** Schedule independence: two runs, with any interleavings and any clock, that have processed as many messages of the
      same input have the same book, the same counters and the same trades. */
  lemma IdenticalInputsIdenticalTrades(s: System, xs: seq<Action>, s1: System, ys: seq<Action>, s2: System,
                                       capacity: nat)
    requires Initial(s, capacity) && Runs(s, xs, s1) && Runs(s, ys, s2)
    requires s1.ring.pushed <= s2.ring.pushed || s2.ring.pushed <= s1.ring.pushed
    requires |s1.done| == |s2.done|
    ensures s1.done == s2.done && s1.engine == s2.engine && Strip(s1.log) == Strip(s2.log)
  {
    hide EngineAfter, Log, Runs, Strip, Initial;
    EngineFollowsInput(s, xs, s1, capacity);
    EngineFollowsInput(s, ys, s2, capacity);
  }
}
