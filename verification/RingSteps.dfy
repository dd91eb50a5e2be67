/** The lock-free ring as a two-thread step machine: every atomic load, buffer access and store of `push` and `pop` is a
    step of its own, and the threads interleave in any order. An acquire load may return any value between the last one
    seen and the current one. Counters are unbounded here; the machine word is the counter modulo 2^64, and every test
    the code makes is made on machine words. */
module RingSteps {
  import opened Types
  import opened Arithmetic

  datatype Producer<T> =
    | PushIdle
    | PushLoaded(item: T, h: nat)     // own head loaded
    | PushReload(item: T, h: nat)     // about to load the tail
    | PushWrite(item: T, h: nat)      // about to write the slot
    | PushPublish(item: T, h: nat)    // about to store the head

  datatype Consumer<T> =
    | PopIdle
    | PopLoaded(t: nat)
    | PopReload(t: nat)
    | PopRead(t: nat)                 // about to read the slot
    | PopPublish(t: nat, item: T)     // about to store the tail

  /** `pushed` and `popped` record the items of completed pushes and pops. */
  datatype Ring<T> = Ring(head: nat, tail: nat, cachedTail: nat, cachedHead: nat, buffer: seq<T>,
                          producer: Producer<T>, consumer: Consumer<T>, pushed: seq<T>, popped: seq<T>)

  datatype Action<T> =
    | PushBegin(item: T) | PushCheck | PushLoadTail(v: nat) | PushStoreItem | PushStoreHead
    | PopBegin | PopCheck | PopLoadHead(v: nat) | PopLoadItem | PopStoreTail

  function Word(n: nat): nat { n % TWO64 }

  /** `index & MASK` on the machine word. */
  function SlotOf(i: nat, capacity: nat): (slot: nat)
    requires capacity > 0
    ensures slot < capacity
  {
    Word(i) % capacity
  }

  /** `head - cached_tail_ >= Capacity`, in size_t arithmetic. */
  predicate LooksFull(h: nat, t: nat, capacity: nat) { (Word(h) - Word(t)) % TWO64 >= capacity }

  /** `cached_head_ <= tail`, in size_t comparison. */
  predicate LooksEmpty(h: nat, t: nat) { Word(h) <= Word(t) }

  predicate Enabled<T>(s: Ring<T>, a: Action<T>) {
    match a
    case PushBegin(_) => s.producer.PushIdle?
    case PushCheck => s.producer.PushLoaded?
    case PushLoadTail(v) => s.producer.PushReload? && s.cachedTail <= v <= s.tail
    case PushStoreItem => s.producer.PushWrite? && |s.buffer| > 0
    case PushStoreHead => s.producer.PushPublish?
    case PopBegin => s.consumer.PopIdle?
    case PopCheck => s.consumer.PopLoaded?
    case PopLoadHead(v) => s.consumer.PopReload? && s.cachedHead <= v <= s.head
    case PopLoadItem => s.consumer.PopRead? && |s.buffer| > 0
    case PopStoreTail => s.consumer.PopPublish?
  }

  function Do<T>(s: Ring<T>, a: Action<T>): Ring<T>
    requires Enabled(s, a)
  {
    var capacity := |s.buffer|;
    match a
    case PushBegin(item) => s.(producer := PushLoaded(item, s.head))
    case PushCheck =>
      var p := s.producer;
      s.(producer := if LooksFull(p.h, s.cachedTail, capacity) then PushReload(p.item, p.h) else PushWrite(p.item, p.h))
    case PushLoadTail(v) =>
      var p := s.producer;
      s.(cachedTail := v, producer := if LooksFull(p.h, v, capacity) then PushIdle else PushWrite(p.item, p.h))
    case PushStoreItem =>
      var p := s.producer;
      s.(buffer := s.buffer[SlotOf(p.h, capacity) := p.item], producer := PushPublish(p.item, p.h))
    case PushStoreHead =>
      var p := s.producer;
      s.(head := p.h + 1, pushed := s.pushed + [p.item], producer := PushIdle)
    case PopBegin => s.(consumer := PopLoaded(s.tail))
    case PopCheck =>
      var c := s.consumer;
      s.(consumer := if LooksEmpty(s.cachedHead, c.t) then PopReload(c.t) else PopRead(c.t))
    case PopLoadHead(v) =>
      var c := s.consumer;
      s.(cachedHead := v, consumer := if LooksEmpty(v, c.t) then PopIdle else PopRead(c.t))
    case PopLoadItem =>
      var c := s.consumer;
      s.(consumer := PopPublish(c.t, s.buffer[SlotOf(c.t, capacity)]))
    case PopStoreTail =>
      var c := s.consumer;
      s.(tail := c.t + 1, popped := s.popped + [c.item], consumer := PopIdle)
  }

  /** A power of two below 2^64, as the code asserts of the capacity. */
  predicate IsCapacity(n: nat) { 0 < n < TWO64 && TWO64 % n == 0 }

  ghost predicate Initial<T>(s: Ring<T>) {
    && s.head == s.tail == s.cachedTail == s.cachedHead == 0 && IsCapacity(|s.buffer|)
    && s.producer == PushIdle && s.consumer == PopIdle && s.pushed == s.popped == []
  }

  /** A schedule is any sequence of enabled actions. */
  ghost predicate Runs<T>(s: Ring<T>, actions: seq<Action<T>>, s': Ring<T>)
    decreases |actions|
  {
    if actions == [] then s' == s
    else Enabled(s, actions[0]) && Runs(Do(s, actions[0]), actions[1..], s')
  }

  // ----- The invariant -----

  ghost predicate ProducerOk<T>(s: Ring<T>) {
    match s.producer
    case PushIdle => true
    case PushLoaded(_, h) => h == s.head
    case PushReload(_, h) => h == s.head
    case PushWrite(_, h) => h == s.head && h - s.cachedTail < |s.buffer|
    case PushPublish(item, h) =>
      h == s.head && 0 <= h - s.cachedTail < |s.buffer| && s.buffer[SlotOf(h, |s.buffer|)] == item
  }

  ghost predicate ConsumerOk<T>(s: Ring<T>) {
    match s.consumer
    case PopIdle => true
    case PopLoaded(t) => t == s.tail
    case PopReload(t) => t == s.tail
    case PopRead(t) => t == s.tail < s.cachedHead < TWO64
    case PopPublish(t, item) => t == s.tail < s.cachedHead < TWO64 && t < |s.pushed| && item == s.pushed[t]
  }

  /** The tail never reaches 2^64; the head may. */
  ghost predicate RingOk<T>(s: Ring<T>) {
    && IsCapacity(|s.buffer|)
    && s.cachedTail <= s.tail <= s.cachedHead <= s.head <= s.cachedTail + |s.buffer| && s.tail < TWO64
    && |s.pushed| == s.head && s.popped == s.pushed[..s.tail]
    && (forall i :: s.tail <= i < s.head ==> s.buffer[SlotOf(i, |s.buffer|)] == s.pushed[i])
    && ProducerOk(s) && ConsumerOk(s)
  }

  /** Masking the machine word is masking the count, as the capacity divides 2^64. */
  lemma SlotOfCount(i: nat, capacity: nat)
    requires IsCapacity(capacity)
    ensures SlotOf(i, capacity) == i % capacity
  {
    var k, q := TWO64 / capacity, i / TWO64;
    assert TWO64 == capacity * k;
    Regroup(capacity, k, q);
    AddMultiple(capacity, k * q, Word(i));
  }

  lemma AddMultiple(c: nat, m: nat, w: nat)
    requires c > 0
    ensures (c * m + w) % c == w % c
  {
    var q, r := w / c, w % c;
    assert c * m + w == c * (m + q) + r;
    Distribute(c, m, q);
    Division(c, m + q, r);
    Division(c, q, r);
  }

  /** Indices less than a capacity apart use different slots. */
  lemma SlotsApart(i: nat, j: nat, capacity: nat)
    requires IsCapacity(capacity) && i < j < i + capacity
    ensures SlotOf(i, capacity) != SlotOf(j, capacity)
  {
    hide SlotOf;
    SlotOfCount(i, capacity);
    SlotOfCount(j, capacity);
    RemaindersApart(i, j, capacity);
  }

  lemma RemaindersApart(i: nat, j: nat, c: nat)
    requires i < j < i + c
    ensures i % c != j % c
  {
    var q, r := i / c, j / c;
    assert i == c * q + i % c;
    assert j == c * r + j % c;
    if r >= q + 1 { Scale(c, q + 1, r); } else { Scale(c, r, q); }
  }

  /** The size_t subtraction of `push` is right at any count; the size_t comparison of `pop` is right exactly while head
      and tail have wrapped equally often, or the ring is empty. */
  lemma WordTests(h: nat, t: nat, capacity: nat)
    requires t <= h < t + TWO64
    ensures LooksFull(h, t, capacity) <==> h - t >= capacity
    ensures (LooksEmpty(h, t) <==> h == t) <==> h / TWO64 == t / TWO64
  {
    assert (Word(h) - Word(t)) % TWO64 == h - t;
  }

  /** For a tail below 2^64, the test of `pop` refuses exactly an empty ring and a head that has wrapped. */
  lemma EmptyTest(h: nat, t: nat)
    requires t <= h < t + TWO64 && t < TWO64
    ensures LooksEmpty(h, t) <==> h == t || h >= TWO64
  {
  }

  lemma StepOk<T>(s: Ring<T>, a: Action<T>)
    requires RingOk(s) && Enabled(s, a)
    ensures RingOk(Do(s, a))
  {
    hide RingOk, Enabled, Do;
    if a.PushBegin? || a.PushCheck? || a.PushLoadTail? || a.PushStoreItem? || a.PushStoreHead? {
      PushStepOk(s, a);
    } else {
      PopStepOk(s, a);
    }
  }

  lemma PushStepOk<T>(s: Ring<T>, a: Action<T>)
    requires RingOk(s) && Enabled(s, a)
    requires a.PushBegin? || a.PushCheck? || a.PushLoadTail? || a.PushStoreItem? || a.PushStoreHead?
    ensures RingOk(Do(s, a))
  {
    hide SlotOf, LooksFull, LooksEmpty, IsCapacity;
    CapacityInfo(|s.buffer|);
    match a
    case PushCheck => WordTests(s.producer.h, s.cachedTail, |s.buffer|);
    case PushLoadTail(v) => WordTests(s.producer.h, v, |s.buffer|);
    case PushStoreItem =>
      var h, n := s.producer.h, |s.buffer|;
      forall i | s.tail <= i < s.head ensures Do(s, a).buffer[SlotOf(i, n)] == s.pushed[i] { SlotsApart(i, h, n); }
    case _ =>
  }

  lemma PopStepOk<T>(s: Ring<T>, a: Action<T>)
    requires RingOk(s) && Enabled(s, a)
    requires a.PopBegin? || a.PopCheck? || a.PopLoadHead? || a.PopLoadItem? || a.PopStoreTail?
    ensures RingOk(Do(s, a))
  {
    hide SlotOf, LooksFull, LooksEmpty, IsCapacity;
    CapacityInfo(|s.buffer|);
    match a
    case PopCheck => EmptyTest(s.cachedHead, s.tail);
    case PopLoadHead(v) => EmptyTest(v, s.tail);
    case _ =>
  }

  lemma CapacityInfo(n: nat)
    requires IsCapacity(n)
    ensures 0 < n < TWO64
  {
  }

  lemma {:induction false} RunOk<T>(s: Ring<T>, actions: seq<Action<T>>, s': Ring<T>)
    requires RingOk(s) && Runs(s, actions, s')
    ensures RingOk(s')
    decreases |actions|
  {
    hide RingOk, Enabled, Do;
    if actions != [] {
      StepOk(s, actions[0]);
      RunOk(Do(s, actions[0]), actions[1..], s');
    }
  }

  /** Both threads are at the buffer, on the same slot. */
  ghost predicate Collide<T>(s: Ring<T>) {
    && s.producer.PushWrite? && s.consumer.PopRead? && |s.buffer| > 0
    && SlotOf(s.producer.h, |s.buffer|) == SlotOf(s.consumer.t, |s.buffer|)
  }

  lemma NeverCollides<T>(s: Ring<T>)
    requires RingOk(s)
    ensures !Collide(s)
  {
    if s.producer.PushWrite? && s.consumer.PopRead? { SlotsApart(s.consumer.t, s.producer.h, |s.buffer|); }
  }

  /** Every interleaving, however many pushes: what was popped is a prefix of what was pushed, in order; occupancy stays
      within the capacity; and the threads never touch one slot at the same time. */
  lemma Fifo<T>(s: Ring<T>, actions: seq<Action<T>>, s': Ring<T>)
    requires Initial(s) && Runs(s, actions, s')
    ensures s'.popped <= s'.pushed && |s'.pushed| - |s'.popped| <= |s'.buffer| && !Collide(s')
    ensures RingOk(s') && |s'.pushed| == s'.head && |s'.popped| == s'.tail < TWO64
  {
    hide Runs;
    RunOk(s, actions, s');
    NeverCollides(s');
  }

  /** A push gives up exactly when the tail it reloaded makes the ring full, so with an up-to-date load exactly when the
      ring is full at that moment. */
  lemma PushGivesUp<T>(s: Ring<T>, v: nat)
    requires RingOk(s) && Enabled(s, PushLoadTail(v))
    ensures Do(s, PushLoadTail(v)).producer.PushIdle? <==> s.head - v == |s.buffer|
    ensures v == s.tail ==> (Do(s, PushLoadTail(v)).producer.PushIdle? <==> |s.pushed| - |s.popped| == |s.buffer|)
  {
    WordTests(s.producer.h, v, |s.buffer|);
  }

  /** A pop gives up exactly when the head it reloaded is its tail or has reached 2^64, so with an up-to-date load and
      fewer than 2^64 pushes exactly when the ring is empty at that moment. */
  lemma PopGivesUp<T>(s: Ring<T>, v: nat)
    requires RingOk(s) && Enabled(s, PopLoadHead(v))
    ensures Do(s, PopLoadHead(v)).consumer.PopIdle? <==> v == s.tail || v >= TWO64
    ensures v == s.head < TWO64 ==> (Do(s, PopLoadHead(v)).consumer.PopIdle? <==> |s.pushed| == |s.popped|)
  {
    EmptyTest(v, s.tail);
  }

  // ----- At 2^64 pushes -----

  lemma {:induction false} RunsAppend<T>(s: Ring<T>, xs: seq<Action<T>>, s1: Ring<T>, ys: seq<Action<T>>, s2: Ring<T>)
    requires Runs(s, xs, s1) && Runs(s1, ys, s2)
    ensures Runs(s, xs + ys, s2)
    decreases |xs|
  {
    if xs == [] {
      assert xs + ys == ys;
    } else {
      assert (xs + ys)[1..] == xs[1..] + ys;
      RunsAppend(Do(s, xs[0]), xs[1..], s1, ys, s2);
    }
  }

  lemma RunsOne<T>(s: Ring<T>, xs: seq<Action<T>>, s1: Ring<T>, a: Action<T>)
    requires Runs(s, xs, s1) && Enabled(s1, a)
    ensures Runs(s, xs + [a], Do(s1, a))
  {
    assert Runs(Do(s1, a), [a][1..], Do(s1, a));
    RunsAppend(s, xs, s1, [a], Do(s1, a));
  }

  /** Both threads at rest, everything pushed so far popped again. */
  ghost predicate Drained<T>(s: Ring<T>, n: nat) {
    && s.producer == PushIdle && s.consumer == PopIdle && IsCapacity(|s.buffer|)
    && s.head == s.tail == s.cachedHead == n && s.cachedTail <= n <= s.cachedTail + |s.buffer|
  }

  /** One push, uninterrupted. */
  lemma PushAlone<T>(s: Ring<T>, n: nat, item: T) returns (actions: seq<Action<T>>, s': Ring<T>)
    requires Drained(s, n)
    ensures Runs(s, actions, s') && s'.head == n + 1 && s'.tail == s'.cachedHead == n && s'.producer == PushIdle
            && s'.consumer == PopIdle
    ensures |s'.buffer| == |s.buffer| && s'.cachedTail <= n < s'.cachedTail + |s.buffer|
            && |s'.pushed| == |s.pushed| + 1 && s'.popped == s.popped
  {
    var a1: Action<T> := PushBegin(item);
    var s1 := Do(s, a1);
    assert Runs(s, [], s);
    RunsOne(s, [], s, a1);
    actions := [] + [a1];
    var s2 := Do(s1, PushCheck);
    RunsOne(s, actions, s1, PushCheck);
    actions := actions + [PushCheck];
    WordTests(n, s.cachedTail, |s.buffer|);
    if s2.producer.PushReload? {
      WordTests(n, n, |s.buffer|);
      var s3 := Do(s2, PushLoadTail(n));
      RunsOne(s, actions, s2, PushLoadTail(n));
      actions, s2 := actions + [PushLoadTail(n)], s3;
    }
    var s4 := Do(s2, PushStoreItem);
    RunsOne(s, actions, s2, PushStoreItem);
    actions := actions + [PushStoreItem];
    s' := Do(s4, PushStoreHead);
    RunsOne(s, actions, s4, PushStoreHead);
    actions := actions + [PushStoreHead];
  }

  /** One pop, uninterrupted, while the head has not wrapped. */
  lemma PopAlone<T>(s: Ring<T>, n: nat) returns (actions: seq<Action<T>>, s': Ring<T>)
    requires s.head == n + 1 < TWO64 && s.tail == s.cachedHead == n && s.producer == PushIdle && s.consumer == PopIdle
    requires IsCapacity(|s.buffer|) && s.cachedTail <= n < s.cachedTail + |s.buffer|
    ensures Runs(s, actions, s') && Drained(s', n + 1) && s'.pushed == s.pushed && |s'.popped| == |s.popped| + 1
            && |s'.buffer| == |s.buffer|
  {
    var s1 := Do(s, PopBegin);
    assert Runs(s, [], s);
    RunsOne(s, [], s, PopBegin);
    var s2 := Do(s1, PopCheck);
    RunsOne(s, [] + [PopBegin], s1, PopCheck);
    var s3 := Do(s2, PopLoadHead(n + 1));
    RunsOne(s, [] + [PopBegin] + [PopCheck], s2, PopLoadHead(n + 1));
    var s4 := Do(s3, PopLoadItem);
    RunsOne(s, [] + [PopBegin] + [PopCheck] + [PopLoadHead(n + 1)], s3, PopLoadItem);
    s' := Do(s4, PopStoreTail);
    RunsOne(s, [] + [PopBegin] + [PopCheck] + [PopLoadHead(n + 1)] + [PopLoadItem], s4, PopStoreTail);
    actions := [] + [PopBegin] + [PopCheck] + [PopLoadHead(n + 1)] + [PopLoadItem] + [PopStoreTail];
  }

  lemma {:induction false} DrainedReachable<T>(s: Ring<T>, n: nat, item: T)
    returns (actions: seq<Action<T>>, s': Ring<T>)
    requires Initial(s) && n < TWO64
    ensures Runs(s, actions, s') && Drained(s', n) && |s'.pushed| == |s'.popped| == n && |s'.buffer| == |s.buffer|
    decreases n
  {
    if n == 0 {
      actions, s' := [], s;
    } else {
      var xs, s1 := DrainedReachable(s, n - 1, item);
      var ys, s2 := PushAlone(s1, n - 1, item);
      var zs, s3 := PopAlone(s2, n - 1);
      RunsAppend(s, xs, s1, ys, s2);
      RunsAppend(s, xs + ys, s2, zs, s3);
      actions, s' := xs + ys + zs, s3;
    }
  }

  /** The consumer can never get past its test again: the tail stands at 2^64 - 1, or the cached head has reached
      2^64. */
  ghost predicate Stuck<T>(s: Ring<T>) {
    s.tail == TWO64 - 1 || s.cachedHead >= TWO64
  }

  lemma StuckStays<T>(s: Ring<T>, a: Action<T>)
    requires RingOk(s) && Stuck(s) && Enabled(s, a)
    ensures Stuck(Do(s, a)) && Do(s, a).popped == s.popped
  {
    hide SlotOf, LooksFull, LooksEmpty;
    match a
    case PopCheck => EmptyTest(s.cachedHead, s.tail);
    case PopLoadHead(v) => EmptyTest(v, s.tail);
    case _ =>
  }

  /** A stuck ring stays stuck: no schedule ever pops again, so no ring ever passes on 2^64 items. */
  lemma {:induction false} StuckForGood<T>(s: Ring<T>, actions: seq<Action<T>>, s': Ring<T>)
    requires RingOk(s) && Stuck(s) && Runs(s, actions, s')
    ensures Stuck(s') && s'.popped == s.popped
    decreases |actions|
  {
    hide RingOk, Enabled, Do, Stuck;
    if actions != [] {
      StepOk(s, actions[0]);
      StuckStays(s, actions[0]);
      StuckForGood(Do(s, actions[0]), actions[1..], s');
    }
  }

  /** And it happens: there is a schedule of 2^64 pushes after which the ring holds an item, a pop that loads the
      current head nevertheless reports an empty ring, and no later schedule pops the item. */
  lemma WrapHidesItem<T>(s: Ring<T>, item: T) returns (actions: seq<Action<T>>, s': Ring<T>)
    requires Initial(s)
    ensures Runs(s, actions, s') && |s'.pushed| == 18_446_744_073_709_551_616
    ensures |s'.popped| == 18_446_744_073_709_551_615
    ensures s'.consumer.PopReload? && Enabled(s', PopLoadHead(s'.head))
    ensures Do(s', PopLoadHead(s'.head)).consumer == PopIdle
    ensures forall later, s'' :: Runs(s', later, s'') ==> s''.popped == s'.popped
  {
    var n := TWO64 - 1;
    var xs, s1 := DrainedReachable(s, n, item);
    var ys, s2 := PushAlone(s1, n, item);
    RunsAppend(s, xs, s1, ys, s2);
    actions := xs + ys;
    var s3 := Do(s2, PopBegin);
    RunsOne(s, actions, s2, PopBegin);
    s' := Do(s3, PopCheck);
    RunsOne(s, actions + [PopBegin], s3, PopCheck);
    actions := actions + [PopBegin] + [PopCheck];
    RunOk(s, actions, s');
    forall later, s'' | Runs(s', later, s'') ensures s''.popped == s'.popped { StuckForGood(s', later, s''); }
  }
}
