/** The ring's own code, run by one thread without interruption: each call is a schedule of the step machine. */
module SpscRing {
  import opened Types
  import opened RingSteps

  lemma RingInfo<T>(s: Ring<T>)
    requires RingOk(s)
    ensures IsCapacity(|s.buffer|) && 0 < |s.buffer| < TWO64 && |s.pushed| == s.head && |s.popped| == s.tail < TWO64
    ensures s.cachedTail <= s.tail <= s.cachedHead <= s.head <= s.cachedTail + |s.buffer|
    ensures s.tail < s.head ==> s.buffer[SlotOf(s.tail, |s.buffer|)] == s.pushed[s.tail]
  {
  }

  /** The tests and slots the code computes from machine words are those of the counts. */
  lemma WordsDo(h: nat, t: nat, capacity: nat)
    requires capacity > 0
    ensures LooksFull(Word(h), Word(t), capacity) == LooksFull(h, t, capacity)
    ensures SlotOf(Word(h), capacity) == SlotOf(h, capacity) && Word(Word(h) + 1) == Word(h + 1)
  {
    hide Word;
    WordOfWord(h);
    WordOfWord(t);
  }

  lemma WordOfWord(n: nat)
    ensures Word(Word(n)) == Word(n) && Word(Word(n) + 1) == Word(n + 1)
  {
  }

  /** What an uninterrupted push does to the step machine. */
  ghost function Pushed<T>(s: Ring<T>, item: T): Ring<T>
    requires RingOk(s)
  {
    var n := |s.buffer|;
    var r := if s.head - s.cachedTail >= n then s.(cachedTail := s.tail) else s;
    if s.head - r.cachedTail >= n then r
    else r.(buffer := s.buffer[SlotOf(s.head, n) := item], head := s.head + 1, pushed := s.pushed + [item])
  }

  lemma PushRuns<T>(s: Ring<T>, item: T) returns (actions: seq<Action<T>>)
    requires RingOk(s) && s.producer == PushIdle
    ensures Runs(s, actions, Pushed(s, item))
  {
    assert Runs(s, [], s);
    RingInfo(s);
    hide Runs, RingOk, SlotOf;
    var s1 := Do(s, PushBegin(item));
    RunsOne(s, [], s, PushBegin(item));
    var s2 := Do(s1, PushCheck);
    RunsOne(s, [] + [PushBegin(item)], s1, PushCheck);
    actions := [] + [PushBegin(item)] + [PushCheck];
    WordTests(s.head, s.cachedTail, |s.buffer|);
    if s2.producer.PushReload? {
      WordTests(s.head, s.tail, |s.buffer|);
      RunsOne(s, actions, s2, PushLoadTail(s.tail));
      actions, s2 := actions + [PushLoadTail(s.tail)], Do(s2, PushLoadTail(s.tail));
    }
    if s2.producer.PushWrite? {
      RunsOne(s, actions, s2, PushStoreItem);
      actions, s2 := actions + [PushStoreItem], Do(s2, PushStoreItem);
      RunsOne(s, actions, s2, PushStoreHead);
      actions, s2 := actions + [PushStoreHead], Do(s2, PushStoreHead);
    }
    assert s2 == Pushed(s, item);
  }

  /** Whether a pop that loads the current head gets through: by the cached head, or by the current one. */
  ghost predicate Pops<T>(s: Ring<T>) { !LooksEmpty(s.cachedHead, s.tail) || !LooksEmpty(s.head, s.tail) }

  /** A pop gets through exactly while the cached or the current head lies between tail and 2^64; it never gets through
      on an empty ring; and its verdict is right exactly while one of them is still below 2^64. */
  lemma PopsWhenNotEmpty<T>(s: Ring<T>)
    requires RingOk(s)
    ensures Pops(s) <==> s.tail < s.cachedHead < TWO64 || s.tail < s.head < TWO64
    ensures Pops(s) ==> |s.popped| < |s.pushed|
    ensures (Pops(s) <==> |s.popped| < |s.pushed|) <==> s.head < TWO64 || s.tail < s.cachedHead < TWO64
  {
    EmptyTest(s.cachedHead, s.tail);
    EmptyTest(s.head, s.tail);
  }

  /** What an uninterrupted pop does to the step machine. */
  ghost function Popped<T>(s: Ring<T>): Ring<T>
    requires RingOk(s)
  {
    var r := if LooksEmpty(s.cachedHead, s.tail) then s.(cachedHead := s.head) else s;
    PopsWhenNotEmpty(s);
    if !Pops(s) then r else r.(tail := s.tail + 1, popped := s.popped + [s.pushed[s.tail]])
  }

  lemma PopRuns<T>(s: Ring<T>) returns (actions: seq<Action<T>>)
    requires RingOk(s) && s.consumer == PopIdle
    ensures Runs(s, actions, Popped(s))
  {
    assert Runs(s, [], s);
    RingInfo(s);
    PopsWhenNotEmpty(s);
    hide Runs, RingOk, SlotOf, LooksEmpty;
    var s1 := Do(s, PopBegin);
    RunsOne(s, [], s, PopBegin);
    var s2 := Do(s1, PopCheck);
    RunsOne(s, [] + [PopBegin], s1, PopCheck);
    actions := [] + [PopBegin] + [PopCheck];
    if s2.consumer.PopReload? {
      RunsOne(s, actions, s2, PopLoadHead(s.head));
      actions, s2 := actions + [PopLoadHead(s.head)], Do(s2, PopLoadHead(s.head));
    }
    if s2.consumer.PopRead? {
      RunsOne(s, actions, s2, PopLoadItem);
      actions, s2 := actions + [PopLoadItem], Do(s2, PopLoadItem);
      assert s2 == s.(cachedHead := s2.cachedHead, consumer := PopPublish(s.tail, s.pushed[s.tail]));
      RunsOne(s, actions, s2, PopStoreTail);
      actions, s2 := actions + [PopStoreTail], Do(s2, PopStoreTail);
    }
    assert s2 == Popped(s);
  }

  lemma PoppedPrefix<T>(s: Ring<T>)
    requires RingOk(s)
    ensures s.popped <= s.pushed
  {
  }

  class SpscRing<T(0)> {
    var head: nat
    var tail: nat
    var cachedTail: nat
    var cachedHead: nat
    const buffer: array<T>
    /** The state of the step machine this object is in. */
    ghost var model: Ring<T>

    ghost predicate Valid()
      reads this, buffer
    {
      && head == Word(model.head) && tail == Word(model.tail)
      && cachedTail == Word(model.cachedTail) && cachedHead == Word(model.cachedHead)
      && buffer[..] == model.buffer && RingOk(model)
      && model.producer == PushIdle && model.consumer == PopIdle
    }

    constructor (capacity: nat)
      requires IsCapacity(capacity)
      ensures Valid() && Initial(model) && fresh(buffer) && buffer.Length == capacity
    {
      head, tail, cachedTail, cachedHead := 0, 0, 0, 0;
      buffer := new T[capacity];
      new;
      model := Ring(0, 0, 0, 0, buffer[..], PushIdle, PopIdle, [], []);
    }

    lemma Ordered()
      requires Valid()
      ensures model.popped <= model.pushed
    {
    }

    /** The push succeeds exactly when the ring is not full, and then appends the item. */
    method Push(item: T) returns (ok: bool, ghost actions: seq<Action<T>>)
      requires Valid()
      modifies this, buffer
      ensures Valid() && Runs(old(model), actions, model)
      ensures ok <==> |old(model).pushed| - |old(model).popped| < buffer.Length
      ensures model.pushed == (if ok then old(model).pushed + [item] else old(model).pushed)
      ensures model.popped == old(model).popped
    {
      hide Runs, RingOk, SlotOf, Word, LooksFull, IsCapacity;
      ghost var m := model;
      RingInfo(m);
      actions := PushRuns(m, item);
      model := Pushed(m, item);
      RunOk(m, actions, model);
      WordTests(m.head, m.cachedTail, buffer.Length);
      WordTests(m.head, m.tail, buffer.Length);
      WordsDo(m.head, m.cachedTail, buffer.Length);
      WordsDo(m.head, m.tail, buffer.Length);
      var h := head;
      if LooksFull(h, cachedTail, buffer.Length) {
        cachedTail := tail;
        if LooksFull(h, cachedTail, buffer.Length) { return false, actions; }
      }
      buffer[SlotOf(h, buffer.Length)] := item;
      assert buffer[..] == m.buffer[SlotOf(h, buffer.Length) := item];
      head := Word(h + 1);
      ok := true;
    }

    /** The pop yields the oldest item if it gets through, and nothing otherwise; while fewer than 2^64 items have been
        pushed it gets through exactly when there is an item. */
    method Pop() returns (item: Option<T>, ghost actions: seq<Action<T>>)
      requires Valid()
      modifies this
      ensures Valid() && Runs(old(model), actions, model)
      ensures var m := old(model); item.Some? <==> m.tail < m.cachedHead < TWO64 || m.tail < m.head < TWO64
      ensures |old(model).pushed| < TWO64 ==> (item.Some? <==> |old(model).popped| < |old(model).pushed|)
      ensures item.Some? ==> model.popped == old(model).popped + [item.value] <= model.pushed
      ensures item.None? ==> model.popped == old(model).popped
      ensures model.pushed == old(model).pushed
    {
      hide Runs, RingOk, SlotOf, Word, IsCapacity;
      ghost var m := model;
      RingInfo(m);
      PopsWhenNotEmpty(m);
      actions := PopRuns(m);
      model := Popped(m);
      RunOk(m, actions, model);
      PoppedPrefix(model);
      WordsDo(m.tail, 0, buffer.Length);
      var t := tail;
      if cachedHead <= t {
        cachedHead := head;
        if cachedHead <= t { return None, actions; }
      }
      item := Some(buffer[SlotOf(t, buffer.Length)]);
      tail := Word(t + 1);
    }
  }
}
