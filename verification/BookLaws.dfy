/** What every call keeps, for every book a run can reach. */
module BookLaws {
  import opened Types
  import opened SeqFacts
  import opened BookSpec
  import opened MatchLaws
  import opened Ladder

  ghost predicate InRange(s: seq<Resting>) { forall i :: 0 <= i < |s| ==> MIN_PRICE <= s[i].price <= MAX_PRICE }

  ghost predicate QueueOk(side: Side, s: seq<Resting>) { Sorted(side, s) && AllPositive(s) && InRange(s) }

  /** The book is never crossed. */
  ghost predicate Uncrossed(b: Book) {
    b.bids != [] && b.asks != [] ==> b.bids[0].price < b.asks[0].price
  }

  /** Every arena cell, whoever has it. */
  ghost function Cells(b: Book): multiset<nat> {
    multiset(Handles(b.bids)) + multiset(Handles(b.asks)) + multiset(b.free)
  }

  /** An order registered at slot `slot` stands in the queue under handle h. */
  ghost predicate StandsIn(q: seq<Resting>, h: nat, slot: nat) {
    exists i :: 0 <= i < |q| && q[i].handle == h && Slot(q[i].id) == slot
  }

  /** A table entry never refers to a freed order. */
  ghost predicate IndexOk(b: Book) {
    forall s :: s in b.index ==> StandsIn(b.bids, b.index[s], s) || StandsIn(b.asks, b.index[s], s)
  }

  ghost predicate BookOk(b: Book, capacity: nat) {
    && QueueOk(Buy, b.bids) && QueueOk(Sell, b.asks) && Uncrossed(b)
    && Cells(b) == multiset(InitialFree(capacity)) && IndexOk(b)
  }

  // ----- The pool -----

  lemma {:induction false} CountInSeq(s: seq<nat>, i: nat, j: nat)
    requires i < j < |s| && s[i] == s[j]
    ensures multiset(s)[s[i]] >= 2
  {
    assert s == s[..j] + s[j..];
    assert s[i] in multiset(s[..j]) by { assert s[..j][i] == s[i]; }
    assert s[i] in multiset(s[j..]) by { assert s[j..][0] == s[i]; }
  }

  lemma InitialFreeOnce(capacity: nat)
    ensures NoDup(InitialFree(capacity))
    ensures forall h: nat :: h in InitialFree(capacity) <==> h < capacity
  {
    forall h: nat | h < capacity ensures h in InitialFree(capacity) {
      assert InitialFree(capacity)[capacity - 1 - h] == h;
    }
  }

  lemma {:induction false} OnceInMultiset(s: seq<nat>, h: nat)
    requires NoDup(s)
    ensures multiset(s)[h] <= 1
  {
    if s != [] {
      var p := s[..|s| - 1];
      assert s == p + [s[|s| - 1]];
      OnceInMultiset(p, h);
      if s[|s| - 1] == h && h in p { assert false; }
    }
  }

  /** Free list and resting orders partition the arena, without duplicates, and so the number of active orders is the
      number of resting orders. */
  lemma PoolPartition(b: Book, capacity: nat)
    requires Cells(b) == multiset(InitialFree(capacity))
    ensures var all := Handles(b.bids) + Handles(b.asks) + b.free;
            && NoDup(all) && |all| == capacity && (forall h: nat :: h in all <==> h < capacity)
    ensures capacity - |b.free| == |b.bids| + |b.asks|
  {
    var all := Handles(b.bids) + Handles(b.asks) + b.free;
    assert multiset(all) == Cells(b);
    InitialFreeOnce(capacity);
    forall i, j | 0 <= i < j < |all| ensures all[i] != all[j] {
      if all[i] == all[j] {
        CountInSeq(all, i, j);
        OnceInMultiset(InitialFree(capacity), all[i]);
      }
    }
    assert |all| == |multiset(all)| == |multiset(InitialFree(capacity))|;
    forall h: nat ensures h in all <==> h < capacity {
      assert h in all <==> h in multiset(all);
      assert h in InitialFree(capacity) <==> h in multiset(InitialFree(capacity));
    }
  }

  lemma {:induction false} InsertHandles(side: Side, s: seq<Resting>, r: Resting)
    ensures multiset(Handles(Insert(side, s, r))) == multiset(Handles(s)) + multiset{r.handle}
  {
    if s == [] || Better(side, r.price, s[0].price) {
      assert Handles([r] + s) == [r.handle] + Handles(s);
    } else {
      InsertHandles(side, s[1..], r);
      assert Handles([s[0]] + Insert(side, s[1..], r)) == [s[0].handle] + Handles(Insert(side, s[1..], r));
      assert Handles(s) == [s[0].handle] + Handles(s[1..]);
    }
  }

  /** Removing the only order with a handle frees exactly its cell. */
  lemma WithoutHandles(s: seq<Resting>, h: nat)
    requires NoDup(Handles(s)) && Find(s, h).Some?
    ensures multiset(Handles(s)) == multiset(Handles(Without(s, h))) + multiset{h}
  {
    hide NoDup, Find, Without, Handles;
    var j := FindAt(s, h);
    forall m | 0 <= m < |s| && s[m].handle == s[j].handle ensures m == j { SameHandle(s, m, j); }
    RemoveOnly(s, j);
    SplitHandles(s, j);
    Middle(Handles(s[..j]), h, Handles(s[j + 1..]));
    HandlesAppend(s[..j], s[j + 1..]);
  }

  lemma SplitHandles(s: seq<Resting>, j: nat)
    requires j < |s|
    ensures Handles(s) == Handles(s[..j]) + [s[j].handle] + Handles(s[j + 1..])
  {
    var t := s[j..];
    HandlesFirst(t);
    hide Handles;
    Slices(s, j);
    HandlesAppend(s[..j], t);
    Join3(Handles(s[..j]), s[j].handle, Handles(s[j + 1..]));
  }

  lemma HandlesFirst(s: seq<Resting>)
    requires s != []
    ensures Handles(s) == [s[0].handle] + Handles(s[1..])
  {
  }

  lemma Slices(s: seq<Resting>, j: nat)
    requires j < |s|
    ensures s[..j] + s[j..] == s && s[j..][0] == s[j] && s[j..][1..] == s[j + 1..]
  {
  }

  lemma Join3(a: seq<nat>, h: nat, b: seq<nat>)
    ensures a + ([h] + b) == a + [h] + b
  {
  }

  lemma Middle(a: seq<nat>, h: nat, b: seq<nat>)
    ensures multiset(a + [h] + b) == multiset(a + b) + multiset{h}
  {
  }

  lemma {:induction false} FindAt(s: seq<Resting>, h: nat) returns (j: nat)
    requires Find(s, h).Some?
    ensures j < |s| && s[j].handle == h && Find(s, h) == Some(s[j])
  {
    if s[0].handle == h {
      j := 0;
    } else {
      j := FindAt(s[1..], h);
      j := j + 1;
    }
  }

  lemma {:induction false} FindPresent(s: seq<Resting>, j: nat)
    requires j < |s|
    ensures Find(s, s[j].handle).Some?
  {
    if s[0].handle != s[j].handle { FindPresent(s[1..], j - 1); }
  }

  // ----- Queues under removal -----

  /** Position i after a removal was some position before, in the same order. */
  lemma {:induction false} WithoutFrom(s: seq<Resting>, h: nat, i: nat) returns (j: nat)
    requires i < |Without(s, h)|
    ensures i <= j < |s| && Without(s, h)[i] == s[j] && s[j].handle != h
  {
    if s[0].handle == h {
      j := WithoutFrom(s[1..], h, i);
      j := j + 1;
    } else if i == 0 {
      j := 0;
    } else {
      j := WithoutFrom(s[1..], h, i - 1);
      j := j + 1;
    }
  }

  lemma {:induction false} WithoutOk(side: Side, s: seq<Resting>, h: nat)
    requires QueueOk(side, s)
    ensures QueueOk(side, Without(s, h))
  {
    if s != [] {
      var rest, u := s[1..], Without(s[1..], h);
      assert QueueOk(side, rest);
      WithoutOk(side, rest, h);
      forall i | 0 <= i < |u| ensures !Better(side, u[i].price, s[0].price) {
        var j := WithoutFrom(rest, h, i);
        assert rest[j] == s[j + 1];
      }
    }
  }

  lemma {:induction false} WithoutKeeps(s: seq<Resting>, h: nat, h': nat, slot: nat)
    requires StandsIn(s, h', slot) && h' != h
    ensures StandsIn(Without(s, h), h', slot)
  {
    var i :| 0 <= i < |s| && s[i].handle == h' && Slot(s[i].id) == slot;
    if i == 0 {
      assert Without(s, h)[0] == s[0];
    } else {
      assert s[1..][i - 1] == s[i];
      WithoutKeeps(s[1..], h, h', slot);
      var u := Without(s[1..], h);
      var k :| 0 <= k < |u| && u[k].handle == h' && Slot(u[k].id) == slot;
      if s[0].handle != h { assert Without(s, h)[k + 1] == u[k]; }
    }
  }

  // ----- Adding -----

  /** Some order of the list is registered at the slot. */
  ghost predicate Among(done: seq<Resting>, s: nat) { exists i :: 0 <= i < |done| && Slot(done[i].id) == s }

  lemma {:induction false} UnregisterIndex(index: map<nat, nat>, done: seq<Resting>, s: nat)
    ensures s in Unregister(index, done) <==> s in index && !Among(done, s)
    ensures s in Unregister(index, done) ==> Unregister(index, done)[s] == index[s]
  {
    if done != [] {
      UnregisterIndex(index - {Slot(done[0].id)}, done[1..], s);
      assert forall i :: 1 <= i < |done| ==> done[i] == done[1..][i - 1];
      assert Among(done, s) <==> Slot(done[0].id) == s || Among(done[1..], s);
    }
  }

  lemma AmongPrefix(done: seq<Resting>, opp: seq<Resting>, j: nat)
    requires done <= opp && j < |done|
    ensures Among(done, Slot(opp[j].id))
  {
  }

  /** An opposite order still registered after a match still stands on its side. */
  lemma StillStands(t: Taker, opp: seq<Resting>, qty: nat, h: nat, s: nat)
    requires StandsIn(opp, h, s) && !Among(Match(t, opp, qty).done, s)
    ensures StandsIn(Match(t, opp, qty).rest, h, s)
  {
    hide Among;
    var m := Match(t, opp, qty);
    var j :| 0 <= j < |opp| && opp[j].handle == h && Slot(opp[j].id) == s;
    DoneFrom(t, opp, qty);
    if j < |m.done| { AmongPrefix(m.done, opp, j); }
    var j' := RestFrom(t, opp, qty, j - |m.done|);
    assert m.rest[j - |m.done|].handle == h;
  }

  lemma {:induction false} InsertKeeps(side: Side, q: seq<Resting>, r: Resting, h: nat, s: nat)
    ensures StandsIn(Insert(side, q, r), h, s) <==> StandsIn(q, h, s) || (h == r.handle && s == Slot(r.id))
  {
    var p := Insert(side, q, r);
    if q == [] || Better(side, r.price, q[0].price) {
      assert p[0] == r;
      assert forall i :: 0 <= i < |q| ==> p[i + 1] == q[i];
    } else {
      InsertKeeps(side, q[1..], r, h, s);
      var u := Insert(side, q[1..], r);
      assert p[0] == q[0];
      assert forall i :: 0 <= i < |u| ==> p[i + 1] == u[i];
      assert forall i :: 1 <= i < |q| ==> q[i] == q[1..][i - 1];
    }
  }

  lemma InsertOk(side: Side, q: seq<Resting>, r: Resting)
    requires QueueOk(side, q) && r.rem > 0 && MIN_PRICE <= r.price <= MAX_PRICE
    ensures QueueOk(side, Insert(side, q, r))
  {
    hide Sorted, Insert;
    var k := InsertPosition(side, q, r);
    var p := Insert(side, q, r);
    forall i | 0 <= i < |p| ensures p[i].rem > 0 && MIN_PRICE <= p[i].price <= MAX_PRICE {
      assert p[i] == if i < k then q[i] else if i == k then r else q[i - 1];
    }
  }

  lemma InsertFront(side: Side, q: seq<Resting>, r: Resting)
    ensures Insert(side, q, r)[0] == if q == [] || Better(side, r.price, q[0].price) then r else q[0]
  {
  }

  lemma RestOk(t: Taker, opp: seq<Resting>, qty: nat, side: Side)
    requires QueueOk(side, opp)
    ensures var m := Match(t, opp, qty);
            QueueOk(side, m.rest) && (m.rest != [] ==> !Better(side, m.rest[0].price, opp[0].price))
  {
    var m := Match(t, opp, qty);
    RestKeeps(t, opp, qty, side);
    forall i | 0 <= i < |m.rest| ensures MIN_PRICE <= m.rest[i].price <= MAX_PRICE {
      var j := RestFrom(t, opp, qty, i);
    }
    if m.rest != [] { var j := RestFrom(t, opp, qty, 0); }
  }

  /** Own price against opposite price: no overlap. */
  ghost predicate Clear(side: Side, own: nat, opp: nat) { if side == Buy then own < opp else opp < own }

  lemma UncrossedFrom(b: Book, side: Side)
    requires var own := b.Queue(side); var opp := b.Queue(side.Other());
             own != [] && opp != [] ==> Clear(side, own[0].price, opp[0].price)
    ensures Uncrossed(b)
  {
  }

  /** What an add does to queues and free list. */
  lemma AddFields(b: Book, id: nat, client: nat, side: Side, kind: OrderType, price: nat, qty: nat)
    ensures var out := Add(b, id, client, side, kind, price, qty);
            && out.ok == Acceptable(b, kind, price) && (!out.ok ==> out.fills == [] && out.book == b)
            && (out.ok ==>
                  var m := MatchOf(b, id, client, side, kind, price, qty);
                  var front, h := b.free[..|b.free| - 1], b.free[|b.free| - 1];
                  var rests := m.left > 0 && kind == Limit;
                  && out.fills == m.fills && out.book.Queue(side.Other()) == m.rest
                  && out.book.free == front + Handles(m.done) + (if rests then [] else [h])
                  && out.book.Queue(side) == if rests
                                             then Insert(side, b.Queue(side), Resting(h, id, client, price, m.left))
                                             else b.Queue(side))
  {
    hide Match, Insert, Unregister, Handles;
  }

  lemma QueueParts(side: Side, q: seq<Resting>)
    requires QueueOk(side, q)
    ensures Sorted(side, q) && AllPositive(q) && InRange(q)
  {
  }

  /** Cells move, but none appears or vanishes. */
  lemma AddCells(b: Book, id: nat, client: nat, side: Side, kind: OrderType, price: nat, qty: nat)
    requires QueueOk(side.Other(), b.Queue(side.Other()))
    ensures Cells(Add(b, id, client, side, kind, price, qty).book) == Cells(b)
  {
    hide Add, Match, Insert, Handles, QueueOk, Cells;
    AddFields(b, id, client, side, kind, price, qty);
    if Acceptable(b, kind, price) {
      var own, opp, m, h := b.Queue(side), b.Queue(side.Other()), MatchOf(b, id, client, side, kind, price, qty),
        b.free[|b.free| - 1];
      QueueParts(side.Other(), opp);
      RestKeeps(TakerOf(id, client, side, kind, price), opp, qty, side.Other());
      var r := Resting(h, id, client, price, m.left);
      InsertHandles(side, own, r);
      var b' := Add(b, id, client, side, kind, price, qty).book;
      var front := b.free[..|b.free| - 1];
      if m.left > 0 && kind == Limit {
        CellsRest(b, b', side, m, front, h);
      } else {
        CellsLeave(b, b', side, m, front, h);
      }
    }
  }

  lemma CellsRest(b: Book, b': Book, side: Side, m: Matched, front: seq<nat>, h: nat)
    requires b.free == front + [h] && Handles(b.Queue(side.Other())) == Handles(m.done) + Handles(m.rest)
    requires b'.Queue(side.Other()) == m.rest && b'.free == front + Handles(m.done)
    requires multiset(Handles(b'.Queue(side))) == multiset(Handles(b.Queue(side))) + multiset{h}
    ensures Cells(b') == Cells(b)
  {
    hide Handles;
    CellsBySide(b, side);
    CellsBySide(b', side);
    Balance(multiset(Handles(b.Queue(side))), multiset(Handles(m.done)), multiset(Handles(m.rest)), multiset(front), h);
  }

  lemma CellsLeave(b: Book, b': Book, side: Side, m: Matched, front: seq<nat>, h: nat)
    requires b.free == front + [h] && Handles(b.Queue(side.Other())) == Handles(m.done) + Handles(m.rest)
    requires b'.Queue(side.Other()) == m.rest && b'.free == front + Handles(m.done) + [h]
             && b'.Queue(side) == b.Queue(side)
    ensures Cells(b') == Cells(b)
  {
    hide Handles;
    CellsBySide(b, side);
    CellsBySide(b', side);
    Balance(multiset(Handles(b.Queue(side))), multiset(Handles(m.done)), multiset(Handles(m.rest)), multiset(front), h);
  }

  lemma Balance(own: multiset<nat>, done: multiset<nat>, rest: multiset<nat>, front: multiset<nat>, h: nat)
    ensures (own + multiset{h}) + rest + (front + done) == own + (done + rest) + (front + multiset{h})
    ensures own + rest + (front + done + multiset{h}) == own + (done + rest) + (front + multiset{h})
  {
  }

  lemma CellsBySide(b: Book, side: Side)
    ensures Cells(b) == multiset(Handles(b.Queue(side))) + multiset(Handles(b.Queue(side.Other()))) + multiset(b.free)
  {
  }

  lemma AddIndex(b: Book, id: nat, client: nat, side: Side, kind: OrderType, price: nat, qty: nat)
    requires IndexOk(b)
    ensures IndexOk(Add(b, id, client, side, kind, price, qty).book)
  {
    if Acceptable(b, kind, price) {
      var b' := Add(b, id, client, side, kind, price, qty).book;
      var opp, m, h := b.Queue(side.Other()), MatchOf(b, id, client, side, kind, price, qty), b.free[|b.free| - 1];
      var t := TakerOf(id, client, side, kind, price);
      hide Match, Insert;
      forall s | s in b'.index ensures StandsIn(b'.bids, b'.index[s], s) || StandsIn(b'.asks, b'.index[s], s) {
        UnregisterIndex(b.index[Slot(id) := h], m.done, s);
        InsertKeeps(side, b.Queue(side), Resting(h, id, client, price, m.left), b'.index[s], s);
        if s != Slot(id) && StandsIn(opp, b.index[s], s) { StillStands(t, opp, qty, b.index[s], s); }
      }
    }
  }

  lemma AddQueues(b: Book, id: nat, client: nat, side: Side, kind: OrderType, price: nat, qty: nat)
    requires QueueOk(Buy, b.bids) && QueueOk(Sell, b.asks) && Uncrossed(b)
    ensures var b' := Add(b, id, client, side, kind, price, qty).book;
            QueueOk(Buy, b'.bids) && QueueOk(Sell, b'.asks) && Uncrossed(b')
  {
    if Acceptable(b, kind, price) {
      var b' := Add(b, id, client, side, kind, price, qty).book;
      var opp, m, h := b.Queue(side.Other()), MatchOf(b, id, client, side, kind, price, qty), b.free[|b.free| - 1];
      var t := TakerOf(id, client, side, kind, price);
      RestOk(t, opp, qty, side.Other());
      MatchIsMaximal(t, opp, qty);
      if m.left > 0 && kind == Limit {
        InsertOk(side, b.Queue(side), Resting(h, id, client, price, m.left));
        InsertFront(side, b.Queue(side), Resting(h, id, client, price, m.left));
      }
      DoneFrom(t, opp, qty);
      hide Match, Insert, Unregister, QueueOk;
      UncrossedFrom(b', side);
    }
  }

  lemma AddKeeps(b: Book, capacity: nat, id: nat, client: nat, side: Side, kind: OrderType, price: nat, qty: nat)
    requires BookOk(b, capacity)
    ensures BookOk(Add(b, id, client, side, kind, price, qty).book, capacity)
  {
    AddCells(b, id, client, side, kind, price, qty);
    AddIndex(b, id, client, side, kind, price, qty);
    AddQueues(b, id, client, side, kind, price, qty);
  }

  // ----- Cancelling and modifying -----

  /** What the lookup finds stands on its side, once, under the id asked for. */
  lemma LookupStands(b: Book, id: nat)
    requires Lookup(b, id).Some?
    ensures var (side, r) := Lookup(b, id).value;
            && Slot(id) in b.index && b.index[Slot(id)] == r.handle && r.id == id
            && Find(b.Queue(side), r.handle) == Some(r)
  {
    var h := b.index[Slot(id)];
    if Find(b.bids, h).Some? { var j := FindAt(b.bids, h); }
    if Find(b.asks, h).Some? { var j := FindAt(b.asks, h); }
  }

  lemma HandlesOnce(b: Book, capacity: nat)
    requires Cells(b) == multiset(InitialFree(capacity))
    ensures NoDup(Handles(b.bids)) && NoDup(Handles(b.asks))
    ensures forall i, j :: 0 <= i < |b.bids| && 0 <= j < |b.asks| ==> b.bids[i].handle != b.asks[j].handle
  {
    hide Cells, NoDup;
    PoolPartition(b, capacity);
    SplitNoDup(Handles(b.bids), Handles(b.asks), b.free);
    forall i, j | 0 <= i < |b.bids| && 0 <= j < |b.asks| ensures b.bids[i].handle != b.asks[j].handle {
      assert Handles(b.bids)[i] != Handles(b.asks)[j];
    }
  }

  lemma SplitNoDup(x: seq<nat>, y: seq<nat>, z: seq<nat>)
    requires NoDup(x + y + z)
    ensures NoDup(x) && NoDup(y) && forall i, j :: 0 <= i < |x| && 0 <= j < |y| ==> x[i] != y[j]
  {
    var all := x + y + z;
    assert forall i :: 0 <= i < |x| ==> all[i] == x[i];
    assert forall i :: 0 <= i < |y| ==> all[|x| + i] == y[i];
  }

  /** What a cancel does to each part of the book. */
  lemma CancelFields(b: Book, id: nat)
    ensures Lookup(b, id).None? ==> Cancel(b, id) == Outcome(false, b, [])
    ensures Lookup(b, id).Some? ==>
            var (side, r) := Lookup(b, id).value; var out := Cancel(b, id);
            && out.ok && out.fills == [] && out.book.Queue(side) == Without(b.Queue(side), r.handle)
            && out.book.Queue(side.Other()) == b.Queue(side.Other())
            && out.book.index == b.index - {Slot(id)} && out.book.free == b.free + [r.handle]
  {
    hide Lookup, Without;
  }

  lemma CancelKeeps(b: Book, capacity: nat, id: nat)
    requires BookOk(b, capacity)
    ensures BookOk(Cancel(b, id).book, capacity)
  {
    hide Lookup, Cancel, Without, Find, Cells, IndexOk, QueueOk, Uncrossed;
    CancelFields(b, id);
    if Lookup(b, id).Some? {
      var (side, r) := Lookup(b, id).value;
      CancelCells(b, capacity, id);
      CancelIndex(b, capacity, id);
      WithoutOk(side, b.Queue(side), r.handle);
      var b', q' := Cancel(b, id).book, Without(b.Queue(side), r.handle);
      CancelFront(b, side);
      if q' != [] { var j := WithoutFrom(b.Queue(side), r.handle, 0); }
      UncrossedFrom(b', side);
    }
  }

  lemma CancelFront(b: Book, side: Side)
    requires QueueOk(Buy, b.bids) && QueueOk(Sell, b.asks) && Uncrossed(b)
    ensures var own, opp := b.Queue(side), b.Queue(side.Other());
            own != [] && opp != [] ==> Clear(side, own[0].price, opp[0].price)
    ensures var own := b.Queue(side); forall j :: 0 <= j < |own| ==> !Better(side, own[j].price, own[0].price)
  {
  }

  lemma CancelCells(b: Book, capacity: nat, id: nat)
    requires BookOk(b, capacity) && Lookup(b, id).Some?
    ensures Cells(Cancel(b, id).book) == Cells(b)
  {
    hide Lookup, Cancel, Without, Find, QueueOk, Uncrossed, IndexOk, NoDup, Handles, Cells;
    var (side, r) := Lookup(b, id).value;
    var b' := Cancel(b, id).book;
    LookupStands(b, id);
    HandlesOnce(b, capacity);
    WithoutHandles(b.Queue(side), r.handle);
    CancelFields(b, id);
    CellsBySide(b, side);
    CellsBySide(b', side);
    Balance(multiset(Handles(b'.Queue(side))), multiset{}, multiset(Handles(b.Queue(side.Other()))), multiset(b.free),
      r.handle);
  }

  lemma CancelIndex(b: Book, capacity: nat, id: nat)
    requires BookOk(b, capacity) && Lookup(b, id).Some?
    ensures IndexOk(Cancel(b, id).book)
  {
    var (side, r) := Lookup(b, id).value;
    LookupStands(b, id);
    HandlesOnce(b, capacity);
    var j := FindAt(b.Queue(side), r.handle);
    var b' := Cancel(b, id).book;
    hide Lookup, Without, Find, QueueOk, Uncrossed, Cells;
    forall s | s in b'.index ensures StandsIn(b'.bids, b'.index[s], s) || StandsIn(b'.asks, b'.index[s], s) {
      var h := b.index[s];
      if h == r.handle { OneSlot(b, side, j, h, s); }
      if StandsIn(b.Queue(side), h, s) { WithoutKeeps(b.Queue(side), r.handle, h, s); }
    }
  }

  /** One order has one slot. */
  lemma OneSlot(b: Book, side: Side, j: nat, h: nat, s: nat)
    requires NoDup(Handles(b.bids)) && NoDup(Handles(b.asks))
    requires forall i, j :: 0 <= i < |b.bids| && 0 <= j < |b.asks| ==> b.bids[i].handle != b.asks[j].handle
    requires j < |b.Queue(side)| && b.Queue(side)[j].handle == h && (StandsIn(b.bids, h, s) || StandsIn(b.asks, h, s))
    ensures s == Slot(b.Queue(side)[j].id)
  {
    var q := b.Queue(side);
    hide NoDup;
    if StandsIn(q, h, s) {
      var i :| 0 <= i < |q| && q[i].handle == h && Slot(q[i].id) == s;
      SameHandle(q, i, j);
    }
  }

  lemma SameHandle(q: seq<Resting>, i: nat, j: nat)
    requires NoDup(Handles(q)) && i < |q| && j < |q| && q[i].handle == q[j].handle
    ensures i == j
  {
    assert Handles(q)[i] == Handles(q)[j];
  }

  lemma ModifyKeeps(b: Book, capacity: nat, id: nat, price: nat, qty: nat)
    requires BookOk(b, capacity)
    ensures BookOk(Modify(b, id, price, qty).book, capacity)
  {
    if Lookup(b, id).Some? {
      var (side, r) := Lookup(b, id).value;
      CancelKeeps(b, capacity, id);
      AddKeeps(Cancel(b, id).book, capacity, id, r.client, side, Limit, price, qty);
    }
  }

  // ----- Runs -----

  lemma InitialOk(capacity: nat)
    ensures BookOk(InitialBook(capacity), capacity)
  {
  }

  lemma ApplyKeeps(b: Book, capacity: nat, op: Op)
    requires BookOk(b, capacity)
    ensures BookOk(Apply(b, op).book, capacity)
  {
    match op
    case AddOp(id, client, side, kind, price, qty) => AddKeeps(b, capacity, id, client, side, kind, price, qty);
    case CancelOp(id) => CancelKeeps(b, capacity, id);
    case ModifyOp(id, price, qty) => ModifyKeeps(b, capacity, id, price, qty);
  }

  /** Safety over whole runs: after any sequence of calls on a new book both sides are sorted, positive and in range,
      the book is not crossed, the arena is partitioned and no table entry dangles. */
  lemma {:induction false} RunKeeps(b: Book, capacity: nat, ops: seq<Op>)
    requires BookOk(b, capacity)
    ensures BookOk(After(b, ops), capacity)
    decreases |ops|
  {
    if ops != [] {
      ApplyKeeps(b, capacity, ops[0]);
      RunKeeps(Apply(b, ops[0]).book, capacity, ops[1..]);
    }
  }

  lemma ReachableOk(capacity: nat, ops: seq<Op>)
    ensures BookOk(After(InitialBook(capacity), ops), capacity)
  {
    InitialOk(capacity);
    RunKeeps(InitialBook(capacity), capacity, ops);
  }
}
