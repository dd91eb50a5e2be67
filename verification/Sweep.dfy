/** Matching one fill at a time, as the nested loops do it, and its agreement with the recursive match. */
module Sweep {
  import opened Types
  import opened BookSpec

  /** What matching reads and writes: the opposite queue, the taker's remainder, the id index, the free list, the
      fills. */
  datatype Sweep = Sweep(opp: seq<Resting>, qty: nat, index: map<nat, nat>, free: seq<nat>, fills: seq<Fill>)

  predicate Going(t: Taker, s: Sweep) { s.qty > 0 && s.opp != [] && Crosses(t, s.opp[0].price) }

  /** One trade with the order at the front of the opposite queue. */
  function Step(t: Taker, s: Sweep): Sweep {
    if s.opp == [] then s
    else
      var r := s.opp[0];
      var f := Min(s.qty, r.rem);
      var fills := s.fills + [MakeFill(t, r, f)];
      if f == r.rem then Sweep(s.opp[1..], s.qty - f, s.index - {Slot(r.id)}, s.free + [r.handle], fills)
      else Sweep([r.(rem := r.rem - f)] + s.opp[1..], s.qty - f, s.index, s.free, fills)
  }

  function SweepAll(t: Taker, s: Sweep): Sweep
    decreases |s.opp|, s.qty
  {
    if Going(t, s) then SweepAll(t, Step(t, s)) else s
  }

  /** The state the recursive match predicts. */
  ghost function Predicted(t: Taker, s: Sweep): Sweep {
    var m := Match(t, s.opp, s.qty);
    Sweep(m.rest, m.left, Unregister(s.index, m.done), s.free + Handles(m.done), s.fills + m.fills)
  }

  lemma PrependDone(r: Resting, done: seq<Resting>, index: map<nat, nat>, free: seq<nat>)
    ensures Unregister(index, [r] + done) == Unregister(index - {Slot(r.id)}, done)
    ensures free + Handles([r] + done) == free + [r.handle] + Handles(done)
  {
    assert ([r] + done)[1..] == done;
  }

  /** A complete fill of the front order leaves the prediction unchanged. */
  lemma PredictedFull(t: Taker, s: Sweep)
    requires Going(t, s) && s.opp[0].rem <= s.qty
    ensures Predicted(t, Step(t, s)) == Predicted(t, s)
  {
    var r, f := s.opp[0], MakeFill(t, s.opp[0], s.opp[0].rem);
    var m := Match(t, s.opp[1..], s.qty - r.rem);
    PrependDone(r, m.done, s.index, s.free);
    assert s.fills + [f] + m.fills == s.fills + ([f] + m.fills);
  }

  /** A partial fill ends the match. */
  lemma PredictedPartial(t: Taker, s: Sweep)
    requires Going(t, s) && s.qty < s.opp[0].rem
    ensures Predicted(t, Step(t, s)) == Predicted(t, s)
  {
    var s' := Step(t, s);
    assert s'.qty == 0;
    assert Match(t, s'.opp, 0) == Matched([], [], s'.opp, 0);
  }

  lemma {:induction false} SweepIsMatch(t: Taker, s: Sweep)
    ensures SweepAll(t, s) == Predicted(t, s)
    decreases |s.opp|, s.qty
  {
    if Going(t, s) {
      SweepIsMatch(t, Step(t, s));
      if s.opp[0].rem <= s.qty { PredictedFull(t, s); } else { PredictedPartial(t, s); }
    }
  }
}
