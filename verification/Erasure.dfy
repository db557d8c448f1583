/** The one way in which an accepted byte is lost: a locally closed receiver acknowledges
    a block that no reader has read. */
module ErasureFacts {
  import opened Blocks
  import opened SessionSpec
  import opened SweepFacts
  import opened LateFacts
  import opened Network
  import opened Invariants
  import opened NetworkProofs
  import opened EndToEnd

  /** The reader has position p, or some queued block contains it. */
  ghost predicate Kept(x: Node, p: nat) {
    p < |x.delivered| || Covered(x.s.rx.queue, p)
  }

  // ---------- what one action does to a position ----------

  lemma StoreCoverage(x: Node, b: Block, p: nat)
    requires SortedByRange(x.s.rx.queue)
    ensures Covered(x.s.rx.queue, p) ==> Covered(Store(x, b).s.rx.queue, p)
    ensures Put(x.s, b).1 && b.Covers(p) ==> Covered(Store(x, b).s.rx.queue, p)
  {
    var q, m := x.s.rx.queue, Mark(b, x.s.eof, false);
    InsertByRangeKeeps(q, m);
    var q' := InsertByRange(q, m);
    if Covered(q, p) {
      var i :| 0 <= i < |q| && q[i].block.Covers(p);
      assert q[i] in q';
      var j :| 0 <= j < |q'| && q'[j] == q[i];
    }
    if b.Covers(p) {
      assert m in q';
      var j :| 0 <= j < |q'| && q'[j] == m;
    }
  }

  lemma ReadCoverage(x: Node, p: nat)
    requires NoneDone(x.s.rx.queue) && x.s.rx.distributed == |x.delivered|
    requires x.reading.Some? && x.s.rx.readOffset <= |x.reading.value| && Kept(x, p)
    ensures Kept(ReadOnce(x), p)
  {
    var q, room := x.s.rx.queue, |x.reading.value| - x.s.rx.readOffset;
    if x.reading.value != [] && p >= |x.delivered| {
      var sw := Sweep(q, |x.delivered|, room);
      ReadEffect(x, room);
      SweepConserves(q, |x.delivered|, room);
      var i :| 0 <= i < |q| && q[i].block.Covers(p);
      assert q[i] in q;
      if p >= |x.delivered| + |sw.out| {
        assert q[i] in sw.kept;
        var j :| 0 <= j < |sw.kept| && sw.kept[j] == q[i];
      }
    }
  }

  lemma OthersKeepQueue(x: Node, out: Wire, inn: Wire, act: Action)
    requires NodeEnabled(x, out, inn, act) && !act.Finish? && !act.Receive? && !act.Acknowledge? && !act.Read?
    ensures var x' := NodeNext(x, out, inn, act).0;
            && x'.s.rx.queue == x.s.rx.queue && x'.delivered == x.delivered && x'.ended == x.ended
            && (x.s.closing ==> x'.s.closing)
  {
  }

  lemma OthersKeepHistory(x: Node, out: Wire, inn: Wire, act: Action)
    requires NodeEnabled(x, out, inn, act) && !act.Finish? && !act.Receive? && !act.Acknowledge? && !act.Read?
    ensures var x' := NodeNext(x, out, inn, act).0; x'.live == x.live && x'.late == x.late && x'.erased == x.erased
  {
  }

  /** In every reachable state, whatever the receiver does short of do_close: a position
      that the reader lacks and the queue contains is read or stays in the queue, unless
      the action is an acknowledgement that erases all entries containing it. */
  lemma OnlyAcknowledgeUncovers(x: Node, y: Node, out: Wire, inn: Wire, act: Action, p: nat)
    requires Both(x, y, out, inn) && NodeEnabled(x, out, inn, act) && !x.ended && !act.Finish?
    requires |x.delivered| <= p && Covered(x.s.rx.queue, p)
    ensures Kept(NodeNext(x, out, inn, act).0, p)
       <==> !(act.Acknowledge? && !SurvivorCovers(x.s.rx.queue, act.local.start, act.local.end, p))
  {
    if act.Receive? {
      StoreCoverage(x, act.block, p);
    } else if act.Acknowledge? {
      AckRangeCovers(x.s.rx.queue, act.local.start, act.local.end, p);
    } else if act.Read? {
      ReadCoverage(x, p);
    } else {
      OthersKeepQueue(x, out, inn, act);
    }
  }

  // ---------- over every run ----------

  /** Stored positions are kept or erased, and only late ones are erased, after a local
      close. */
  ghost predicate ErasedOk(x: Node) {
    !x.ended ==>
      && (forall p :: p in x.live + x.late ==> Kept(x, p) || p in x.erased)
      && x.erased <= x.late && (!x.s.closing ==> x.erased == {})
  }

  lemma StoreKeepsErased(x: Node, b: Block)
    requires ErasedOk(x) && !x.ended && SortedByRange(x.s.rx.queue)
    ensures ErasedOk(Store(x, b))
  {
    var x' := Store(x, b);
    forall p | p in x'.live + x'.late ensures Kept(x', p) || p in x'.erased {
      StoreCoverage(x, b, p);
    }
  }

  lemma AckKeepsErased(x: Node, r: Range, accepted: seq<byte>, frozen: bool)
    requires ErasedOk(x) && !x.ended && ReceiverRuns(accepted, frozen, ReceiverOf(x))
    ensures ErasedOk(AckOnce(x, r))
  {
    var q, x' := x.s.rx.queue, AckOnce(x, r);
    forall p | p in x'.live + x'.late ensures Kept(x', p) || p in x'.erased {
      AckRangeCovers(q, r.start, r.end, p);
    }
    forall p | p in x.live + x.late && Uncovers(x, r, p) ensures p in x.late && x.s.closing {
      UncoversLate(x, r, accepted, frozen, p);
    }
  }

  /** What was stored before EOF survives every acknowledgement until it is read. */
  lemma LiveSurvives(x: Node, r: Range, accepted: seq<byte>, frozen: bool, p: nat)
    requires ReceiverRuns(accepted, frozen, ReceiverOf(x)) && p in x.live && |x.delivered| <= p
    ensures SurvivorCovers(x.s.rx.queue, r.start, r.end, p)
  {
    var q := x.s.rx.queue;
    assert CoveredUndistributed(q, p);
    var m :| m in q && !m.distributed && m.block.Covers(p);
    var i :| 0 <= i < |q| && q[i] == m;
  }

  /** And so does everything until a local close. */
  lemma OpenSurvives(x: Node, r: Range, accepted: seq<byte>, frozen: bool, p: nat)
    requires ReceiverRuns(accepted, frozen, ReceiverOf(x)) && !x.s.closing
    requires |x.delivered| <= p && Covered(x.s.rx.queue, p)
    ensures SurvivorCovers(x.s.rx.queue, r.start, r.end, p)
  {
    var i :| 0 <= i < |x.s.rx.queue| && x.s.rx.queue[i].block.Covers(p);
    assert x.s.rx.queue[i] in x.s.rx.queue;
  }

  lemma UncoversLate(x: Node, r: Range, accepted: seq<byte>, frozen: bool, p: nat)
    requires ReceiverRuns(accepted, frozen, ReceiverOf(x)) && p in x.live + x.late && Uncovers(x, r, p)
    ensures p in x.late && x.s.closing
  {
    if p !in x.late {
      LiveSurvives(x, r, accepted, frozen, p);
    }
    if !x.s.closing {
      OpenSurvives(x, r, accepted, frozen, p);
    }
  }

  lemma ReadKeepsErased(x: Node, accepted: seq<byte>, frozen: bool)
    requires ErasedOk(x) && !x.ended && ReceiverRuns(accepted, frozen, ReceiverOf(x)) && x.reading.Some?
    requires x.s.rx.readOffset <= |x.reading.value|
    ensures ErasedOk(ReadOnce(x))
  {
    var x' := ReadOnce(x);
    assert x'.live == x.live && x'.late == x.late && x'.erased == x.erased && x'.s.closing == x.s.closing;
    forall p | p in x.live + x.late && Kept(x, p) ensures Kept(x', p) {
      ReadCoverage(x, p);
    }
  }

  lemma ActionKeepsErased(x: Node, y: Node, out: Wire, inn: Wire, act: Action)
    requires Both(x, y, out, inn) && NodeEnabled(x, out, inn, act) && ErasedOk(x)
    ensures ErasedOk(NodeNext(x, out, inn, act).0)
  {
    if act.Receive? {
      StoreKeepsErased(x, act.block);
    } else if act.Acknowledge? {
      AckKeepsErased(x, act.local, y.accepted, SenderOf(y).Frozen());
    } else if act.Read? {
      ReadKeepsErased(x, y.accepted, SenderOf(y).Frozen());
    } else if !act.Finish? {
      OthersKeepQueue(x, out, inn, act);
      OthersKeepHistory(x, out, inn, act);
    }
  }

  lemma {:induction false} ErasedAlways(sys: System, steps: seq<Step>)
    requires Inv(sys) && ErasedOk(sys.a) && ErasedOk(sys.b) && Runs(sys, steps)
    ensures ErasedOk(After(sys, steps).a) && ErasedOk(After(sys, steps).b)
    decreases |steps|
  {
    if steps != [] {
      var act := steps[0].act;
      match steps[0].side {
        case A =>
          ActionKeepsBoth(sys.a, sys.b, sys.ab, sys.ba, act);
          ActionKeepsErased(sys.a, sys.b, sys.ab, sys.ba, act);
        case B =>
          ActionKeepsBoth(sys.b, sys.a, sys.ba, sys.ab, act);
          ActionKeepsErased(sys.b, sys.a, sys.ba, sys.ab, act);
      }
      ErasedAlways(Next(sys, steps[0]), steps[1..]);
    }
  }

  lemma ReachableErased(sys: System)
    requires Reachable(sys)
    ensures ErasedOk(sys.a) && ErasedOk(sys.b)
  {
    var init, steps :| Initial(init) && Runs(init, steps) && After(init, steps) == sys;
    InitialInv(init);
    ErasedAlways(init, steps);
  }

  /** Every accepted byte was delivered, or is in the ring, the head, sendmarkq_ or an
      undistributed entry of the receiver's queue, whatever acknowledgements were
      processed. The only exception are bytes that the receiver stored after a local
      close: they are in its queue, or an acknowledgement has erased them. */
  lemma NoLoss(sys: System, p: nat)
    requires Reachable(sys) && !sys.a.ended && !sys.b.ended && p < |sys.a.accepted|
    ensures || Held(SenderOf(sys.a), ReceiverOf(sys.b), p)
            || (p in sys.b.late && (Covered(sys.b.s.rx.queue, p) || p in sys.b.erased))
    ensures !sys.b.s.closing ==> Held(SenderOf(sys.a), ReceiverOf(sys.b), p)
    ensures sys.b.erased <= sys.b.late && (!sys.b.s.closing ==> sys.b.erased == {})
  {
    ReachableInv(sys);
    ReachableErased(sys);
    NothingLost(SenderOf(sys.a), ReceiverOf(sys.b), sys.ab.blocks, sys.ba.acks, p);
  }
}
