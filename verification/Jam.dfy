/** From which states a transfer can still complete: from all in which the receive queue
    is not full of blocks that lie ahead. */
module JamFacts {
  import opened Blocks
  import opened SessionSpec
  import opened SweepFacts
  import opened SenderFacts
  import opened LateFacts
  import opened Network
  import opened NetworkProofs
  import opened EndToEnd

  /** The queue is full, and no entry is of use before another block arrives. */
  ghost predicate Jam(q: seq<Mark>, d: nat, queueMax: nat) {
    |q| >= queueMax && forall m :: m in q ==> !m.distributed && m.block.offset > d
  }

  ghost predicate Jammed(y: Node) {
    Jam(y.s.rx.queue, y.s.rx.distributed, y.s.rx.queueMax)
  }

  // ---------- a jam is for ever ----------

  lemma {:induction false} AckKeepsUndistributed(q: seq<Mark>, start: nat, end: nat)
    requires forall m :: m in q ==> !m.distributed
    ensures |AckRange(q, start, end)| == |q|
  {
    if q != [] {
      assert q[0] in q;
      AckKeepsUndistributed(q[1..], start, end);
    }
  }

  /** What is left of an acknowledged queue was there, and is not erased. */
  ghost predicate LeftOf(m': Mark, q: seq<Mark>, start: nat, end: nat) {
    exists m :: m in q && m'.block == m.block && m'.distributed == m.distributed && !Erased(m, start, end)
  }

  lemma {:induction false} AckLeaves(q: seq<Mark>, start: nat, end: nat)
    ensures forall m' :: m' in AckRange(q, start, end) ==> LeftOf(m', q, start, end)
  {
    if q != [] {
      AckLeaves(q[1..], start, end);
      forall m' | m' in AckRange(q, start, end) ensures LeftOf(m', q, start, end) {
        if m' in AckOne(q[0], start, end) {
          assert q[0] in q;
        } else {
          assert LeftOf(m', q[1..], start, end);
          var m :| m in q[1..] && m'.block == m.block && m'.distributed == m.distributed && !Erased(m, start, end);
          assert m in q;
        }
      }
    }
  }

  lemma JammedRead(y: Node)
    requires Jammed(y)
    requires y.reading.Some? && (y.reading.value == [] || y.s.rx.readOffset <= |y.reading.value|)
    ensures Jammed(ReadOnce(y)) && ReadOnce(y).delivered == y.delivered
  {
    assert y.s.rx.queue != [] ==> y.s.rx.queue[0] in y.s.rx.queue;
    ReadGetsNothing(y);
  }

  lemma ReadGetsNothing(y: Node)
    requires y.s.rx.queue == [] || y.s.rx.queue[0].block.offset > y.s.rx.distributed
    requires y.reading.Some? && (y.reading.value == [] || y.s.rx.readOffset <= |y.reading.value|)
    ensures var y' := ReadOnce(y);
            && y'.s.rx.queue == y.s.rx.queue && y'.s.rx.distributed == y.s.rx.distributed
            && y'.s.rx.queueMax == y.s.rx.queueMax && y'.delivered == y.delivered
  {
    assert y.delivered + [] == y.delivered;
    if y.reading.value != [] {
      SweepOfRead(y.s, |y.reading.value|);
      SweepNothing(y.s.rx.queue, y.s.rx.distributed, |y.reading.value| - y.s.rx.readOffset);
    }
  }

  lemma JammedAck(y: Node, r: Range)
    requires Jammed(y)
    ensures Jammed(AckOnce(y, r))
  {
    var q := y.s.rx.queue;
    AckKeepsUndistributed(q, r.start, r.end);
    AckLeaves(q, r.start, r.end);
    forall m' | m' in AckRange(q, r.start, r.end) ensures !m'.distributed && m'.block.offset > y.s.rx.distributed {
      assert LeftOf(m', q, r.start, r.end);
    }
  }

  lemma JammedStays(y: Node, out: Wire, inn: Wire, act: Action)
    requires Jammed(y) && NodeEnabled(y, out, inn, act)
    ensures var y' := NodeNext(y, out, inn, act).0;
            y'.delivered == y.delivered && (y'.ended || Jammed(y'))
  {
    if act.Read? {
      JammedRead(y);
    } else if act.Acknowledge? {
      JammedAck(y, act.local);
    }
  }

  lemma EndedDeliversNothing(y: Node, out: Wire, inn: Wire, act: Action)
    requires y.ended && NodeEnabled(y, out, inn, act)
    ensures NodeNext(y, out, inn, act).0 == y
  {
  }

  /** Whatever happens, closing and do_close included, a jammed receiver delivers nothing
      any more. */
  lemma {:induction false} JammedForever(sys: System, steps: seq<Step>)
    requires (sys.b.ended || Jammed(sys.b)) && Runs(sys, steps)
    ensures After(sys, steps).b.delivered == sys.b.delivered
    decreases |steps|
  {
    if steps != [] {
      if steps[0].side.B? {
        if sys.b.ended {
          EndedDeliversNothing(sys.b, sys.ba, sys.ab, steps[0].act);
        } else {
          JammedStays(sys.b, sys.ba, sys.ab, steps[0].act);
        }
      }
      JammedForever(Next(sys, steps[0]), steps[1..]);
    }
  }

  // ---------- limits that every run keeps ----------

  ghost predicate Limits(x: Node) {
    (x.s.tx.ring != [] ==> x.s.tx.sized) && |x.s.rx.queue| <= x.s.rx.queueMax
  }

  lemma ReadLimits(x: Node)
    requires Limits(x) && x.reading.Some? && (x.reading.value == [] || x.s.rx.readOffset <= |x.reading.value|)
    ensures Limits(ReadOnce(x))
  {
    if x.reading.value != [] {
      var q, room := x.s.rx.queue, |x.reading.value| - x.s.rx.readOffset;
      var k := Retired(q, x.s.rx.distributed, room);
      ReadEffect(x, room);
      QueueLengths(q[..k], 0, 0);
    }
  }

  lemma ActionKeepsLimits(x: Node, out: Wire, inn: Wire, act: Action)
    requires Limits(x) && NodeEnabled(x, out, inn, act)
    ensures Limits(NodeNext(x, out, inn, act).0)
  {
    if act.Receive? {
      InsertByRangeLength(x.s.rx.queue, Mark(act.block, x.s.eof, false));
    } else if act.Acknowledge? {
      QueueLengths(x.s.rx.queue, act.local.start, act.local.end);
    } else if act.Read? {
      ReadLimits(x);
    }
  }

  lemma {:induction false} LimitsAlways(sys: System, steps: seq<Step>)
    requires Limits(sys.a) && Limits(sys.b) && Runs(sys, steps)
    ensures Limits(After(sys, steps).a) && Limits(After(sys, steps).b)
    decreases |steps|
  {
    if steps != [] {
      match steps[0].side {
        case A => ActionKeepsLimits(sys.a, sys.ab, sys.ba, steps[0].act);
        case B => ActionKeepsLimits(sys.b, sys.ba, sys.ab, steps[0].act);
      }
      LimitsAlways(Next(sys, steps[0]), steps[1..]);
    }
  }

  lemma ReachableLimits(sys: System)
    requires Reachable(sys)
    ensures Limits(sys.a) && Limits(sys.b)
  {
    var init, steps :| Initial(init) && Runs(init, steps) && After(init, steps) == sys;
    LimitsAlways(init, steps);
  }

  // ---------- reading what can be read ----------

  /** Only distributed entries start at or below the read position. */
  ghost predicate Cleared(q: seq<Mark>, d: nat) {
    forall m :: m in q ==> m.distributed || m.block.offset > d
  }

  lemma SweepClears(q: seq<Mark>, d: nat, room: nat)
    requires SortedByRange(q)
    ensures var sw := Sweep(q, d, room);
            |sw.out| < room ==> Cleared(sw.kept, d + |sw.out|)
  {
    var k, sw := Retired(q, d, room), Sweep(q, d, room);
    if |sw.out| < room {
      if StopsInside(q, d, room) {
        StopsInsideBlock(q, d, room);
      }
      RetireAllFrom(q[..k]);
      forall m | m in sw.kept ensures m.distributed || m.block.offset > d + |sw.out| {
        if m !in RetireAll(q[..k]) {
          var i :| 0 <= i < |q[k..]| && q[k..][i] == m;
          assert q[k].block.offset <= q[k + i].block.offset;
        }
      }
    }
  }

  /** A read of a queue that is not jammed leaves one that is not. */
  lemma SweepUnjams(q: seq<Mark>, d: nat, room: nat, queueMax: nat)
    requires |q| <= queueMax
    ensures var sw := Sweep(q, d, room);
            Jam(sw.kept, d + |sw.out|, queueMax) ==> Jam(q, d, queueMax)
  {
    var k := Retired(q, d, room);
    if k > 0 {
      RetireAllFrom(q[..k]);
      var left := RetireAll(q[..k]);
      if left != [] {
        assert left[0] in left && left[0] in Sweep(q, d, room).kept;
      }
    } else {
      assert q[..0] == [] && q[0..] == q && RetireAll(q[..0]) + q[0..] == q;
    }
  }

  lemma SweepProgresses(q: seq<Mark>, d: nat, room: nat)
    requires SortedByRange(q) && Covered(q, d) && room > 0
    ensures |Sweep(q, d, room).out| > 0
  {
    SweepCopiesMaximalRun(q, d, room);
  }
}
