/** A transfer between two open sessions can complete exactly if the receiver is not
    jammed. */
module Completion {
  import opened Blocks
  import opened SessionSpec
  import opened SweepFacts
  import opened SenderFacts
  import opened LateFacts
  import opened Network
  import opened Invariants
  import opened NetworkProofs
  import opened EndToEnd
  import opened ErasureFacts
  import opened JamFacts
  import opened Transfers

  /** A reachable state in which both sides can go on. */
  ghost predicate Open(sys: System) {
    Reachable(sys) && !sys.a.ended && !sys.b.ended && !sys.b.s.closing && sys.a.s.tx.marksMax > 0
  }

  lemma Go(init: System, sys: System, m: nat, st: Step)
    requires Leads(init, sys, m) && Reachable(sys) && StepEnabled(sys, st) && (st.act.BuildHead? ==> st.act.max == m)
    ensures Leads(init, Next(sys, st), m) && Reachable(Next(sys, st))
  {
    LeadsOn(init, sys, m, st);
    StepReachable(sys, st);
  }

  // ---------- the receiver reads what it can ----------

  /** The reader side after one read, in terms of the sweep. */
  lemma ReadUnjams(x: Node, accepted: seq<byte>, frozen: bool)
    requires ReceiverRuns(accepted, frozen, ReceiverOf(x)) && Limits(x) && !x.ended
    requires x.reading.Some? && x.s.rx.readOffset <= |x.reading.value|
    ensures !Jammed(x) ==> !Jammed(ReadOnce(x))
    ensures x.delivered <= ReadOnce(x).delivered
    ensures x.s.rx.readOffset < |x.reading.value| && Covered(x.s.rx.queue, |x.delivered|) ==>
              |x.delivered| < |ReadOnce(x).delivered|
  {
    var q, d, room := x.s.rx.queue, |x.delivered|, |x.reading.value| - x.s.rx.readOffset;
    if x.reading.value != [] {
      ReadEffect(x, room);
      ReadStays(x);
      SweepUnjams(q, d, room, x.s.rx.queueMax);
      if room > 0 && Covered(q, d) {
        SweepProgresses(q, d, room);
      }
    }
  }

  /** If the buffer is not filled, no undistributed entry is left at or below the read
      position. */
  lemma ReadClears(x: Node)
    requires SortedByRange(x.s.rx.queue) && x.s.rx.distributed == |x.delivered|
    requires x.reading.Some? && x.reading.value != [] && x.s.rx.readOffset <= |x.reading.value|
    ensures var x' := ReadOnce(x);
            x'.reading.Some? || |x'.delivered| - |x.delivered| < |x.reading.value| - x.s.rx.readOffset ==>
              Cleared(x'.s.rx.queue, |x'.delivered|)
  {
    var q, d, room := x.s.rx.queue, |x.delivered|, |x.reading.value| - x.s.rx.readOffset;
    ReadEffect(x, room);
    SweepOfRead(x.s, |x.reading.value|);
    SweepClears(q, d, room);
  }

  /** What goes on at the receiver leaves the sender alone. */
  ghost predicate SameSender(sys: System, sys': System) {
    sys'.a == sys.a && sys'.ab == sys.ab && sys'.b.s.rx.queueMax == sys.b.s.rx.queueMax
  }

  /** The receiver has got no less, and byte d if that was queued. */
  ghost predicate Advanced(x: Node, x': Node) {
    x.delivered <= x'.delivered && (Covered(x.s.rx.queue, |x.delivered|) ==> Kept(x', |x.delivered|))
  }

  lemma OneRead(init: System, sys: System, m: nat) returns (sys': System)
    requires Leads(init, sys, m) && Open(sys) && !Jammed(sys.b) && sys.b.reading.Some?
    ensures Leads(init, sys', m) && Open(sys') && !Jammed(sys'.b) && SameSender(sys, sys') && Advanced(sys.b, sys'.b)
    ensures sys'.b.reading.Some? ==>
              Cleared(sys'.b.s.rx.queue, |sys'.b.delivered|) && sys.b.s.rx.readOffset < |sys.b.reading.value|
    ensures sys.b.s.rx.readOffset < |sys.b.reading.value| && Covered(sys.b.s.rx.queue, |sys.b.delivered|) ==>
              |sys.b.delivered| < |sys'.b.delivered|
    ensures |sys.b.reading.value| - sys.b.s.rx.readOffset > |sys.a.accepted| - |sys.b.delivered| ==>
              Cleared(sys'.b.s.rx.queue, |sys'.b.delivered|)
  {
    var frozen := SenderOf(sys.a).Frozen();
    ReachableInv(sys);
    ReachableLimits(sys);
    Go(init, sys, m, Step(B, Action.Read));
    sys' := Next(sys, Step(B, Action.Read));
    assert sys' == System(sys.a, ReadOnce(sys.b), sys.ab, sys.ba);
    ReachableInv(sys');
    ReadUnjams(sys.b, sys.a.accepted, frozen);
    ReadCoverageAt(sys.b, sys.a.accepted, frozen);
    ReadStays(sys.b);
    if sys.b.reading.value != [] {
      ReadClears(sys.b);
    }
  }

  lemma ReadCoverageAt(x: Node, accepted: seq<byte>, frozen: bool)
    requires ReceiverRuns(accepted, frozen, ReceiverOf(x)) && !x.ended
    requires x.reading.Some? && x.s.rx.readOffset <= |x.reading.value|
    ensures Covered(x.s.rx.queue, |x.delivered|) ==> Kept(ReadOnce(x), |x.delivered|)
  {
    if Covered(x.s.rx.queue, |x.delivered|) {
      ReadCoverage(x, |x.delivered|);
    }
  }

  lemma ReadStays(x: Node)
    requires x.reading.Some? && (x.reading.value == [] || x.s.rx.readOffset <= |x.reading.value|)
    ensures var x' := ReadOnce(x);
            && x'.ended == x.ended && x'.s.closing == x.s.closing && x'.s.rx.queueMax == x.s.rx.queueMax
            && (x'.reading.Some? ==> x.reading.value != [] && x.s.rx.readOffset < |x.reading.value|)
  {
    if x.reading.value != [] {
      SweepOfRead(x.s, |x.reading.value|);
    }
  }

  lemma OpensRead(init: System, sys: System, m: nat, buffer: seq<byte>) returns (sys': System)
    requires Leads(init, sys, m) && Open(sys) && sys.b.reading.None?
    ensures Leads(init, sys', m) && Open(sys')
    ensures sys' == System(sys.a, sys.b.(reading := Some(buffer)), sys.ab, sys.ba) && sys.b.s.rx.readOffset == 0
  {
    ReachableInv(sys);
    Go(init, sys, m, Step(B, OpenRead(buffer)));
    sys' := Next(sys, Step(B, OpenRead(buffer)));
  }

  lemma BigRead(init: System, sys: System, m: nat) returns (sys': System)
    requires Leads(init, sys, m) && Open(sys) && !Jammed(sys.b) && sys.b.reading.None?
    ensures Leads(init, sys', m) && Open(sys') && !Jammed(sys'.b) && SameSender(sys, sys')
    ensures sys.b.delivered <= sys'.b.delivered && Cleared(sys'.b.s.rx.queue, |sys'.b.delivered|)
    ensures Covered(sys.b.s.rx.queue, |sys.b.delivered|) ==> |sys.b.delivered| < |sys'.b.delivered|
  {
    var buffer := seq(|sys.a.accepted| + 1, i => 0 as byte);
    var sys1 := OpensRead(init, sys, m, buffer);
    sys' := OneRead(init, sys1, m);
  }

  /** The receiver reads until nothing undistributed is left that it could read. */
  lemma ReadsAll(init: System, sys: System, m: nat) returns (sys': System)
    requires Leads(init, sys, m) && Open(sys) && !Jammed(sys.b)
    ensures Leads(init, sys', m) && Open(sys') && !Jammed(sys'.b) && SameSender(sys, sys')
    ensures sys.b.delivered <= sys'.b.delivered && Cleared(sys'.b.s.rx.queue, |sys'.b.delivered|)
    ensures Covered(sys.b.s.rx.queue, |sys.b.delivered|) ==> |sys.b.delivered| < |sys'.b.delivered|
  {
    if sys.b.reading.None? {
      sys' := BigRead(init, sys, m);
    } else {
      var sys1 := OneRead(init, sys, m);
      if sys1.b.reading.Some? {
        sys' := sys1;
      } else {
        sys' := BigRead(init, sys1, m);
      }
    }
  }

  lemma {:induction false} AckShrinks(q: seq<Mark>, start: nat, end: nat, m: Mark)
    requires m in q && Erased(m, start, end)
    ensures |AckRange(q, start, end)| < |q|
  {
    QueueLengths(q[1..], start, end);
    if m != q[0] {
      AckShrinks(q[1..], start, end, m);
    }
  }

  /** The queue has room, and its entries all lie ahead. */
  ghost predicate Roomy(y: Node) {
    && |y.s.rx.queue| < y.s.rx.queueMax
    && forall m :: m in y.s.rx.queue ==> !m.distributed && m.block.offset > |y.delivered|
  }

  /** Acknowledging what was read makes room in a queue that is not jammed. */
  lemma AckMakesRoom(y: Node)
    requires Limits(y) && !Jammed(y) && y.s.rx.distributed == |y.delivered|
    requires Cleared(y.s.rx.queue, |y.delivered|) && BitsTrue(y.s.rx.queue, |y.delivered|, y.s.eof)
    ensures Roomy(AckOnce(y, Range(0, |y.delivered|)))
  {
    var q, d := y.s.rx.queue, |y.delivered|;
    AckLeaves(q, 0, d);
    forall m' | m' in AckRange(q, 0, d) ensures !m'.distributed && m'.block.offset > d {
      assert LeftOf(m', q, 0, d);
    }
    if m :| m in q && m.distributed {
      AckShrinks(q, 0, d, m);
    } else {
      AckKeepsUndistributed(q, 0, d);
    }
  }

  lemma Drains(init: System, sys: System, m: nat) returns (sys': System)
    requires Leads(init, sys, m) && Open(sys) && !Jammed(sys.b)
    ensures Leads(init, sys', m) && Open(sys') && SameSender(sys, sys') && Roomy(sys'.b)
    ensures sys.b.delivered <= sys'.b.delivered
    ensures Covered(sys.b.s.rx.queue, |sys.b.delivered|) ==> |sys.b.delivered| < |sys'.b.delivered|
  {
    var sys1 := ReadsAll(init, sys, m);
    var r := Range(0, |sys1.b.delivered|);
    ReachableInv(sys1);
    ReachableLimits(sys1);
    AckMakesRoom(sys1.b);
    Go(init, sys1, m, Step(B, Acknowledge(r)));
    sys' := Next(sys1, Step(B, Acknowledge(r)));
    assert sys' == System(sys1.a, AckOnce(sys1.b, r), sys1.ab, sys1.ba);
  }

  // ---------- the sender offers the next byte ----------

  lemma {:induction false} RemoveAllSent(q: seq<Sent>, end: nat)
    requires forall b :: b in BlocksOf(q) ==> b.End() <= end
    ensures RemoveSent(q, 0, end) == []
  {
    if q != [] {
      assert q[0].block in BlocksOf(q);
      RemoveAllSent(q[1..], end);
    }
  }

  lemma {:induction false} MovedEndsWithin(moved: seq<Block>, b: Block)
    requires Sequenced(moved) && b in moved
    ensures b.End() <= |Flat(moved)|
  {
    var n := |moved| - 1;
    if b != moved[n] {
      assert b in moved[..n];
      MovedEndsWithin(moved[..n], b);
    }
  }

  /** The receiver stays as it is; the sender accepts nothing. */
  ghost predicate SameReceiver(sys: System, sys': System) {
    sys'.b == sys.b && sys'.a.accepted == sys.a.accepted
  }

  /** Once all moved bytes were read, their acknowledgement empties sendmarkq_. */
  lemma FreesMarks(init: System, sys: System, m: nat) returns (sys': System)
    requires Leads(init, sys, m) && Open(sys) && |Flat(sys.a.moved)| <= |sys.b.delivered|
    ensures Leads(init, sys', m) && Open(sys') && SameReceiver(sys, sys') && sys'.a.s.tx.marks == []
    ensures sys'.a == sys.a.(s := sys.a.s.(tx := sys.a.s.tx.(marks := [])), released := sys'.a.released)
  {
    var r := Range(0, |sys.b.delivered|);
    ReachableInv(sys);
    assert Honest(r, ReceiverOf(sys.b).Stored());
    Go(init, sys, m, Step(B, SendAck(r)));
    var sys1 := Next(sys, Step(B, SendAck(r)));
    assert sys1 == System(sys.a, sys.b, sys.ab, sys.ba.(acks := sys.ba.acks + multiset{r}));
    Go(init, sys1, m, Step(A, Acked(r)));
    sys' := Next(sys1, Step(A, Acked(r)));
    forall b | b in BlocksOf(sys.a.s.tx.marks) ensures b.End() <= r.end {
      MovedEndsWithin(sys.a.moved, b);
    }
    RemoveAllSent(sys.a.s.tx.marks, r.end);
  }

  /** The head, if there is one, is moved. */
  lemma MovesHead(init: System, sys: System, m: nat) returns (sys': System)
    requires Leads(init, sys, m) && Open(sys) && |Flat(sys.a.moved)| <= |sys.b.delivered|
    ensures Leads(init, sys', m) && Open(sys') && SameReceiver(sys, sys')
    ensures sys'.a.s.tx.head.None? && sys'.a.s.tx.ring == sys.a.s.tx.ring
    ensures |Flat(sys'.a.moved)| == |Flat(sys.a.moved)| + |SenderOf(sys.a).HeadData()|
  {
    if sys.a.s.tx.head.None? {
      sys' := sys;
    } else {
      var sys1 := FreesMarks(init, sys, m);
      ReachableInv(sys1);
      Go(init, sys1, m, Step(A, MoveHead(0)));
      sys' := Next(sys1, Step(A, MoveHead(0)));
      assert sys' == System(MoveOnce(sys1.a, 0), sys1.b, sys1.ab, sys1.ba);
      FlatAppend(sys1.a.moved, HeadBlock(sys1.a));
    }
  }

  /** A new head takes the oldest bytes. */
  lemma BuildsHead(init: System, sys: System, m: nat) returns (sys': System)
    requires Leads(init, sys, m) && Open(sys) && sys.a.s.tx.head.None? && sys.a.s.tx.ring != [] && m >= 1
    ensures Leads(init, sys', m) && Open(sys') && SameReceiver(sys, sys') && sys'.a.moved == sys.a.moved
    ensures sys'.a.s.tx.head.Some? && |sys'.a.s.tx.ring| < |sys.a.s.tx.ring|
    ensures |sys'.a.s.tx.head.value.data| + |sys'.a.s.tx.ring| == |sys.a.s.tx.ring|
  {
    ReachableInv(sys);
    ReachableLimits(sys);
    Go(init, sys, m, Step(A, BuildHead(m)));
    sys' := Next(sys, Step(A, BuildHead(m)));
    assert sys' == System(BuildOnce(sys.a, m), sys.b, sys.ab, sys.ba);
  }

  /** The head comes to contain position d of the stream. */
  lemma {:induction false} HeadReaches(init: System, sys: System, m: nat, d: nat) returns (sys': System)
    requires Leads(init, sys, m) && Open(sys) && m >= 1 && d == |sys.b.delivered|
    requires |Flat(sys.a.moved)| <= d
    requires d < |Flat(sys.a.moved)| + |SenderOf(sys.a).HeadData()| + |sys.a.s.tx.ring|
    ensures Leads(init, sys', m) && Open(sys') && SameReceiver(sys, sys')
    ensures sys'.a.s.tx.head.Some? && HeadBlock(sys'.a).Covers(d)
    decreases |sys.a.s.tx.ring|
  {
    if d < |Flat(sys.a.moved)| + |SenderOf(sys.a).HeadData()| {
      sys' := sys;
    } else {
      var sys1 := MovesHead(init, sys, m);
      var sys2 := BuildsHead(init, sys1, m);
      sys' := HeadReaches(init, sys2, m, d);
    }
  }

  lemma {:induction false} FindSent(q: seq<Sent>, b: Block) returns (k: nat)
    requires b in BlocksOf(q)
    ensures k < |q| && q[k].block == b
  {
    if q[0].block == b {
      k := 0;
    } else {
      var i := FindSent(q[1..], b);
      k := i + 1;
    }
  }

  /** A block with the byte that the reader needs next is put on the wire. */
  lemma Offers(init: System, sys: System, m: nat) returns (sys': System, b: Block)
    requires Leads(init, sys, m) && Open(sys) && m >= 1 && Roomy(sys.b) && |sys.b.delivered| < |sys.a.accepted|
    ensures Leads(init, sys', m) && Open(sys') && SameReceiver(sys, sys')
    ensures b in sys'.ab.blocks && b.Covers(|sys.b.delivered|)
  {
    var d, w := |sys.b.delivered|, SenderOf(sys.a);
    ReachableInv(sys);
    NothingLost(w, ReceiverOf(sys.b), sys.ab.blocks, sys.ba.acks, d);
    if c :| c in BlocksOf(w.tx.marks) && c.Covers(d) {
      b := c;
      var k := FindSent(sys.a.s.tx.marks, b);
      Go(init, sys, m, Step(A, Retransmit(k, 0)));
      sys' := Next(sys, Step(A, Retransmit(k, 0)));
    } else {
      var sys1 := HeadReaches(init, sys, m, d);
      b := HeadBlock(sys1.a);
      ReachableInv(sys1);
      Go(init, sys1, m, Step(A, SendHead));
      sys' := Next(sys1, Step(A, SendHead));
    }
  }

  // ---------- the whole stream ----------

  /** One more byte at least is delivered. */
  lemma Advances(init: System, sys: System, m: nat) returns (sys': System)
    requires Leads(init, sys, m) && Open(sys) && m >= 1 && Roomy(sys.b) && |sys.b.delivered| < |sys.a.accepted|
    ensures Leads(init, sys', m) && Open(sys') && Roomy(sys'.b) && sys'.a.accepted == sys.a.accepted
    ensures |sys.b.delivered| < |sys'.b.delivered|
  {
    var d := |sys.b.delivered|;
    var sys1, b := Offers(init, sys, m);
    ReachableInv(sys1);
    Go(init, sys1, m, Step(B, Receive(b)));
    var sys2 := Next(sys1, Step(B, Receive(b)));
    assert sys2 == System(sys1.a, Store(sys1.b, b), sys1.ab.(blocks := sys1.ab.blocks - multiset{b}), sys1.ba);
    StoreCoverage(sys1.b, b, d);
    ReachableInv(sys2);
    assert !Jammed(sys2.b) by {
      var i :| 0 <= i < |sys2.b.s.rx.queue| && sys2.b.s.rx.queue[i].block.Covers(d);
      assert sys2.b.s.rx.queue[i] in sys2.b.s.rx.queue;
    }
    sys' := Drains(init, sys2, m);
  }

  lemma {:induction false} Completes(init: System, sys: System, m: nat) returns (sys': System)
    requires Leads(init, sys, m) && Open(sys) && m >= 1 && Roomy(sys.b)
    ensures Leads(init, sys', m) && Reachable(sys') && sys'.b.delivered == sys'.a.accepted == sys.a.accepted
    decreases |sys.a.accepted| - |sys.b.delivered|
  {
    DeliveredIsPrefix(sys);
    if |sys.b.delivered| == |sys.a.accepted| {
      sys' := sys;
    } else {
      var sys1 := Advances(init, sys, m);
      DeliveredIsPrefix(sys1);
      sys' := Completes(init, sys1, m);
    }
  }

  /** Some run from here, with all heads cut with maximum m, delivers all that was
      accepted so far. */
  ghost predicate CanComplete(sys: System, m: nat) {
    exists sys' :: Leads(sys, sys', m) && sys.a.accepted <= sys'.b.delivered
  }

  /** From a reachable state in which neither side has ended and the receiver has not
      closed, everything accepted can still be delivered, with blocks of any size, if and
      only if it is delivered already or the receiver is not jammed. */
  lemma CompletesUnlessJammed(sys: System, m: nat)
    requires Open(sys) && m >= 1
    ensures CanComplete(sys, m) <==> sys.b.delivered == sys.a.accepted || !Jammed(sys.b)
  {
    DeliveredIsPrefix(sys);
    LeadsNowhere(sys, m);
    if sys.b.delivered != sys.a.accepted && !Jammed(sys.b) {
      var sys1 := Drains(sys, sys, m);
      var sys2 := Completes(sys, sys1, m);
    }
    if CanComplete(sys, m) && Jammed(sys.b) {
      var sys' :| Leads(sys, sys', m) && sys.a.accepted <= sys'.b.delivered;
      var steps :| HeadsOf(steps, m) && Runs(sys, steps) && After(sys, steps) == sys';
      JammedForever(sys, steps);
    }
  }
}
