/** What holds in every reachable state of two sessions and the network. */
module EndToEnd {
  import opened Blocks
  import opened SessionSpec
  import opened SweepFacts
  import opened SenderFacts
  import opened Network
  import opened Invariants
  import opened NetworkProofs

  /** The invariant seen from node x: what it sends to y, and what it gets from y. */
  ghost predicate Both(x: Node, y: Node, out: Wire, inn: Wire) {
    && Direction(SenderOf(x), ReceiverOf(y), out.blocks, inn.acks)
    && Direction(SenderOf(y), ReceiverOf(x), inn.blocks, out.acks)
  }

  // ---------- every action keeps it ----------

  /** The sender of x changes, its receiver does not. */
  lemma SenderChanges(x: Node, y: Node, out: Wire, inn: Wire, x': Node)
    requires Both(x, y, out, inn) && SenderOk(SenderOf(x')) && x'.released == x.released
    requires ReceiverOf(x') == ReceiverOf(x)
    requires Grows(x.accepted, SenderOf(x).Frozen(), x'.accepted, SenderOf(x').Frozen())
    ensures Both(x', y, out, inn)
  {
    DirectionGrows(SenderOf(x), SenderOf(x'), ReceiverOf(y), out.blocks, inn.acks);
  }

  /** The receiver of x changes; its sender does not, or it freezes. */
  lemma ReceiverChanges(x: Node, y: Node, out: Wire, inn: Wire, x': Node)
    requires Both(x, y, out, inn)
    requires ReceiverOk(y.accepted, SenderOf(y).Frozen(), ReceiverOf(x'))
    requires ReceiverOf(x).Stored() <= ReceiverOf(x').Stored()
    requires SenderOf(x') == SenderOf(x) || SenderOf(x') == SenderOf(x).(eof := true)
    ensures Both(x', y, out, inn)
  {
    if SenderOf(x') != SenderOf(x) {
      SenderFreezes(SenderOf(x), SenderOf(x'));
      DirectionGrows(SenderOf(x), SenderOf(x'), ReceiverOf(y), out.blocks, inn.acks);
    }
  }

  lemma KeepsWriting(x: Node, y: Node, out: Wire, inn: Wire, act: Action)
    requires Both(x, y, out, inn) && NodeEnabled(x, out, inn, act) && (act.Write? || act.Start? || act.Requeue?)
    ensures Both(NodeNext(x, out, inn, act).0, y, out, inn)
  {
    if act.Write? {
      SenderWrite(x, act.data);
      SenderChanges(x, y, out, inn, WriteOnce(x, act.data));
    }
  }

  lemma KeepsSending(x: Node, y: Node, out: Wire, inn: Wire, act: Action)
    requires Both(x, y, out, inn) && NodeEnabled(x, out, inn, act) && (act.BuildHead? || act.MoveHead?)
    ensures Both(NodeNext(x, out, inn, act).0, y, out, inn)
  {
    if act.BuildHead? {
      SenderBuildHead(x, act.max);
      SenderChanges(x, y, out, inn, BuildOnce(x, act.max));
    } else {
      SenderMoveHead(x, act.clock);
      SenderChanges(x, y, out, inn, MoveOnce(x, act.clock));
    }
  }

  lemma KeepsTransmitting(x: Node, y: Node, out: Wire, inn: Wire, act: Action)
    requires Both(x, y, out, inn) && NodeEnabled(x, out, inn, act)
    requires act.SendHead? || act.Retransmit?
    ensures var (x', out', inn') := NodeNext(x, out, inn, act); Both(x', y, out', inn')
  {
    var x' := NodeNext(x, out, inn, act).0;
    if act.SendHead? {
      HeadGenuine(x);
    } else {
      SenderRetransmit(x, act.k, act.newClock);
    }
    SenderChanges(x, y, out, inn, x');
  }

  lemma KeepsAcked(x: Node, y: Node, out: Wire, inn: Wire, r: Range)
    requires Both(x, y, out, inn) && NodeEnabled(x, out, inn, Acked(r))
    ensures var (x', out', inn') := NodeNext(x, out, inn, Acked(r)); Both(x', y, out', inn')
  {
    SenderAcked(x, r);
  }

  lemma KeepsStoring(x: Node, y: Node, out: Wire, inn: Wire, b: Block)
    requires Both(x, y, out, inn) && NodeEnabled(x, out, inn, Receive(b))
    ensures Both(Store(x, b), y, out, inn.(blocks := inn.blocks - multiset{b}))
  {
    ReceiverStore(y.accepted, SenderOf(y).Frozen(), x, b);
    ReceiverChanges(x, y, out, inn, Store(x, b));
  }

  lemma KeepsAcknowledging(x: Node, y: Node, out: Wire, inn: Wire, r: Range)
    requires Both(x, y, out, inn) && !x.ended
    ensures Both(AckOnce(x, r), y, out, inn)
  {
    var x' := AckOnce(x, r);
    ReceiverAcknowledge(y.accepted, SenderOf(y).Frozen(), x, r);
    assert ReceiverOf(x').Stored() == ReceiverOf(x).Stored();
    ReceiverChanges(x, y, out, inn, x');
  }

  lemma KeepsReceiving(x: Node, y: Node, out: Wire, inn: Wire, act: Action)
    requires Both(x, y, out, inn) && NodeEnabled(x, out, inn, act)
    requires act.Receive? || act.Acknowledge? || act.SendAck?
    ensures var (x', out', inn') := NodeNext(x, out, inn, act); Both(x', y, out', inn')
  {
    match act {
      case Receive(b) => KeepsStoring(x, y, out, inn, b);
      case Acknowledge(r) => KeepsAcknowledging(x, y, out, inn, r);
      case SendAck(_) => assert Honest(act.stored, ReceiverOf(x).Stored());
    }
  }

  lemma KeepsReading(x: Node, y: Node, out: Wire, inn: Wire, act: Action)
    requires Both(x, y, out, inn) && NodeEnabled(x, out, inn, act) && (act.OpenRead? || act.Read?)
    ensures var (x', out', inn') := NodeNext(x, out, inn, act); Both(x', y, out', inn')
  {
    var accepted, frozen := y.accepted, SenderOf(y).Frozen();
    var x' := NodeNext(x, out, inn, act).0;
    if act.OpenRead? {
      ReceiverOpenRead(accepted, frozen, ReceiverOf(x), act.buffer);
      assert ReceiverOf(x').Stored() == ReceiverOf(x).Stored();
    } else {
      ReceiverRead(accepted, frozen, x);
    }
    ReceiverChanges(x, y, out, inn, x');
  }

  /** A node that closes locally, or ends. */
  lemma KeepsStopped(x: Node, y: Node, out: Wire, inn: Wire, x': Node)
    requires Both(x, y, out, inn)
    requires var w, w' := SenderOf(x), SenderOf(x');
             || w' == w.(eof := true)
             || (w'.ended && w'.tx.ring == [] && w' == w.(tx := w'.tx, eof := w'.eof, ended := true))
    requires var r, r' := ReceiverOf(x), ReceiverOf(x');
             || r' == r.(closing := true, eof := true)
             || (r'.ended && r' == r.(rx := r'.rx, eof := r'.eof, closing := r'.closing, ended := true))
    ensures Both(x', y, out, inn)
  {
    SenderFreezes(SenderOf(x), SenderOf(x'));
    ReceiverStops(y.accepted, SenderOf(y).Frozen(), ReceiverOf(x), ReceiverOf(x'));
    DirectionGrows(SenderOf(x), SenderOf(x'), ReceiverOf(y), out.blocks, inn.acks);
    assert ReceiverOf(x').Stored() == ReceiverOf(x).Stored();
  }

  lemma KeepsClosing(x: Node, y: Node, out: Wire, inn: Wire, act: Action)
    requires Both(x, y, out, inn) && NodeEnabled(x, out, inn, act) && (act.Close? || act.Finish?)
    ensures var (x', out', inn') := NodeNext(x, out, inn, act); Both(x', y, out', inn')
  {
    var x' := NodeNext(x, out, inn, act).0;
    if act.Close? && !x.s.running {
      assert SenderOf(x') == SenderOf(x) && ReceiverOf(x') == ReceiverOf(x);
    } else {
      KeepsStopped(x, y, out, inn, x');
    }
  }

  lemma ActionKeepsBoth(x: Node, y: Node, out: Wire, inn: Wire, act: Action)
    requires Both(x, y, out, inn) && NodeEnabled(x, out, inn, act)
    ensures var (x', out', inn') := NodeNext(x, out, inn, act); Both(x', y, out', inn')
  {
    if act.Write? || act.Start? || act.Requeue? {
      KeepsWriting(x, y, out, inn, act);
    } else if act.BuildHead? || act.MoveHead? {
      KeepsSending(x, y, out, inn, act);
    } else if act.SendHead? || act.Retransmit? {
      KeepsTransmitting(x, y, out, inn, act);
    } else if act.Acked? {
      KeepsAcked(x, y, out, inn, act.range);
    } else if act.Receive? || act.Acknowledge? || act.SendAck? {
      KeepsReceiving(x, y, out, inn, act);
    } else if act.OpenRead? || act.Read? {
      KeepsReading(x, y, out, inn, act);
    } else if act.Close? || act.Finish? {
      KeepsClosing(x, y, out, inn, act);
    }
  }

  lemma InitialInv(sys: System)
    requires Initial(sys)
    ensures Inv(sys)
  {
  }

  lemma {:induction false} InvAlways(sys: System, steps: seq<Step>)
    requires Inv(sys) && Runs(sys, steps)
    ensures Inv(After(sys, steps))
    decreases |steps|
  {
    if steps != [] {
      match steps[0].side {
        case A => ActionKeepsBoth(sys.a, sys.b, sys.ab, sys.ba, steps[0].act);
        case B => ActionKeepsBoth(sys.b, sys.a, sys.ba, sys.ab, steps[0].act);
      }
      InvAlways(Next(sys, steps[0]), steps[1..]);
    }
  }

  ghost predicate Reachable(sys: System) {
    exists init, steps :: Initial(init) && Runs(init, steps) && After(init, steps) == sys
  }

  lemma ReachableInv(sys: System)
    requires Reachable(sys)
    ensures Inv(sys)
  {
    var init, steps :| Initial(init) && Runs(init, steps) && After(init, steps) == sys;
    InitialInv(init);
    InvAlways(init, steps);
  }

  // ---------- what the invariant says ----------

  /** The bytes copied to the reader, and those that its finished reads hold, are a
      prefix of the bytes accepted by `write` on the other side. */
  lemma DeliveredIsPrefix(sys: System)
    requires Reachable(sys)
    ensures sys.b.delivered <= sys.a.accepted && Joined(sys.b.completed) <= sys.a.accepted
    ensures sys.a.delivered <= sys.b.accepted && Joined(sys.a.completed) <= sys.b.accepted
  {
    ReachableInv(sys);
  }

  /** However often a read was retried: its buffer holds the next stream bytes after
      those of the reads that have finished. */
  lemma ReadsAreConsecutive(sys: System)
    requires Reachable(sys) && !sys.b.ended
    ensures var b := sys.b;
            match b.reading
            case None => Joined(b.completed) <= sys.a.accepted && |Joined(b.completed)| == b.s.rx.distributed
            case Some(buf) =>
              var off := b.s.rx.readOffset;
              && off <= |buf| && |Joined(b.completed)| == b.s.rx.distributed - off
              && Joined(b.completed) + buf[..off] <= sys.a.accepted
  {
    ReachableInv(sys);
  }

  /** Moved blocks in move order, then the head, then the ring: all that was accepted;
      and a moved block that is not in sendmarkq_ was in an acknowledged range. */
  lemma SenderPartition(sys: System)
    requires Reachable(sys) && !sys.a.ended
    ensures var w := SenderOf(sys.a);
            && Flat(w.moved) + w.HeadData() + w.tx.ring == w.accepted && Sequenced(w.moved)
            && (forall b :: b in BlocksOf(w.tx.marks) ==> b in w.moved)
            && (forall b :: b in w.moved ==> b in BlocksOf(w.tx.marks) || Released(b, w.released))
  {
    ReachableInv(sys);
  }

  /** Until do_close a block leaves sendmarkq_ only by an acknowledged range that
      contains it; in particular a move that fails and a re-sort lose nothing. */
  lemma MarksLeaveOnlyWhenAcked(x: Node, out: Wire, inn: Wire, act: Action, b: Block)
    requires NodeEnabled(x, out, inn, act) && !act.Finish? && b in BlocksOf(x.s.tx.marks)
    ensures var q' := NodeNext(x, out, inn, act).0.s.tx.marks;
            b !in BlocksOf(q') <==> act.Acked? && b.Inside(act.range.start, act.range.end)
  {
    MarksNext(x, out, inn, act);
    MarksKept(x, act, b);
  }

  /** sendmarkq_ after the action. */
  ghost function MarksAfter(x: Node, act: Action): seq<Sent> {
    var q := x.s.tx.marks;
    match act
    case MoveHead(clock) =>
      if |q| >= x.s.tx.marksMax || x.s.tx.head.None? then q else InsertByClock(q, Sent(HeadBlock(x), clock))
    case Retransmit(k, clock) => if k < |q| then Resort(q, k, clock, Some(k)) else q
    case Acked(r) => RemoveSent(q, r.start, r.end)
    case _ => q
  }

  lemma MarksNext(x: Node, out: Wire, inn: Wire, act: Action)
    requires NodeEnabled(x, out, inn, act) && !act.Finish?
    ensures NodeNext(x, out, inn, act).0.s.tx.marks == MarksAfter(x, act)
  {
  }

  ghost predicate Queued(q: seq<Sent>, b: Block) {
    b in BlocksOf(q)
  }

  lemma MarksKept(x: Node, act: Action, b: Block)
    requires Queued(x.s.tx.marks, b)
    ensures Queued(MarksAfter(x, act), b) <==> !(act.Acked? && b.Inside(act.range.start, act.range.end))
  {
    match act
    case MoveHead(clock) => if x.s.tx.head.Some? { InsertKeepsMarks(x.s.tx.marks, Sent(HeadBlock(x), clock), b); }
    case Retransmit(k, clock) => if k < |x.s.tx.marks| { RetransmitKeepsMarks(x.s.tx.marks, k, clock, b); }
    case Acked(r) => AckedLeaves(x.s.tx.marks, r.start, r.end, b);
    case _ =>
  }

  lemma InsertKeepsMarks(q: seq<Sent>, e: Sent, b: Block)
    requires Queued(q, b)
    ensures Queued(InsertByClock(q, e), b)
  {
    BlocksOfInsert(q, e);
  }

  lemma RetransmitKeepsMarks(q: seq<Sent>, k: nat, clock: nat, b: Block)
    requires k < |q| && Queued(q, b)
    ensures Queued(Resort(q, k, clock, Some(k)), b)
  {
    ResortKeepsBlocks(q, k, clock, Some(k));
  }

  lemma AckedLeaves(q: seq<Sent>, start: nat, end: nat, b: Block)
    requires Queued(q, b)
    ensures Queued(RemoveSent(q, start, end), b) <==> !b.Inside(start, end)
  {
    BlocksOfRemoveSent(q, start, end);
  }

  // ---------- no loss ----------

  lemma {:induction false} MovedCovers(moved: seq<Block>, p: nat)
    requires Sequenced(moved) && p < |Flat(moved)|
    ensures exists b :: b in moved && b.Covers(p)
  {
    var n := |moved| - 1;
    if p < |Flat(moved[..n])| {
      MovedCovers(moved[..n], p);
      var b :| b in moved[..n] && b.Covers(p);
      assert b in moved;
    } else {
      assert moved[n].Covers(p) && moved[n] in moved;
    }
  }

  /** Where position p of the sender's stream still is, or that the reader has it. */
  ghost predicate Held(w: Sender, r: Receiver, p: nat) {
    || p < |r.delivered|
    || |Flat(w.moved)| <= p < |Flat(w.moved)| + |w.HeadData()| + |w.tx.ring|
    || (exists b :: b in BlocksOf(w.tx.marks) && b.Covers(p) && Genuine(b, w.accepted, w.Frozen()))
    || (exists m :: m in r.rx.queue && !m.distributed && m.block.Covers(p) && Genuine(m.block, w.accepted, w.Frozen()))
  }

  /** Every accepted byte was delivered, or is in the ring, the head, sendmarkq_ or the
      receiver's queue, whatever acknowledgements were processed; except, once the
      receiver has closed locally, bytes it stored after that. */
  lemma NothingLost(w: Sender, r: Receiver, blocks: multiset<Block>, acks: multiset<Range>, p: nat)
    requires Direction(w, r, blocks, acks) && !w.ended && !r.ended && p < |w.accepted|
    ensures Held(w, r, p) || (r.closing && p in r.late)
  {
    if p < |Flat(w.moved)| {
      MovedCovers(w.moved, p);
      var b :| b in w.moved && b.Covers(p);
      if b !in BlocksOf(w.tx.marks) {
        var range :| range in w.released && b.Inside(range.start, range.end);
        assert Honest(range, r.Stored());
        assert p in r.Stored();
        if p in r.live && p >= |r.delivered| {
          var m :| m in r.rx.queue && !m.distributed && m.block.Covers(p);
        }
      }
    }
  }

  /** The sender's structures are empty and the receiver, not closed locally, has
      nothing left for the reader: then the reader has every accepted byte. */
  lemma QuietMeansComplete(sys: System)
    requires Reachable(sys) && !sys.a.ended && !sys.b.ended && !sys.b.s.closing
    requires sys.a.s.tx.ring == [] && sys.a.s.tx.head.None? && sys.a.s.tx.marks == []
    requires Drained(sys.b.s.rx.queue, sys.b.s.rx.distributed)
    ensures sys.b.delivered == sys.a.accepted
  {
    ReachableInv(sys);
    var d, q := |sys.b.delivered|, sys.b.s.rx.queue;
    forall m | m in q ensures !m.block.Covers(d) {
      var i :| 0 <= i < |q| && q[i] == m;
    }
    if d < |sys.a.accepted| {
      NothingLost(SenderOf(sys.a), ReceiverOf(sys.b), sys.ab.blocks, sys.ba.acks, d);
      assert false;
    }
  }

  // ---------- EOF ----------

  lemma ActionGrows(x: Node, out: Wire, inn: Wire, act: Action)
    requires NodeEnabled(x, out, inn, act)
    ensures var x' := NodeNext(x, out, inn, act).0;
            Grows(x.accepted, SenderOf(x).Frozen(), x'.accepted, SenderOf(x').Frozen())
  {
  }

  lemma {:induction false} FrozenAcceptsNothing(sys: System, steps: seq<Step>)
    requires SenderOf(sys.a).Frozen() && Runs(sys, steps)
    ensures SenderOf(After(sys, steps).a).Frozen() && After(sys, steps).a.accepted == sys.a.accepted
    decreases |steps|
  {
    if steps != [] {
      if steps[0].side.A? {
        ActionGrows(sys.a, sys.ab, sys.ba, steps[0].act);
      }
      FrozenAcceptsNothing(Next(sys, steps[0]), steps[1..]);
    }
  }

  /** When `read` itself has set pending_eof_ from a received block, the reader has
      exactly the bytes that the peer ever accepted, now and after any further steps. */
  lemma EofIsExact(sys: System, steps: seq<Step>)
    requires Reachable(sys) && sys.b.eofSeen && Runs(sys, steps)
    ensures sys.b.delivered == sys.a.accepted == After(sys, steps).a.accepted
    ensures !sys.b.ended ==> sys.b.s.rx.distributed == |sys.a.accepted|
  {
    ReachableInv(sys);
    FrozenAcceptsNothing(sys, steps);
  }

  /** A read that completes short of its buffer reports EOF; and when a read reports EOF
      on a session not closed locally, full buffer or not, it or one before it has met the
      EOF block, and the reader has all that was ever accepted. */
  lemma ShortReadIsLast(sys: System)
    requires Reachable(sys) && !sys.b.ended && !sys.b.s.closing && sys.b.reading.Some?
    ensures sys.b.s.rx.readOffset <= |sys.b.reading.value|
    ensures var b', o := ReadOnce(sys.b), SessionSpec.Read(sys.b.s, |sys.b.reading.value|).outcome;
            o.Finished? ==>
              && (o.bytes < |sys.b.reading.value| ==> o.ec == Eof)
              && (o.ec == Eof ==> b'.eofSeen && b'.delivered == sys.a.accepted)
              && |b'.completed| == |sys.b.completed| + 1 && sys.b.completed <= b'.completed
              && |b'.completed[|sys.b.completed|]| == o.bytes
  {
    ReachableInv(sys);
    ReceiverRead(sys.a.accepted, SenderOf(sys.a).Frozen(), sys.b);
    if SessionSpec.Read(sys.b.s, |sys.b.reading.value|).outcome.Finished? {
      ReadFinishes(sys.b);
    }
  }

  lemma ReadFinishes(x: Node)
    requires x.reading.Some? && x.s.rx.readOffset <= |x.reading.value|
    requires SessionSpec.Read(x.s, |x.reading.value|).outcome.Finished?
    ensures var x', o := ReadOnce(x), SessionSpec.Read(x.s, |x.reading.value|).outcome;
            && (o.bytes < |x.reading.value| ==> o.ec == Eof)
            && (o.ec == Eof ==> x'.s.eof) && x'.s.closing == x.s.closing && x'.ended == x.ended
            && |x'.completed| == |x.completed| + 1 && x.completed <= x'.completed
            && |x'.completed[|x.completed|]| == o.bytes
  {
  }

  // ---------- the receiver ----------

  /** Every position stored while pending_eof_ was false is below the read position or
      covered by an undistributed entry; no entry is DONE. */
  lemma ReceiverConserves(sys: System)
    requires Reachable(sys) && !sys.b.ended
    ensures var rx := sys.b.s.rx;
            && (forall p :: p in sys.b.live ==> p < rx.distributed || CoveredUndistributed(rx.queue, p))
            && NoneDone(rx.queue) && SortedByRange(rx.queue)
  {
    ReachableInv(sys);
  }

  /** their_contiguous_sent_bytes never exceeds the read position, and until a local
      close it lags only inside one queued block. Acknowledging up to it, or any block
      still queued, is honest. */
  lemma ContiguousBound(sys: System)
    requires Reachable(sys) && !sys.b.ended
    ensures sys.b.s.rx.contiguous <= sys.b.s.rx.distributed
    ensures !sys.b.s.closing ==> LagWithinBlock(sys.b.s.rx.queue, sys.b.s.rx.contiguous, sys.b.s.rx.distributed)
    ensures Honest(Range(0, sys.b.s.rx.contiguous), sys.b.live + sys.b.late)
    ensures forall m :: m in sys.b.s.rx.queue ==> Honest(Range(m.block.offset, m.block.End()), sys.b.live + sys.b.late)
  {
    ReachableInv(sys);
    assert ReceiverOf(sys.b).Stored() == sys.b.live + sys.b.late;
    forall m | m in sys.b.s.rx.queue ensures Honest(Range(m.block.offset, m.block.End()), sys.b.live + sys.b.late) {
      assert forall p: nat :: m.block.Covers(p) ==> p in Positions(m.block);
      assert forall p: nat :: m.block.offset <= p < m.block.End() ==> m.block.Covers(p);
    }
  }

  /** Over every run of the session, do_close included, the contiguous count only grows. */
  lemma {:induction false} ContiguousMonotone(s: Sess, ops: seq<Op>)
    requires Runnable(s, ops)
    ensures s.rx.contiguous <= Run(s, ops).rx.contiguous
    decreases |ops|
  {
    if ops != [] {
      ContiguousMonotone(Apply(s, ops[0]), ops[1..]);
    }
  }

  // ---------- both directions ----------

  /** The system with the two sides exchanged. */
  function Mirror(sys: System): System {
    System(sys.b, sys.a, sys.ba, sys.ab)
  }

  function MirrorSteps(steps: seq<Step>): seq<Step> {
    if steps == [] then []
    else [Step(if steps[0].side.A? then B else A, steps[0].act)] + MirrorSteps(steps[1..])
  }

  lemma {:induction false} MirrorRuns(sys: System, steps: seq<Step>)
    requires Runs(sys, steps)
    ensures Runs(Mirror(sys), MirrorSteps(steps))
    ensures After(Mirror(sys), MirrorSteps(steps)) == Mirror(After(sys, steps))
    decreases |steps|
  {
    if steps != [] {
      var ms := MirrorSteps(steps);
      assert ms[1..] == MirrorSteps(steps[1..]);
      assert StepEnabled(Mirror(sys), ms[0]) && Next(Mirror(sys), ms[0]) == Mirror(Next(sys, steps[0]));
      MirrorRuns(Next(sys, steps[0]), steps[1..]);
    }
  }

  /** So what is stated for the bytes from a to b holds for those from b to a. */
  lemma MirrorReachable(sys: System)
    requires Reachable(sys)
    ensures Reachable(Mirror(sys))
  {
    var init, steps :| Initial(init) && Runs(init, steps) && After(init, steps) == sys;
    MirrorRuns(init, steps);
    assert Initial(Mirror(init));
  }

  lemma {:induction false} RunsConcat(sys: System, p: seq<Step>, q: seq<Step>)
    requires Runs(sys, p) && Runs(After(sys, p), q)
    ensures Runs(sys, p + q) && After(sys, p + q) == After(After(sys, p), q)
    decreases |p|
  {
    if p == [] {
      assert p + q == q;
    } else {
      assert (p + q)[0] == p[0] && (p + q)[1..] == p[1..] + q;
      RunsConcat(Next(sys, p[0]), p[1..], q);
    }
  }

  lemma OneStep(sys: System, st: Step)
    requires StepEnabled(sys, st)
    ensures Runs(sys, [st]) && After(sys, [st]) == Next(sys, st)
  {
    assert [st][1..] == [];
  }

  lemma StepReachable(sys: System, st: Step)
    requires Reachable(sys) && StepEnabled(sys, st)
    ensures Reachable(Next(sys, st))
  {
    var init, steps :| Initial(init) && Runs(init, steps) && After(init, steps) == sys;
    OneStep(sys, st);
    RunsConcat(init, steps, [st]);
  }
}
