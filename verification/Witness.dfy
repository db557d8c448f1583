/** Reachable states in which the exceptions to the theorems occur. */
module Witnesses {
  import opened Blocks
  import opened SessionSpec
  import opened SweepFacts
  import opened AckFacts
  import opened Network
  import opened Invariants
  import opened EndToEnd
  import SenderFacts
  import ClosingFacts
  import ReportFacts
  import NetworkProofs
  import opened JamFacts
  import opened Completion
  import opened Transfers

  lemma WritesOnly(m: nat, data: seq<byte>, capacity: nat, marksMax: nat, queueMax: nat) returns (sys: System)
    requires |data| <= capacity && marksMax > 0
    ensures var init := Pristine(capacity, marksMax, queueMax);
            && Leads(init, sys, m) && SenderAt(sys.a, data, 0) && !sys.a.s.eof && sys.a.s.tx.marks == []
            && sys.a.s.tx.marksMax == marksMax && sys.b == init.b
  {
    var init := Pristine(capacity, marksMax, queueMax);
    LeadsNowhere(init, m);
    LeadsOn(init, init, m, Step(A, Action.Write(data)));
    sys := Next(init, Step(A, Action.Write(data)));
    assert [] + data == data;
  }

  // ---------- a receiver that has closed ----------

  /** One block, put into a session after its local close. */
  ghost predicate LateState(sys: System, b: Block) {
    && !sys.a.ended && sys.a.accepted == b.data && sys.a.s.tx.ring == [] && sys.a.s.tx.head.None?
    && sys.a.s.tx.marks == [Sent(b, 0)] && NextOffset(sys.a) == |b.data|
    && !sys.b.ended && sys.b.s.closing && sys.b.delivered == [] && |sys.b.s.tx.ring| <= sys.b.s.tx.capacity
    && sys.b.s.rx.queue == [Mark(b, true, false)] && sys.b.s.rx.distributed == 0 && Positions(b) <= sys.b.late
  }

  lemma SendsOneByte(x: byte) returns (sys: System)
    ensures Leads(Pristine(1, 1, 1), sys, 1)
    ensures var b := Block(0, [x], false);
            && b in sys.ab.blocks && sys.b == Pristine(1, 1, 1).b
            && !sys.a.ended && sys.a.accepted == [x] && sys.a.s.tx.ring == [] && sys.a.s.tx.head.None?
            && sys.a.s.tx.marks == [Sent(b, 0)] && NextOffset(sys.a) == 1
  {
    var init, b := Pristine(1, 1, 1), Block(0, [x], false);
    var sys1 := WritesOnly(1, [x], 1, 1, 1);
    sys := SendsNext(init, sys1, 1, [x], 0);
    assert b == NextBlock([x], 0, 1, false);
    assert sys.a.s.tx.marks == [Sent(b, 0)];
  }

  lemma ReachesLateState(x: byte) returns (sys: System)
    ensures Leads(Pristine(1, 1, 1), sys, 1) && LateState(sys, Block(0, [x], false))
  {
    var init, b := Pristine(1, 1, 1), Block(0, [x], false);
    var sys1 := SendsOneByte(x);
    LeadsOn(init, sys1, 1, Step(B, Action.Start));
    var sys2 := Next(sys1, Step(B, Action.Start));
    LeadsOn(init, sys2, 1, Step(B, Action.Close));
    var sys3 := Next(sys2, Step(B, Action.Close));
    LeadsOn(init, sys3, 1, Step(B, Receive(b)));
    sys := Next(sys3, Step(B, Receive(b)));
  }

  /** A receiver that has closed locally can lose an accepted byte: nothing is queued on
      either side any more, and no reader has it. */
  lemma LateByteIsLost(x: byte)
    ensures exists sys :: && Reachable(sys) && sys.b.s.closing && !sys.a.ended && !sys.b.ended
                          && 0 < |sys.a.accepted| && !Held(SenderOf(sys.a), ReceiverOf(sys.b), 0)
                          && sys.b.s.rx.queue == []
  {
    var sys1 := ReachesLateState(x);
    var sys2 := AcksNext(Pristine(1, 1, 1), sys1, 1, Block(0, [x], false));
    LeadsReachable(1, 1, 1, sys2, 1);
  }

  /** And whether a reader still gets it depends on whether the read or the
      acknowledgement comes first. */
  lemma LateOrderMatters(x: byte)
    ensures exists sys :: && Reachable(sys) && sys.b.s.closing && !sys.b.ended
                          && Sweep(sys.b.s.rx.queue, sys.b.s.rx.distributed, 1).out == [x]
                          && Sweep(AckRange(sys.b.s.rx.queue, 0, 1), sys.b.s.rx.distributed, 1).out == []
  {
    var b := Block(0, [x], false);
    var sys := ReachesLateState(x);
    LeadsReachable(1, 1, 1, sys, 1);
    AcksOne(b, 0);
    var q := sys.b.s.rx.queue;
    assert Fits(q, 0, 1) && q[1..] == [] && NewBytes(b, 0) == [x] && [x] + [] == [x];
    assert SweepOut(q, 0, 1) == [x] && SweepOut([], 0, 1) == [];
  }

  // ---------- an acknowledgement that comes first ----------

  function Ten(): seq<byte> { [0, 1, 2, 3, 4, 5, 6, 7, 8, 9] }

  /** Two blocks of five bytes; seven bytes were read at once. */
  ghost predicate LaggingState(sys: System) {
    && !sys.b.ended && !sys.b.s.closing && sys.b.s.rx.distributed == 7 && sys.b.s.rx.contiguous == 5
    && sys.b.s.rx.queue
       == [Mark(Block(0, Ten()[..5], false), true, false), Mark(Block(5, Ten()[5..], false), false, false)]
  }

  lemma SweepsSeven(b: Block, c: Block)
    requires b.offset == 0 && |b.data| == 5 && c.offset == 5 && |c.data| == 5 && !b.eof
    ensures var sw := Sweep([Mark(b, false, false), Mark(c, false, false)], 0, 7);
            && sw.kept == [Mark(b, true, false), Mark(c, false, false)] && |sw.out| == 7 && !sw.eof && sw.settled == 5
  {
    var q := [Mark(b, false, false), Mark(c, false, false)];
    var rest := [Mark(c, false, false)];
    assert q[1..] == rest && !Fits(rest, 5, 2) && Fits(q, 0, 7);
    SweepFirst(q, 0, 7);
    SweepNothing(rest, 5, 2);
    assert Settled(rest, 5, 2) == 0;
  }

  lemma PutsTwo(y: Node, b: Block, c: Block)
    requires b == Block(0, Ten()[..5], false) && c == Block(5, Ten()[5..], false)
    requires y.s.rx.queue == [] && y.s.rx.queueMax >= 2 && !y.s.eof
    ensures var y' := Store(Store(y, b), c);
            && y'.s.rx == y.s.rx.(queue := [Mark(b, false, false), Mark(c, false, false)])
            && y'.s.tx == y.s.tx && !y'.s.eof && y'.s.closing == y.s.closing && y'.ended == y.ended
            && y'.reading == y.reading
  {
    var p := [Mark(b, false, false)];
    StoresNext(y, b);
    assert p[1..] == [] && InsertByRange([], Mark(c, false, false)) == [Mark(c, false, false)];
    assert InsertByRange(p, Mark(c, false, false)) == [p[0]] + [Mark(c, false, false)];
  }

  lemma SendsTwo(b: Block, c: Block) returns (sys: System)
    requires b == Block(0, Ten()[..5], false) && c == Block(5, Ten()[5..], false)
    ensures Leads(Pristine(10, 2, 2), sys, 5) && b in sys.ab.blocks && c in sys.ab.blocks - multiset{b}
    ensures sys.b == Pristine(10, 2, 2).b
  {
    var init := Pristine(10, 2, 2);
    var sys1 := WritesOnly(5, Ten(), 10, 2, 2);
    var sys2 := SendsNext(init, sys1, 5, Ten(), 0);
    assert b == NextBlock(Ten(), 0, 5, false) && c == NextBlock(Ten(), 5, 5, false);
    assert |sys2.a.s.tx.marks| == 1;
    sys := SendsNext(init, sys2, 5, Ten(), 5);
  }

  lemma ReceivesTwo(b: Block, c: Block) returns (sys: System)
    requires b == Block(0, Ten()[..5], false) && c == Block(5, Ten()[5..], false)
    ensures Leads(Pristine(10, 2, 2), sys, 5)
    ensures && !sys.b.ended && !sys.b.s.closing && !sys.b.s.eof && sys.b.reading.None? && sys.b.s.tx.ring == []
            && sys.b.s.rx == Fresh(10, 2, 2).rx.(queue := [Mark(b, false, false), Mark(c, false, false)])
  {
    var init := Pristine(10, 2, 2);
    var sys1 := SendsTwo(b, c);
    LeadsOn(init, sys1, 5, Step(B, Receive(b)));
    var sys2 := Next(sys1, Step(B, Receive(b)));
    LeadsOn(init, sys2, 5, Step(B, Receive(c)));
    sys := Next(sys2, Step(B, Receive(c)));
    PutsTwo(sys1.b, b, c);
  }

  lemma ReachesLaggingState(buffer: seq<byte>) returns (sys: System)
    requires |buffer| == 7
    ensures Leads(Pristine(10, 2, 2), sys, 5) && LaggingState(sys)
  {
    var init, b, c := Pristine(10, 2, 2), Block(0, Ten()[..5], false), Block(5, Ten()[5..], false);
    var sys1 := ReceivesTwo(b, c);
    LeadsOn(init, sys1, 5, Step(B, OpenRead(buffer)));
    var sys2 := Next(sys1, Step(B, OpenRead(buffer)));
    LeadsOn(init, sys2, 5, Step(B, Action.Read));
    sys := Next(sys2, Step(B, Action.Read));
    ReadsSeven(sys2.b, b, c);
  }

  lemma ReadsSeven(y: Node, b: Block, c: Block)
    requires b.offset == 0 && |b.data| == 5 && c.offset == 5 && |c.data| == 5 && !b.eof
    requires y.s.rx.queue == [Mark(b, false, false), Mark(c, false, false)]
    requires y.s.rx.distributed == 0 == y.s.rx.readOffset == y.s.rx.contiguous
    requires y.reading.Some? && |y.reading.value| == 7
    ensures var y' := ReadOnce(y);
            && y'.s.rx.queue == [Mark(b, true, false), Mark(c, false, false)]
            && y'.s.rx.distributed == 7 && y'.s.rx.contiguous == 5 && y'.s.closing == y.s.closing && y'.ended == y.ended
  {
    SweepsSeven(b, c);
    NetworkProofs.ReadEffect(y, 7);
  }

  /** The queue of a reachable state in which acknowledging first leaves
      their_contiguous_sent_bytes two bytes behind. */
  lemma AckFirstDelaysContiguous()
    ensures exists sys :: && Reachable(sys) && LaggingState(sys)
                          && Max(5, Sweep(sys.b.s.rx.queue, 7, 1).settled) == 7
                          && Max(5, Sweep(AckRange(sys.b.s.rx.queue, 0, 5), 7, 1).settled) == 5
  {
    var sys := ReachesLaggingState([0, 0, 0, 0, 0, 0, 0]);
    LeadsReachable(10, 2, 2, sys, 5);
    AckFirstCanDelayContiguous();
  }

  // ---------- a full queue ----------

  /** Two blocks of one byte have been sent. */
  lemma SendsTwoBytes(x: byte, y: byte, queueMax: nat) returns (sys: System)
    ensures Leads(Pristine(2, 2, queueMax), sys, 1) && sys.b == Pristine(2, 2, queueMax).b
    ensures Block(1, [y], false) in sys.ab.blocks
    ensures !sys.a.ended && sys.a.s.tx.marksMax == 2 && sys.a.accepted == [x, y]
    ensures |sys.a.s.tx.ring| <= sys.a.s.tx.capacity
  {
    var init, data := Pristine(2, 2, queueMax), [x, y];
    var sys1 := WritesOnly(1, data, 2, 2, queueMax);
    var sys2 := SendsNext(init, sys1, 1, data, 0);
    assert |sys2.a.s.tx.marks| == 1;
    sys := SendsNext(init, sys2, 1, data, 1);
    assert Block(1, [y], false) == NextBlock(data, 1, 1, false);
  }

  /** The receiver has nothing but copies of block b. */
  ghost predicate OnlyCopies(y: Node, b: Block) {
    && !y.ended && !y.s.eof && !y.s.closing && y.s.rx.distributed == 0 && y.delivered == []
    && |y.s.tx.ring| <= y.s.tx.capacity && forall m :: m in y.s.rx.queue ==> m == Mark(b, false, false)
  }

  lemma StoresCopy(y: Node, b: Block)
    requires OnlyCopies(y, b) && |y.s.rx.queue| < y.s.rx.queueMax
    ensures var y' := Store(y, b);
            OnlyCopies(y', b) && |y'.s.rx.queue| == |y.s.rx.queue| + 1 && y'.s.rx.queueMax == y.s.rx.queueMax
  {
    var q, m := y.s.rx.queue, Mark(b, false, false);
    assert forall i :: 0 <= i < |q| ==> q[i] in q;
    InsertByRangeKeeps(q, m);
    SenderFacts.InsertByRangeLength(q, m);
  }

  /** The network duplicates the block until the queue is full of copies. */
  lemma {:induction false} FillsUp(init: System, sys: System, b: Block) returns (sys': System)
    requires Leads(init, sys, 1) && b in sys.ab.blocks && OnlyCopies(sys.b, b)
    requires |sys.b.s.rx.queue| <= sys.b.s.rx.queueMax && |sys.a.s.tx.ring| <= sys.a.s.tx.capacity
    ensures Leads(init, sys', 1) && sys'.a == sys.a && OnlyCopies(sys'.b, b)
    ensures |sys'.b.s.rx.queue| == sys'.b.s.rx.queueMax == sys.b.s.rx.queueMax
    decreases sys.b.s.rx.queueMax - |sys.b.s.rx.queue|
  {
    if |sys.b.s.rx.queue| == sys.b.s.rx.queueMax {
      sys' := sys;
    } else {
      StoresCopy(sys.b, b);
      LeadsOn(init, sys, 1, Step(A, DuplicateBlock(b)));
      var sys1 := Next(sys, Step(A, DuplicateBlock(b)));
      LeadsOn(init, sys1, 1, Step(B, Receive(b)));
      var sys2 := Next(sys1, Step(B, Receive(b)));
      sys' := FillsUp(init, sys2, b);
    }
  }

  /** For every maximum of the receive queue: two open sessions can get into a state from
      which the stream can never complete, by one lost block and copies of the next. */
  lemma JamIsReachable(x: byte, y: byte, queueMax: nat)
    ensures exists sys :: && Open(sys) && Jammed(sys.b) && sys.b.s.rx.queueMax == queueMax
                          && |sys.b.delivered| < |sys.a.accepted|
  {
    var init, b := Pristine(2, 2, queueMax), Block(1, [y], false);
    var sys1 := SendsTwoBytes(x, y, queueMax);
    var sys2 := FillsUp(init, sys1, b);
    LeadsReachable(2, 2, queueMax, sys2, 1);
    assert Open(sys2) && Jammed(sys2.b);
  }

  // ---------- a session that the peer closed ----------

  /** The session runs, and has met the end of the peer's stream. */
  ghost predicate PassiveState(sys: System) {
    && Reachable(sys) && !sys.b.ended && |sys.b.s.tx.ring| <= sys.b.s.tx.capacity
    && sys.b.s.running && sys.b.eofSeen && sys.b.s.eof && !sys.b.s.closing
  }

  lemma ReachesTransfer(x: byte) returns (sys: System)
    ensures Reachable(sys) && !sys.b.ended && sys.b.eofSeen && !sys.b.s.closing
  {
    var init := Pristine(1, 1, 1);
    var sys1 := WritesAndCloses(1, [x], 1, 1, 1);
    LeadsOn(init, sys1, 1, Step(B, OpenRead([0])));
    var sys2 := Next(sys1, Step(B, OpenRead([0])));
    sys := TransfersRest(init, sys2, 1, [x], 0, 1);
    LeadsReachable(1, 1, 1, sys, 1);
  }

  lemma ReachesPassiveState(x: byte) returns (sys: System)
    ensures PassiveState(sys)
  {
    var sys1 := ReachesTransfer(x);
    ReachableInv(sys1);
    ReportFacts.ReachableReports(sys1);
    StepReachable(sys1, Step(B, Action.Start));
    sys := Next(sys1, Step(B, Action.Start));
  }

  /** A session can end without ever having been closed locally: it has met the peer's EOF,
      and once both directions are final, processing the send queue stops it and reports
      that. */
  lemma PassiveCloseIsReachable(x: byte)
    ensures exists sys :: && PassiveState(sys) && StepEnabled(sys, Step(B, Finish))
                          && Next(sys, Step(B, Finish)).b.s == Process(sys.b.s, [], true)
                          && !Process(sys.b.s, [], true).running
                          && Process(sys.b.s, [], true).closeCalls == sys.b.s.closeCalls + 1
  {
    var sys := ReachesPassiveState(x);
    assert Runnable(sys.b.s, []);
    ClosingFacts.ProcessEnds(sys.b.s, []);
  }
}
