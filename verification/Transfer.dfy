/** Runs that exist: a transfer cut into blocks of any size succeeds, and what a local
    close or an early acknowledgement can do does happen. */
module Transfers {
  import opened Arith
  import opened Blocks
  import opened SessionSpec
  import opened SweepFacts
  import opened SenderFacts
  import opened Network
  import opened EndToEnd

  /** All heads are built with the same maximum. */
  ghost predicate HeadsOf(steps: seq<Step>, m: nat) {
    forall i :: 0 <= i < |steps| && steps[i].act.BuildHead? ==> steps[i].act.max == m
  }

  /** A run from init with my_maximum_send_bytes m ends in sys. */
  ghost predicate Leads(init: System, sys: System, m: nat) {
    exists steps :: HeadsOf(steps, m) && Runs(init, steps) && After(init, steps) == sys
  }

  lemma LeadsNowhere(init: System, m: nat)
    ensures Leads(init, init, m)
  {
    assert HeadsOf([], m) && Runs(init, []) && After(init, []) == init;
  }

  lemma LeadsOn(init: System, sys: System, m: nat, st: Step)
    requires Leads(init, sys, m) && StepEnabled(sys, st) && (st.act.BuildHead? ==> st.act.max == m)
    ensures Leads(init, Next(sys, st), m)
  {
    var steps :| HeadsOf(steps, m) && Runs(init, steps) && After(init, steps) == sys;
    OneStep(sys, st);
    RunsConcat(init, steps, [st]);
    assert HeadsOf(steps + [st], m);
  }

  // ---------- sending one block ----------

  /** The first n bytes of data have been moved, the others are in the ring. */
  ghost predicate SenderAt(x: Node, data: seq<byte>, n: nat) {
    && !x.ended && x.accepted == data && n <= |data|
    && x.s.tx.ring == data[n..] && |x.s.tx.ring| <= x.s.tx.capacity && (x.s.tx.ring != [] ==> x.s.tx.sized)
    && x.s.tx.head.None? && NextOffset(x) == n && |x.s.tx.marks| < x.s.tx.marksMax
  }

  function CutEnd(data: seq<byte>, n: nat, m: nat): (e: nat)
    requires n <= |data|
    ensures n <= e <= |data|
  {
    n + Min(|data| - n, m)
  }

  /** The block that comes next. */
  function NextBlock(data: seq<byte>, n: nat, m: nat, eof: bool): Block
    requires n <= |data|
  {
    Block(n, data[n..CutEnd(data, n, m)], CutEnd(data, n, m) == |data| && eof)
  }

  lemma BuildsNext(x: Node, data: seq<byte>, n: nat, m: nat)
    requires SenderAt(x, data, n) && (x.s.eof || n < |data|)
    ensures var x', b := BuildOnce(x, m), NextBlock(data, n, m, x.s.eof);
            && x'.s.tx.head == Some(Chunk(b.data, b.eof)) && x'.s.tx.ring == data[CutEnd(data, n, m)..]
            && x' == x.(s := x'.s, cut := x'.cut) && x'.s == x.s.(tx := x'.s.tx, waits := x'.s.waits)
            && x'.s.tx == x.s.tx.(head := x'.s.tx.head, ring := x'.s.tx.ring)
  {
    var k := CutEnd(data, n, m) - n;
    assert data[n..][..k] == data[n..n + k] && data[n..][k..] == data[n + k..];
  }

  lemma MovesNext(x: Node, data: seq<byte>, n: nat, e: nat, b: Block)
    requires n <= e <= |data| && b.offset == n && b.data == data[n..e] && NextOffset(x) == n
    requires x.s.tx.head == Some(Chunk(b.data, b.eof)) && |x.s.tx.marks| < x.s.tx.marksMax
    ensures var x' := MoveOnce(x, 0);
            && NextOffset(x') == e && |x'.moved| == |x.moved| + 1 && x'.s.tx.head.None?
            && x'.s.tx == x.s.tx.(head := None, marks := InsertByClock(x.s.tx.marks, Sent(b, 0)))
            && x' == x.(s := x.s.(tx := x'.s.tx), moved := x'.moved)
  {
    FlatAppend(x.moved, b);
  }

  /** The head is built, sent and moved; nothing else changes. */
  lemma SendsNext(init: System, sys: System, m: nat, data: seq<byte>, n: nat) returns (sys': System)
    requires Leads(init, sys, m) && SenderAt(sys.a, data, n) && (sys.a.s.eof || n < |data|)
    ensures Leads(init, sys', m)
    ensures var b := NextBlock(data, n, m, sys.a.s.eof);
            && sys'.b == sys.b && sys'.ba == sys.ba && sys'.ab == sys.ab.(blocks := sys.ab.blocks + multiset{b})
            && sys'.a.s.tx.ring == data[CutEnd(data, n, m)..] && sys'.a.s.tx.head.None?
            && NextOffset(sys'.a) == CutEnd(data, n, m) && |sys'.a.moved| == |sys.a.moved| + 1
            && sys'.a.s.tx.marks == InsertByClock(sys.a.s.tx.marks, Sent(b, 0))
            && sys'.a.s.eof == sys.a.s.eof && !sys'.a.ended && sys'.a.accepted == data
            && sys'.a.s.tx.capacity == sys.a.s.tx.capacity && sys'.a.s.tx.marksMax == sys.a.s.tx.marksMax
            && sys'.a.s.tx.sized == sys.a.s.tx.sized && |sys'.a.s.tx.ring| <= |sys.a.s.tx.ring|
  {
    var b := NextBlock(data, n, m, sys.a.s.eof);
    BuildsNext(sys.a, data, n, m);
    LeadsOn(init, sys, m, Step(A, BuildHead(m)));
    var sys1 := Next(sys, Step(A, BuildHead(m)));
    assert HeadBlock(sys1.a) == b;
    LeadsOn(init, sys1, m, Step(A, SendHead));
    var sys2 := Next(sys1, Step(A, SendHead));
    LeadsOn(init, sys2, m, Step(A, MoveHead(0)));
    sys' := Next(sys2, Step(A, MoveHead(0)));
    MovesNext(sys2.a, data, n, CutEnd(data, n, m), b);
  }

  // ---------- receiving one block ----------

  /** A read of size bytes has got the first n bytes of data so far. */
  ghost predicate ReaderAt(y: Node, data: seq<byte>, n: nat, size: nat) {
    && !y.ended && !y.s.eof && |y.s.tx.ring| <= y.s.tx.capacity
    && y.s.rx.queue == [] && y.s.rx.queueMax > 0 && y.s.rx.distributed == n == y.s.rx.readOffset
    && !y.s.closing && y.completed == [] && y.reports == [] && y.reading.Some? && |y.reading.value| == size > 0
    && n <= |data| <= size && y.reading.value[..n] == data[..n]
  }

  lemma StoresNext(y: Node, b: Block)
    requires y.s.rx.queue == [] && y.s.rx.queueMax > 0 && !y.s.eof
    ensures var y' := Store(y, b);
            && y' == y.(s := y'.s, live := y.live + Positions(b)) && y'.s == y.s.(rx := y'.s.rx, waits := y'.s.waits)
            && y'.s.rx == y.s.rx.(queue := [Mark(b, false, false)])
  {
  }

  lemma SweepsOne(b: Block, d: nat, room: nat)
    requires b.offset == d && |b.data| <= room
    ensures var sw := Sweep([Mark(b, false, false)], d, room);
            sw.kept == [Mark(b, true, false)] && sw.out == b.data && sw.eof == b.eof
  {
    var q := [Mark(b, false, false)];
    assert Fits(q, d, room) && q[1..] == [] && NewBytes(b, d) == b.data && b.data + [] == b.data;
    assert Retired(q, d, room) == 1 && q[..1] == q && q[1..] == [] && RetireAll([]) == [];
    assert RetireAll(q) == Retire(q[0]) + [] && q[0].block.eof == b.eof;
    if b.eof {
      assert q[..1][0].block.eof;
    }
  }

  /** One read after one block: it asks to be retried, or has everything. */
  lemma ReadsNext(y: Node, data: seq<byte>, n: nat, e: nat, size: nat, b: Block)
    requires n <= e <= |data| <= size && b.offset == n && b.data == data[n..e] && b.eof == (e == |data|)
    requires y.s.rx.queue == [Mark(b, false, false)] && y.s.rx.distributed == n == y.s.rx.readOffset && !y.s.eof
    requires y.completed == [] && y.reports == []
    requires y.reading.Some? && |y.reading.value| == size > 0 && y.reading.value[..n] == data[..n]
    ensures var y' := ReadOnce(y);
            && y'.s.rx.queue == [Mark(b, true, false)] && y'.live == y.live && y'.late == y.late && y'.ended == y.ended
            && y'.s.tx == y.s.tx && y'.s.rx.queueMax == y.s.rx.queueMax
            && y'.s.closing == y.s.closing
            && (b.eof ==> y'.completed == [data] && y'.reports == [Eof] && y'.eofSeen)
            && (!b.eof ==>
                  && !y'.s.eof && y'.s.rx.distributed == e == y'.s.rx.readOffset
                  && y'.completed == [] && y'.reports == []
                  && y'.reading.Some? && |y'.reading.value| == size && y'.reading.value[..e] == data[..e])
  {
    var buf := y.reading.value;
    SweepsOne(b, n, size - n);
    SweepOfRead(y.s, size);
    ReadReports(y.s, size);
    FilledUpTo(buf, data, n, e, b.data);
    assert data[..|data|] == data;
  }

  lemma FilledUpTo(buf: seq<byte>, data: seq<byte>, n: nat, e: nat, bytes: seq<byte>)
    requires n <= e <= |data| <= |buf| && bytes == data[n..e] && buf[..n] == data[..n]
    ensures Fill(buf, n, bytes)[..e] == data[..e] && |Fill(buf, n, bytes)| == |buf|
  {
  }

  /** The reader has read block b, which it still keeps. */
  ghost predicate ReaderGot(y: Node, data: seq<byte>, e: nat, size: nat, b: Block) {
    && !y.ended && !y.s.closing && |y.s.tx.ring| <= y.s.tx.capacity && y.s.rx.queueMax > 0
    && y.s.rx.queue == [Mark(b, true, false)] && Positions(b) <= y.live
    && (b.eof ==> y.completed == [data] && y.reports == [Eof] && y.eofSeen)
    && (!b.eof ==>
          && !y.s.eof && y.s.rx.distributed == e == y.s.rx.readOffset && e <= |data| <= size
          && y.completed == [] && y.reports == []
          && y.reading.Some? && |y.reading.value| == size > 0 && y.reading.value[..e] == data[..e])
  }

  lemma ReceivesNext(init: System, sys: System, m: nat, data: seq<byte>, n: nat, e: nat, size: nat, b: Block)
    returns (sys': System)
    requires Leads(init, sys, m) && ReaderAt(sys.b, data, n, size) && b in sys.ab.blocks
    requires n <= e <= |data| && b.offset == n && b.data == data[n..e] && b.eof == (e == |data|)
    ensures Leads(init, sys', m) && sys'.a == sys.a && sys'.ba == sys.ba && ReaderGot(sys'.b, data, e, size, b)
  {
    LeadsOn(init, sys, m, Step(B, Receive(b)));
    var sys1 := Next(sys, Step(B, Receive(b)));
    StoresNext(sys.b, b);
    LeadsOn(init, sys1, m, Step(B, Read));
    sys' := Next(sys1, Step(B, Read));
    ReadsNext(sys1.b, data, n, e, size, b);
  }

  // ---------- acknowledging one block ----------

  lemma AcksOne(b: Block, clock: nat)
    ensures AckRange([Mark(b, true, false)], b.offset, b.End()) == []
    ensures RemoveSent([Sent(b, clock)], b.offset, b.End()) == []
  {
    assert [Mark(b, true, false)][1..] == [] && [Sent(b, clock)][1..] == [];
    assert AckRange([], b.offset, b.End()) == [] && RemoveSent([], b.offset, b.End()) == [];
  }

  lemma AcksNext(init: System, sys: System, m: nat, b: Block) returns (sys': System)
    requires Leads(init, sys, m) && !sys.a.ended && |sys.a.s.tx.ring| <= sys.a.s.tx.capacity
    requires !sys.b.ended && |sys.b.s.tx.ring| <= sys.b.s.tx.capacity
    requires sys.a.s.tx.marks == [Sent(b, 0)] && sys.b.s.rx.queue == [Mark(b, true, false)]
    requires Positions(b) <= sys.b.live + sys.b.late
    ensures Leads(init, sys', m)
    ensures sys'.a == sys.a.(s := sys.a.s.(tx := sys.a.s.tx.(marks := [])), released := sys'.a.released)
    ensures sys'.b == sys.b.(s := sys.b.s.(rx := sys.b.s.rx.(queue := [])), erased := sys'.b.erased)
  {
    var r := Range(b.offset, b.End());
    AcksOne(b, 0);
    LeadsOn(init, sys, m, Step(B, Acknowledge(r)));
    var sys1 := Next(sys, Step(B, Acknowledge(r)));
    assert forall p: nat :: r.start <= p < r.end ==> b.Covers(p) && p in Positions(b);
    LeadsOn(init, sys1, m, Step(B, SendAck(r)));
    var sys2 := Next(sys1, Step(B, SendAck(r)));
    assert r in sys2.ba.acks;
    LeadsOn(init, sys2, m, Step(A, Acked(r)));
    sys' := Next(sys2, Step(A, Acked(r)));
  }

  // ---------- a whole transfer ----------

  /** Everything was transferred, in count blocks, and nothing is left to do. */
  ghost predicate Transferred(sys: System, data: seq<byte>, count: nat) {
    && sys.a.accepted == data && |sys.a.moved| == count && !sys.b.ended && !sys.b.s.closing
    && sys.b.completed == [data] && sys.b.reports == [Eof] && sys.b.eofSeen
    && sys.a.s.tx.ring == [] && sys.a.s.tx.head.None? && sys.a.s.tx.marks == [] && sys.b.s.rx.queue == []
  }

  lemma {:induction false} TransfersRest(init: System, sys: System, m: nat, data: seq<byte>, n: nat, size: nat)
    returns (sys': System)
    requires Leads(init, sys, m) && m >= 1 && (n < |data| || n == 0) && Halfway(sys, data, n, size)
    ensures Leads(init, sys', m) && Transferred(sys', data, |sys.a.moved| + BlockCount(|data| - n, m))
    decreases |data| - n
  {
    var e := CutEnd(data, n, m);
    var sys1 := TransfersNext(init, sys, m, data, n, size);
    CeilDivStep(|data| - n, m);
    if e == |data| {
      sys' := sys1;
    } else {
      CeilDivStep(|data| - e, m);
      sys' := TransfersRest(init, sys1, m, data, e, size);
    }
  }

  /** The first n bytes have been transferred. */
  ghost predicate Halfway(sys: System, data: seq<byte>, n: nat, size: nat) {
    SenderAt(sys.a, data, n) && sys.a.s.eof && sys.a.s.tx.marks == [] && ReaderAt(sys.b, data, n, size)
  }

  /** One block goes over. */
  lemma TransfersNext(init: System, sys: System, m: nat, data: seq<byte>, n: nat, size: nat) returns (sys': System)
    requires Leads(init, sys, m) && Halfway(sys, data, n, size)
    ensures Leads(init, sys', m)
    ensures CutEnd(data, n, m) == |data| ==> Transferred(sys', data, |sys.a.moved| + 1)
    ensures CutEnd(data, n, m) < |data| ==>
              Halfway(sys', data, CutEnd(data, n, m), size) && |sys'.a.moved| == |sys.a.moved| + 1
  {
    var e, b := CutEnd(data, n, m), NextBlock(data, n, m, true);
    var sys1 := SendsNext(init, sys, m, data, n);
    assert sys1.a.s.tx.marks == [Sent(b, 0)];
    var sys2 := ReceivesNext(init, sys1, m, data, n, e, size, b);
    sys' := AcksNext(init, sys2, m, b);
  }

  function Pristine(capacity: nat, marksMax: nat, queueMax: nat): System {
    var idle, wire := Idle(Fresh(capacity, marksMax, queueMax)), Wire(multiset{}, multiset{});
    System(idle, idle, wire, wire)
  }

  lemma WritesAndCloses(m: nat, data: seq<byte>, capacity: nat, marksMax: nat, queueMax: nat) returns (sys: System)
    requires |data| <= capacity && marksMax > 0
    ensures Leads(Pristine(capacity, marksMax, queueMax), sys, m)
    ensures SenderAt(sys.a, data, 0) && sys.a.s.eof && sys.a.s.tx.marks == [] && sys.a.moved == []
    ensures sys.b == Pristine(capacity, marksMax, queueMax).b
  {
    var init := Pristine(capacity, marksMax, queueMax);
    LeadsNowhere(init, m);
    LeadsOn(init, init, m, Step(A, Start));
    var sys1 := Next(init, Step(A, Start));
    LeadsOn(init, sys1, m, Step(A, Write(data)));
    var sys2 := Next(sys1, Step(A, Write(data)));
    assert [] + data == data;
    LeadsOn(init, sys2, m, Step(A, Close));
    sys := Next(sys2, Step(A, Close));
  }

  /** Any data that fit the sender's ring and the reader's buffer are transferred whole,
      EOF included, by some run in which every head is cut with the given maximum and one
      read receives them all; the blocks are exactly as many as draining takes, and in the
      end nothing waits on either side. Room for one block in each queue is enough. */
  lemma TransferCanComplete(m: nat, data: seq<byte>, buffer: seq<byte>, capacity: nat, marksMax: nat, queueMax: nat)
    requires m >= 1 && |data| <= capacity && |data| <= |buffer| && |buffer| > 0 && marksMax > 0 && queueMax > 0
    ensures exists sys :: && Leads(Pristine(capacity, marksMax, queueMax), sys, m)
                          && Transferred(sys, data, BlockCount(|data|, m))
  {
    var init := Pristine(capacity, marksMax, queueMax);
    var sys1 := WritesAndCloses(m, data, capacity, marksMax, queueMax);
    LeadsOn(init, sys1, m, Step(B, OpenRead(buffer)));
    var sys2 := Next(sys1, Step(B, OpenRead(buffer)));
    var sys3 := TransfersRest(init, sys2, m, data, 0, |buffer|);
  }

  lemma LeadsReachable(capacity: nat, marksMax: nat, queueMax: nat, sys: System, m: nat)
    requires Leads(Pristine(capacity, marksMax, queueMax), sys, m)
    ensures Reachable(sys)
  {
    var init := Pristine(capacity, marksMax, queueMax);
    assert Initial(init);
    var steps :| HeadsOf(steps, m) && Runs(init, steps) && After(init, steps) == sys;
  }
}
