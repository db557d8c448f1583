/** Every block that travels, or waits in a queue, is one that the sender has cut from
    its ring: two of them are the same or do not overlap. What that means for the order
    in which a receiver acknowledges and reads. */
module CutFacts {
  import opened Blocks
  import opened SessionSpec
  import opened SweepFacts
  import opened AckFacts
  import opened SenderFacts
  import opened LateFacts
  import opened Network
  import opened Invariants
  import opened NetworkProofs
  import opened EndToEnd

  // ---------- the blocks cut so far ----------

  function HeadList(x: Node): seq<Block> {
    if x.s.tx.head.Some? then [HeadBlock(x)] else []
  }

  ghost predicate QueueFrom(q: seq<Mark>, cut: seq<Block>) {
    forall i :: 0 <= i < |q| ==> q[i].block in cut
  }

  /** What a node keeps about the blocks it cuts and the wire it sends on. */
  ghost predicate CutOk(x: Node, blocks: multiset<Block>) {
    && Sequenced(x.cut)
    && (!x.ended ==> x.cut == x.moved + HeadList(x))
    && (forall b :: b in blocks ==> b in x.cut)
  }

  /** What a node keeps about the blocks it was sent. */
  ghost predicate GotFrom(x: Node, cut: seq<Block>) {
    QueueFrom(x.s.rx.queue, cut) && (x.s.closing ==> x.s.eof)
  }

  lemma BuildKeepsCut(x: Node, blocks: multiset<Block>, max: nat)
    requires CutOk(x, blocks) && !x.ended
    ensures CutOk(BuildOnce(x, max), blocks) && x.cut <= BuildOnce(x, max).cut
  {
    var x' := BuildOnce(x, max);
    if x.s.tx.head.None? && Head(x.s, max).1.Some? {
      assert x.moved + [] == x.moved;
      assert x'.cut == x.cut + [HeadBlock(x')] && x'.cut[..|x.cut|] == x.cut;
    }
  }

  lemma MoveKeepsCut(x: Node, blocks: multiset<Block>, clock: nat)
    requires CutOk(x, blocks) && !x.ended && x.s.tx.head.Some?
    ensures CutOk(MoveOnce(x, clock), blocks)
  {
    if Move(x.s, NextOffset(x), clock).1 {
      assert MoveOnce(x, clock).moved + [] == x.moved + [HeadBlock(x)];
    }
  }

  ghost predicate MarksFrom(marks: seq<Sent>, moved: seq<Block>) {
    forall b :: b in BlocksOf(marks) ==> b in moved
  }

  lemma SendKeepsCut(x: Node, out: Wire, inn: Wire, act: Action)
    requires CutOk(x, out.blocks) && MarksFrom(x.s.tx.marks, x.moved) && NodeEnabled(x, out, inn, act)
    requires act.SendHead? || act.Retransmit?
    ensures var (x', out', inn') := NodeNext(x, out, inn, act); CutOk(x', out'.blocks) && x'.cut == x.cut
  {
    if act.Retransmit? {
      BlocksOfRemove(x.s.tx.marks, act.k);
    }
  }

  predicate Sends(act: Action) {
    act.BuildHead? || act.MoveHead? || act.SendHead? || act.Retransmit?
  }

  lemma OthersSendNothing(x: Node, out: Wire, inn: Wire, act: Action)
    requires NodeEnabled(x, out, inn, act) && !Sends(act)
    ensures var (x', out', inn') := NodeNext(x, out, inn, act);
            && x'.cut == x.cut && x'.moved == x.moved && (x'.ended || x'.s.tx.head == x.s.tx.head)
            && (x.ended ==> x'.ended) && (forall b :: b in out'.blocks ==> b in out.blocks)
  {
  }

  /** The sending side of one action. */
  lemma ActionKeepsSent(x: Node, out: Wire, inn: Wire, act: Action)
    requires CutOk(x, out.blocks) && (!x.ended ==> MarksFrom(x.s.tx.marks, x.moved)) && NodeEnabled(x, out, inn, act)
    ensures var (x', out', inn') := NodeNext(x, out, inn, act); CutOk(x', out'.blocks) && x.cut <= x'.cut
  {
    if act.BuildHead? {
      BuildKeepsCut(x, out.blocks, act.max);
    } else if act.MoveHead? {
      MoveKeepsCut(x, out.blocks, act.clock);
    } else if act.SendHead? || act.Retransmit? {
      SendKeepsCut(x, out, inn, act);
    } else {
      OthersSendNothing(x, out, inn, act);
    }
  }

  lemma QueueSubset(q: seq<Mark>, q': seq<Mark>, cut: seq<Block>)
    requires QueueFrom(q, cut) && forall m :: m in q' ==> HasBlock(q, m.block)
    ensures QueueFrom(q', cut)
  {
    forall i | 0 <= i < |q'| ensures q'[i].block in cut {
      assert q'[i] in q';
      var j :| 0 <= j < |q| && q[j].block == q'[i].block;
    }
  }

  lemma ReceiveKeepsQueue(x: Node, b: Block, cut: seq<Block>)
    requires SortedByRange(x.s.rx.queue) && GotFrom(x, cut) && b in cut
    ensures GotFrom(Store(x, b), cut)
  {
    var m := Mark(b, x.s.eof, false);
    InsertByRangeKeeps(x.s.rx.queue, m);
    var q' := InsertByRange(x.s.rx.queue, m);
    forall i | 0 <= i < |q'| ensures q'[i].block in cut {
      assert q'[i] in q';
      if q'[i] != m {
        var j :| 0 <= j < |x.s.rx.queue| && x.s.rx.queue[j] == q'[i];
      }
    }
  }

  lemma AckKeepsQueue(x: Node, r: Range, cut: seq<Block>)
    requires SortedByRange(x.s.rx.queue) && GotFrom(x, cut)
    ensures GotFrom(AckOnce(x, r), cut)
  {
    AckRangeSorted(x.s.rx.queue, r.start, r.end);
    QueueSubset(x.s.rx.queue, AckRange(x.s.rx.queue, r.start, r.end), cut);
  }

  lemma ReadKeepsQueue(x: Node, x': Node, room: nat, cut: seq<Block>)
    requires SortedByRange(x.s.rx.queue) && GotFrom(x, cut)
    requires ReceiverReads(ReceiverOf(x), ReceiverOf(x'), Sweep(x.s.rx.queue, x.s.rx.distributed, room))
    ensures GotFrom(x', cut)
  {
    var q, d := x.s.rx.queue, x.s.rx.distributed;
    SweepKeepsOrder(q, d, room);
    QueueSubset(q, Sweep(q, d, room).kept, cut);
  }

  predicate Gets(act: Action) {
    act.Receive? || act.Acknowledge? || act.Read?
  }

  lemma OthersGetNothing(x: Node, out: Wire, inn: Wire, act: Action, cut: seq<Block>)
    requires NodeEnabled(x, out, inn, act) && !Gets(act) && GotFrom(x, cut)
    ensures GotFrom(NodeNext(x, out, inn, act).0, cut)
  {
  }

  lemma WireShrinks(x: Node, y: Node, out: Wire, inn: Wire, act: Action)
    requires NodeEnabled(x, out, inn, act) && CutOk(y, inn.blocks)
    ensures CutOk(y, NodeNext(x, out, inn, act).2.blocks)
  {
  }

  /** The receiving side of one action. */
  lemma ActionKeepsGot(x: Node, y: Node, out: Wire, inn: Wire, act: Action)
    requires CutOk(y, inn.blocks) && GotFrom(x, y.cut) && NodeEnabled(x, out, inn, act)
    requires Gets(act) ==> SortedByRange(x.s.rx.queue)
    requires act.Read? ==> x.s.rx.readOffset <= |x.reading.value|
    ensures GotFrom(NodeNext(x, out, inn, act).0, y.cut)
  {
    if act.Receive? {
      ReceiveKeepsQueue(x, act.block, y.cut);
    } else if act.Acknowledge? {
      AckKeepsQueue(x, act.local, y.cut);
    } else if act.Read? {
      if x.reading.value != [] {
        var room := |x.reading.value| - x.s.rx.readOffset;
        ReadEffect(x, room);
        ReadKeepsQueue(x, ReadOnce(x), room, y.cut);
      }
    } else {
      OthersGetNothing(x, out, inn, act, y.cut);
    }
  }

  ghost predicate CutBoth(x: Node, y: Node, out: Wire, inn: Wire) {
    CutOk(x, out.blocks) && GotFrom(y, x.cut) && CutOk(y, inn.blocks) && GotFrom(x, y.cut)
  }

  lemma GotFromGrows(x: Node, cut: seq<Block>, cut': seq<Block>)
    requires GotFrom(x, cut) && cut <= cut'
    ensures GotFrom(x, cut')
  {
    forall i | 0 <= i < |x.s.rx.queue| ensures x.s.rx.queue[i].block in cut' {
      var k :| 0 <= k < |cut| && cut[k] == x.s.rx.queue[i].block;
      assert cut'[k] == cut[k];
    }
  }

  /** What the joint invariant says about queue, buffer and sendmarkq_ of one node. */
  lemma NodeFacts(x: Node, y: Node, out: Wire, inn: Wire)
    requires Both(x, y, out, inn) && !x.ended
    ensures SortedByRange(x.s.rx.queue) && MarksFrom(x.s.tx.marks, x.moved)
    ensures x.reading.Some? ==> x.s.rx.readOffset <= |x.reading.value|
  {
  }

  lemma ActionKeepsCuts(x: Node, y: Node, out: Wire, inn: Wire, act: Action)
    requires CutBoth(x, y, out, inn) && NodeEnabled(x, out, inn, act)
    requires !x.ended ==> SortedByRange(x.s.rx.queue) && MarksFrom(x.s.tx.marks, x.moved)
    requires !x.ended && x.reading.Some? ==> x.s.rx.readOffset <= |x.reading.value|
    ensures var (x', out', inn') := NodeNext(x, out, inn, act); CutBoth(x', y, out', inn')
  {
    ActionKeepsSent(x, out, inn, act);
    ActionKeepsGot(x, y, out, inn, act);
    WireShrinks(x, y, out, inn, act);
    var (x', out', inn') := NodeNext(x, out, inn, act);
    GotFromGrows(y, x.cut, x'.cut);
    CutBothHolds(x', y, out', inn');
  }

  lemma CutBothHolds(x: Node, y: Node, out: Wire, inn: Wire)
    requires CutOk(x, out.blocks) && GotFrom(y, x.cut) && CutOk(y, inn.blocks) && GotFrom(x, y.cut)
    ensures CutBoth(x, y, out, inn)
  {
  }

  lemma {:induction false} CutsAlways(sys: System, steps: seq<Step>)
    requires Inv(sys) && CutBoth(sys.a, sys.b, sys.ab, sys.ba) && Runs(sys, steps)
    ensures var sys' := After(sys, steps); CutBoth(sys'.a, sys'.b, sys'.ab, sys'.ba)
    decreases |steps|
  {
    if steps != [] {
      var act := steps[0].act;
      match steps[0].side {
        case A =>
          ActionKeepsBoth(sys.a, sys.b, sys.ab, sys.ba, act);
          if !sys.a.ended {
            NodeFacts(sys.a, sys.b, sys.ab, sys.ba);
          }
          ActionKeepsCuts(sys.a, sys.b, sys.ab, sys.ba, act);
        case B =>
          ActionKeepsBoth(sys.b, sys.a, sys.ba, sys.ab, act);
          if !sys.b.ended {
            NodeFacts(sys.b, sys.a, sys.ba, sys.ab);
          }
          ActionKeepsCuts(sys.b, sys.a, sys.ba, sys.ab, act);
      }
      CutsAlways(Next(sys, steps[0]), steps[1..]);
    }
  }

  lemma ReachableCuts(sys: System)
    requires Reachable(sys)
    ensures CutBoth(sys.a, sys.b, sys.ab, sys.ba)
  {
    var init, steps :| Initial(init) && Runs(init, steps) && After(init, steps) == sys;
    InitialInv(init);
    CutsAlways(init, steps);
  }

  // ---------- what it means ----------

  lemma {:induction false} SequencedApart(cut: seq<Block>, i: nat, j: nat)
    requires Sequenced(cut) && i < j < |cut|
    ensures cut[i].End() <= cut[j].offset
  {
    var n := |cut| - 1;
    if j < n {
      SequencedApart(cut[..n], i, j);
    } else {
      EndsWithin(cut[..n], i);
    }
  }

  lemma {:induction false} EndsWithin(cut: seq<Block>, i: nat)
    requires Sequenced(cut) && i < |cut|
    ensures cut[i].End() <= |Flat(cut)|
  {
    var n := |cut| - 1;
    if i < n {
      EndsWithin(cut[..n], i);
    }
  }

  /** In every reachable state, any two blocks that wait in a receive queue or travel on
      the wire to it are the same block or do not overlap. */
  lemma BlocksAreApart(sys: System, b: Block, c: Block)
    requires Reachable(sys)
    requires b in sys.ab.blocks || HasBlock(sys.b.s.rx.queue, b)
    requires c in sys.ab.blocks || HasBlock(sys.b.s.rx.queue, c)
    ensures SameOrApart(b, c)
  {
    ReachableCuts(sys);
    var cut := sys.a.cut;
    var i :| 0 <= i < |cut| && cut[i] == b;
    var j :| 0 <= j < |cut| && cut[j] == c;
    if i < j {
      SequencedApart(cut, i, j);
    } else if j < i {
      SequencedApart(cut, j, i);
    }
  }

  /** In every reachable state, closed locally or not: acknowledging a range before or
      after the next read gives the same queue, bytes and EOF flag if and only if no byte
      of the next read is erased; and until a local close none ever is. */
  lemma AckAndReadCommute(sys: System, range: Range, room: nat)
    requires Reachable(sys) && !sys.b.ended
    ensures var rx, eof := sys.b.s.rx, sys.b.s.eof;
            EffectOf(Sweep(AckRange(rx.queue, range.start, range.end), rx.distributed, room), eof)
            == ThenAck(EffectOf(Sweep(rx.queue, rx.distributed, room), eof), range.start, range.end)
            <==> RunSurvives(rx.queue, rx.distributed, room, range.start, range.end)
    ensures !sys.b.s.closing ==>
              RunSurvives(sys.b.s.rx.queue, sys.b.s.rx.distributed, room, range.start, range.end)
  {
    var q, d := sys.b.s.rx.queue, sys.b.s.rx.distributed;
    ReachableInv(sys);
    ReachableCuts(sys);
    forall i, j | 0 <= i < |q| && 0 <= j < |q| ensures SameOrApart(q[i].block, q[j].block) {
      BlocksAreApart(sys, q[i].block, q[j].block);
    }
    AckAndSweepCommuteExactly(q, d, room, range.start, range.end, sys.b.s.eof);
    if !sys.b.s.closing {
      TrueBitsSurvive(q, d, room, range.start, range.end);
    }
  }

  /** And until a local close their_contiguous_sent_bytes comes out the same if and only
      if it does not lag, or the read retires nothing, or still retires something after
      the acknowledgement. */
  lemma AckAndReadContiguous(sys: System, range: Range, room: nat)
    requires Reachable(sys) && !sys.b.ended && !sys.b.s.closing
    ensures var rx := sys.b.s.rx;
            var acked := AckRange(rx.queue, range.start, range.end);
            Max(rx.contiguous, Sweep(acked, rx.distributed, room).settled)
              == Max(rx.contiguous, Sweep(rx.queue, rx.distributed, room).settled)
            <==> || rx.contiguous == rx.distributed
                 || !Fits(rx.queue, rx.distributed, room)
                 || Fits(acked, rx.distributed, room)
  {
    ReachableInv(sys);
    var rx := sys.b.s.rx;
    AckFirstKeepsContiguous(rx.queue, rx.distributed, room, range.start, range.end, rx.contiguous);
  }
}
