/** The invariant that joins one sending node to the receiving node at the other end. */
module Invariants {
  import opened Blocks
  import opened SessionSpec
  import opened SweepFacts
  import opened SenderFacts
  import opened Network

  // ---------- the two ends of one direction ----------

  datatype Sender = Sender(tx: Tx, eof: bool, accepted: seq<byte>, moved: seq<Block>, released: set<Range>,
                           ended: bool) {
    /** Accepts no more. */
    predicate Frozen() { eof || ended }

    function HeadData(): seq<byte> { if tx.head.Some? then tx.head.value.data else [] }
  }

  datatype Receiver = Receiver(rx: Rx, eof: bool, closing: bool, delivered: seq<byte>, completed: seq<seq<byte>>,
                               reading: Option<seq<byte>>, live: set<nat>, late: set<nat>, eofSeen: bool, ended: bool) {
    function Stored(): set<nat> { live + late }
  }

  function SenderOf(x: Node): Sender {
    Sender(x.s.tx, x.s.eof, x.accepted, x.moved, x.released, x.ended)
  }

  function ReceiverOf(x: Node): Receiver {
    Receiver(x.s.rx, x.s.eof, x.s.closing, x.delivered, x.completed, x.reading, x.live, x.late, x.eofSeen, x.ended)
  }

  /** The block carries bytes that the sender accepted, where it accepted them; an EOF
      mark sits at the end of all that it ever accepts. */
  ghost predicate Genuine(b: Block, accepted: seq<byte>, frozen: bool) {
    && b.End() <= |accepted| && b.data == accepted[b.offset..b.End()]
    && (b.eof ==> frozen && b.End() == |accepted|)
  }

  /** Each block starts where the one before it ended. */
  ghost predicate Sequenced(moved: seq<Block>) {
    moved == [] || (var n := |moved| - 1; Sequenced(moved[..n]) && moved[n].offset == |Flat(moved[..n])|)
  }

  // ---------- the sender ----------

  ghost predicate Released(b: Block, released: set<Range>) {
    exists r :: r in released && b.Inside(r.start, r.end)
  }

  ghost predicate Partition(w: Sender) {
    Flat(w.moved) + w.HeadData() + w.tx.ring == w.accepted
  }

  ghost predicate SenderRuns(w: Sender) {
    && |w.tx.ring| <= w.tx.capacity
    && Partition(w)
    && (w.tx.head.Some? && w.tx.head.value.eof ==> w.tx.ring == [] && w.eof)
    && (forall b :: b in BlocksOf(w.tx.marks) ==> b in w.moved)
    && (forall b :: b in w.moved ==> b in BlocksOf(w.tx.marks) || Released(b, w.released))
  }

  ghost predicate SenderOk(w: Sender) {
    && Sequenced(w.moved)
    && (forall b :: b in w.moved ==> Genuine(b, w.accepted, w.Frozen()))
    && (!w.ended ==> SenderRuns(w))
    && |w.tx.ring| <= w.tx.capacity
  }

  // ---------- the receiver ----------

  ghost predicate CoveredUndistributed(q: seq<Mark>, p: nat) {
    exists m :: m in q && !m.distributed && m.block.Covers(p)
  }

  ghost predicate QueueGenuine(q: seq<Mark>, accepted: seq<byte>, frozen: bool) {
    forall m :: m in q ==> Genuine(m.block, accepted, frozen)
  }

  ghost predicate QueueStored(q: seq<Mark>, stored: set<nat>) {
    forall m :: m in q ==> Positions(m.block) <= stored
  }

  ghost predicate Conserved(q: seq<Mark>, live: set<nat>, d: nat) {
    forall p :: p in live ==> p < d || CoveredUndistributed(q, p)
  }

  /** While the receiver has not closed locally, a DISTRIBUTED bit is the truth. */
  ghost predicate BitsTrue(q: seq<Mark>, d: nat, eof: bool) {
    forall m :: m in q && m.distributed ==> m.block.End() <= d && (m.block.eof ==> eof)
  }

  ghost predicate NoneDone(q: seq<Mark>) {
    forall m :: m in q ==> !m.Done()
  }

  /** The outstanding read's buffer holds the last readOffset bytes delivered, and
      finished reads hold everything before them. */
  ghost predicate ReadingOk(r: Receiver) {
    match r.reading
    case None => r.rx.readOffset == 0 && Joined(r.completed) == r.delivered
    case Some(buf) =>
      var off := r.rx.readOffset;
      && off <= |buf| && off <= |r.delivered|
      && buf[..off] == r.delivered[|r.delivered| - off..]
      && Joined(r.completed) + buf[..off] == r.delivered
  }

  ghost predicate ReceiverOpen(r: Receiver) {
    && BitsTrue(r.rx.queue, |r.delivered|, r.eof)
    && (forall p :: p in r.late ==> p < |r.delivered|)
    && (r.eof ==> r.eofSeen)
    && LagWithinBlock(r.rx.queue, r.rx.contiguous, |r.delivered|)
  }

  ghost predicate ReceiverRuns(accepted: seq<byte>, frozen: bool, r: Receiver) {
    && r.rx.distributed == |r.delivered|
    && r.rx.contiguous <= |r.delivered|
    && SortedByRange(r.rx.queue) && NoneDone(r.rx.queue)
    && QueueGenuine(r.rx.queue, accepted, frozen)
    && QueueStored(r.rx.queue, r.Stored())
    && Conserved(r.rx.queue, r.live, |r.delivered|)
    && ReadingOk(r)
    && (!r.closing ==> ReceiverOpen(r))
  }

  ghost predicate ReceiverOk(accepted: seq<byte>, frozen: bool, r: Receiver) {
    && r.delivered <= accepted && Joined(r.completed) <= r.delivered
    && (r.eofSeen ==> frozen && |r.delivered| == |accepted|)
    && (forall p: nat :: p < |r.delivered| ==> p in r.Stored())
    && (!r.ended ==> ReceiverRuns(accepted, frozen, r))
  }

  // ---------- one direction ----------

  ghost predicate BlocksGenuine(blocks: multiset<Block>, accepted: seq<byte>, frozen: bool) {
    forall b :: b in blocks ==> Genuine(b, accepted, frozen)
  }

  ghost predicate AcksHonest(acks: multiset<Range>, stored: set<nat>) {
    forall r :: r in acks ==> Honest(r, stored)
  }

  ghost predicate ReleasedHonest(released: set<Range>, stored: set<nat>) {
    forall r :: r in released ==> Honest(r, stored)
  }

  /** w sends to r; blocks are on their way from w, acks on their way from r. */
  ghost predicate Direction(w: Sender, r: Receiver, blocks: multiset<Block>, acks: multiset<Range>) {
    && SenderOk(w) && ReceiverOk(w.accepted, w.Frozen(), r)
    && BlocksGenuine(blocks, w.accepted, w.Frozen())
    && AcksHonest(acks, r.Stored()) && ReleasedHonest(w.released, r.Stored())
  }

  ghost predicate Inv(sys: System) {
    && Direction(SenderOf(sys.a), ReceiverOf(sys.b), sys.ab.blocks, sys.ba.acks)
    && Direction(SenderOf(sys.b), ReceiverOf(sys.a), sys.ba.blocks, sys.ab.acks)
  }
}
