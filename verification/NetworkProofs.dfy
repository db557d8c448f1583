/** Every action of a node and of the network keeps the invariant. */
module NetworkProofs {
  import opened Blocks
  import opened SessionSpec
  import opened SweepFacts
  import opened AckFacts
  import opened SenderFacts
  import opened Network
  import opened Invariants

  // ---------- what the sender accepts only grows ----------

  /** accepted and Frozen evolve like this under every action. */
  ghost predicate Grows(accepted: seq<byte>, frozen: bool, accepted': seq<byte>, frozen': bool) {
    accepted <= accepted' && (frozen ==> accepted' == accepted && frozen')
  }

  lemma GenuineGrows(b: Block, accepted: seq<byte>, frozen: bool, accepted': seq<byte>, frozen': bool)
    requires Genuine(b, accepted, frozen) && Grows(accepted, frozen, accepted', frozen')
    ensures Genuine(b, accepted', frozen')
  {
  }

  lemma ReceiverGrows(accepted: seq<byte>, frozen: bool, accepted': seq<byte>, frozen': bool, r: Receiver)
    requires ReceiverOk(accepted, frozen, r) && Grows(accepted, frozen, accepted', frozen')
    ensures ReceiverOk(accepted', frozen', r)
  {
    if !r.ended {
      forall m | m in r.rx.queue ensures Genuine(m.block, accepted', frozen') {
        GenuineGrows(m.block, accepted, frozen, accepted', frozen');
      }
    }
  }

  lemma DirectionGrows(w: Sender, w': Sender, r: Receiver, blocks: multiset<Block>, acks: multiset<Range>)
    requires Direction(w, r, blocks, acks) && SenderOk(w') && w'.released == w.released
    requires Grows(w.accepted, w.Frozen(), w'.accepted, w'.Frozen())
    ensures Direction(w', r, blocks, acks)
  {
    ReceiverGrows(w.accepted, w.Frozen(), w'.accepted, w'.Frozen(), r);
    forall b | b in blocks ensures Genuine(b, w'.accepted, w'.Frozen()) {
      GenuineGrows(b, w.accepted, w.Frozen(), w'.accepted, w'.Frozen());
    }
  }

  lemma MovedGrows(w: Sender, w': Sender)
    requires SenderOk(w) && w'.moved == w.moved
    requires Grows(w.accepted, w.Frozen(), w'.accepted, w'.Frozen())
    ensures forall b :: b in w'.moved ==> Genuine(b, w'.accepted, w'.Frozen())
  {
    forall b | b in w.moved ensures Genuine(b, w'.accepted, w'.Frozen()) {
      GenuineGrows(b, w.accepted, w.Frozen(), w'.accepted, w'.Frozen());
    }
  }

  // ---------- sender actions ----------

  lemma SenderWrite(x: Node, data: seq<byte>)
    requires SenderOk(SenderOf(x)) && !x.ended
    ensures var x' := WriteOnce(x, data);
            && SenderOk(SenderOf(x')) && x'.released == x.released && ReceiverOf(x') == ReceiverOf(x)
            && Grows(x.accepted, SenderOf(x).Frozen(), x'.accepted, SenderOf(x').Frozen())
  {
    MovedGrows(SenderOf(x), SenderOf(WriteOnce(x, data)));
  }

  lemma SenderBuildHead(x: Node, max: nat)
    requires SenderOk(SenderOf(x)) && !x.ended
    ensures SenderOk(SenderOf(BuildOnce(x, max)))
  {
    var w, w' := SenderOf(x), SenderOf(BuildOnce(x, max));
    if w.tx.head.None? {
      assert w'.HeadData() + w'.tx.ring == w.tx.ring;
      Associative(Flat(w.moved), w'.HeadData(), w'.tx.ring);
      Associative(Flat(w.moved), [], w.tx.ring);
    }
  }

  /** The head is genuine once it is stamped with the sum of the lengths moved before. */
  lemma HeadGenuine(x: Node)
    requires SenderOk(SenderOf(x)) && !x.ended && x.s.tx.head.Some?
    ensures Genuine(HeadBlock(x), x.accepted, SenderOf(x).Frozen())
  {
  }

  lemma SenderMoveHead(x: Node, clock: nat)
    requires SenderOk(SenderOf(x)) && !x.ended && x.s.tx.head.Some?
    ensures SenderOk(SenderOf(MoveOnce(x, clock)))
  {
    HeadGenuine(x);
    if Move(x.s, NextOffset(x), clock).1 {
      MovedOk(SenderOf(x), SenderOf(MoveOnce(x, clock)), HeadBlock(x), clock);
    }
  }

  lemma {:induction false} MovedOk(w: Sender, w': Sender, b: Block, clock: nat)
    requires SenderOk(w) && !w.ended && w.tx.head == Some(Chunk(b.data, b.eof)) && b.offset == |Flat(w.moved)|
    requires Genuine(b, w.accepted, w.Frozen())
    requires w' == w.(tx := w'.tx, moved := w.moved + [b])
    requires w'.tx == w.tx.(head := None, marks := InsertByClock(w.tx.marks, Sent(b, clock)))
    ensures SenderOk(w')
  {
    FlatAppend(w.moved, b);
    assert w'.moved[..|w'.moved| - 1] == w.moved;
    assert Partition(w') by {
      assert Flat(w'.moved) + [] == Flat(w'.moved);
    }
    MarksMoved(w.tx.marks, w.moved, w.released, b, clock);
  }

  lemma MarksMoved(marks: seq<Sent>, moved: seq<Block>, released: set<Range>, b: Block, clock: nat)
    requires forall c :: c in BlocksOf(marks) ==> c in moved
    requires forall c :: c in moved ==> c in BlocksOf(marks) || Released(c, released)
    ensures var blocks' := BlocksOf(InsertByClock(marks, Sent(b, clock)));
            && (forall c :: c in blocks' ==> c in moved + [b])
            && (forall c :: c in moved + [b] ==> c in blocks' || Released(c, released))
  {
    BlocksOfInsert(marks, Sent(b, clock));
  }

  lemma SenderRetransmit(x: Node, k: nat, clock: nat)
    requires SenderOk(SenderOf(x)) && !x.ended && k < |x.s.tx.marks|
    ensures SenderOk(SenderOf(x.(s := ResortStep(x.s, k, clock, Some(k)))))
    ensures Genuine(x.s.tx.marks[k].block, x.accepted, SenderOf(x).Frozen())
  {
    ResortKeepsBlocks(x.s.tx.marks, k, clock, Some(k));
    BlocksOfRemove(x.s.tx.marks, k);
  }

  lemma SenderAcked(x: Node, r: Range)
    requires SenderOk(SenderOf(x)) && !x.ended
    ensures SenderOk(SenderOf(x.(s := RemoveSentStep(x.s, r.start, r.end), released := x.released + {r})))
  {
    BlocksOfRemoveSent(x.s.tx.marks, r.start, r.end);
    assert forall b :: b in BlocksOf(RemoveSent(x.s.tx.marks, r.start, r.end)) ==> b in BlocksOf(x.s.tx.marks);
    forall b | b in x.moved
      ensures b in BlocksOf(RemoveSent(x.s.tx.marks, r.start, r.end)) || Released(b, x.released + {r})
    {
      if b !in BlocksOf(RemoveSent(x.s.tx.marks, r.start, r.end)) {
        if b in BlocksOf(x.s.tx.marks) {
          assert r in x.released + {r} && b.Inside(r.start, r.end);
        } else {
          var r' :| r' in x.released && b.Inside(r'.start, r'.end);
          assert r' in x.released + {r};
        }
      }
    }
  }

  /** Setting pending_eof_ or ending the session only freezes the sender. */
  lemma SenderFreezes(w: Sender, w': Sender)
    requires SenderOk(w)
    requires || w' == w.(eof := true)
             || (w'.ended && w'.tx.ring == [] && w' == w.(tx := w'.tx, eof := w'.eof, ended := true))
    ensures SenderOk(w') && Grows(w.accepted, w.Frozen(), w'.accepted, w'.Frozen())
  {
    MovedGrows(w, w');
  }

  // ---------- receiver actions ----------

  lemma ReceiverStore(accepted: seq<byte>, frozen: bool, x: Node, b: Block)
    requires ReceiverOk(accepted, frozen, ReceiverOf(x)) && !x.ended && Genuine(b, accepted, frozen)
    ensures ReceiverOk(accepted, frozen, ReceiverOf(Store(x, b)))
    ensures ReceiverOf(x).Stored() <= ReceiverOf(Store(x, b)).Stored()
    ensures SenderOf(Store(x, b)) == SenderOf(x)
  {
    var r, r' := ReceiverOf(x), ReceiverOf(Store(x, b));
    assert r.Stored() <= r'.Stored();
    var (s', stored) := Put(x.s, b);
    if stored {
      var m := Mark(b, x.s.eof, false);
      InsertByRangeKeeps(x.s.rx.queue, m);
      StoreCovers(r, r', m);
      if !r.closing {
        StoreOpen(accepted, frozen, r, r', m);
      }
    }
  }

  lemma StoreCovers(r: Receiver, r': Receiver, m: Mark)
    requires QueueStored(r.rx.queue, r.Stored()) && Conserved(r.rx.queue, r.live, |r.delivered|)
    requires r'.delivered == r.delivered && m.distributed == r.eof
    requires forall x :: x in r'.rx.queue <==> x in r.rx.queue || x == m
    requires if r.eof then r'.live == r.live && r'.late == r.late + Positions(m.block)
             else r'.late == r.late && r'.live == r.live + Positions(m.block)
    ensures QueueStored(r'.rx.queue, r'.Stored()) && Conserved(r'.rx.queue, r'.live, |r'.delivered|)
  {
    assert r.Stored() <= r'.Stored() && Positions(m.block) <= r'.Stored();
    forall p | p in r'.live ensures p < |r'.delivered| || CoveredUndistributed(r'.rx.queue, p) {
      if p !in r.live {
        assert m in r'.rx.queue && m.block.Covers(p);
      } else if p >= |r.delivered| {
        var x :| x in r.rx.queue && !x.distributed && x.block.Covers(p);
        assert x in r'.rx.queue;
      }
    }
  }

  lemma StoreOpen(accepted: seq<byte>, frozen: bool, r: Receiver, r': Receiver, m: Mark)
    requires ReceiverOpen(r) && Genuine(m.block, accepted, frozen) && m.distributed == r.eof
    requires r.eofSeen ==> |r.delivered| == |accepted|
    requires r' == r.(rx := r'.rx, live := r'.live, late := r'.late) && r'.rx.contiguous == r.rx.contiguous
    requires forall x :: x in r'.rx.queue <==> x in r.rx.queue || x == m
    requires if r.eof then r'.late == r.late + Positions(m.block) else r'.late == r.late
    ensures ReceiverOpen(r')
  {
    if r.rx.contiguous < |r.delivered| {
      var x :| x in r.rx.queue && !x.distributed && x.block.offset <= r.rx.contiguous && |r.delivered| < x.block.End();
      assert x in r'.rx.queue;
    }
  }

  lemma AckQueue(accepted: seq<byte>, frozen: bool, q: seq<Mark>, stored: set<nat>, start: nat, end: nat)
    requires SortedByRange(q) && NoneDone(q) && QueueGenuine(q, accepted, frozen) && QueueStored(q, stored)
    ensures var q' := AckRange(q, start, end);
            SortedByRange(q') && NoneDone(q') && QueueGenuine(q', accepted, frozen) && QueueStored(q', stored)
  {
    var q' := AckRange(q, start, end);
    AckRangeConserves(q, start, end);
    AckRangeSorted(q, start, end);
    forall m' | m' in q' ensures Genuine(m'.block, accepted, frozen) && Positions(m'.block) <= stored {
      assert HasBlock(q, m'.block);
      var i :| 0 <= i < |q| && q[i].block == m'.block;
      assert q[i] in q;
    }
  }

  lemma AckConserved(q: seq<Mark>, live: set<nat>, d: nat, start: nat, end: nat)
    requires NoneDone(q) && Conserved(q, live, d)
    ensures Conserved(AckRange(q, start, end), live, d)
  {
    var q' := AckRange(q, start, end);
    AckRangeConserves(q, start, end);
    forall p | p in live && p >= d ensures CoveredUndistributed(q', p) {
      assert CoveredUndistributed(q, p);
      var m :| m in q && !m.distributed && m.block.Covers(p);
      assert LivesOn(m, q');
      var m' :| m' in q' && AckedFrom(m', m);
      assert m'.block.Covers(p);
    }
  }

  lemma AckOpen(q: seq<Mark>, d: nat, eof: bool, contiguous: nat, start: nat, end: nat)
    requires NoneDone(q) && BitsTrue(q, d, eof) && LagWithinBlock(q, contiguous, d)
    ensures var q' := AckRange(q, start, end);
            BitsTrue(q', d, eof) && LagWithinBlock(q', contiguous, d)
  {
    var q' := AckRange(q, start, end);
    AckRangeConserves(q, start, end);
    forall m' | m' in q' && m'.distributed ensures m'.block.End() <= d && (m'.block.eof ==> eof) {
      assert StemsFrom(m', q);
      var m :| m in q && AckedFrom(m', m);
      assert m.block == m'.block;
    }
    if contiguous < d {
      var m :| m in q && !m.distributed && m.block.offset <= contiguous && d < m.block.End();
      assert LivesOn(m, q');
      var m' :| m' in q' && AckedFrom(m', m);
      assert m'.block == m.block;
    }
  }

  lemma ReceiverAcknowledge(accepted: seq<byte>, frozen: bool, x: Node, range: Range)
    requires ReceiverOk(accepted, frozen, ReceiverOf(x)) && !x.ended
    ensures ReceiverOk(accepted, frozen, ReceiverOf(AckOnce(x, range)))
  {
    var r, q := ReceiverOf(x), x.s.rx.queue;
    assert ReceiverOf(AckOnce(x, range)).Stored() == r.Stored();
    AckQueue(accepted, frozen, q, r.Stored(), range.start, range.end);
    AckConserved(q, r.live, |r.delivered|, range.start, range.end);
    if !r.closing {
      AckOpen(q, |r.delivered|, r.eof, r.rx.contiguous, range.start, range.end);
    }
  }

  // ---------- reading ----------

  lemma FillPrefix(buffer: seq<byte>, at: nat, bytes: seq<byte>)
    requires at + |bytes| <= |buffer|
    ensures |Fill(buffer, at, bytes)| == |buffer|
    ensures Fill(buffer, at, bytes)[..at + |bytes|] == buffer[..at] + bytes
  {
  }

  /** What holds of the queue that a read leaves. */
  ghost predicate QueueLeft(accepted: seq<byte>, frozen: bool, kept: seq<Mark>, live: set<nat>, stored: set<nat>,
                            d: nat) {
    && SortedByRange(kept) && NoneDone(kept) && QueueGenuine(kept, accepted, frozen)
    && QueueStored(kept, stored) && Conserved(kept, live, d)
  }

  /** What a read does to the queue. */
  lemma ReadQueue(accepted: seq<byte>, frozen: bool, q: seq<Mark>, live: set<nat>, stored: set<nat>, d: nat, room: nat)
    requires SortedByRange(q) && NoneDone(q) && QueueGenuine(q, accepted, frozen) && QueueStored(q, stored)
    requires Conserved(q, live, d)
    ensures QueueLeft(accepted, frozen, Sweep(q, d, room).kept, live, stored, SweepEnd(q, d, room))
    ensures forall p :: d <= p < SweepEnd(q, d, room) ==> p in stored
  {
    var kept := Sweep(q, d, room).kept;
    SweepKeepsOrder(q, d, room);
    SweepConserves(q, d, room);
    forall m | m in kept ensures Genuine(m.block, accepted, frozen) && Positions(m.block) <= stored {
      var i :| 0 <= i < |q| && q[i].block == m.block;
      assert q[i] in q;
    }
    forall p | p in live && p >= SweepEnd(q, d, room) ensures CoveredUndistributed(kept, p) {
      var m :| m in q && !m.distributed && m.block.Covers(p);
      assert m in kept;
    }
    SweepCovers(q, d, room);
    forall p | d <= p < SweepEnd(q, d, room) ensures p in stored {
      assert Covered(q, p);
      var i :| 0 <= i < |q| && q[i].block.Covers(p);
      assert q[i] in q && p in Positions(q[i].block);
    }
  }

  lemma ReadStream(accepted: seq<byte>, frozen: bool, r: Receiver, room: nat)
    requires ReceiverOk(accepted, frozen, r) && !r.ended
    ensures var sw := Sweep(r.rx.queue, |r.delivered|, room);
            && r.delivered + sw.out <= accepted
            && (sw.eof ==> frozen && |r.delivered| + |sw.out| == |accepted|)
  {
    var q, d := r.rx.queue, |r.delivered|;
    var sw := Sweep(q, d, room);
    assert forall i :: 0 <= i < |q| ==> q[i] in q;
    SweepCopiesStream(q, d, room, accepted);
    SweepSeesEof(q, d, room, |accepted|);
    if sw.eof {
      var i :| 0 <= i < |q| && q[i].block.eof;
      assert q[i] in q;
    }
  }

  lemma ReadOpen(accepted: seq<byte>, frozen: bool, r: Receiver, room: nat)
    requires ReceiverOk(accepted, frozen, r) && !r.ended && !r.closing
    ensures var sw := Sweep(r.rx.queue, |r.delivered|, room);
            && BitsTrue(sw.kept, |r.delivered| + |sw.out|, r.eof || sw.eof)
            && LagWithinBlock(sw.kept, Max(r.rx.contiguous, sw.settled), |r.delivered| + |sw.out|)
  {
    SweepConserves(r.rx.queue, |r.delivered|, room);
    SweepKeepsLag(r.rx.queue, |r.delivered|, room, r.rx.contiguous);
  }

  /** What a read does to the caller's buffer and the log of finished reads. */
  lemma ReadBuffer(x: Node)
    requires ReadingOk(ReceiverOf(x)) && x.reading.Some? && x.s.rx.readOffset <= |x.reading.value|
    requires Joined(x.completed) <= x.delivered
    ensures ReadingOk(ReceiverOf(ReadOnce(x))) && Joined(ReadOnce(x).completed) <= ReadOnce(x).delivered
  {
    var buf, off := x.reading.value, x.s.rx.readOffset;
    if buf == [] {
      ReadOutcomeEmpty(x);
      assert x.delivered + [] == x.delivered && buf[..0] == [] && x.delivered[|x.delivered|..] == [];
      assert Joined(x.completed) + [] == Joined(x.completed);
      ReadingHolds(ReceiverOf(ReadOnce(x)), x.completed, buf, 0);
    } else {
      var out := SessionSpec.Read(x.s, |buf|).out;
      var buf' := Fill(buf, off, out);
      FilledDelivers(x.completed, x.delivered, buf, buf', off, out);
      ReadOutcome(x);
      ReadingHolds(ReceiverOf(ReadOnce(x)), x.completed, buf', off + |out|);
    }
  }

  lemma ReadOutcomeEmpty(x: Node)
    requires x.reading == Some([])
    ensures var x' := ReadOnce(x);
            && x'.delivered == x.delivered + [] && x'.reading == None && x'.s.rx.readOffset == 0
            && x'.completed == x.completed + [[]]
  {
    EmptyReadSucceeds(x.s);
  }

  /** The first n bytes of buf end what was delivered; they stay in the buffer of the
      outstanding read, or it finishes with them. */
  lemma ReadingHolds(r: Receiver, completed: seq<seq<byte>>, buf: seq<byte>, n: nat)
    requires n <= |buf| && n <= |r.delivered| && Joined(completed) + buf[..n] == r.delivered
    requires buf[..n] == r.delivered[|r.delivered| - n..]
    requires || (r.reading == Some(buf) && r.completed == completed && r.rx.readOffset == n)
             || (r.reading == None && r.completed == completed + [buf[..n]] && r.rx.readOffset == 0)
    ensures ReadingOk(r) && Joined(r.completed) <= r.delivered
  {
    JoinedAppend(completed, buf[..n]);
  }

  /** What a read into a non-empty buffer does to the caller's side. */
  lemma ReadOutcome(x: Node)
    requires x.reading.Some? && x.reading.value != [] && x.s.rx.readOffset <= |x.reading.value|
    ensures var x', off, out := ReadOnce(x), x.s.rx.readOffset, SessionSpec.Read(x.s, |x.reading.value|).out;
            var buf' := Fill(x.reading.value, off, out);
            && x'.delivered == x.delivered + out
            && (|| (x'.reading == Some(buf') && x'.completed == x.completed && x'.s.rx.readOffset == off + |out|)
                || (x'.reading == None && x'.completed == x.completed + [buf'[..off + |out|]]
                    && x'.s.rx.readOffset == 0))
  {
    SweepOfRead(x.s, |x.reading.value|);
  }

  lemma FilledDelivers(completed: seq<seq<byte>>, delivered: seq<byte>, buf: seq<byte>, buf': seq<byte>,
                       off: nat, out: seq<byte>)
    requires off + |out| <= |buf| && buf' == Fill(buf, off, out)
    requires off <= |delivered| && buf[..off] == delivered[|delivered| - off..]
    requires Joined(completed) + buf[..off] == delivered
    ensures |buf'| == |buf| && Joined(completed) + buf'[..off + |out|] == delivered + out
    ensures buf'[..off + |out|] == (delivered + out)[|delivered| - off..]
  {
    FillPrefix(buf, off, out);
    Associative(Joined(completed), buf[..off], out);
    assert (delivered + out)[|delivered| - off..] == delivered[|delivered| - off..] + out;
  }

  lemma ReceiverRead(accepted: seq<byte>, frozen: bool, x: Node)
    requires ReceiverOk(accepted, frozen, ReceiverOf(x)) && !x.ended && x.reading.Some?
    ensures x.s.rx.readOffset <= |x.reading.value|
    ensures ReceiverOk(accepted, frozen, ReceiverOf(ReadOnce(x)))
    ensures ReceiverOf(ReadOnce(x)).Stored() == ReceiverOf(x).Stored()
    ensures SenderOf(ReadOnce(x)) == SenderOf(x) || SenderOf(ReadOnce(x)) == SenderOf(x).(eof := true)
  {
    var r, r', room := ReceiverOf(x), ReceiverOf(ReadOnce(x)), |x.reading.value| - x.s.rx.readOffset;
    ReadBuffer(x);
    if x.reading.value != [] {
      ReadEffect(x, room);
      ReadFacts(accepted, frozen, r, room);
      ReceiverAfterRead(accepted, frozen, r, r', Sweep(r.rx.queue, r.rx.distributed, room));
    } else {
      assert r'.Stored() == r.Stored() && r.delivered + [] == r.delivered;
    }
  }

  /** The fields of the receiver after a read into a non-empty buffer. */
  lemma ReadEffect(x: Node, room: nat)
    requires x.reading.Some? && x.reading.value != [] && x.s.rx.readOffset + room == |x.reading.value|
    ensures var r, r' := ReceiverOf(x), ReceiverOf(ReadOnce(x));
            ReceiverReads(r, r', Sweep(r.rx.queue, r.rx.distributed, room)) && r'.Stored() == r.Stored()
  {
    SweepOfRead(x.s, |x.reading.value|);
  }

  ghost predicate ReceiverReads(r: Receiver, r': Receiver, sw: Swept) {
    && r'.rx.queue == sw.kept && r'.delivered == r.delivered + sw.out
    && r'.rx.distributed == r.rx.distributed + |sw.out|
    && r'.rx.contiguous == Max(r.rx.contiguous, sw.settled)
    && r'.eof == (r.eof || sw.eof) && r'.eofSeen == (r.eofSeen || sw.eof)
    && r'.closing == r.closing && r'.live == r.live && r'.late == r.late && r'.ended == r.ended
  }

  ghost predicate ReadLeaves(accepted: seq<byte>, frozen: bool, r: Receiver, sw: Swept) {
    var d' := |r.delivered| + |sw.out|;
    && r.delivered + sw.out <= accepted
    && QueueLeft(accepted, frozen, sw.kept, r.live, r.Stored(), d')
    && (forall p: nat :: p < d' ==> p in r.Stored())
    && (sw.eof ==> frozen && d' == |accepted|)
    && Max(r.rx.contiguous, sw.settled) <= d'
    && (!r.closing ==> BitsTrue(sw.kept, d', r.eof || sw.eof)
                       && LagWithinBlock(sw.kept, Max(r.rx.contiguous, sw.settled), d'))
  }

  lemma ReceiverAfterRead(accepted: seq<byte>, frozen: bool, r: Receiver, r': Receiver, sw: Swept)
    requires ReceiverOk(accepted, frozen, r) && !r.ended
    requires ReceiverReads(r, r', sw) && ReadLeaves(accepted, frozen, r, sw)
    requires ReadingOk(r') && Joined(r'.completed) <= r'.delivered
    ensures ReceiverOk(accepted, frozen, r')
  {
    assert r'.Stored() == r.Stored();
  }

  lemma ReadFacts(accepted: seq<byte>, frozen: bool, r: Receiver, room: nat)
    requires ReceiverOk(accepted, frozen, r) && !r.ended
    ensures ReadLeaves(accepted, frozen, r, Sweep(r.rx.queue, r.rx.distributed, room))
  {
    ReadStream(accepted, frozen, r, room);
    ReadQueue(accepted, frozen, r.rx.queue, r.live, r.Stored(), |r.delivered|, room);
    SettledEnd(r.rx.queue, |r.delivered|, room);
    if !r.closing {
      ReadOpen(accepted, frozen, r, room);
    }
  }

  /** A local close, and do_close. */
  lemma ReceiverStops(accepted: seq<byte>, frozen: bool, r: Receiver, r': Receiver)
    requires ReceiverOk(accepted, frozen, r)
    requires || r' == r.(closing := true, eof := true)
             || (r'.ended && r' == r.(rx := r'.rx, eof := r'.eof, closing := r'.closing, ended := true))
    ensures ReceiverOk(accepted, frozen, r')
  {
    assert r'.Stored() == r.Stored();
  }

  lemma ReceiverOpenRead(accepted: seq<byte>, frozen: bool, r: Receiver, buffer: seq<byte>)
    requires ReceiverOk(accepted, frozen, r) && r.reading.None?
    ensures ReceiverOk(accepted, frozen, r.(reading := Some(buffer)))
  {
    assert r.(reading := Some(buffer)).Stored() == r.Stored();
    if !r.ended {
      assert buffer[..0] == [] && r.delivered[|r.delivered| - 0..] == [];
      assert Joined(r.completed) + [] == Joined(r.completed);
    }
  }
}
