/** The sending half: cutting blocks from the ring, the EOF mark, sendmarkq_. */
module SenderFacts {
  import opened Arith
  import opened Blocks
  import opened SessionSpec

  // ---------- writing ----------

  /** A write asks to be retried exactly if it has something, the stream is open and the
      ring has no room for all of it; it reports EOF exactly if it has something and the
      stream is not open; and what it reports as transferred is what the ring gains,
      behind what is there. */
  lemma WriteReports(s: Sess, data: seq<byte>)
    requires |s.tx.ring| <= s.tx.capacity
    ensures var (s', o) := Write(s, data);
            && (o.Retry? <==> data != [] && !s.eof && |s.tx.ring| + |data| > s.tx.capacity)
            && (o.Finished? ==> (o.ec == Eof <==> data != [] && s.eof))
            && (o.Finished? ==> o.bytes == if o.ec == Eof then 0 else |data|)
            && s'.tx.ring == s.tx.ring + (if o.Finished? then data[..o.bytes] else [])
            && s' == s.(tx := s.tx.(ring := s'.tx.ring, sized := s'.tx.sized))
  {
  }

  // ---------- what the messager is handed ----------

  /** A new head holds the oldest bytes, no more than asked for, and carries an EOF mark
      exactly if nothing is left and EOF is pending; there is none exactly if there is
      neither. */
  lemma HeadTakesOldest(s: Sess, max: nat)
    requires s.tx.head.None? && (s.tx.ring != [] ==> s.tx.sized)
    ensures var (s', c) := Head(s, max);
            && (c.None? <==> s.tx.ring == [] && !s.eof) && (c.None? ==> s' == s)
            && (c.Some? ==>
                  && c.value.data + s'.tx.ring == s.tx.ring && |c.value.data| == Min(|s.tx.ring|, max)
                  && (c.value.eof <==> s'.tx.ring == [] && s.eof) && s'.tx.head == c
                  && s' == s.(tx := s.tx.(head := c, ring := s'.tx.ring), waits := s'.waits))
  {
  }

  lemma {:induction false} HeadStays(s: Sess, c: Chunk, ops: seq<Op>)
    requires s.tx.head == Some(c) && Runnable(s, ops)
    requires forall op :: op in ops ==> !op.OpMove? && !op.OpDoClose?
    ensures Run(s, ops).tx.head == Some(c)
    decreases |ops|
  {
    if ops != [] {
      assert ops[0] in ops && forall op :: op in ops[1..] ==> op in ops;
      HeadStays(Apply(s, ops[0]), c, ops[1..]);
    }
  }

  /** What handle_sendq_head has handed out stays the same until it is moved, whatever
      else happens, a close included, and for every maximum; and what the move then queues
      is that. */
  lemma HeadIsStable(s: Sess, max: nat, c: Chunk, ops: seq<Op>, again: nat, offset: nat, clock: nat)
    requires Head(s, max).1 == Some(c) && Runnable(Head(s, max).0, ops)
    requires forall op :: op in ops ==> !op.OpMove? && !op.OpDoClose?
    ensures var s' := Run(Head(s, max).0, ops);
            && Head(s', again) == (s', Some(c))
            && s'.tx.head.Some?
            && var (s'', moved) := Move(s', offset, clock);
               && (moved <==> |s'.tx.marks| < s'.tx.marksMax) && (!moved ==> s'' == s')
               && (moved ==>
                     && s''.tx.head.None? && s''.tx.ring == s'.tx.ring
                     && multiset(s''.tx.marks)
                        == multiset(s'.tx.marks) + multiset{Sent(Block(offset, c.data, c.eof), clock)})
  {
    HeadStays(Head(s, max).0, c, ops);
    InsertByClockKeeps(Run(Head(s, max).0, ops).tx.marks, Sent(Block(offset, c.data, c.eof), clock));
  }

  // ---------- EOF is final ----------

  /** An EOF-marked head has been built, now or before: nothing is left to send, and
      nothing is accepted any more. */
  ghost predicate EofBuilt(s: Sess) {
    s.eof && s.tx.ring == [] && (s.tx.head.Some? ==> s.tx.head.value.eof)
  }

  lemma EofBuiltStays(s: Sess, op: Op)
    requires EofBuilt(s) && Enabled(s, op) && !op.OpDoClose?
    ensures EofBuilt(Apply(s, op))
    ensures op.OpHead? && s.tx.head.None? ==> Head(s, op.max).1 == Some(Chunk([], true))
    ensures op.OpWrite? ==> Write(s, op.data).1.bytes == 0
  {
  }

  lemma {:induction false} EofBuiltAlways(s: Sess, ops: seq<Op>)
    requires EofBuilt(s) && Runnable(s, ops) && OpDoClose !in ops
    ensures EofBuilt(Run(s, ops))
    decreases |ops|
  {
    if ops != [] {
      EofBuiltStays(s, ops[0]);
      assert OpDoClose !in ops[1..];
      EofBuiltAlways(Apply(s, ops[0]), ops[1..]);
    }
  }

  /** Over every run without do_close: once an EOF-marked head was built, every head
      built later is zero-length and EOF-marked, the ring stays empty, and every
      non-empty write returns EOF. */
  lemma EofIsFinal(s: Sess, max: nat, ops: seq<Op>)
    requires s.tx.head.None? && Head(s, max).1.Some? && Head(s, max).1.value.eof
    requires Runnable(Head(s, max).0, ops) && OpDoClose !in ops
    ensures var s' := Run(Head(s, max).0, ops);
            && s'.tx.ring == []
            && (s'.tx.head.None? ==> forall m :: Head(s', m).1 == Some(Chunk([], true)))
            && (forall data :: data != [] ==> Write(s', data) == (s', Finished(Eof, 0)))
  {
    EofBuiltAlways(Head(s, max).0, ops);
  }

  // ---------- a non-empty queue yields a useful block ----------

  ghost predicate Useful(c: Chunk) { c.data != [] || c.eof }

  /** What every operation keeps, as long as the messager asks for at least one byte. */
  ghost predicate TxValid(s: Sess) {
    && |s.tx.ring| <= s.tx.capacity && (s.tx.ring != [] ==> s.tx.sized)
    && (s.tx.head.Some? ==> Useful(s.tx.head.value))
  }

  lemma TxValidStays(s: Sess, op: Op)
    requires TxValid(s) && Enabled(s, op) && (op.OpHead? ==> op.max >= 1)
    ensures TxValid(Apply(s, op))
  {
  }

  lemma {:induction false} TxValidAlways(s: Sess, ops: seq<Op>)
    requires TxValid(s) && Runnable(s, ops) && forall op :: op in ops && op.OpHead? ==> op.max >= 1
    ensures TxValid(Run(s, ops))
    decreases |ops|
  {
    if ops != [] {
      TxValidStays(s, ops[0]);
      TxValidAlways(Apply(s, ops[0]), ops[1..]);
    }
  }

  /** In every reachable state: unless handle_sendq_is_empty says so, and whatever the
      messager knows about its own EOF, handle_sendq_head yields a block with at least
      one byte or an EOF mark; and it yields none only if the queue is empty. */
  lemma NonEmptyQueueYieldsBlock(capacity: nat, marksMax: nat, queueMax: nat, ops: seq<Op>, max: nat, myEof: bool)
    requires var s := Fresh(capacity, marksMax, queueMax);
             Runnable(s, ops) && (forall op :: op in ops && op.OpHead? ==> op.max >= 1) && max >= 1
    ensures var s := Run(Fresh(capacity, marksMax, queueMax), ops);
            && (!SendqIsEmpty(s, myEof) ==> Head(s, max).1.Some? && Useful(Head(s, max).1.value))
            && (Head(s, max).1.None? ==> SendqIsEmpty(s, myEof))
  {
    TxValidAlways(Fresh(capacity, marksMax, queueMax), ops);
  }

  /** In every reachable state handle_sendq_is_empty says so exactly if there is no head
      to be had, or all that is to be had is an EOF block that was sent before. */
  lemma SendqEmptyExactly(capacity: nat, marksMax: nat, queueMax: nat, ops: seq<Op>, max: nat, myEof: bool)
    requires var s := Fresh(capacity, marksMax, queueMax);
             Runnable(s, ops) && (forall op :: op in ops && op.OpHead? ==> op.max >= 1) && max >= 1
    ensures var s := Run(Fresh(capacity, marksMax, queueMax), ops);
            SendqIsEmpty(s, myEof)
            <==> || Head(s, max).1.None?
                 || (myEof && s.tx.head.None? && Head(s, max).1 == Some(Chunk([], true)))
  {
    TxValidAlways(Fresh(capacity, marksMax, queueMax), ops);
  }

  // ---------- sendmarkq_ ----------

  /** Insertion behind every entry whose clock is not larger, equal ones included. */
  lemma {:induction false} InsertByClockAt(q: seq<Sent>, e: Sent, i: nat)
    requires i <= |q| && forall j :: 0 <= j < i ==> q[j].clock <= e.clock
    requires i == |q| || e.clock < q[i].clock
    ensures InsertByClock(q, e) == q[..i] + [e] + q[i..]
  {
    if i > 0 {
      InsertByClockAt(q[1..], e, i - 1);
    }
  }

  lemma {:induction false} InsertByClockKeeps(q: seq<Sent>, e: Sent)
    ensures multiset(InsertByClock(q, e)) == multiset(q) + multiset{e}
    ensures |InsertByClock(q, e)| == |q| + 1
  {
    if q != [] && e.clock >= q[0].clock {
      InsertByClockKeeps(q[1..], e);
      assert q == [q[0]] + q[1..];
    }
  }

  lemma {:induction false} InsertByClockFrom(q: seq<Sent>, e: Sent)
    ensures forall x :: x in InsertByClock(q, e) ==> x in q || x == e
  {
    if q != [] && e.clock >= q[0].clock {
      InsertByClockFrom(q[1..], e);
    }
  }

  lemma {:induction false} InsertByClockSorted(q: seq<Sent>, e: Sent)
    requires SortedByClock(q)
    ensures SortedByClock(InsertByClock(q, e))
  {
    if q != [] && e.clock >= q[0].clock {
      var r := InsertByClock(q[1..], e);
      InsertByClockSorted(q[1..], e);
      InsertByClockFrom(q[1..], e);
      forall j | 0 <= j < |r| ensures q[0].clock <= r[j].clock {
        assert r[j] in r;
      }
    }
  }

  ghost function BlocksOf(q: seq<Sent>): multiset<Block> {
    if q == [] then multiset{} else multiset{q[0].block} + BlocksOf(q[1..])
  }

  lemma {:induction false} BlocksOfInsert(q: seq<Sent>, e: Sent)
    ensures BlocksOf(InsertByClock(q, e)) == BlocksOf(q) + multiset{e.block}
  {
    if q != [] && e.clock >= q[0].clock {
      BlocksOfInsert(q[1..], e);
    } else {
      assert ([e] + q)[1..] == q;
    }
  }

  lemma {:induction false} BlocksOfRemove(q: seq<Sent>, i: nat)
    requires i < |q|
    ensures BlocksOf(q) == BlocksOf(RemoveAt(q, i)) + multiset{q[i].block}
  {
    if i > 0 {
      BlocksOfRemove(q[1..], i - 1);
      assert RemoveAt(q, i)[1..] == RemoveAt(q[1..], i - 1);
    } else {
      assert RemoveAt(q, 0) == q[1..];
    }
  }

  lemma {:induction false} BlocksOfUpdate(q: seq<Sent>, k: nat, clock: nat)
    requires k < |q|
    ensures BlocksOf(q[k := Sent(q[k].block, clock)]) == BlocksOf(q)
  {
    var q' := q[k := Sent(q[k].block, clock)];
    if k > 0 {
      BlocksOfUpdate(q[1..], k - 1, clock);
      assert q'[1..] == q[1..][k - 1 := Sent(q[1..][k - 1].block, clock)];
    } else {
      assert q'[1..] == q[1..];
    }
  }

  /** The re-sort of a block whose clock the messager has changed keeps the blocks of
      sendmarkq_ if and only if the lookup by clock fails or finds an entry with that
      very block: an entry it finds instead is lost, and block k queued twice. */
  lemma ResortKeepsBlocks(q: seq<Sent>, k: nat, clock: nat, found: Option<nat>)
    requires k < |q| && (found.Some? ==> found.value < |q|)
    ensures BlocksOf(Resort(q, k, clock, found)) == BlocksOf(q)
       <==> found.None? || q[found.value].block == q[k].block
  {
    var e := Sent(q[k].block, clock);
    var q' := q[k := e];
    BlocksOfUpdate(q, k, clock);
    if found.Some? {
      var i := found.value;
      BlocksOfRemove(q', i);
      BlocksOfInsert(RemoveAt(q', i), e);
      assert q'[i].block == q[i].block;
      if q[i].block != q[k].block {
        var rest := BlocksOf(RemoveAt(q', i));
        assert BlocksOf(q)[e.block] == rest[e.block];
        assert BlocksOf(Resort(q, k, clock, found))[e.block] == rest[e.block] + 1;
      }
    }
  }

  /** What a re-sort leaves: the entries with block k's new clock, but for the entry that
      the lookup found, and then one entry with block k. */
  lemma ResortExactly(q: seq<Sent>, k: nat, clock: nat, found: Option<nat>)
    requires k < |q| && (found.Some? ==> found.value < |q|)
    ensures var e := Sent(q[k].block, clock);
            var q' := q[k := e];
            multiset(Resort(q, k, clock, found))
            == if found.None? then multiset(q') else multiset(q') - multiset{q'[found.value]} + multiset{e}
  {
    var e := Sent(q[k].block, clock);
    var q' := q[k := e];
    if found.Some? {
      var i := found.value;
      assert q' == q'[..i] + [q'[i]] + q'[i + 1..];
      InsertByClockKeeps(RemoveAt(q', i), e);
    }
  }

  /** When the lookup finds block k itself, sendmarkq_ is sorted again, so that its head
      is a block sent least recently. */
  lemma ResortSorts(q: seq<Sent>, k: nat, clock: nat)
    requires k < |q| && SortedByClock(RemoveAt(q, k))
    ensures SortedByClock(Resort(q, k, clock, Some(k)))
    ensures multiset(Resort(q, k, clock, Some(k))) == multiset(RemoveAt(q, k)) + multiset{Sent(q[k].block, clock)}
  {
    var e := Sent(q[k].block, clock);
    assert RemoveAt(q[k := e], k) == RemoveAt(q, k);
    InsertByClockKeeps(RemoveAt(q, k), e);
    InsertByClockSorted(RemoveAt(q, k), e);
  }

  /** handle_sendmarkq_remove_range drops all copies of exactly the blocks inside the
      range. */
  lemma BlocksOfRemoveSent(q: seq<Sent>, start: nat, end: nat)
    ensures forall b :: BlocksOf(RemoveSent(q, start, end))[b] == if b.Inside(start, end) then 0 else BlocksOf(q)[b]
  {
    forall b ensures BlocksOf(RemoveSent(q, start, end))[b] == if b.Inside(start, end) then 0 else BlocksOf(q)[b] {
      CopiesAfterRemoveSent(q, start, end, b);
    }
  }

  lemma {:induction false} CopiesAfterRemoveSent(q: seq<Sent>, start: nat, end: nat, b: Block)
    ensures BlocksOf(RemoveSent(q, start, end))[b] == if b.Inside(start, end) then 0 else BlocksOf(q)[b]
  {
    if q != [] {
      var rest := RemoveSent(q[1..], start, end);
      CopiesAfterRemoveSent(q[1..], start, end, b);
      if q[0].block.Inside(start, end) {
        assert [] + rest == rest;
      } else {
        assert ([q[0]] + rest)[1..] == rest;
      }
    }
  }

  lemma {:induction false} RemoveSentFrom(q: seq<Sent>, start: nat, end: nat)
    ensures |RemoveSent(q, start, end)| <= |q|
    ensures forall e :: e in RemoveSent(q, start, end) ==> e in q
  {
    if q != [] {
      RemoveSentFrom(q[1..], start, end);
    }
  }

  lemma {:induction false} RemoveSentSorted(q: seq<Sent>, start: nat, end: nat)
    requires SortedByClock(q)
    ensures SortedByClock(RemoveSent(q, start, end))
  {
    if q != [] {
      var rest := RemoveSent(q[1..], start, end);
      RemoveSentSorted(q[1..], start, end);
      RemoveSentFrom(q[1..], start, end);
      forall j | 0 <= j < |rest| ensures q[0].clock <= rest[j].clock {
        assert rest[j] in rest;
      }
    }
  }

  /** sendmarkq_ stays sorted by clock, its head thus a block sent least recently, as
      long as the lookup of a re-sorted block finds that block. */
  lemma MarksStaySorted(s: Sess, op: Op)
    requires Enabled(s, op) && SortedByClock(s.tx.marks)
    requires op.OpResort? ==> op.found == Some(op.k)
    ensures SortedByClock(Apply(s, op).tx.marks)
  {
    var q := s.tx.marks;
    match op {
      case OpMove(offset, clock) =>
        InsertByClockSorted(q, Sent(Block(offset, s.tx.head.value.data, s.tx.head.value.eof), clock));
      case OpResort(k, clock, _) => ResortSorts(q, k, clock);
      case OpRemoveSent(start, end) => RemoveSentSorted(q, start, end);
      case _ =>
    }
  }

  // ---------- bounds ----------

  ghost predicate Bounded(s: Sess) {
    |s.tx.ring| <= s.tx.capacity && |s.tx.marks| <= s.tx.marksMax && |s.rx.queue| <= s.rx.queueMax
  }

  lemma {:induction false} InsertByRangeLength(q: seq<Mark>, m: Mark)
    ensures |InsertByRange(q, m)| == |q| + 1
  {
    if q != [] && !RangeLess(m.block, q[0].block) {
      InsertByRangeLength(q[1..], m);
    }
  }

  lemma {:induction false} QueueLengths(q: seq<Mark>, start: nat, end: nat)
    ensures |AckRange(q, start, end)| <= |q| && |RetireAll(q)| <= |q|
  {
    if q != [] {
      QueueLengths(q[1..], start, end);
    }
  }

  lemma BoundedStays(s: Sess, op: Op)
    requires Bounded(s) && Enabled(s, op)
    ensures Bounded(Apply(s, op))
  {
    match op {
      case OpRead(len) =>
        if len > 0 {
          QueueLengths(s.rx.queue[..Retired(s.rx.queue, s.rx.distributed, len - s.rx.readOffset)], 0, 0);
        }
      case OpMove(offset, clock) =>
        InsertByClockKeeps(s.tx.marks, Sent(Block(offset, s.tx.head.value.data, s.tx.head.value.eof), clock));
      case OpResort(k, clock, found) =>
        if found.Some? {
          var e := Sent(s.tx.marks[k].block, clock);
          InsertByClockKeeps(RemoveAt(s.tx.marks[k := e], found.value), e);
        }
      case OpRemoveSent(start, end) => RemoveSentFrom(s.tx.marks, start, end);
      case OpPut(b) => InsertByRangeLength(s.rx.queue, Mark(b, s.eof, false));
      case OpAckRange(start, end) => QueueLengths(s.rx.queue, start, end);
      case _ =>
    }
  }

  /** In every reachable state ring, sendmarkq_ and recvmarkq_ are within their maxima. */
  lemma {:induction false} BoundedAlways(s: Sess, ops: seq<Op>)
    requires Bounded(s) && Runnable(s, ops)
    ensures Bounded(Run(s, ops))
    decreases |ops|
  {
    if ops != [] {
      BoundedStays(s, ops[0]);
      BoundedAlways(Apply(s, ops[0]), ops[1..]);
    }
  }

  // ---------- draining ----------

  /** The messager asks for the head and moves it: the state after, and the block if
      there was room for it. */
  function SendOne(s: Sess, max: nat, offset: nat, clock: nat): (Sess, Option<Block>) {
    var (s1, c) := Head(s, max);
    if c.None? then (s1, None)
    else
      var (s2, moved) := Move(s1, offset, clock);
      (s2, if moved then Some(Block(offset, c.value.data, c.value.eof)) else None)
  }

  /** The same up to once per clock, with the offsets and the clocks that the messager
      assigns. */
  function SendMany(s: Sess, max: nat, offset: nat, clocks: seq<nat>): (Sess, seq<Block>)
    decreases |clocks|
  {
    if clocks == [] then (s, [])
    else
      var (s1, b) := SendOne(s, max, offset, clocks[0]);
      if b.None? then (s1, [])
      else
        var (s2, bs) := SendMany(s1, max, b.value.End(), clocks[1..]);
        (s2, [b.value] + bs)
  }

  function BlockCount(used: nat, max: nat): nat
    requires max > 0
  {
    Max(1, CeilDiv(used, max))
  }

  lemma SendOneDraining(s: Sess, max: nat, offset: nat, clock: nat)
    requires max >= 1 && TxValid(s) && s.eof && s.tx.head.None? && |s.tx.marks| < s.tx.marksMax
    ensures var n := Min(|s.tx.ring|, max);
            var (s', b) := SendOne(s, max, offset, clock);
            && b == Some(Block(offset, s.tx.ring[..n], |s.tx.ring| <= max))
            && s'.tx.ring == s.tx.ring[n..] && s'.tx.head.None? && s'.eof && TxValid(s')
            && s'.tx.marksMax == s.tx.marksMax && |s'.tx.marks| == |s.tx.marks| + 1
  {
    var (s1, c) := Head(s, max);
    InsertByClockKeeps(s.tx.marks, Sent(Block(offset, c.value.data, c.value.eof), clock));
  }

  /** The blocks lie end to end from offset on and spell out the data. */
  ghost predicate Laid(bs: seq<Block>, offset: nat, data: seq<byte>)
    decreases |bs|
  {
    if bs == [] then data == []
    else
      && bs[0].offset == offset && bs[0].data <= data
      && Laid(bs[1..], bs[0].End(), data[|bs[0].data|..])
  }

  /** n blocks: all but the last full and unmarked, the last EOF-marked, together the
      data. */
  ghost predicate DrainedInto(bs: seq<Block>, n: nat, max: nat, offset: nat, data: seq<byte>) {
    && |bs| == n > 0 && bs[n - 1].eof
    && (forall i :: 0 <= i < n - 1 ==> !bs[i].eof && |bs[i].data| == max)
    && Laid(bs, offset, data)
  }

  lemma DrainedFirst(b: Block, rest: seq<Block>, n: nat, max: nat, data: seq<byte>)
    requires 0 < max < |data| && b.data == data[..max] && !b.eof
    requires DrainedInto(rest, n, max, b.End(), data[max..])
    ensures DrainedInto([b] + rest, n + 1, max, b.offset, data)
  {
    assert ([b] + rest)[1..] == rest;
  }

  lemma DrainedLast(b: Block, max: nat, data: seq<byte>)
    requires b.data == data && b.eof
    ensures DrainedInto([b] + [], 1, max, b.offset, data)
  {
    assert [b] + [] == [b] && [b][1..] == [] && data[|data|..] == [];
  }

  lemma SendManyFirst(s: Sess, max: nat, offset: nat, clocks: seq<nat>, s1: Sess, b: Block)
    requires clocks != [] && SendOne(s, max, offset, clocks[0]) == (s1, Some(b))
    ensures var (s2, rest) := SendMany(s1, max, b.End(), clocks[1..]);
            SendMany(s, max, offset, clocks) == (s2, [b] + rest)
  {
  }

  /** With EOF pending and room in sendmarkq_, the queue drains in exactly
      max(1, ceil(used / max)) blocks: all but the last are full and unmarked, the last
      carries the EOF mark and leaves the ring empty, and together they are the ring. From
      then on the queue is empty exactly for a messager that knows it has sent EOF. */
  lemma {:induction false} DrainCount(s: Sess, max: nat, offset: nat, clocks: seq<nat>)
    requires max >= 1 && TxValid(s) && s.eof && s.tx.head.None?
    requires |clocks| == BlockCount(|s.tx.ring|, max) && |s.tx.marks| + |clocks| <= s.tx.marksMax
    ensures var (s', bs) := SendMany(s, max, offset, clocks);
            && DrainedInto(bs, |clocks|, max, offset, s.tx.ring) && s'.tx.ring == [] && s'.tx.head.None? && s'.eof
            && forall myEof :: SendqIsEmpty(s', myEof) <==> myEof
    decreases |clocks|
  {
    var used := |s.tx.ring|;
    CeilDivStep(used, max);
    if used > max {
      var (s1, b) := SendOne(s, max, offset, clocks[0]);
      SendOneDraining(s, max, offset, clocks[0]);
      CeilDivStep(used - max, max);
      DrainCount(s1, max, b.value.End(), clocks[1..]);
      SendManyFirst(s, max, offset, clocks, s1, b.value);
      DrainedFirst(b.value, SendMany(s1, max, b.value.End(), clocks[1..]).1, |clocks| - 1, max, s.tx.ring);
    } else {
      DrainLast(s, max, offset, clocks);
    }
  }

  lemma DrainLast(s: Sess, max: nat, offset: nat, clocks: seq<nat>)
    requires max >= 1 && TxValid(s) && s.eof && s.tx.head.None? && |s.tx.ring| <= max
    requires |clocks| == 1 && |s.tx.marks| < s.tx.marksMax
    ensures var (s', bs) := SendMany(s, max, offset, clocks);
            DrainedInto(bs, 1, max, offset, s.tx.ring) && s'.tx.ring == [] && s'.tx.head.None? && s'.eof
  {
    var (s1, b) := SendOne(s, max, offset, clocks[0]);
    SendOneDraining(s, max, offset, clocks[0]);
    SendManyFirst(s, max, offset, clocks, s1, b.value);
    assert SendMany(s, max, offset, clocks) == (s1, [b.value] + []);
    DrainedLast(b.value, max, s.tx.ring);
  }
}
