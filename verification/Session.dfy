/** curvecp::detail::session with its own fields: a circular byte array with two
    cursors, a one-slot send head, and queues whose entries are retired in place. */
module SessionModel {
  import opened Arith
  import opened Blocks
  import opened SessionSpec
  import opened SweepFacts
  import opened SenderFacts

  const INT_MAX: nat := 0x7fff_ffff

  /** The signed int into which `write` and handle_sendq_head cast lengths. */
  newtype int32 = x: int | -0x8000_0000 <= x <= INT_MAX

  // ---------- the circular buffer ----------

  /** The used bytes of the buffer, oldest first. A cursor may equal the capacity. */
  ghost function Window(buf: seq<byte>, current: nat, used: nat): (r: seq<byte>)
    requires current <= |buf| && used <= |buf|
    ensures |r| == used
    ensures forall i :: 0 <= i < used ==>
              r[i] == if current + i < |buf| then buf[current + i] else buf[current + i - |buf|]
  {
    seq(used, i requires 0 <= i < used => buf[if current + i < |buf| then current + i else current + i - |buf|])
  }

  ghost predicate Cursors(capacity: nat, current: nat, next: nat, used: nat) {
    && current <= capacity && next <= capacity && used <= capacity
    && (next == current + used || next + capacity == current + used)
  }

  /** Both wrap branches keep the cursors congruent modulo the capacity. */
  lemma CursorsCongruent(capacity: nat, current: nat, next: nat, used: nat)
    requires capacity > 0 && Cursors(capacity, current, next, used)
    ensures (current + used) % capacity == next % capacity
  {
    if next + capacity == current + used {
      AddDivisor(next, capacity);
    }
  }

  /** Writing at the end of the window, in one piece or in two. */
  lemma WindowAppend(was: seq<byte>, now: seq<byte>, current: nat, next: nat, used: nat, data: seq<byte>)
    requires |now| == |was| && Cursors(|was|, current, next, used) && used + |data| <= |was|
    requires if next + |data| > |was|
             then var avail := |was| - next;
                  now == data[avail..] + was[|data| - avail..next] + data[..avail]
             else now == was[..next] + data + was[next + |data|..]
    ensures Window(now, current, used + |data|) == Window(was, current, used) + data
  {
  }

  /** Reading from the front of the window in one piece. */
  lemma WindowTake(buf: seq<byte>, current: nat, next: nat, used: nat, n: nat)
    requires Cursors(|buf|, current, next, used) && n <= used && current + n <= |buf|
    ensures buf[current..current + n] == Window(buf, current, used)[..n]
    ensures Window(buf, current + n, used - n) == Window(buf, current, used)[n..]
    ensures Cursors(|buf|, current + n, next, used - n)
  {
  }

  /** And in two, the second from the beginning of the buffer. */
  lemma WindowTakeWrapped(buf: seq<byte>, current: nat, next: nat, used: nat, n: nat)
    requires Cursors(|buf|, current, next, used) && n <= used && current + n > |buf|
    ensures var rest := current + n - |buf|;
            && buf[current..] + buf[..rest] == Window(buf, current, used)[..n]
            && Window(buf, rest, used - n) == Window(buf, current, used)[n..]
            && Cursors(|buf|, rest, next, used - n)
  {
  }

  /** std::memcpy of src to dst + at. */
  method Copy(dst: array<byte>, at: nat, src: seq<byte>)
    requires at + |src| <= dst.Length
    modifies dst
    ensures dst[..] == old(dst[..at]) + src + old(dst[at + |src|..])
  {
    forall i | 0 <= i < |src| {
      dst[at + i] := src[i];
    }
  }

  /** The two branches of `write`: past the end of the buffer the copy continues at
      its beginning. */
  method CopyWrapped(buf: array<byte>, next: nat, data: seq<byte>)
    requires next <= buf.Length <= INT_MAX && |data| <= buf.Length
    modifies buf
    ensures if next + |data| > buf.Length
            then var avail := buf.Length - next;
                 buf[..] == data[avail..] + old(buf[|data| - avail..next]) + data[..avail]
            else buf[..] == old(buf[..next]) + data + old(buf[next + |data|..])
  {
    if next + |data| > buf.Length {
      var avail := (buf.Length - next) as int32;
      Copy(buf, next, data[..avail]);
      Copy(buf, 0, data[avail..]);
    } else {
      Copy(buf, next, data);
    }
  }

  // ---------- queue entries ----------

  /** curvecpr_block_status: a received block and its status bits. */
  class BlockStatus {
    const block: Block
    var distributed: bool
    var acknowledged: bool

    constructor (block: Block, distributed: bool)
      ensures this.block == block && this.distributed == distributed && !acknowledged
    {
      this.block, this.distributed, this.acknowledged := block, distributed, false;
    }

    /** Sets the ACKNOWLEDGED bit if the block lies in the range; tells whether that
        retires the entry. */
    method Acknowledge(start: nat, end: nat) returns (erase: bool)
      modifies this`acknowledged
      ensures AckOne(old(View()), start, end) == if erase then [] else [View()]
    {
      if block.Inside(start, end) {
        acknowledged := true;
        return distributed;
      }
      return false;
    }

    ghost function View(): Mark
      reads this
    {
      Mark(block, distributed, acknowledged)
    }
  }

  ghost function Marks(q: seq<BlockStatus>): (r: seq<Mark>)
    reads q
    ensures |r| == |q|
    ensures forall i :: 0 <= i < |q| ==> r[i] == q[i].View()
  {
    seq(|q|, i requires 0 <= i < |q| reads q => q[i].View())
  }

  lemma MarksInsert(q: seq<BlockStatus>, i: nat, b: BlockStatus)
    requires i <= |q|
    ensures Marks(q[..i] + [b] + q[i..]) == Marks(q)[..i] + [b.View()] + Marks(q)[i..]
  {
  }

  lemma DistinctInsert(q: seq<BlockStatus>, i: nat, b: BlockStatus)
    requires i <= |q| && Distinct(q) && b !in q
    ensures Distinct(q[..i] + [b] + q[i..])
  {
    var r := q[..i] + [b] + q[i..];
    forall j, k | 0 <= j < k < |r| ensures r[j] != r[k] {
      var j', k' := if j < i then j else j - 1, if k < i then k else k - 1;
      assert j != i ==> r[j] == q[j'];
      assert k != i ==> r[k] == q[k'];
    }
  }

  lemma MarksAppend(q: seq<BlockStatus>, b: BlockStatus)
    ensures Marks(q + [b]) == Marks(q) + [b.View()]
  {
  }

  lemma MarksConcat(q: seq<BlockStatus>, r: seq<BlockStatus>)
    ensures Marks(q + r) == Marks(q) + Marks(r)
  {
  }

  ghost predicate Distinct(q: seq<BlockStatus>) {
    forall i, j :: 0 <= i < j < |q| ==> q[i] != q[j]
  }

  /** The first of the remaining entries is either erased or joins those kept. */
  lemma StepThrough<T>(kept: seq<T>, rest: seq<T>)
    requires rest != []
    ensures (kept + rest)[|kept|] == rest[0]
    ensures RemoveAt(kept + rest, |kept|) == kept + rest[1..]
    ensures kept + rest == (kept + [rest[0]]) + rest[1..]
  {
  }

  /** kept consists of different entries, all from pool, none of them in rest. */
  ghost predicate Sifted(kept: seq<BlockStatus>, rest: seq<BlockStatus>, pool: set<BlockStatus>) {
    && Distinct(kept) && Distinct(rest) && (forall k :: 0 <= k < |kept| ==> kept[k] in pool)
    && (forall j :: 0 <= j < |rest| ==> rest[j] in pool)
    && forall k, j :: 0 <= k < |kept| && 0 <= j < |rest| ==> kept[k] != rest[j]
  }

  lemma SiftedStep(kept: seq<BlockStatus>, rest: seq<BlockStatus>, pool: set<BlockStatus>)
    requires rest != [] && Sifted(kept, rest, pool)
    ensures Sifted(kept, rest[1..], pool) && Sifted(kept + [rest[0]], rest[1..], pool)
    ensures rest[0] in pool
    ensures forall k :: 0 <= k < |kept| ==> kept[k] != rest[0]
    ensures forall k :: 0 <= k < |rest[1..]| ==> rest[1..][k] != rest[0]
  {
  }

  lemma SiftedPool(kept: seq<BlockStatus>, rest: seq<BlockStatus>, pool: set<BlockStatus>)
    requires Sifted(kept, rest, pool)
    ensures Distinct(kept + rest) && forall b :: b in kept + rest ==> b in pool
  {
  }

  /** now is was with the bytes from `at` on replaced by copied. */
  ghost predicate Filled(now: seq<byte>, was: seq<byte>, at: nat, copied: seq<byte>) {
    at + |copied| <= |was| && now == Fill(was, at, copied)
  }

  /** The result of a whole sweep: what its loop has done so far, followed by the
      sweep r of the entries that remain. */
  datatype Totals = Totals(kept: seq<Mark>, copied: seq<byte>, eof: bool, contiguous: nat)

  ghost function Total(kept: seq<Mark>, copied: seq<byte>, eof: bool, contiguous: nat, r: Swept): Totals {
    Totals(kept + r.kept, copied + r.out, eof || r.eof, Max(contiguous, r.settled))
  }

  lemma TotalFromStart(eof: bool, contiguous: nat, r: Swept)
    ensures Total([], [], eof, contiguous, r) == Totals(r.kept, r.out, eof || r.eof, Max(contiguous, r.settled))
  {
  }

  lemma TotalAtEnd(kept: seq<Mark>, rest: seq<Mark>, copied: seq<byte>, eof: bool, contiguous: nat)
    ensures Total(kept, copied, eof, contiguous, Swept(rest, [], false, 0))
         == Totals(kept + rest, copied, eof, contiguous)
  {
  }

  /** What the loop still has to do once it has stopped, or goes on. */
  ghost function Remaining(stop: bool, q: seq<Mark>, d: nat, room: nat): Swept {
    if stop then Swept(q, [], false, 0) else Sweep(q, d, room)
  }

  /** What the loop has done so far, completed by what it still has to do, is total. */
  ghost predicate Completes(total: Totals, kept: seq<Mark>, copied: seq<byte>, eof: bool, contiguous: nat,
                            stop: bool, q: seq<Mark>, d: nat, room: nat) {
    total == Total(kept, copied, eof, contiguous, Remaining(stop, q, d, room))
  }

  /** A round that stops in the middle of a block. */
  lemma TotalStop(kept: seq<Mark>, copied: seq<byte>, eof: bool, contiguous: nat, q: seq<Mark>, d: nat, room: nat)
    requires q != [] && q[0].block.offset <= d && Beyond(q[0].block, d) > room
    ensures Total(kept, copied + NewBytes(q[0].block, d)[..room], eof, contiguous, Swept(q, [], false, 0))
         == Total(kept, copied, eof, contiguous, Sweep(q, d, room))
  {
  }

  /** A round that retires a block. */
  lemma TotalRetire(kept: seq<Mark>, copied: seq<byte>, eof: bool, contiguous: nat, q: seq<Mark>,
                    d: nat, d': nat, room: nat, room': nat)
    requires q != [] && q[0].block.offset <= d
    requires d' == d + Beyond(q[0].block, d) && room == room' + Beyond(q[0].block, d)
    ensures Total(kept, copied, eof, contiguous, Sweep(q, d, room))
         == Total(kept + Retire(q[0]), copied + NewBytes(q[0].block, d), eof || q[0].block.eof,
                  Max(contiguous, d'), Sweep(q[1..], d', room'))
  {
    var r := Sweep(q[1..], d', room');
    SweepFirst(q, d, room);
    Associative(kept, Retire(q[0]), r.kept);
    Associative(copied, NewBytes(q[0].block, d), r.out);
  }

  lemma CompletesRetired(total: Totals, kept: seq<Mark>, copied: seq<byte>, eof: bool, contiguous: nat, q: seq<Mark>,
                         d: nat, d': nat, room: nat, room': nat)
    requires q != [] && q[0].block.offset <= d
    requires d' == d + Beyond(q[0].block, d) && room == room' + Beyond(q[0].block, d)
    requires total == Total(kept, copied, eof, contiguous, Sweep(q, d, room))
    ensures Completes(total, kept + Retire(q[0]), copied + NewBytes(q[0].block, d), eof || q[0].block.eof,
                      Max(contiguous, d'), false, q[1..], d', room')
  {
    TotalRetire(kept, copied, eof, contiguous, q, d, d', room, room');
  }

  /** What the reader's buffer and the two positions were when the sweep began. */
  datatype Before = Before(buffer: seq<byte>, distributed: nat, readOffset: nat)

  lemma FilledMore(now: seq<byte>, was: seq<byte>, orig: seq<byte>, at: nat, copied: seq<byte>, piece: seq<byte>)
    requires Filled(was, orig, at, copied) && Filled(now, was, at + |copied|, piece)
    ensures Filled(now, orig, at, copied + piece)
  {
  }

  /** The receiving half rx, the EOF flag and the bytes copied are what the sweep for a
      buffer of len bytes makes of them. */
  ghost predicate SweptInto(rx: Rx, eof: bool, len: nat, rx': Rx, eof': bool, copied: seq<byte>)
    requires rx.readOffset <= len
  {
    var sw := Sweep(rx.queue, rx.distributed, len - rx.readOffset);
    rx' == AfterSweep(rx, sw) && eof' == (eof || sw.eof) && copied == sw.out
  }

  lemma SweptTotal(rx: Rx, eof: bool, len: nat, rx': Rx, eof': bool, copied: seq<byte>)
    requires rx.readOffset <= len
    requires rx' == rx.(queue := rx'.queue, distributed := rx.distributed + |copied|,
                        readOffset := rx.readOffset + |copied|, contiguous := rx'.contiguous)
    requires Totals(rx'.queue, copied, eof', rx'.contiguous)
          == Total([], [], eof, rx.contiguous, Sweep(rx.queue, rx.distributed, len - rx.readOffset))
    ensures SweptInto(rx, eof, len, rx', eof', copied)
  {
    TotalFromStart(eof, rx.contiguous, Sweep(rx.queue, rx.distributed, len - rx.readOffset));
  }

  lemma CompletesRead(rx: Rx, eof: bool, len: nat, rx': Rx, eof': bool, copied: seq<byte>)
    requires rx.readOffset <= len && SweptInto(rx, eof, len, rx', eof', copied)
    ensures var r, c := ReadRx(rx, eof, len), Complete(rx', eof', copied, false, len);
            r.rx == c.rx && r.eof == eof' && r.out == copied && r.outcome == c.outcome
  {
  }

  lemma PieceOf(b: Block, d: nat, n: nat)
    requires b.offset <= d < b.End() && n <= Beyond(b, d)
    ensures b.data[d - b.offset..d - b.offset + n] == NewBytes(b, d)[..n]
    ensures n == Beyond(b, d) ==> NewBytes(b, d)[..n] == NewBytes(b, d)
  {
  }

  // ---------- the session ----------

  class Session {
    const pendingMaximum: nat
    const sendmarkqMaximum: nat
    const recvmarkqMaximum: nat
    var pending: array<byte>
    var pendingEof: bool
    var pendingClose: bool
    var pendingUsed: nat
    var pendingCurrent: nat
    var pendingNext: nat
    var sendqHeadExists: bool
    var sendqHead: Chunk
    var sendmarkq: seq<Sent>
    var recvmarkq: seq<BlockStatus>
    var recvmarkqDistributed: nat
    var recvmarkqReadOffset: nat
    var theirContiguousSentBytes: nat
    var running: bool
    var closeHandlerCalls: nat
    // pending_ready_read_, pending_ready_write_, pending_ready_close_: who waits
    var waits: Waits

    ghost predicate Valid()
      reads this`pending, this`pendingUsed, this`pendingCurrent, this`pendingNext, this`recvmarkq
    {
      && pendingMaximum <= INT_MAX
      && (pending.Length == pendingMaximum || (pending.Length == 0 && pendingNext == 0))
      && Cursors(pending.Length, pendingCurrent, pendingNext, pendingUsed)
      && Distinct(recvmarkq)
    }

    ghost function Ring(): (r: seq<byte>)
      requires Cursors(pending.Length, pendingCurrent, pendingNext, pendingUsed)
      reads this`pending, this`pendingCurrent, this`pendingNext, this`pendingUsed, pending
      ensures |r| == pendingUsed
    {
      Window(pending[..], pendingCurrent, pendingUsed)
    }

    ghost function TxView(): Tx
      requires Valid()
      reads this`pending, this`pendingUsed, this`pendingCurrent, this`pendingNext, this`recvmarkq, pending
      reads this`sendqHeadExists, this`sendqHead, this`sendmarkq
    {
      Tx(pendingMaximum, sendmarkqMaximum, pending.Length > 0,
         Ring(),
         if sendqHeadExists then Some(sendqHead) else None, sendmarkq)
    }

    ghost function RxView(): Rx
      reads this`recvmarkq, this`recvmarkqDistributed, this`recvmarkqReadOffset,
            this`theirContiguousSentBytes, recvmarkq
    {
      Rx(recvmarkqMaximum, Marks(recvmarkq), recvmarkqDistributed, recvmarkqReadOffset,
         theirContiguousSentBytes)
    }

    ghost function View(): Sess
      requires Valid()
      reads this, pending, recvmarkq
    {
      Sess(TxView(), RxView(), pendingEof, pendingClose, running, waits, closeHandlerCalls)
    }

    constructor (pendingMaximum: nat, sendmarkqMaximum: nat, recvmarkqMaximum: nat)
      requires pendingMaximum <= INT_MAX
      ensures Valid() && fresh(pending) && recvmarkq == []
      ensures View() == Fresh(pendingMaximum, sendmarkqMaximum, recvmarkqMaximum)
    {
      this.pendingMaximum := pendingMaximum;
      this.sendmarkqMaximum := sendmarkqMaximum;
      this.recvmarkqMaximum := recvmarkqMaximum;
      pending := new byte[0];
      pendingEof, pendingClose, running := false, false, false;
      pendingUsed, pendingCurrent, pendingNext := 0, 0, 0;
      sendqHeadExists, sendqHead := false, Chunk([], false);
      sendmarkq, recvmarkq := [], [];
      recvmarkqDistributed, recvmarkqReadOffset, theirContiguousSentBytes := 0, 0, 0;
      closeHandlerCalls := 0;
      waits := Waits({}, {}, {}, {});
    }

    method Start()
      requires Valid()
      modifies this`running
      ensures Valid() && View() == old(View()).(running := true)
    {
      running := true;
    }

    method AsyncPendingWait(want: Want, id: nat)
      requires Valid()
      modifies this`waits
      ensures Valid() && View() == old(View()).(waits := waits) && waits.woken == old(waits.woken)
      ensures waits.read == old(waits.read) + (if want.WantRead? then {id} else {})
      ensures waits.write == old(waits.write) + (if want.WantWrite? then {id} else {})
      ensures waits.close == old(waits.close) + (if want.WantClose? then {id} else {})
    {
      waits := match want
        case WantNothing => waits
        case WantRead => waits.(read := waits.read + {id})
        case WantWrite => waits.(write := waits.write + {id})
        case WantClose => waits.(close := waits.close + {id});
    }

    method Write(data: seq<byte>) returns (outcome: Outcome)
      requires Valid()
      modifies this`pending, this`pendingNext, this`pendingUsed, pending
      ensures Valid() && (pending == old(pending) || fresh(pending))
      ensures View() == SessionSpec.Write(old(View()), data).0
      ensures outcome == SessionSpec.Write(old(View()), data).1
    {
      if |data| == 0 {
        return Finished(Success, 0);
      } else if pendingEof {
        return Finished(Eof, 0);
      } else if |data| > pendingMaximum - pendingUsed {
        return Retry;
      }
      Append(data);
      outcome := Finished(Success, |data|);
    }

    /** The copying half of `write`. */
    method Append(data: seq<byte>)
      requires Valid() && 0 < |data| <= pendingMaximum - pendingUsed
      modifies this`pending, this`pendingNext, this`pendingUsed, pending
      ensures Valid() && (pending == old(pending) || fresh(pending))
      ensures pending.Length > 0 && Ring() == old(Ring()) + data
    {
      if pending.Length == 0 {
        pending := new byte[pendingMaximum](_ => 0);
      }
      ghost var before := pending[..];
      CopyWrapped(pending, pendingNext, data);
      WindowAppend(before, pending[..], pendingCurrent, pendingNext, pendingUsed, data);
      pendingNext := if pendingNext + |data| > pendingMaximum
                     then |data| - (pendingMaximum - pendingNext) else pendingNext + |data|;
      pendingUsed := pendingUsed + |data|;
    }

    method HandleSendqHead(myMaximumSendBytes: nat) returns (stored: Option<Chunk>)
      requires Valid()
      modifies this`pendingCurrent, this`pendingUsed, this`sendqHeadExists, this`sendqHead,
               this`waits
      ensures Valid() && View() == Head(old(View()), myMaximumSendBytes).0
      ensures stored == Head(old(View()), myMaximumSendBytes).1
    {
      if sendqHeadExists {
        return Some(sendqHead);
      }
      if pendingUsed != 0 || pendingEof {
        BuildHead(myMaximumSendBytes);
        return Some(sendqHead);
      }
      stored := None;
    }

    /** The part of handle_sendq_head that fills the head slot. */
    method BuildHead(myMaximumSendBytes: nat)
      requires Valid() && !sendqHeadExists && (pendingUsed != 0 || pendingEof)
      modifies this`pendingCurrent, this`pendingUsed, this`sendqHeadExists, this`sendqHead,
               this`waits
      ensures Valid() && sendqHeadExists && waits == if pending.Length > 0 then old(waits).WakeWrite() else old(waits)
      ensures var n := if pending.Length > 0 then Min(old(pendingUsed), myMaximumSendBytes) else 0;
              sendqHead == Chunk(old(Ring())[..n], old(Ring())[n..] == [] && pendingEof) && Ring() == old(Ring())[n..]
    {
      var data := [];
      if pending.Length != 0 {
        data := Take(Min(pendingUsed, myMaximumSendBytes) as int32);
        waits := waits.WakeWrite();
      }
      sendqHead := Chunk(data, pendingUsed == 0 && pendingEof);
      sendqHeadExists := true;
    }

    /** The copying half of handle_sendq_head. */
    method Take(requested: int32) returns (data: seq<byte>)
      requires Valid() && 0 <= requested as int <= pendingUsed
      modifies this`pendingCurrent, this`pendingUsed
      ensures Valid() && data == old(Ring())[..requested] && Ring() == old(Ring())[requested..]
    {
      data := Fetch(requested);
      pendingUsed := pendingUsed - requested as int;
    }

    /** The two branches of that: past the end of the buffer the copy continues at its
        beginning. */
    method Fetch(requested: int32) returns (data: seq<byte>)
      requires Valid() && 0 <= requested as int <= pendingUsed
      modifies this`pendingCurrent
      ensures Cursors(pending.Length, pendingCurrent, pendingNext, pendingUsed - requested as int)
      ensures data == old(Ring())[..requested as int]
      ensures Window(pending[..], pendingCurrent, pendingUsed - requested as int) == old(Ring())[requested as int..]
    {
      ghost var n := requested as int;
      if pendingCurrent + requested as int > pendingMaximum {
        WindowTakeWrapped(pending[..], pendingCurrent, pendingNext, pendingUsed, n);
        var avail := (pendingMaximum - pendingCurrent) as int32;
        data := pending[pendingCurrent..] + pending[..requested - avail];
        pendingCurrent := (requested - avail) as int;
      } else {
        WindowTake(pending[..], pendingCurrent, pendingNext, pendingUsed, n);
        data := pending[pendingCurrent..pendingCurrent + requested as int];
        pendingCurrent := pendingCurrent + requested as int;
      }
    }

    method HandleSendqIsEmpty(myEof: bool) returns (empty: bool)
      requires Valid()
      ensures empty == SendqIsEmpty(View(), myEof)
    {
      empty := !sendqHeadExists && pendingUsed == 0 && (!pendingEof || myEof);
    }

    /** std::multiset::insert into sendmarkq_. */
    method InsertSent(e: Sent)
      modifies this`sendmarkq
      ensures sendmarkq == InsertByClock(old(sendmarkq), e)
    {
      var i := 0;
      while i < |sendmarkq| && sendmarkq[i].clock <= e.clock
        invariant i <= |sendmarkq|
        invariant forall j :: 0 <= j < i ==> sendmarkq[j].clock <= e.clock
      {
        i := i + 1;
      }
      InsertByClockAt(sendmarkq, e, i);
      sendmarkq := sendmarkq[..i] + [e] + sendmarkq[i..];
    }

    /** The move callback for the head block. */
    method HandleSendqMoveHead(offset: nat, clock: nat) returns (moved: bool)
      requires Valid() && sendqHeadExists
      modifies this`sendmarkq, this`sendqHeadExists
      ensures Valid() && View() == Move(old(View()), offset, clock).0
      ensures moved == Move(old(View()), offset, clock).1
    {
      if |sendmarkq| >= sendmarkqMaximum {
        return false;
      }
      InsertSent(Sent(Block(offset, sendqHead.data, sendqHead.eof), clock));
      sendqHeadExists := false;
      moved := true;
    }

    /** The move callback for any other block: entry k, with its new clock. */
    method HandleSendqResort(k: nat, clock: nat, found: Option<nat>)
      requires Valid() && k < |sendmarkq| && (found.Some? ==> found.value < |sendmarkq|)
      modifies this`sendmarkq
      ensures Valid() && View() == ResortStep(old(View()), k, clock, found)
    {
      var e := Sent(sendmarkq[k].block, clock);
      sendmarkq := sendmarkq[k := e];
      if found.Some? {
        sendmarkq := sendmarkq[..found.value] + sendmarkq[found.value + 1..];
        InsertSent(e);
      }
    }

    ghost predicate Oldest(e: Sent)
      reads this`sendmarkq
    {
      forall x :: x in sendmarkq ==> e.clock <= x.clock
    }

    /** Yields a block that was sent least recently. */
    method HandleSendmarkqHead() returns (stored: Option<Block>)
      ensures stored.None? <==> sendmarkq == []
      ensures stored.Some? ==>
                exists e :: e in sendmarkq && e.block == stored.value && (SortedByClock(sendmarkq) ==> Oldest(e))
    {
      stored := if |sendmarkq| == 0 then None else Some(sendmarkq[0].block);
    }

    method HandleSendmarkqRemoveRange(start: nat, end: nat)
      requires Valid()
      modifies this`sendmarkq
      ensures Valid() && View() == RemoveSentStep(old(View()), start, end)
    {
      ghost var kept, rest := [], sendmarkq;
      var i := 0;
      while i < |sendmarkq|
        invariant i == |kept| && sendmarkq == kept + rest
        invariant kept + RemoveSent(rest, start, end) == RemoveSent(old(sendmarkq), start, end)
        decreases |rest|
      {
        StepThrough(kept, rest);
        ghost var jt, after := rest[0], RemoveSent(rest[1..], start, end);
        Associative(kept, [jt], after);
        if sendmarkq[i].block.Inside(start, end) {
          sendmarkq := RemoveAt(sendmarkq, i);
          assert RemoveSent(rest, start, end) == after;
        } else {
          i := i + 1;
          kept := kept + [jt];
        }
        rest := rest[1..];
      }
      assert sendmarkq == kept && RemoveSent(rest, start, end) == [];
    }

    method HandleRecvmarkqPut(block: Block) returns (stored: bool)
      requires Valid()
      modifies this`recvmarkq, this`waits
      ensures Valid() && (forall b :: b in recvmarkq ==> b in old(recvmarkq) || fresh(b))
      ensures View() == Put(old(View()), block).0
      ensures stored == Put(old(View()), block).1
    {
      if |recvmarkq| >= recvmarkqMaximum {
        return false;
      }
      InsertStatus(block);
      if !pendingEof {
        waits := waits.WakeRead();
      }
      stored := true;
    }

    /** std::multiset::insert of a new entry into recvmarkq_. */
    method InsertStatus(block: Block)
      requires Distinct(recvmarkq)
      modifies this`recvmarkq
      ensures Distinct(recvmarkq)
      ensures forall b :: b in recvmarkq ==> b in old(recvmarkq) || fresh(b)
      ensures Marks(recvmarkq) == InsertByRange(old(Marks(recvmarkq)), Mark(block, pendingEof, false))
    {
      var newBlock := new BlockStatus(block, pendingEof);
      var i := 0;
      while i < |recvmarkq| && !RangeLess(block, recvmarkq[i].block)
        invariant i <= |recvmarkq|
        invariant forall j :: 0 <= j < i ==> !RangeLess(block, recvmarkq[j].block)
      {
        i := i + 1;
      }
      InsertByRangeAt(Marks(recvmarkq), newBlock.View(), i);
      MarksInsert(recvmarkq, i, newBlock);
      DistinctInsert(recvmarkq, i, newBlock);
      recvmarkq := recvmarkq[..i] + [newBlock] + recvmarkq[i..];
    }

    method HandleRecvmarkqGetNthUnacknowledged(n: nat) returns (stored: Option<Block>)
      ensures var u := Unacknowledged(Marks(recvmarkq));
              stored == if n < |u| then Some(u[n]) else None
    {
      ghost var q := Marks(recvmarkq);
      var i, k := 0, 0;
      while k < |recvmarkq|
        invariant k <= |recvmarkq| && i <= n
        invariant |Unacknowledged(q)| == i + |Unacknowledged(q[k..])|
        invariant Unacknowledged(q)[i..] == Unacknowledged(q[k..])
      {
        assert q[k..][1..] == q[k + 1..];
        if !recvmarkq[k].acknowledged {
          if i == n {
            return Some(recvmarkq[k].block);
          }
          i := i + 1;
        }
        k := k + 1;
      }
      stored := None;
    }

    method HandleRecvmarkqRemoveRange(start: nat, end: nat)
      requires Valid()
      modifies this`recvmarkq, recvmarkq
      ensures Valid() && (forall b :: b in recvmarkq ==> b in old(recvmarkq))
      ensures View() == AckRangeStep(old(View()), start, end)
    {
      AcknowledgeAll(start, end);
    }

    /** The loop of handle_recvmarkq_remove_range, erasing as it goes. */
    method AcknowledgeAll(start: nat, end: nat)
      requires Distinct(recvmarkq)
      modifies this`recvmarkq, recvmarkq
      ensures Distinct(recvmarkq) && (forall b :: b in recvmarkq ==> b in old(recvmarkq))
      ensures Marks(recvmarkq) == AckRange(old(Marks(recvmarkq)), start, end)
    {
      ghost var q, kept, rest := Marks(recvmarkq), [], recvmarkq;
      ghost var pool := set b | b in recvmarkq;
      var i := 0;
      while i < |recvmarkq|
        invariant i == |kept| && recvmarkq == kept + rest
        invariant Sifted(kept, rest, pool)
        invariant Marks(kept) + AckRange(Marks(rest), start, end) == AckRange(q, start, end)
        decreases |rest|
      {
        i, kept := AcknowledgeAt(i, kept, rest, pool, start, end);
        rest := rest[1..];
      }
    }

    /** One round of that loop. */
    method AcknowledgeAt(i: nat, ghost kept: seq<BlockStatus>, ghost rest: seq<BlockStatus>,
                         ghost pool: set<BlockStatus>, start: nat, end: nat)
      returns (next: nat, ghost kept': seq<BlockStatus>)
      requires i == |kept| < |recvmarkq| && recvmarkq == kept + rest && Sifted(kept, rest, pool)
      modifies this`recvmarkq, pool
      ensures next == |kept'| && recvmarkq == kept' + rest[1..] && Sifted(kept', rest[1..], pool)
      ensures Marks(kept') + AckRange(Marks(rest[1..]), start, end)
           == old(Marks(kept) + AckRange(Marks(rest), start, end))
    {
      var jt := recvmarkq[i];
      StepThrough(kept, rest);
      SiftedStep(kept, rest, pool);
      ghost var left, right := Marks(kept), Marks(rest);
      var erase := jt.Acknowledge(start, end);
      assert Marks(kept) == left && Marks(rest[1..]) == right[1..];
      MarksAppend(kept, jt);
      if erase {
        recvmarkq := RemoveAt(recvmarkq, i);
        next, kept' := i, kept;
      } else {
        next, kept' := i + 1, kept + [jt];
      }
      assert Marks(kept') == left + AckOne(right[0], start, end);
      Associative(left, AckOne(right[0], start, end), AckRange(right[1..], start, end));
    }

    /** read: fills the caller's buffer from readOffset on. */
    method Read(buffer: array<byte>) returns (outcome: Outcome, ghost copied: seq<byte>)
      requires Valid() && buffer != pending
      requires buffer.Length == 0 || recvmarkqReadOffset <= buffer.Length
      modifies this`recvmarkq, this`recvmarkqDistributed, this`recvmarkqReadOffset, this`pendingEof,
               this`theirContiguousSentBytes, buffer, recvmarkq
      ensures Valid() && (forall b :: b in recvmarkq ==> b in old(recvmarkq))
      ensures var r := SessionSpec.Read(old(View()), buffer.Length);
              View() == r.s && outcome == r.outcome && copied == r.out
      ensures buffer.Length > 0 ==> Filled(buffer[..], old(buffer[..]), old(recvmarkqReadOffset), copied)
    {
      if buffer.Length == 0 {
        ReadNothing();
        return Finished(Success, 0), [];
      }
      outcome, copied := ReadSome(buffer);
      assert TxView() == old(TxView());
      assert View() == old(View()).(rx := RxView(), eof := pendingEof);
    }

    method ReadNothing()
      requires Valid()
      modifies this`recvmarkqReadOffset
      ensures Valid() && View() == old(View()).(rx := old(RxView()).(readOffset := 0))
    {
      recvmarkqReadOffset := 0;
      assert RxView() == old(RxView()).(readOffset := 0);
    }

    method ReadSome(buffer: array<byte>) returns (outcome: Outcome, ghost copied: seq<byte>)
      requires Distinct(recvmarkq) && recvmarkqReadOffset <= buffer.Length
      modifies this`recvmarkq, this`recvmarkqDistributed, this`recvmarkqReadOffset, this`pendingEof,
               this`theirContiguousSentBytes, buffer, recvmarkq
      ensures Distinct(recvmarkq) && forall b :: b in recvmarkq ==> b in old(recvmarkq)
      ensures var r := ReadRx(old(RxView()), old(pendingEof), buffer.Length);
              RxView() == r.rx && pendingEof == r.eof && copied == r.out && outcome == r.outcome
      ensures Filled(buffer[..], old(buffer[..]), old(recvmarkqReadOffset), copied)
    {
      copied := SweepAll(buffer);
      CompletesRead(old(RxView()), old(pendingEof), buffer.Length, RxView(), pendingEof, copied);
      outcome := CompleteRead(buffer.Length, copied);
    }

    /** The end of `read`. */
    method CompleteRead(length: nat, ghost copied: seq<byte>) returns (outcome: Outcome)
      requires Distinct(recvmarkq)
      modifies this`recvmarkqReadOffset
      ensures var r := Complete(old(RxView()), pendingEof, copied, false, length);
              RxView() == r.rx && outcome == r.outcome
    {
      if recvmarkqReadOffset == length || pendingEof {
        outcome := Finished(if pendingEof then Eof else Success, recvmarkqReadOffset);
        recvmarkqReadOffset := 0;
      } else {
        outcome := Retry;
      }
    }

    /** The loop of `read`. */
    method SweepAll(buffer: array<byte>) returns (ghost copied: seq<byte>)
      requires Distinct(recvmarkq) && recvmarkqReadOffset <= buffer.Length
      modifies this`recvmarkq, this`recvmarkqDistributed, this`recvmarkqReadOffset, this`pendingEof,
               this`theirContiguousSentBytes, buffer, recvmarkq
      ensures Distinct(recvmarkq) && (forall b :: b in recvmarkq ==> b in old(recvmarkq))
      ensures SweptInto(old(RxView()), old(pendingEof), buffer.Length, RxView(), pendingEof, copied)
      ensures recvmarkqReadOffset <= buffer.Length
      ensures Filled(buffer[..], old(buffer[..]), old(recvmarkqReadOffset), copied)
    {
      copied := SweepTotal(buffer);
      SweptTotal(old(RxView()), old(pendingEof), buffer.Length, RxView(), pendingEof, copied);
    }

    /** The same, with the results taken together. */
    method SweepTotal(buffer: array<byte>) returns (ghost copied: seq<byte>)
      requires Distinct(recvmarkq) && recvmarkqReadOffset <= buffer.Length
      modifies this`recvmarkq, this`recvmarkqDistributed, this`recvmarkqReadOffset, this`pendingEof,
               this`theirContiguousSentBytes, buffer, recvmarkq
      ensures Distinct(recvmarkq) && (forall b :: b in recvmarkq ==> b in old(recvmarkq))
      ensures CopiedSoFar(Before(old(buffer[..]), old(recvmarkqDistributed), old(recvmarkqReadOffset)), buffer, copied)
      ensures Totals(Marks(recvmarkq), copied, pendingEof, theirContiguousSentBytes)
           == Total([], [], old(pendingEof), old(theirContiguousSentBytes),
                    Sweep(old(Marks(recvmarkq)), old(recvmarkqDistributed), buffer.Length - old(recvmarkqReadOffset)))
    {
      ghost var q, d, room := Marks(recvmarkq), recvmarkqDistributed, buffer.Length - recvmarkqReadOffset;
      ghost var before := Before(buffer[..], recvmarkqDistributed, recvmarkqReadOffset);
      ghost var pool := set b | b in recvmarkq;
      ghost var kept, rest;
      var stop;
      ghost var total := Total([], [], pendingEof, theirContiguousSentBytes, Sweep(q, d, room));
      assert Marks([]) == [] && Filled(buffer[..], buffer[..], recvmarkqReadOffset, []);
      stop, kept, rest, copied := SweepLoop(buffer, pool, total, before);
      SiftedPool(kept, rest, pool);
      MarksConcat(kept, rest);
      assert Remaining(stop, Marks(rest), recvmarkqDistributed, buffer.Length - recvmarkqReadOffset)
          == Swept(Marks(rest), [], false, 0);
      TotalAtEnd(Marks(kept), Marks(rest), copied, pendingEof, theirContiguousSentBytes);
    }

    method SweepLoop(buffer: array<byte>, ghost pool: set<BlockStatus>, ghost total: Totals, ghost before: Before)
      returns (stop: bool, ghost kept: seq<BlockStatus>, ghost rest: seq<BlockStatus>, ghost copied: seq<byte>)
      requires Sifted([], recvmarkq, pool) && SweptSoFar(total, before, buffer, [], recvmarkq, [], false)
      modifies this`recvmarkq, this`recvmarkqDistributed, this`recvmarkqReadOffset, this`pendingEof,
               this`theirContiguousSentBytes, buffer, pool
      ensures recvmarkq == kept + rest && Sifted(kept, rest, pool)
      ensures SweptSoFar(total, before, buffer, kept, rest, copied, stop)
      ensures stop || rest == [] || rest[0].block.offset > recvmarkqDistributed
    {
      kept, rest, copied := [], recvmarkq, [];
      var i := 0;
      stop := false;
      while i < |recvmarkq| && !stop && recvmarkq[i].block.offset <= recvmarkqDistributed
        invariant i == |kept| && recvmarkq == kept + rest && Sifted(kept, rest, pool)
        invariant SweptSoFar(total, before, buffer, kept, rest, copied, stop)
        decreases |rest|, !stop
      {
        i, stop, kept, rest, copied := SweepRound(i, buffer, kept, rest, pool, total, before, copied);
      }
    }

    /** The loop invariant: the buffer and the positions are those of `before` moved on
        by the bytes copied, and what remains to be swept completes the sweep. */
    ghost predicate SweptSoFar(total: Totals, before: Before, buffer: array<byte>, kept: seq<BlockStatus>,
                               rest: seq<BlockStatus>, copied: seq<byte>, stop: bool)
      reads this`recvmarkqDistributed, this`recvmarkqReadOffset, this`pendingEof, this`theirContiguousSentBytes,
            buffer, kept, rest
    {
      && CopiedSoFar(before, buffer, copied)
      && Completes(total, Marks(kept), copied, pendingEof, theirContiguousSentBytes,
                   stop, Marks(rest), recvmarkqDistributed, buffer.Length - recvmarkqReadOffset)
    }

    ghost predicate CopiedSoFar(before: Before, buffer: array<byte>, copied: seq<byte>)
      reads this`recvmarkqDistributed, this`recvmarkqReadOffset, buffer
    {
      && recvmarkqDistributed == before.distributed + |copied|
      && recvmarkqReadOffset == before.readOffset + |copied| <= buffer.Length
      && Filled(buffer[..], before.buffer, before.readOffset, copied)
    }

    /** One round of that loop: the next block is copied as far as the buffer allows,
        and retired if nothing of it is left. */
    method SweepRound(i: nat, buffer: array<byte>, ghost kept: seq<BlockStatus>, ghost rest: seq<BlockStatus>,
                      ghost pool: set<BlockStatus>, ghost total: Totals, ghost before: Before, ghost copied: seq<byte>)
      returns (next: nat, stop: bool, ghost kept': seq<BlockStatus>, ghost rest': seq<BlockStatus>,
               ghost copied': seq<byte>)
      requires i == |kept| < |recvmarkq| && recvmarkq == kept + rest && Sifted(kept, rest, pool)
      requires recvmarkq[i].block.offset <= recvmarkqDistributed
      requires SweptSoFar(total, before, buffer, kept, rest, copied, false)
      modifies this`recvmarkq, this`recvmarkqDistributed, this`recvmarkqReadOffset, this`pendingEof,
               this`theirContiguousSentBytes, buffer, pool
      ensures next == |kept'| && recvmarkq == kept' + rest' && Sifted(kept', rest', pool)
      ensures rest' == if stop then rest else rest[1..]
      ensures SweptSoFar(total, before, buffer, kept', rest', copied', stop)
    {
      StepThrough(kept, rest);
      ghost var d := recvmarkqDistributed;
      next, kept', rest' := i, kept, rest;
      stop, copied' := CopyRound(recvmarkq[i], buffer, kept, rest, total, before, copied);
      if !stop {
        next, kept' := RetireRound(i, recvmarkq[i], kept, rest, pool, buffer, total, before, copied, d);
        rest' := rest[1..];
      }
    }

    /** The copying half of a round. */
    method CopyRound(jt: BlockStatus, buffer: array<byte>, ghost kept: seq<BlockStatus>, ghost rest: seq<BlockStatus>,
                     ghost total: Totals, ghost before: Before, ghost copied: seq<byte>)
      returns (stop: bool, ghost copied': seq<byte>)
      requires rest != [] && jt == rest[0] && jt.block.offset <= recvmarkqDistributed
      requires SweptSoFar(total, before, buffer, kept, rest, copied, false)
      modifies this`recvmarkqDistributed, this`recvmarkqReadOffset, buffer
      ensures CopiedSoFar(before, buffer, copied')
      ensures stop ==> SweptSoFar(total, before, buffer, kept, rest, copied', true)
      ensures !stop ==>
                var d, b := old(recvmarkqDistributed), jt.block;
                && recvmarkqDistributed == d + Beyond(b, d) && copied' == copied + NewBytes(b, d)
                && total == Total(Marks(kept), copied, pendingEof, theirContiguousSentBytes,
                                  Sweep(Marks(rest), d, buffer.Length - recvmarkqReadOffset + Beyond(b, d)))
    {
      ghost var q, d, room := Marks(rest), recvmarkqDistributed, buffer.Length - recvmarkqReadOffset;
      assert total == Total(Marks(kept), copied, pendingEof, theirContiguousSentBytes, Sweep(q, d, room));
      ghost var piece;
      stop, piece := CopyBlock(jt.block, buffer, before, copied);
      copied' := copied + piece;
      assert Marks(rest) == q;
      if stop {
        TotalStop(Marks(kept), copied, pendingEof, theirContiguousSentBytes, q, d, room);
      }
    }

    method RetireRound(i: nat, jt: BlockStatus, ghost kept: seq<BlockStatus>, ghost rest: seq<BlockStatus>,
                       ghost pool: set<BlockStatus>,
                       ghost buffer: array<byte>, ghost total: Totals, ghost before: Before, ghost copied: seq<byte>,
                       ghost d: nat)
      returns (next: nat, ghost kept': seq<BlockStatus>)
      requires i == |kept| < |recvmarkq| && recvmarkq == kept + rest && Sifted(kept, rest, pool)
      requires jt == rest[0]
      requires rest[0].block.offset <= d && recvmarkqDistributed == d + Beyond(rest[0].block, d)
      requires CopiedSoFar(before, buffer, copied + NewBytes(rest[0].block, d))
      requires total == Total(Marks(kept), copied, pendingEof, theirContiguousSentBytes,
                              Sweep(Marks(rest), d, buffer.Length - recvmarkqReadOffset + Beyond(rest[0].block, d)))
      modifies this`recvmarkq, this`pendingEof, this`theirContiguousSentBytes, jt`distributed
      ensures next == |kept'| && recvmarkq == kept' + rest[1..] && Sifted(kept', rest[1..], pool)
      ensures SweptSoFar(total, before, buffer, kept', rest[1..], copied + NewBytes(rest[0].block, d), false)
    {
      ghost var room := buffer.Length - recvmarkqReadOffset;
      CompletesRetired(total, Marks(kept), copied, pendingEof, theirContiguousSentBytes, Marks(rest),
                       d, recvmarkqDistributed, room + Beyond(rest[0].block, d), room);
      next, kept' := RetireAt(i, jt, kept, rest, pool);
    }

    /** The bytes of the block that the reader does not have yet go into the buffer;
        stop if it has no room for all of them. */
    method CopyBlock(block: Block, buffer: array<byte>, ghost before: Before, ghost copied: seq<byte>)
      returns (stop: bool, ghost piece: seq<byte>)
      requires block.offset <= recvmarkqDistributed
      requires recvmarkqReadOffset == before.readOffset + |copied| <= buffer.Length
      requires Filled(buffer[..], before.buffer, before.readOffset, copied)
      modifies this`recvmarkqDistributed, this`recvmarkqReadOffset, buffer
      ensures var bytes, room := NewBytes(block, old(recvmarkqDistributed)), buffer.Length - old(recvmarkqReadOffset);
              && stop == (Beyond(block, old(recvmarkqDistributed)) > room)
              && piece == if stop then bytes[..room] else bytes
      ensures recvmarkqDistributed == old(recvmarkqDistributed) + |piece|
      ensures recvmarkqReadOffset == old(recvmarkqReadOffset) + |piece| <= buffer.Length
      ensures Filled(buffer[..], before.buffer, before.readOffset, copied + piece)
    {
      stop, piece := false, [];
      assert copied + [] == copied;
      if |block.data| > 0 && block.End() > recvmarkqDistributed {
        var idx := recvmarkqDistributed - block.offset;
        var len := |block.data| - idx;
        if len > buffer.Length - recvmarkqReadOffset {
          len := buffer.Length - recvmarkqReadOffset;
          stop := true;
        }
        piece := block.data[idx..idx + len];
        PieceOf(block, recvmarkqDistributed, len);
        Copy(buffer, recvmarkqReadOffset, block.data[idx..idx + len]);
        FilledMore(buffer[..], old(buffer[..]), before.buffer, before.readOffset, copied, piece);
        recvmarkqDistributed := recvmarkqDistributed + len;
        recvmarkqReadOffset := recvmarkqReadOffset + len;
      }
    }

    /** Entry i has been distributed; it is erased if it was acknowledged before. */
    method RetireAt(i: nat, jt: BlockStatus, ghost kept: seq<BlockStatus>, ghost rest: seq<BlockStatus>,
                    ghost pool: set<BlockStatus>)
      returns (next: nat, ghost kept': seq<BlockStatus>)
      requires i == |kept| < |recvmarkq| && recvmarkq == kept + rest && Sifted(kept, rest, pool)
      requires jt == rest[0]
      modifies this`recvmarkq, this`pendingEof, this`theirContiguousSentBytes, jt`distributed
      ensures next == |kept'| && recvmarkq == kept' + rest[1..] && Sifted(kept', rest[1..], pool)
      ensures Marks(rest[1..]) == old(Marks(rest))[1..]
      ensures var m := old(Marks(rest))[0];
              && Marks(kept') == old(Marks(kept)) + Retire(m)
              && pendingEof == (old(pendingEof) || m.block.eof)
              && theirContiguousSentBytes == Max(old(theirContiguousSentBytes), recvmarkqDistributed)
    {
      StepThrough(kept, rest);
      SiftedStep(kept, rest, pool);
      if jt.block.eof {
        pendingEof := true;
      }
      jt.distributed := true;
      if theirContiguousSentBytes < recvmarkqDistributed {
        theirContiguousSentBytes := recvmarkqDistributed;
      }
      MarksAppend(kept, jt);
      if jt.acknowledged {
        recvmarkq := RemoveAt(recvmarkq, i);
        next, kept' := i, kept;
      } else {
        next, kept' := i + 1, kept + [jt];
      }
    }

    // ---------- closing ----------

    /** One call of the messager into the session. */
    method Callback(op: Op)
      requires Valid() && IsCallback(op) && Enabled(View(), op)
      modifies this`pendingCurrent, this`pendingUsed, this`sendqHeadExists, this`sendqHead, this`sendmarkq,
               this`recvmarkq, this`waits, recvmarkq
      ensures Valid() && (forall b :: b in recvmarkq ==> b in old(recvmarkq) || fresh(b))
      ensures View() == Apply(old(View()), op)
    {
      match op {
        case OpHead(max) => var _ := HandleSendqHead(max);
        case OpMove(offset, clock) => var _ := HandleSendqMoveHead(offset, clock);
        case OpResort(k, clock, found) => HandleSendqResort(k, clock, found);
        case OpRemoveSent(start, end) => HandleSendmarkqRemoveRange(start, end);
        case OpPut(block) => var _ := HandleRecvmarkqPut(block);
        case OpAckRange(start, end) => HandleRecvmarkqRemoveRange(start, end);
      }
    }

    /** curvecpr_messager_process_sendq, as the list of calls it makes. */
    method RunCallbacks(calls: seq<Op>)
      requires Valid() && (forall c :: c in calls ==> IsCallback(c)) && Runnable(View(), calls)
      modifies this`pendingCurrent, this`pendingUsed, this`sendqHeadExists, this`sendqHead, this`sendmarkq,
               this`recvmarkq, this`waits, recvmarkq
      ensures Valid() && (forall b :: b in recvmarkq ==> b in old(recvmarkq) || fresh(b))
      ensures View() == Run(old(View()), calls)
    {
      var i := 0;
      assert calls[0..] == calls;
      while i < |calls|
        invariant i <= |calls| && Valid()
        invariant forall k :: 0 <= k < |recvmarkq| ==> recvmarkq[k] in old(recvmarkq) || fresh(recvmarkq[k])
        invariant Runnable(View(), calls[i..]) && Run(View(), calls[i..]) == Run(old(View()), calls)
      {
        ghost var rest := calls[i..];
        assert rest[0] == calls[i] && rest[1..] == calls[i + 1..];
        ghost var q := recvmarkq;
        Callback(calls[i]);
        forall k | 0 <= k < |recvmarkq| ensures recvmarkq[k] in old(recvmarkq) || fresh(recvmarkq[k]) {
          assert recvmarkq[k] in recvmarkq;
        }
        i := i + 1;
      }
    }

    /** handle_process_send_queue; bothFinal says that afterwards my_final and
        their_final are both set. */
    method HandleProcessSendQueue(error: bool, calls: seq<Op>, bothFinal: bool)
      requires Valid() && (forall c :: c in calls ==> IsCallback(c)) && Runnable(View(), calls)
      modifies this, recvmarkq
      ensures Valid() && pending == old(pending)
      ensures forall b :: b in recvmarkq ==> b in old(recvmarkq) || fresh(b)
      ensures View() == if error then old(View()) else Process(old(View()), calls, bothFinal)
    {
      if error {
        return;
      }
      RunCallbacks(calls);
      if bothFinal {
        DoClose(false);
      }
    }

    /** error says that the close timer was cancelled. */
    method DoClose(error: bool)
      requires Valid()
      modifies this
      ensures Valid() && pending == old(pending) && (forall b :: b in recvmarkq ==> b in old(recvmarkq))
      ensures View() == if error then old(View()) else SessionSpec.DoClose(old(View()))
    {
      if !error {
        CleanUp();
      }
    }

    method CleanUp()
      requires Valid()
      modifies this
      ensures Valid() && pending == old(pending) && recvmarkq == []
      ensures View() == SessionSpec.DoClose(old(View()))
    {
      ClearFlags();
      ResetQueues();
      ReportClosed();
    }

    method ClearFlags()
      requires Valid()
      modifies this`pendingClose, this`pendingEof, this`running, this`waits
      ensures Valid()
      ensures View() == old(View()).(eof := false, closing := false, running := false,
                                     waits := old(waits).WakeRead().WakeWrite())
    {
      waits := waits.WakeRead().WakeWrite();
      pendingClose, pendingEof, running := false, false, false;
    }

    method ReportClosed()
      requires Valid()
      modifies this`closeHandlerCalls, this`waits
      ensures Valid()
      ensures View() == old(View()).(closeCalls := old(closeHandlerCalls) + 1, waits := old(waits).WakeClose())
    {
      closeHandlerCalls := closeHandlerCalls + 1;
      waits := waits.WakeClose();
    }

    method ResetQueues()
      requires Valid()
      modifies this`pendingUsed, this`pendingCurrent, this`pendingNext, this`sendqHeadExists, this`sendmarkq,
               this`recvmarkqDistributed, this`recvmarkqReadOffset, this`recvmarkq
      ensures Valid() && recvmarkq == [] && TxView() == old(TxView()).(ring := [], head := None, marks := [])
      ensures RxView() == old(RxView()).(queue := [], distributed := 0, readOffset := 0)
    {
      ResetSending();
      assert RxView() == old(RxView());
      ResetReceiving();
    }

    method ResetSending()
      requires Valid()
      modifies this`pendingUsed, this`pendingCurrent, this`pendingNext, this`sendqHeadExists, this`sendmarkq
      ensures Valid() && TxView() == old(TxView()).(ring := [], head := None, marks := [])
    {
      pendingUsed, pendingCurrent, pendingNext := 0, 0, 0;
      sendqHeadExists, sendmarkq := false, [];
      assert Ring() == [];
    }

    method ResetReceiving()
      modifies this`recvmarkqDistributed, this`recvmarkqReadOffset, this`recvmarkq
      ensures recvmarkq == [] && RxView() == old(RxView()).(queue := [], distributed := 0, readOffset := 0)
    {
      recvmarkqDistributed, recvmarkqReadOffset, recvmarkq := 0, 0, [];
      assert Marks(recvmarkq) == [];
    }

    /** close; calls and bothFinal are the messager's part of handle_process_send_queue. */
    method Close(calls: seq<Op>, bothFinal: bool) returns (done: bool)
      requires Valid() && (forall c :: c in calls ==> IsCallback(c))
      requires running && !pendingClose ==> Runnable(BeginClose(View()), calls)
      modifies this, recvmarkq
      ensures Valid() && pending == old(pending)
      ensures forall b :: b in recvmarkq ==> b in old(recvmarkq) || fresh(b)
      ensures View() == SessionSpec.Close(old(View()), calls, bothFinal).0
      ensures done == SessionSpec.Close(old(View()), calls, bothFinal).1
    {
      if !running {
        waits := waits.WakeRead().WakeWrite();
        closeHandlerCalls := closeHandlerCalls + 1;
        return true;
      }
      if pendingClose {
        return false;
      }
      pendingClose, pendingEof := true, true;
      assert View() == BeginClose(old(View()));
      HandleProcessSendQueue(false, calls, bothFinal);
      done := !running;
    }
  }
}
