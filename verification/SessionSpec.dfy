/** The session as a value, and each of its operations as a function on that value.
    The class in Session.dfy is proved to compute these functions. */
module SessionSpec {
  import opened Blocks

  datatype ErrorCode = Success | Eof

  /** What `read` and `write` report: retry later, or finished. */
  datatype Outcome = Retry | Finished(ec: ErrorCode, bytes: nat)

  datatype Want = WantNothing | WantRead | WantWrite | WantClose

  /** The three pending_ready_ timers: identities of the operations that wait on
      each, and of those whose wait was cancelled and that now sit on the strand. */
  datatype Waits = Waits(read: set<nat>, write: set<nat>, close: set<nat>, woken: set<nat>) {
    function WakeRead(): Waits { this.(read := {}, woken := woken + read) }

    function WakeWrite(): Waits { this.(write := {}, woken := woken + write) }

    function WakeClose(): Waits { this.(close := {}, woken := woken + close) }
  }

  /** Sending half. `ring` is the contents of the circular buffer, oldest first;
      `sized` says that the buffer has been sized by a first write. */
  datatype Tx = Tx(capacity: nat, marksMax: nat, sized: bool, ring: seq<byte>,
                   head: Option<Chunk>, marks: seq<Sent>)

  /** Receiving half. `contiguous` is the messager's their_contiguous_sent_bytes. */
  datatype Rx = Rx(queueMax: nat, queue: seq<Mark>, distributed: nat, readOffset: nat, contiguous: nat)

  /** eof, closing and running are pending_eof_, pending_close_ and running_;
      closeCalls counts the calls of close_handler_. */
  datatype Sess = Sess(tx: Tx, rx: Rx, eof: bool, closing: bool, running: bool, waits: Waits, closeCalls: nat)

  function Fresh(capacity: nat, marksMax: nat, queueMax: nat): Sess {
    Sess(Tx(capacity, marksMax, false, [], None, []), Rx(queueMax, [], 0, 0, 0),
         false, false, false, Waits({}, {}, {}, {}), 0)
  }

  // ---------- sending ----------

  function Write(s: Sess, data: seq<byte>): (Sess, Outcome)
    requires |s.tx.ring| <= s.tx.capacity
  {
    if data == [] then (s, Finished(Success, 0))
    else if s.eof then (s, Finished(Eof, 0))
    else if |data| > s.tx.capacity - |s.tx.ring| then (s, Retry)
    else (s.(tx := s.tx.(sized := true, ring := s.tx.ring + data)), Finished(Success, |data|))
  }

  function Head(s: Sess, max: nat): (Sess, Option<Chunk>) {
    if s.tx.head.Some? then (s, s.tx.head)
    else if s.tx.ring == [] && !s.eof then (s, None)
    else
      var n := if s.tx.sized then Min(|s.tx.ring|, max) else 0;
      var rest := s.tx.ring[n..];
      var chunk := Chunk(s.tx.ring[..n], rest == [] && s.eof);
      (s.(tx := s.tx.(ring := rest, head := Some(chunk)),
          waits := if s.tx.sized then s.waits.WakeWrite() else s.waits),
       Some(chunk))
  }

  /** handle_sendq_is_empty; myEof is the messager's record that it sent an EOF. */
  predicate SendqIsEmpty(s: Sess, myEof: bool) {
    s.tx.head.None? && s.tx.ring == [] && (!s.eof || myEof)
  }

  /** std::multiset insertion: after every entry whose clock is not larger. */
  function InsertByClock(q: seq<Sent>, e: Sent): seq<Sent> {
    if q == [] || e.clock < q[0].clock then [e] + q
    else [q[0]] + InsertByClock(q[1..], e)
  }

  /** The move of the head block, stamped with its offset and clock. */
  function Move(s: Sess, offset: nat, clock: nat): (Sess, bool)
    requires s.tx.head.Some?
  {
    if |s.tx.marks| >= s.tx.marksMax then (s, false)
    else
      var b := Block(offset, s.tx.head.value.data, s.tx.head.value.eof);
      (s.(tx := s.tx.(head := None, marks := InsertByClock(s.tx.marks, Sent(b, clock)))), true)
  }

  function RemoveAt<T>(q: seq<T>, i: nat): seq<T>
    requires i < |q|
  {
    q[..i] + q[i + 1..]
  }

  /** The move callback for a block that already is in sendmarkq_ (entry k, whose
      clock the messager has just changed): the entry that the lookup by clock
      found is erased and block k is inserted. */
  function Resort(q: seq<Sent>, k: nat, clock: nat, found: Option<nat>): seq<Sent>
    requires k < |q| && (found.Some? ==> found.value < |q|)
  {
    var e := Sent(q[k].block, clock);
    var q' := q[k := e];
    if found.None? then q' else InsertByClock(RemoveAt(q', found.value), e)
  }

  function RemoveSent(q: seq<Sent>, start: nat, end: nat): seq<Sent> {
    if q == [] then []
    else (if q[0].block.Inside(start, end) then [] else [q[0]]) + RemoveSent(q[1..], start, end)
  }

  function ResortStep(s: Sess, k: nat, clock: nat, found: Option<nat>): Sess
    requires k < |s.tx.marks| && (found.Some? ==> found.value < |s.tx.marks|)
  {
    s.(tx := s.tx.(marks := Resort(s.tx.marks, k, clock, found)))
  }

  function RemoveSentStep(s: Sess, start: nat, end: nat): Sess {
    s.(tx := s.tx.(marks := RemoveSent(s.tx.marks, start, end)))
  }

  // ---------- receiving ----------

  function InsertByRange(q: seq<Mark>, m: Mark): seq<Mark> {
    if q == [] || RangeLess(m.block, q[0].block) then [m] + q
    else [q[0]] + InsertByRange(q[1..], m)
  }

  function Put(s: Sess, block: Block): (Sess, bool) {
    if |s.rx.queue| >= s.rx.queueMax then (s, false)
    else
      (s.(rx := s.rx.(queue := InsertByRange(s.rx.queue, Mark(block, s.eof, false))),
          waits := if s.eof then s.waits else s.waits.WakeRead()),
       true)
  }

  /** What handle_recvmarkq_remove_range leaves of one entry. */
  function AckOne(m: Mark, start: nat, end: nat): seq<Mark> {
    if !m.block.Inside(start, end) then [m]
    else if m.distributed then []
    else [m.(acknowledged := true)]
  }

  function AckRange(q: seq<Mark>, start: nat, end: nat): seq<Mark> {
    if q == [] then [] else AckOne(q[0], start, end) + AckRange(q[1..], start, end)
  }

  function AckRangeStep(s: Sess, start: nat, end: nat): Sess {
    s.(rx := s.rx.(queue := AckRange(s.rx.queue, start, end)))
  }

  /** The blocks without the ACKNOWLEDGED bit, in queue order. */
  function Unacknowledged(q: seq<Mark>): seq<Block> {
    if q == [] then []
    else (if q[0].acknowledged then [] else [q[0].block]) + Unacknowledged(q[1..])
  }

  /** How many bytes of a block lie at or after position d. */
  function Beyond(b: Block, d: nat): nat
    requires b.offset <= d
  {
    if b.End() > d then b.End() - d else 0
  }

  /** The bytes of a block from position d on. */
  function NewBytes(b: Block, d: nat): (r: seq<byte>)
    requires b.offset <= d
    ensures |r| == Beyond(b, d)
  {
    if b.End() > d then b.data[d - b.offset..] else []
  }

  /** What `read` leaves of an entry whose bytes the reader all has. */
  function Retire(m: Mark): seq<Mark> {
    if m.acknowledged then [] else [m.(distributed := true)]
  }

  /** The first entry starts at or below d, and room suffices for what it has to add. */
  predicate Fits(q: seq<Mark>, d: nat, room: nat) {
    q != [] && q[0].block.offset <= d && Beyond(q[0].block, d) <= room
  }

  /** How many entries the loop in `read` retires: d is recvmarkq_distributed_, room
      the space left in the caller's buffer. */
  function Retired(q: seq<Mark>, d: nat, room: nat): (k: nat)
    ensures k <= |q|
  {
    if !Fits(q, d, room) then 0
    else 1 + Retired(q[1..], d + Beyond(q[0].block, d), room - Beyond(q[0].block, d))
  }

  /** The read position that the loop reaches. */
  function SweepEnd(q: seq<Mark>, d: nat, room: nat): (e: nat)
    ensures d <= e <= d + room
  {
    if Fits(q, d, room) then SweepEnd(q[1..], d + Beyond(q[0].block, d), room - Beyond(q[0].block, d))
    else if q != [] && q[0].block.offset <= d then d + room
    else d
  }

  /** The bytes that the loop copies. */
  function SweepOut(q: seq<Mark>, d: nat, room: nat): (out: seq<byte>)
    ensures |out| == SweepEnd(q, d, room) - d
  {
    if Fits(q, d, room) then
      NewBytes(q[0].block, d) + SweepOut(q[1..], d + Beyond(q[0].block, d), room - Beyond(q[0].block, d))
    else if q != [] && q[0].block.offset <= d then NewBytes(q[0].block, d)[..room]
    else []
  }

  /** The read position after the last retired block, 0 if no block is retired. */
  function Settled(q: seq<Mark>, d: nat, room: nat): nat {
    if !Fits(q, d, room) then 0
    else
      var d' := d + Beyond(q[0].block, d);
      Max(d', Settled(q[1..], d', room - Beyond(q[0].block, d)))
  }

  function RetireAll(q: seq<Mark>): seq<Mark> {
    if q == [] then [] else Retire(q[0]) + RetireAll(q[1..])
  }

  predicate AnyEof(q: seq<Mark>) {
    exists i :: 0 <= i < |q| && q[i].block.eof
  }

  /** Result of the loop in `read`: the queue left behind, the bytes copied, whether
      a retired block carried an EOF mark, and the read position after the last one. */
  datatype Swept = Swept(kept: seq<Mark>, out: seq<byte>, eof: bool, settled: nat)

  function Sweep(q: seq<Mark>, d: nat, room: nat): Swept {
    var k := Retired(q, d, room);
    Swept(RetireAll(q[..k]) + q[k..], SweepOut(q, d, room), AnyEof(q[..k]), Settled(q, d, room))
  }

  /** An entry is retired, then the sweep r of the entries behind it goes on. */
  function RetireFirst(m: Mark, d: nat, r: Swept): Swept
    requires m.block.offset <= d
  {
    Swept(Retire(m) + r.kept, NewBytes(m.block, d) + r.out, m.block.eof || r.eof,
          Max(d + Beyond(m.block, d), r.settled))
  }

  datatype ReadResult = ReadResult(s: Sess, out: seq<byte>, eofBlock: bool, outcome: Outcome)

  /** The part of `read` that concerns the receiving half and pending_eof_. */
  datatype RxResult = RxResult(rx: Rx, eof: bool, out: seq<byte>, eofBlock: bool, outcome: Outcome)

  function ReadRx(rx: Rx, eof: bool, len: nat): (r: RxResult)
    requires rx.readOffset <= len
    ensures rx.readOffset + |r.out| <= len && (r.outcome.Finished? ==> r.outcome.bytes <= len)
  {
    var sw := Sweep(rx.queue, rx.distributed, len - rx.readOffset);
    Complete(AfterSweep(rx, sw), eof || sw.eof, sw.out, sw.eof, len)
  }

  /** The receiving half after the loop. */
  function AfterSweep(rx: Rx, sw: Swept): Rx {
    rx.(queue := sw.kept, distributed := rx.distributed + |sw.out|, readOffset := rx.readOffset + |sw.out|,
        contiguous := Max(rx.contiguous, sw.settled))
  }

  /** A read is complete when its buffer is full or EOF is pending. */
  function Complete(rx: Rx, eof: bool, out: seq<byte>, eofBlock: bool, len: nat): RxResult {
    if rx.readOffset == len || eof then
      RxResult(rx.(readOffset := 0), eof, out, eofBlock, Finished(if eof then Eof else Success, rx.readOffset))
    else
      RxResult(rx, eof, out, eofBlock, Retry)
  }

  /** `read` into a buffer of len bytes whose first readOffset bytes earlier calls
      have filled. */
  function Read(s: Sess, len: nat): (r: ReadResult)
    requires len == 0 || s.rx.readOffset <= len
    ensures len > 0 ==> s.rx.readOffset + |r.out| <= len
    ensures r.outcome.Finished? ==> r.outcome.bytes <= len
  {
    if len == 0 then
      ReadResult(s.(rx := s.rx.(readOffset := 0)), [], false, Finished(Success, 0))
    else
      var r := ReadRx(s.rx, s.eof, len);
      ReadResult(s.(rx := r.rx, eof := r.eof), r.out, r.eofBlock, r.outcome)
  }

  // ---------- closing and waiting ----------

  /** `close` up to the point where it processes the send queue. */
  function BeginClose(s: Sess): Sess {
    if !s.running then s.(waits := s.waits.WakeRead().WakeWrite(), closeCalls := s.closeCalls + 1)
    else s.(closing := true, eof := true)
  }

  function DoClose(s: Sess): Sess {
    s.(tx := s.tx.(ring := [], head := None, marks := []),
       rx := s.rx.(queue := [], distributed := 0, readOffset := 0),
       eof := false, closing := false, running := false,
       waits := s.waits.WakeRead().WakeWrite().WakeClose(), closeCalls := s.closeCalls + 1)
  }

  function Wait(s: Sess, want: Want, id: nat): Sess {
    match want
    case WantNothing => s
    case WantRead => s.(waits := s.waits.(read := s.waits.read + {id}))
    case WantWrite => s.(waits := s.waits.(write := s.waits.write + {id}))
    case WantClose => s.(waits := s.waits.(close := s.waits.close + {id}))
  }

  // ---------- one operation, and runs of them ----------

  datatype Op =
    | OpStart
    | OpWrite(data: seq<byte>)
    | OpRead(len: nat)
    | OpHead(max: nat)
    | OpMove(offset: nat, clock: nat)
    | OpResort(k: nat, newClock: nat, found: Option<nat>)
    | OpRemoveSent(start: nat, end: nat)
    | OpPut(block: Block)
    | OpAckRange(first: nat, last: nat)
    | OpBeginClose
    | OpDoClose

  /** The operations that libcurvecpr's messager calls. */
  predicate IsCallback(op: Op) {
    op.OpHead? || op.OpMove? || op.OpResort? || op.OpRemoveSent? || op.OpPut? || op.OpAckRange?
  }

  /** What the session demands of whoever performs the operation: a retried read
      brings a buffer as long as before, and the messager moves the head it was given
      or a block of sendmarkq_. */
  predicate Enabled(s: Sess, op: Op) {
    && |s.tx.ring| <= s.tx.capacity
    && match op
       case OpRead(len) => len == 0 || s.rx.readOffset <= len
       case OpMove(_, _) => s.tx.head.Some?
       case OpResort(k, _, found) => k < |s.tx.marks| && (found.Some? ==> found.value < |s.tx.marks|)
       case _ => true
  }

  function Apply(s: Sess, op: Op): Sess
    requires Enabled(s, op)
  {
    match op
    case OpStart => s.(running := true)
    case OpWrite(data) => Write(s, data).0
    case OpRead(len) => Read(s, len).s
    case OpHead(max) => Head(s, max).0
    case OpMove(offset, clock) => Move(s, offset, clock).0
    case OpResort(k, clock, found) => ResortStep(s, k, clock, found)
    case OpRemoveSent(start, end) => RemoveSentStep(s, start, end)
    case OpPut(block) => Put(s, block).0
    case OpAckRange(start, end) => AckRangeStep(s, start, end)
    case OpBeginClose => BeginClose(s)
    case OpDoClose => DoClose(s)
  }

  /** Every operation of the list is enabled when its turn comes. */
  predicate Runnable(s: Sess, ops: seq<Op>)
    decreases |ops|
  {
    ops == [] || (Enabled(s, ops[0]) && Runnable(Apply(s, ops[0]), ops[1..]))
  }

  function Run(s: Sess, ops: seq<Op>): Sess
    requires Runnable(s, ops)
    decreases |ops|
  {
    if ops == [] then s else Run(Apply(s, ops[0]), ops[1..])
  }

  /** handle_process_send_queue: the messager's calls, then the end of the session
      when both directions are final. */
  function Process(s: Sess, calls: seq<Op>, bothFinal: bool): Sess
    requires Runnable(s, calls)
  {
    var s' := Run(s, calls);
    if bothFinal then DoClose(s') else s'
  }

  /** `close`; calls and bothFinal are what the messager does when close asks it to
      transmit the EOF at once. */
  function Close(s: Sess, calls: seq<Op>, bothFinal: bool): (Sess, bool)
    requires s.running && !s.closing ==> Runnable(BeginClose(s), calls)
  {
    if !s.running then (BeginClose(s), true)
    else if s.closing then (s, false)
    else
      var s' := Process(BeginClose(s), calls, bothFinal);
      (s', !s'.running)
  }
}
