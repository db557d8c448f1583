/** A session whose do_close has run behaves like a new one. */
module LifetimeFacts {
  import opened Blocks
  import opened SessionSpec
  import opened SweepFacts

  /** What the caller of an operation gets: a result, bytes, a head, and whether a block
      was taken or an EOF block met. */
  datatype Answer = Answer(result: Option<Outcome>, bytes: seq<byte>, head: Option<Chunk>, yes: bool)

  function AnswerOf(s: Sess, op: Op): Answer
    requires Enabled(s, op)
  {
    match op
    case OpWrite(data) => Answer(Some(Write(s, data).1), [], None, false)
    case OpRead(len) => var r := Read(s, len); Answer(Some(r.outcome), r.out, None, r.eofBlock)
    case OpHead(max) => Answer(None, [], Head(s, max).1, false)
    case OpMove(offset, clock) => Answer(None, [], None, Move(s, offset, clock).1)
    case OpPut(block) => Answer(None, [], None, Put(s, block).1)
    case _ => Answer(None, [], None, false)
  }

  /** What can be asked between operations: what is to be acknowledged, what was sent, and
      whether the send queue is empty before and after EOF was sent. */
  datatype Sight = Sight(unacknowledged: seq<Block>, sent: seq<Sent>, empty: bool, emptyAfterEof: bool, running: bool)

  function SightOf(s: Sess): Sight {
    Sight(Unacknowledged(s.rx.queue), s.tx.marks, SendqIsEmpty(s, false), SendqIsEmpty(s, true), s.running)
  }

  /** All answers of a run, and what could be seen after each operation. */
  function Answers(s: Sess, ops: seq<Op>): seq<(Answer, Sight)>
    requires Runnable(s, ops)
    decreases |ops|
  {
    if ops == [] then []
    else [(AnswerOf(s, ops[0]), SightOf(Apply(s, ops[0])))] + Answers(Apply(s, ops[0]), ops[1..])
  }

  /** The same but for the contiguous count, whether an empty buffer has been sized, the
      close handler's count and who waits. */
  ghost predicate Alike(s: Sess, t: Sess) {
    && s.tx == t.tx.(sized := s.tx.sized) && (s.tx.ring != [] ==> s.tx.sized && t.tx.sized)
    && s.rx == t.rx.(contiguous := s.rx.contiguous)
    && s.eof == t.eof && s.closing == t.closing && s.running == t.running
  }

  lemma AlikeReads(s: Sess, t: Sess, len: nat)
    requires Alike(s, t) && (len == 0 || s.rx.readOffset <= len)
    ensures var r, q := Read(s, len), Read(t, len);
            r.outcome == q.outcome && r.out == q.out && r.eofBlock == q.eofBlock && Alike(r.s, q.s)
  {
    if len > 0 {
      SweepOfRead(s, len);
      SweepOfRead(t, len);
      ReadReports(s, len);
      ReadReports(t, len);
    }
  }

  lemma AlikeSends(s: Sess, t: Sess, op: Op)
    requires Alike(s, t) && Enabled(s, op) && (op.OpWrite? || op.OpHead? || op.OpMove?)
    ensures Enabled(t, op) && AnswerOf(s, op) == AnswerOf(t, op) && Alike(Apply(s, op), Apply(t, op))
  {
  }

  lemma AlikeGets(s: Sess, t: Sess, op: Op)
    requires Alike(s, t) && Enabled(s, op) && (op.OpPut? || op.OpAckRange?)
    ensures Enabled(t, op) && AnswerOf(s, op) == AnswerOf(t, op) && Alike(Apply(s, op), Apply(t, op))
  {
  }

  lemma AlikeMarks(s: Sess, t: Sess, op: Op)
    requires Alike(s, t) && Enabled(s, op) && (op.OpResort? || op.OpRemoveSent?)
    ensures Enabled(t, op) && AnswerOf(s, op) == AnswerOf(t, op) && Alike(Apply(s, op), Apply(t, op))
  {
  }

  lemma AlikeFlags(s: Sess, t: Sess, op: Op)
    requires Alike(s, t) && Enabled(s, op) && (op.OpStart? || op.OpBeginClose? || op.OpDoClose?)
    ensures Enabled(t, op) && AnswerOf(s, op) == AnswerOf(t, op) && Alike(Apply(s, op), Apply(t, op))
  {
  }

  lemma AlikeStays(s: Sess, t: Sess, op: Op)
    requires Alike(s, t) && Enabled(s, op)
    ensures Enabled(t, op) && AnswerOf(s, op) == AnswerOf(t, op) && Alike(Apply(s, op), Apply(t, op))
  {
    if op.OpRead? {
      AlikeReads(s, t, op.len);
    } else if op.OpWrite? || op.OpHead? || op.OpMove? {
      AlikeSends(s, t, op);
    } else if op.OpPut? || op.OpAckRange? {
      AlikeGets(s, t, op);
    } else if op.OpResort? || op.OpRemoveSent? {
      AlikeMarks(s, t, op);
    } else {
      AlikeFlags(s, t, op);
    }
  }

  lemma {:induction false} AlikeAnswers(s: Sess, t: Sess, ops: seq<Op>)
    requires Alike(s, t) && Runnable(s, ops)
    ensures Runnable(t, ops) && Answers(s, ops) == Answers(t, ops)
    decreases |ops|
  {
    if ops != [] {
      AlikeStays(s, t, ops[0]);
      AlikeAnswers(Apply(s, ops[0]), Apply(t, ops[0]), ops[1..]);
    }
  }

  /** Whatever a session has been through: after do_close every run of operations gets the
      answers that it would get from a new session with the same maxima, nobody is parked,
      and nothing of the old stream is seen. */
  lemma NextLifetimeIsFresh(s: Sess, ops: seq<Op>)
    requires Runnable(Fresh(s.tx.capacity, s.tx.marksMax, s.rx.queueMax), ops)
    ensures var t := Fresh(s.tx.capacity, s.tx.marksMax, s.rx.queueMax);
            && Runnable(DoClose(s), ops) && Answers(DoClose(s), ops) == Answers(t, ops)
            && SightOf(DoClose(s)) == SightOf(t)
    ensures DoClose(s).waits.read == {} && DoClose(s).waits.write == {} && DoClose(s).waits.close == {}
  {
    AlikeAnswers(Fresh(s.tx.capacity, s.tx.marksMax, s.rx.queueMax), DoClose(s), ops);
  }

  /** A new session has nothing to send, and a block ahead of the start of its stream
      gives a reader nothing: so has, and does, one after do_close. What stays is the buffer
      and the messager's count. */
  lemma AfterDoClose(s: Sess, max: nat, b: Block, len: nat)
    requires b.offset > 0
    ensures var s' := DoClose(s);
            && Head(s', max).1.None? && SendqIsEmpty(s', false) && s'.tx.marks == []
            && Unacknowledged(s'.rx.queue) == []
            && s'.rx.contiguous == s.rx.contiguous && s'.tx.sized == s.tx.sized
            && var r := Read(Put(s', b).0, len); r.out == [] && !r.eofBlock
  {
  }
}
