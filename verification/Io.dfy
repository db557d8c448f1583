/** io_op::operator() as a function: it retries, parks and finishes the operations on a
    session. */
module IoSpec {
  import opened Blocks
  import opened SessionSpec

  datatype Kind = ReadOp(len: nat) | WriteOp(data: seq<byte>) | CloseOp

  function WantOf(k: Kind): Want {
    match k
    case ReadOp(_) => WantRead
    case WriteOp(_) => WantWrite
    case CloseOp => WantClose
  }

  /** What the messager does while `close` processes the send queue. */
  datatype Script = Script(calls: seq<Op>, bothFinal: bool)

  ghost predicate CanPerform(s: Sess, k: Kind, script: Script) {
    && |s.tx.ring| <= s.tx.capacity
    && (forall c :: c in script.calls ==> IsCallback(c))
    && match k
       case ReadOp(len) => len == 0 || s.rx.readOffset <= len
       case WriteOp(_) => true
       case CloseOp => s.running && !s.closing ==> Runnable(BeginClose(s), script.calls)
  }

  /** read_op, write_op, close_op. */
  function Perform(s: Sess, k: Kind, script: Script): (Sess, Outcome)
    requires CanPerform(s, k, script)
  {
    match k
    case ReadOp(len) => var r := SessionSpec.Read(s, len); (r.s, r.outcome)
    case WriteOp(data) => SessionSpec.Write(s, data)
    case CloseOp =>
      var (s', done) := SessionSpec.Close(s, script.calls, script.bothFinal);
      (s', if done then Finished(Success, 0) else Retry)
  }

  /** The caller's buffer after one call of `read`. */
  function ReadInto(s: Sess, buffer: seq<byte>): seq<byte>
    requires buffer == [] || s.rx.readOffset <= |buffer|
  {
    if buffer == [] then buffer else Fill(buffer, s.rx.readOffset, SessionSpec.Read(s, |buffer|).out)
  }

  /** Where operator() leaves the operation: copied to the strand, parked on a timer,
      posted to the io_service, or with its handler called. */
  datatype Leaves = Dispatched | Parked | Posted | Called

  /** The operation's own fields: finished_, ec_ and bytes_transferred_. */
  datatype OpState = OpState(finished: bool, ec: ErrorCode, bytes: nat)

  datatype Invoked = Invoked(s: Sess, op: OpState, leaves: Leaves)

  /** One call of io_op::operator() for the operation with identity id. */
  function Invoke(s: Sess, k: Kind, op: OpState, id: nat, onStrand: bool, start: bool, script: Script): Invoked
    requires !op.finished && onStrand ==> CanPerform(s, k, script)
  {
    if op.finished then Invoked(s, op, Called)
    else if !onStrand then Invoked(s, op, Dispatched)
    else
      var (s', o) := Perform(s, k, script);
      match o
      case Retry => Invoked(Wait(s', WantOf(k), id), op, Parked)
      case Finished(ec, bytes) => Invoked(s', OpState(true, ec, bytes), if start then Posted else Called)
  }
}

/** io_op with its own fields, run against a session object. */
module IoModel {
  import opened Blocks
  import opened SessionSpec
  import opened SessionModel
  import opened IoSpec

  class IoOp {
    const id: nat
    const kind: Kind
    const buffer: array<byte>
    const session: Session
    var finished: bool
    var ec: ErrorCode
    var bytesTransferred: nat

    ghost predicate Valid()
      reads this, session, session.pending
    {
      session.Valid() && buffer != session.pending && (kind.ReadOp? ==> kind.len == buffer.Length)
    }

    ghost function State(): OpState
      reads this
    {
      OpState(finished, ec, bytesTransferred)
    }

    constructor (session: Session, id: nat, kind: Kind, buffer: array<byte>)
      requires session.Valid() && buffer != session.pending && (kind.ReadOp? ==> kind.len == buffer.Length)
      ensures Valid() && State() == OpState(false, Success, 0)
      ensures this.session == session && this.kind == kind && this.buffer == buffer && this.id == id
    {
      this.session, this.id, this.kind, this.buffer := session, id, kind, buffer;
      finished, ec, bytesTransferred := false, Success, 0;
    }

    method Invoke(onStrand: bool, start: bool, script: Script) returns (leaves: Leaves)
      requires Valid()
      requires !finished && onStrand ==> CanPerform(session.View(), kind, script)
      modifies this, session, session.pending, session.recvmarkq, buffer
      ensures Valid()
      ensures var r := IoSpec.Invoke(old(session.View()), kind, old(State()), id, onStrand, start, script);
              session.View() == r.s && State() == r.op && leaves == r.leaves
      ensures buffer[..] == if kind.ReadOp? && onStrand && !old(finished)
                            then ReadInto(old(session.View()), old(buffer[..])) else old(buffer[..])
    {
      if finished {
        return Called;
      } else if !onStrand {
        return Dispatched;
      }
      leaves := InvokeOnStrand(start, script);
    }

    method InvokeOnStrand(start: bool, script: Script) returns (leaves: Leaves)
      requires Valid() && !finished && CanPerform(session.View(), kind, script)
      modifies this, session, session.pending, session.recvmarkq, buffer
      ensures Valid()
      ensures var r := IoSpec.Invoke(old(session.View()), kind, old(State()), id, true, start, script);
              session.View() == r.s && State() == r.op && leaves == r.leaves
      ensures buffer[..] == if kind.ReadOp? then ReadInto(old(session.View()), old(buffer[..])) else old(buffer[..])
    {
      var outcome := Run(script);
      if outcome.Retry? {
        Park();
        return Parked;
      }
      finished, ec, bytesTransferred := true, outcome.ec, outcome.bytes;
      leaves := if start then Posted else Called;
    }

    method Park()
      requires Valid()
      modifies session`waits
      ensures Valid() && session.View() == Wait(old(session.View()), WantOf(kind), id)
    {
      session.AsyncPendingWait(WantOf(kind), id);
    }

    method Run(script: Script) returns (outcome: Outcome)
      requires Valid() && CanPerform(session.View(), kind, script)
      modifies session, session.pending, session.recvmarkq, buffer
      ensures Valid()
      ensures session.View() == Perform(old(session.View()), kind, script).0
      ensures outcome == Perform(old(session.View()), kind, script).1
      ensures buffer[..] == if kind.ReadOp? then ReadInto(old(session.View()), old(buffer[..])) else old(buffer[..])
    {
      match kind {
        case ReadOp(_) =>
          ghost var copied;
          outcome, copied := session.Read(buffer);
        case WriteOp(data) =>
          outcome := session.Write(data);
        case CloseOp =>
          var done := session.Close(script.calls, script.bothFinal);
          outcome := if done then Finished(Success, 0) else Retry;
      }
    }
  }
}
