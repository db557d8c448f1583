/** Operations on one session over whole runs: what is parked, what wakes it, and when
    handlers are called. */
module Scheduling {
  import opened Blocks
  import opened SessionSpec
  import opened SweepFacts
  import opened AckFacts
  import opened ClosingFacts
  import opened IoSpec

  /** Where an operation is: queued on the strand by a dispatch, waiting on a timer or
      woken from one, posted to the io_service, or done. */
  datatype Phase = OnStrand | Waiting | OnService | Done

  /** direct: submitted on the strand; runs counts the calls of the session operation,
      calls those of the handler. */
  datatype Task = Task(kind: Kind, op: OpState, phase: Phase, direct: bool, runs: nat, calls: nat)

  datatype IoSystem = IoSystem(s: Sess, tasks: map<nat, Task>)

  datatype IoStep =
    | Submit(id: nat, kind: Kind, onStrand: bool, script: Script)
    | Resume(woken: nat, again: Script)
    | Deliver(posted: nat)
    | Session(op: Op)

  /** The operations that are not performed through io_op. */
  predicate IsEnvironment(op: Op) { IsCallback(op) || op.OpStart? || op.OpDoClose? }

  /** An unfinished read; the source allows one at a time, as it keeps one read offset. */
  predicate PendingRead(t: Task) { t.kind.ReadOp? && !t.op.finished }

  /** The session when task id is resumed: a woken task leaves the woken set. */
  function SessionFor(io: IoSystem, id: nat): Sess {
    io.s.(waits := io.s.waits.(woken := io.s.waits.woken - {id}))
  }

  ghost predicate StepEnabled(io: IoSystem, st: IoStep) {
    match st
    case Submit(id, kind, onStrand, script) =>
      && id !in io.tasks && (onStrand ==> CanPerform(io.s, kind, script))
      && (kind.ReadOp? ==> forall i :: i in io.tasks ==> !PendingRead(io.tasks[i]))
    case Resume(id, script) =>
      && id in io.tasks && CanPerform(SessionFor(io, id), io.tasks[id].kind, script)
      && (io.tasks[id].phase.OnStrand? || (io.tasks[id].phase.Waiting? && id in io.s.waits.woken))
    case Deliver(id) => id in io.tasks && io.tasks[id].phase.OnService?
    case Session(op) => IsEnvironment(op) && Enabled(io.s, op)
  }

  function PhaseOf(l: Leaves): Phase {
    match l
    case Dispatched => OnStrand
    case Parked => Waiting
    case Posted => OnService
    case Called => Done
  }

  /** operator() is called for task t. */
  function CallTask(s: Sess, t: Task, id: nat, onStrand: bool, start: bool, script: Script): (Sess, Task)
    requires !t.op.finished && onStrand ==> CanPerform(s, t.kind, script)
  {
    var r := Invoke(s, t.kind, t.op, id, onStrand, start, script);
    (r.s, t.(op := r.op, phase := PhaseOf(r.leaves),
             runs := if !t.op.finished && onStrand then t.runs + 1 else t.runs,
             calls := if r.leaves.Called? then t.calls + 1 else t.calls))
  }

  ghost function Next(io: IoSystem, st: IoStep): IoSystem
    requires StepEnabled(io, st)
  {
    match st
    case Submit(id, kind, onStrand, script) =>
      var t := Task(kind, OpState(false, Success, 0), OnStrand, onStrand, 0, 0);
      var (s', t') := CallTask(io.s, t, id, onStrand, true, script);
      IoSystem(s', io.tasks[id := t'])
    case Resume(id, script) =>
      var (s', t') := CallTask(SessionFor(io, id), io.tasks[id], id, true, false, script);
      IoSystem(s', io.tasks[id := t'])
    case Deliver(id) =>
      var (s', t') := CallTask(io.s, io.tasks[id], id, false, false, Script([], false));
      IoSystem(s', io.tasks[id := t'])
    case Session(op) => IoSystem(Apply(io.s, op), io.tasks)
  }

  ghost predicate Runs(io: IoSystem, steps: seq<IoStep>)
    decreases |steps|
  {
    steps == [] || (StepEnabled(io, steps[0]) && Runs(Next(io, steps[0]), steps[1..]))
  }

  ghost function After(io: IoSystem, steps: seq<IoStep>): IoSystem
    requires Runs(io, steps)
    decreases |steps|
  {
    if steps == [] then io else After(Next(io, steps[0]), steps[1..])
  }

  // ---------- completion ----------

  ghost predicate TaskOk(t: Task) {
    && (t.op.finished <==> t.phase.OnService? || t.phase.Done?)
    && t.calls == (if t.phase.Done? then 1 else 0)
    && (t.op.finished ==> t.runs >= 1)
    && (t.phase.OnService? ==> t.direct && t.runs == 1)
  }

  ghost predicate TasksOk(io: IoSystem) {
    forall id :: id in io.tasks ==> TaskOk(io.tasks[id])
  }

  lemma TasksOkStays(io: IoSystem, st: IoStep)
    requires TasksOk(io) && StepEnabled(io, st)
    ensures TasksOk(Next(io, st))
    ensures forall id :: id in io.tasks ==> id in Next(io, st).tasks
    ensures forall id :: id in io.tasks && io.tasks[id].op.finished ==>
              Next(io, st).tasks[id].op == io.tasks[id].op && Next(io, st).tasks[id].runs == io.tasks[id].runs
  {
  }

  /** Over every run: a handler is called at most once, only after the operation has
      finished, and a finished operation never runs on the session again and keeps its
      result. */
  lemma {:induction false} HandlersOnce(io: IoSystem, steps: seq<IoStep>)
    requires TasksOk(io) && Runs(io, steps)
    ensures TasksOk(After(io, steps))
    ensures forall id :: id in io.tasks ==> id in After(io, steps).tasks
    ensures forall id :: id in io.tasks && io.tasks[id].op.finished ==>
              && After(io, steps).tasks[id].op == io.tasks[id].op
              && After(io, steps).tasks[id].runs == io.tasks[id].runs
    decreases |steps|
  {
    if steps != [] {
      TasksOkStays(io, steps[0]);
      HandlersOnce(Next(io, steps[0]), steps[1..]);
    }
  }

  /** A step posts the handler of an operation exactly if it submits it on the strand and
      the operation finishes in that first call. */
  lemma PostedExactly(io: IoSystem, st: IoStep, id: nat)
    requires StepEnabled(io, st) && id in Next(io, st).tasks
    ensures Next(io, st).tasks[id].phase.OnService? && !(id in io.tasks && io.tasks[id].phase.OnService?)
       <==> st.Submit? && st.id == id && st.onStrand && Perform(io.s, st.kind, st.script).1.Finished?
  {
  }

  /** In every reachable state: the handler of an operation that was dispatched or parked
      is called by the very step that finishes it. */
  lemma PostedOnlyAtOnce(capacity: nat, marksMax: nat, queueMax: nat, steps: seq<IoStep>, st: IoStep, id: nat)
    requires Runs(Start(capacity, marksMax, queueMax), steps)
    requires var io := After(Start(capacity, marksMax, queueMax), steps);
             && id in io.tasks && StepEnabled(io, st)
    ensures var io := After(Start(capacity, marksMax, queueMax), steps);
            && (io.tasks[id].phase.OnService? ==> io.tasks[id].direct && io.tasks[id].runs == 1)
            && (io.tasks[id].runs != 1 || !io.tasks[id].direct ==> !Next(io, st).tasks[id].phase.OnService?)
            && (!io.tasks[id].op.finished && Next(io, st).tasks[id].op.finished ==> Next(io, st).tasks[id].phase.Done?)
  {
    HandlersOnce(Start(capacity, marksMax, queueMax), steps);
    assert TaskOk(After(Start(capacity, marksMax, queueMax), steps).tasks[id]);
  }

  lemma RunsTwo(io: IoSystem, first: IoStep, second: IoStep)
    requires StepEnabled(io, first) && StepEnabled(Next(io, first), second)
    ensures Runs(io, [first, second]) && After(io, [first, second]) == Next(Next(io, first), second)
  {
    assert [first, second][1..] == [second] && [second][1..] == [];
    assert Runs(Next(Next(io, first), second), []);
    assert Runs(Next(io, first), [second]) && After(Next(io, first), [second]) == Next(Next(io, first), second);
  }

  /** Direct calls whose handlers are not deferred exist: a write submitted off the strand
      has its handler called by the strand's own call, never posted. */
  lemma StartIsDropped(capacity: nat, marksMax: nat, queueMax: nat, data: seq<byte>, none: Script)
    requires |data| <= capacity && none == Script([], false)
    ensures var io := Start(capacity, marksMax, queueMax);
            var submit, resume := Submit(0, WriteOp(data), false, none), Resume(0, none);
            && StepEnabled(io, submit) && 0 in Next(io, submit).tasks && Next(io, submit).tasks[0].phase.OnStrand?
            && Runs(io, [submit, resume]) && 0 in After(io, [submit, resume]).tasks
            && After(io, [submit, resume]).tasks[0].phase.Done? && After(io, [submit, resume]).tasks[0].calls == 1
  {
    var io := Start(capacity, marksMax, queueMax);
    RunsTwo(io, Submit(0, WriteOp(data), false, none), Resume(0, none));
  }

  /** A close that is parked, woken by do_close and called again, has close_handler_
      called a second time. */
  lemma WokenCloseReportsAgain(capacity: nat, marksMax: nat, queueMax: nat, none: Script)
    requires none == Script([], false)
    ensures var io := Next(Start(capacity, marksMax, queueMax), Session(OpStart));
            var submit, resume := Submit(0, CloseOp, true, none), Resume(0, none);
            && Runs(io, [submit, Session(OpDoClose)])
            && var parked := After(io, [submit, Session(OpDoClose)]);
               && 0 in parked.tasks && parked.tasks[0].phase.Waiting? && parked.s.closeCalls == 1
               && StepEnabled(parked, resume)
               && Next(parked, resume).s.closeCalls == 2 && Next(parked, resume).tasks[0].phase.Done?
  {
    var io := Next(Start(capacity, marksMax, queueMax), Session(OpStart));
    RunsTwo(io, Submit(0, CloseOp, true, none), Session(OpDoClose));
  }

  /** An operation finishes only in its own call on the strand, with the error code and
      the count that the session operation returned in that call. */
  lemma FinishesWithOutcome(io: IoSystem, st: IoStep, id: nat)
    requires StepEnabled(io, st) && id in Next(io, st).tasks
    requires Next(io, st).tasks[id].op.finished && !(id in io.tasks && io.tasks[id].op.finished)
    ensures (st.Submit? && st.id == id && st.onStrand) || (st.Resume? && st.woken == id)
    ensures var o := if st.Submit? then Perform(io.s, st.kind, st.script).1
                     else Perform(SessionFor(io, id), io.tasks[id].kind, st.again).1;
            o.Finished? && Next(io, st).tasks[id].op == OpState(true, o.ec, o.bytes)
  {
  }

  /** A close finishes, with success, exactly if the session is not running when it
      returns; else it is parked. */
  lemma CloseFinishesWhenStopped(s: Sess, script: Script)
    requires CanPerform(s, CloseOp, script)
    ensures var (s', o) := Perform(s, CloseOp, script);
            o == if s'.running then Retry else Finished(Success, 0)
  {
  }

  /** Once finished, a call of operator() does nothing but call the handler, wherever and
      however it is made. */
  lemma FinishedIsCalled(s: Sess, k: Kind, op: OpState, id: nat, onStrand: bool, start: bool, script: Script)
    requires op.finished
    ensures Invoke(s, k, op, id, onStrand, start, script) == Invoked(s, op, Called)
  {
  }

  // ---------- no lost wakeup ----------

  /** A parked write does not fit. */
  ghost predicate WritesStarve(s: Sess, tasks: map<nat, Task>) {
    forall id :: id in s.waits.write ==>
      && id in tasks && tasks[id].kind.WriteOp?
      && |tasks[id].kind.data| > s.tx.capacity - |s.tx.ring|
  }

  /** A parked read has nothing to read. */
  ghost predicate ReadsStarve(s: Sess) {
    !s.eof && s.waits.read != {} ==> Drained(s.rx.queue, s.rx.distributed)
  }

  ghost predicate RingOk(s: Sess) {
    |s.tx.ring| <= s.tx.capacity && (s.tx.ring != [] ==> s.tx.sized) && SortedByRange(s.rx.queue)
  }

  ghost predicate Starving(io: IoSystem) {
    RingOk(io.s) && WritesStarve(io.s, io.tasks) && ReadsStarve(io.s)
  }

  lemma DrainedSubset(q: seq<Mark>, q': seq<Mark>, d: nat)
    requires Drained(q, d) && forall m :: m in q' ==> HasBlock(q, m.block)
    ensures Drained(q', d)
  {
    forall i | 0 <= i < |q'| && q'[i].block.offset <= d ensures q'[i].block.End() <= d && !q'[i].block.eof {
      assert q'[i] in q';
      var j :| 0 <= j < |q| && q[j].block == q'[i].block;
    }
  }

  /** One operation that does not go through io_op, or the start of a close. */
  lemma EnvironmentStarves(s: Sess, tasks: map<nat, Task>, op: Op)
    requires Starving(IoSystem(s, tasks)) && Enabled(s, op) && (IsEnvironment(op) || op.OpBeginClose?)
    ensures Starving(IoSystem(Apply(s, op), tasks))
  {
    match op {
      case OpPut(b) => InsertByRangeKeeps(s.rx.queue, Mark(b, s.eof, false));
      case OpAckRange(start, end) =>
        AckRangeSorted(s.rx.queue, start, end);
        if Drained(s.rx.queue, s.rx.distributed) {
          DrainedSubset(s.rx.queue, AckRange(s.rx.queue, start, end), s.rx.distributed);
        }
      case _ =>
    }
  }

  lemma {:induction false} EnvironmentRunStarves(s: Sess, tasks: map<nat, Task>, ops: seq<Op>)
    requires Starving(IoSystem(s, tasks)) && Runnable(s, ops) && forall op :: op in ops ==> IsCallback(op)
    ensures Starving(IoSystem(Run(s, ops), tasks))
    decreases |ops|
  {
    if ops != [] {
      assert ops[0] in ops && forall op :: op in ops[1..] ==> op in ops;
      EnvironmentStarves(s, tasks, ops[0]);
      EnvironmentRunStarves(Apply(s, ops[0]), tasks, ops[1..]);
    }
  }

  // ---------- who waits ----------

  /** The timers and the strand hold exactly operations that wait, each in one place and
      on the timer of its kind. */
  ghost predicate WaitsOk(w: Waits, tasks: map<nat, Task>) {
    && (forall id :: id in w.read ==>
          id in tasks && tasks[id].phase.Waiting? && tasks[id].kind.ReadOp? && id !in w.woken)
    && (forall id :: id in w.write ==>
          id in tasks && tasks[id].phase.Waiting? && tasks[id].kind.WriteOp? && id !in w.woken)
    && (forall id :: id in w.close ==>
          id in tasks && tasks[id].phase.Waiting? && tasks[id].kind.CloseOp? && id !in w.woken)
    && (forall id :: id in w.woken ==> id in tasks && tasks[id].phase.Waiting?)
    && (forall id :: id in tasks && tasks[id].phase.Waiting? ==>
          id in w.read || id in w.write || id in w.close || id in w.woken)
  }

  ghost predicate OneRead(tasks: map<nat, Task>) {
    forall i, j :: i in tasks && j in tasks && PendingRead(tasks[i]) && PendingRead(tasks[j]) ==> i == j
  }

  /** The read offset fits the outstanding read's buffer, and is 0 when there is none. */
  ghost predicate ReadOffsetOk(offset: nat, tasks: map<nat, Task>) {
    && (forall i :: i in tasks && PendingRead(tasks[i]) ==> offset <= tasks[i].kind.len)
    && ((forall i :: i in tasks ==> !PendingRead(tasks[i])) ==> offset == 0)
  }

  /** Cancelling a timer moves its operations to the strand. */
  ghost predicate Wakes(w: Waits, w': Waits) {
    && w'.read <= w.read && w'.write <= w.write && w'.close <= w.close
    && w'.woken == w.woken + (w.read - w'.read) + (w.write - w'.write) + (w.close - w'.close)
  }

  lemma WakesKeeps(w: Waits, w': Waits, tasks: map<nat, Task>)
    requires WaitsOk(w, tasks) && Wakes(w, w')
    ensures WaitsOk(w', tasks)
  {
  }

  lemma ApplyWakes(s: Sess, op: Op)
    requires Enabled(s, op)
    ensures Wakes(s.waits, Apply(s, op).waits)
    ensures !op.OpRead? && !op.OpDoClose? ==> Apply(s, op).rx.readOffset == s.rx.readOffset
    ensures op.OpDoClose? ==> Apply(s, op).rx.readOffset == 0
  {
  }

  /** Who is woken when: readers by a block that is stored before EOF, writers by a head
      cut from the buffer, all of both by a close of a session that is not running, and
      everybody by do_close; nothing else wakes anybody. */
  lemma WakesExactly(s: Sess, op: Op)
    requires Enabled(s, op)
    ensures var w, w' := s.waits, Apply(s, op).waits;
            var all := op.OpDoClose? || (op.OpBeginClose? && !s.running);
            && w'.read == (if all || (op.OpPut? && Put(s, op.block).1 && !s.eof) then {} else w.read)
            && w'.write == (if all || (op.OpHead? && s.tx.head.None? && Head(s, op.max).1.Some? && s.tx.sized) then {}
                            else w.write)
            && w'.close == (if op.OpDoClose? then {} else w.close)
            && Wakes(w, w')
  {
  }

  lemma {:induction false} RunWakes(s: Sess, ops: seq<Op>)
    requires Runnable(s, ops) && forall op :: op in ops ==> IsCallback(op)
    ensures Wakes(s.waits, Run(s, ops).waits)
    ensures Run(s, ops).rx.readOffset == s.rx.readOffset
    decreases |ops|
  {
    if ops != [] {
      assert ops[0] in ops && forall op :: op in ops[1..] ==> op in ops;
      ApplyWakes(s, ops[0]);
      RunWakes(Apply(s, ops[0]), ops[1..]);
    }
  }

  // ---------- performing an operation ----------

  lemma CloseStarves(s: Sess, tasks: map<nat, Task>, script: Script)
    requires Starving(IoSystem(s, tasks)) && CanPerform(s, CloseOp, script)
    ensures var s' := Perform(s, CloseOp, script).0;
            && Starving(IoSystem(s', tasks)) && Wakes(s.waits, s'.waits)
            && (s'.rx.readOffset == s.rx.readOffset || s'.rx.readOffset == 0)
  {
    var s1 := BeginClose(s);
    EnvironmentStarves(s, tasks, OpBeginClose);
    ApplyWakes(s, OpBeginClose);
    if s.running && !s.closing {
      EnvironmentRunStarves(s1, tasks, script.calls);
      RunWakes(s1, script.calls);
      var s2 := Run(s1, script.calls);
      if script.bothFinal {
        EnvironmentStarves(s2, tasks, OpDoClose);
        ApplyWakes(s2, OpDoClose);
      }
    }
  }

  lemma ReadStarves(s: Sess, tasks: map<nat, Task>, len: nat)
    requires Starving(IoSystem(s, tasks)) && s.waits.read == {} && (len == 0 || s.rx.readOffset <= len)
    ensures var r := SessionSpec.Read(s, len);
            && Starving(IoSystem(r.s, tasks)) && r.s.waits == s.waits && r.s.rx.readOffset <= len
            && (r.outcome.Retry? ==> !r.s.eof && Drained(r.s.rx.queue, r.s.rx.distributed))
            && (r.outcome.Finished? ==> r.s.rx.readOffset == 0)
  {
    if len > 0 {
      SweepOfRead(s, len);
      SweepLeaves(s.rx.queue, s.rx.distributed, len - s.rx.readOffset);
    }
  }

  lemma SweepLeaves(q: seq<Mark>, d: nat, room: nat)
    requires SortedByRange(q)
    ensures var sw := Sweep(q, d, room);
            SortedByRange(sw.kept) && (|sw.out| < room && !sw.eof ==> Drained(sw.kept, d + |sw.out|))
  {
    SweepKeepsOrder(q, d, room);
    SweepDrains(q, d, room);
  }

  /** Operation id itself waits nowhere; for the others WaitsOk holds. */
  ghost predicate WaitsOkBut(w: Waits, tasks: map<nat, Task>, id: nat) {
    && id !in w.read && id !in w.write && id !in w.close && id !in w.woken
    && WaitsOk(w, tasks - {id})
  }

  /** The session after the operation proper, before operator() parks it. */
  lemma PerformStarves(s: Sess, tasks: map<nat, Task>, k: Kind, script: Script)
    requires Starving(IoSystem(s, tasks)) && CanPerform(s, k, script) && (k.ReadOp? ==> s.waits.read == {})
    ensures var (s', o) := Perform(s, k, script);
            && Starving(IoSystem(s', tasks)) && Wakes(s.waits, s'.waits)
            && (k.ReadOp? ==>
                  s'.rx.readOffset <= k.len && s'.waits == s.waits && (o.Finished? ==> s'.rx.readOffset == 0))
            && (!k.ReadOp? ==> s'.rx.readOffset == s.rx.readOffset || s'.rx.readOffset == 0)
            && (k.ReadOp? && o.Retry? ==> Drained(s'.rx.queue, s'.rx.distributed))
            && (k.WriteOp? && o.Retry? ==> |k.data| > s'.tx.capacity - |s'.tx.ring|)
  {
    match k {
      case ReadOp(len) => ReadStarves(s, tasks, len);
      case WriteOp(data) =>
      case CloseOp => CloseStarves(s, tasks, script);
    }
  }

  lemma Reparked(w: Waits, tasks: map<nat, Task>, id: nat, t': Task, s: Sess)
    requires WaitsOkBut(w, tasks, id) && s.waits == w
    ensures t'.phase.Waiting? ==> WaitsOk(Wait(s, WantOf(t'.kind), id).waits, tasks[id := t'])
    ensures !t'.phase.Waiting? ==> WaitsOk(w, tasks[id := t'])
  {
  }

  lemma CallTaskKeeps(s: Sess, tasks: map<nat, Task>, t: Task, id: nat, start: bool, script: Script)
    requires Starving(IoSystem(s, tasks)) && WaitsOkBut(s.waits, tasks, id) && !t.op.finished
    requires CanPerform(s, t.kind, script) && (t.kind.ReadOp? ==> s.waits.read == {})
    ensures var (s', t') := CallTask(s, t, id, true, start, script);
            && Starving(IoSystem(s', tasks[id := t'])) && WaitsOk(s'.waits, tasks[id := t'])
            && (t.kind.ReadOp? ==> s'.rx.readOffset <= t.kind.len && (t'.op.finished ==> s'.rx.readOffset == 0))
            && (!t.kind.ReadOp? ==> s'.rx.readOffset == s.rx.readOffset || s'.rx.readOffset == 0)
  {
    var (s1, o) := Perform(s, t.kind, script);
    var (s', t') := CallTask(s, t, id, true, start, script);
    PerformStarves(s, tasks, t.kind, script);
    WakesKeeps(s.waits, s1.waits, tasks - {id});
    Reparked(s1.waits, tasks, id, t', s1);
    assert t'.phase.Waiting? <==> o.Retry?;
    StarvingTask(s1, tasks, id, t');
  }

  lemma StarvingTask(s: Sess, tasks: map<nat, Task>, id: nat, t': Task)
    requires Starving(IoSystem(s, tasks)) && id !in s.waits.write
    requires t'.phase.Waiting? && t'.kind.WriteOp? ==> |t'.kind.data| > s.tx.capacity - |s.tx.ring|
    requires t'.phase.Waiting? && t'.kind.ReadOp? ==> Drained(s.rx.queue, s.rx.distributed)
    ensures t'.phase.Waiting? ==> Starving(IoSystem(Wait(s, WantOf(t'.kind), id), tasks[id := t']))
    ensures !t'.phase.Waiting? ==> Starving(IoSystem(s, tasks[id := t']))
  {
  }

  // ---------- the invariant over runs ----------

  ghost predicate IoInv(io: IoSystem) {
    && TasksOk(io) && Starving(io) && WaitsOk(io.s.waits, io.tasks)
    && OneRead(io.tasks) && ReadOffsetOk(io.s.rx.readOffset, io.tasks)
  }

  /** A read that runs is the only unfinished one, so no read is parked. */
  lemma NoOtherRead(io: IoSystem, id: nat)
    requires IoInv(io) && id in io.tasks && PendingRead(io.tasks[id]) && id !in io.s.waits.read
    ensures io.s.waits.read == {}
  {
    assert forall j :: j in io.s.waits.read ==> TaskOk(io.tasks[j]);
    assert forall j :: j in io.s.waits.read ==> j == id;
  }

  lemma SubmitKeeps(io: IoSystem, id: nat, kind: Kind, onStrand: bool, script: Script)
    requires IoInv(io) && StepEnabled(io, Submit(id, kind, onStrand, script))
    ensures IoInv(Next(io, Submit(id, kind, onStrand, script)))
  {
    var t := Task(kind, OpState(false, Success, 0), OnStrand, onStrand, 0, 0);
    TasksOkStays(io, Submit(id, kind, onStrand, script));
    assert io.tasks - {id} == io.tasks;
    assert forall j :: j in io.s.waits.read ==> TaskOk(io.tasks[j]) && PendingRead(io.tasks[j]);
    var (s', t') := CallTask(io.s, t, id, onStrand, true, script);
    assert Next(io, Submit(id, kind, onStrand, script)) == IoSystem(s', io.tasks[id := t']);
    if onStrand {
      CallTaskKeeps(io.s, io.tasks, t, id, true, script);
    } else {
      Reparked(io.s.waits, io.tasks, id, t, io.s);
      StarvingTask(io.s, io.tasks, id, t);
    }
    ReadsWith(io.tasks, io.s.rx.readOffset, id, t', s'.rx.readOffset);
    IoInvHolds(s', io.tasks[id := t']);
  }

  lemma IoInvHolds(s: Sess, tasks: map<nat, Task>)
    requires TasksOk(IoSystem(s, tasks)) && Starving(IoSystem(s, tasks)) && WaitsOk(s.waits, tasks)
    requires OneRead(tasks) && ReadOffsetOk(s.rx.readOffset, tasks)
    ensures IoInv(IoSystem(s, tasks))
  {
  }

  /** One task is added, a read only if no other is unfinished. */
  lemma ReadsWith(tasks: map<nat, Task>, offset: nat, id: nat, t': Task, offset': nat)
    requires OneRead(tasks) && ReadOffsetOk(offset, tasks) && id !in tasks
    requires t'.kind.ReadOp? ==> forall i :: i in tasks ==> !PendingRead(tasks[i])
    requires t'.kind.ReadOp? ==> offset' <= t'.kind.len && (t'.op.finished ==> offset' == 0)
    requires !t'.kind.ReadOp? ==> offset' == offset || offset' == 0
    ensures OneRead(tasks[id := t']) && ReadOffsetOk(offset', tasks[id := t'])
  {
    var tasks' := tasks[id := t'];
    if t'.kind.ReadOp? {
      assert id in tasks' && (!t'.op.finished ==> PendingRead(tasks'[id]));
    } else {
      forall i | i in tasks && PendingRead(tasks[i]) ensures i in tasks' && PendingRead(tasks'[i]) {
      }
    }
  }

  lemma ResumedWaits(io: IoSystem, id: nat)
    requires WaitsOk(io.s.waits, io.tasks) && id in io.tasks
    requires io.tasks[id].phase.OnStrand? || (io.tasks[id].phase.Waiting? && id in io.s.waits.woken)
    ensures WaitsOkBut(SessionFor(io, id).waits, io.tasks, id)
  {
  }

  lemma ResumeKeeps(io: IoSystem, id: nat, script: Script)
    requires IoInv(io) && StepEnabled(io, Resume(id, script))
    ensures IoInv(Next(io, Resume(id, script)))
  {
    var s, t := SessionFor(io, id), io.tasks[id];
    TasksOkStays(io, Resume(id, script));
    assert TaskOk(t);
    if t.kind.ReadOp? {
      NoOtherRead(io, id);
    }
    ResumedWaits(io, id);
    CallTaskKeeps(s, io.tasks, t, id, false, script);
    var (s', t') := CallTask(s, t, id, true, false, script);
    ReadsAfter(io.tasks, io.s.rx.readOffset, id, t', s'.rx.readOffset);
    assert Next(io, Resume(id, script)) == IoSystem(s', io.tasks[id := t']);
    IoInvHolds(s', io.tasks[id := t']);
  }

  /** One task goes on; the read offset moves only if it is the unfinished read. */
  lemma ReadsAfter(tasks: map<nat, Task>, offset: nat, id: nat, t': Task, offset': nat)
    requires OneRead(tasks) && ReadOffsetOk(offset, tasks) && id in tasks && !tasks[id].op.finished
    requires t'.kind == tasks[id].kind
    requires t'.kind.ReadOp? ==> offset' <= t'.kind.len && (t'.op.finished ==> offset' == 0)
    requires !t'.kind.ReadOp? ==> offset' == offset || offset' == 0
    ensures OneRead(tasks[id := t']) && ReadOffsetOk(offset', tasks[id := t'])
  {
    if t'.kind.ReadOp? {
      var tasks' := tasks[id := t'];
      assert PendingRead(tasks[id]) && id in tasks' && (!t'.op.finished ==> PendingRead(tasks'[id]));
    } else {
      forall i | i in tasks && PendingRead(tasks[i]) ensures i in tasks[id := t'] && PendingRead(tasks[id := t'][i]) {
      }
    }
  }

  lemma DeliverKeeps(io: IoSystem, id: nat)
    requires IoInv(io) && StepEnabled(io, Deliver(id))
    ensures IoInv(Next(io, Deliver(id)))
  {
    TasksOkStays(io, Deliver(id));
    assert TaskOk(io.tasks[id]);
    var t' := Next(io, Deliver(id)).tasks[id];
    assert t' == io.tasks[id].(phase := Done, calls := io.tasks[id].calls + 1);
    assert Next(io, Deliver(id)) == IoSystem(io.s, io.tasks[id := t']);
    StarvingTask(io.s, io.tasks, id, t');
    DeliveredWaits(io, id, t');
    IoInvHolds(io.s, io.tasks[id := t']);
  }

  lemma DeliveredWaits(io: IoSystem, id: nat, t': Task)
    requires IoInv(io) && id in io.tasks && io.tasks[id].phase.OnService? && io.tasks[id].op.finished
    requires t'.phase.Done? && t'.op == io.tasks[id].op && t'.kind == io.tasks[id].kind
    ensures WaitsOk(io.s.waits, io.tasks[id := t'])
    ensures OneRead(io.tasks[id := t']) && ReadOffsetOk(io.s.rx.readOffset, io.tasks[id := t'])
  {
    forall i | i in io.tasks && PendingRead(io.tasks[i])
      ensures i in io.tasks[id := t'] && PendingRead(io.tasks[id := t'][i])
    {
    }
  }

  lemma SessionKeeps(io: IoSystem, op: Op)
    requires IoInv(io) && StepEnabled(io, Session(op))
    ensures IoInv(Next(io, Session(op)))
  {
    EnvironmentStarves(io.s, io.tasks, op);
    ApplyWakes(io.s, op);
    WakesKeeps(io.s.waits, Apply(io.s, op).waits, io.tasks);
  }

  lemma StepKeepsIoInv(io: IoSystem, st: IoStep)
    requires IoInv(io) && StepEnabled(io, st)
    ensures IoInv(Next(io, st))
  {
    match st {
      case Submit(id, kind, onStrand, script) => SubmitKeeps(io, id, kind, onStrand, script);
      case Resume(id, script) => ResumeKeeps(io, id, script);
      case Deliver(id) => DeliverKeeps(io, id);
      case Session(op) => SessionKeeps(io, op);
    }
  }

  lemma {:induction false} IoInvAlways(io: IoSystem, steps: seq<IoStep>)
    requires IoInv(io) && Runs(io, steps)
    ensures IoInv(After(io, steps))
    decreases |steps|
  {
    if steps != [] {
      StepKeepsIoInv(io, steps[0]);
      IoInvAlways(Next(io, steps[0]), steps[1..]);
    }
  }

  function Start(capacity: nat, marksMax: nat, queueMax: nat): IoSystem {
    IoSystem(Fresh(capacity, marksMax, queueMax), map[])
  }

  // ---------- what the invariant says ----------

  /** In every reachable state a parked write is longer than the free space; so if it
      could ever fit, the send queue is not empty. */
  lemma NoLostWriteWakeup(capacity: nat, marksMax: nat, queueMax: nat, steps: seq<IoStep>, id: nat, myEof: bool)
    requires Runs(Start(capacity, marksMax, queueMax), steps)
    requires id in After(Start(capacity, marksMax, queueMax), steps).s.waits.write
    ensures var io := After(Start(capacity, marksMax, queueMax), steps);
            && id in io.tasks && io.tasks[id].kind.WriteOp?
            && |io.tasks[id].kind.data| > io.s.tx.capacity - |io.s.tx.ring|
            && (|io.tasks[id].kind.data| <= io.s.tx.capacity ==> !SendqIsEmpty(io.s, myEof))
  {
    IoInvAlways(Start(capacity, marksMax, queueMax), steps);
  }

  /** Whatever step frees space in the ring, be it the messager's own or part of a close,
      wakes every parked write. */
  lemma FreeingSpaceWakes(io: IoSystem, st: IoStep)
    requires IoInv(io) && StepEnabled(io, st)
    requires |Next(io, st).s.tx.ring| < |io.s.tx.ring|
    ensures Next(io, st).s.waits.write == {} && io.s.waits.write <= Next(io, st).s.waits.woken
  {
    match st {
      case Submit(id, kind, onStrand, script) =>
        if onStrand {
          CallFrees(io.s, Task(kind, OpState(false, Success, 0), OnStrand, onStrand, 0, 0), id, true, script);
        }
      case Resume(id, script) => CallFrees(SessionFor(io, id), io.tasks[id], id, false, script);
      case Deliver(id) =>
      case Session(op) => OperationFrees(io.s, op);
    }
  }

  /** Parked writes are woken when the ring shrinks. */
  ghost predicate Frees(s: Sess, s': Sess) {
    |s'.tx.ring| < |s.tx.ring| ==> s'.waits.write == {} && s.waits.write <= s'.waits.woken
  }

  lemma OperationFrees(s: Sess, op: Op)
    requires Enabled(s, op) && (s.tx.ring != [] ==> s.tx.sized)
    ensures Frees(s, Apply(s, op))
    ensures IsCallback(op) ==> |Apply(s, op).tx.ring| <= |s.tx.ring| && Apply(s, op).waits.write <= s.waits.write
    ensures IsCallback(op) ==> Apply(s, op).tx.ring != [] ==> Apply(s, op).tx.sized
  {
  }

  lemma {:induction false} RunFrees(s: Sess, ops: seq<Op>)
    requires Runnable(s, ops) && (forall op :: op in ops ==> IsCallback(op)) && (s.tx.ring != [] ==> s.tx.sized)
    ensures Frees(s, Run(s, ops)) && |Run(s, ops).tx.ring| <= |s.tx.ring| && Run(s, ops).waits.write <= s.waits.write
    decreases |ops|
  {
    if ops != [] {
      assert ops[0] in ops && forall op :: op in ops[1..] ==> op in ops;
      OperationFrees(s, ops[0]);
      RunFrees(Apply(s, ops[0]), ops[1..]);
      RunWakes(s, ops);
    }
  }

  lemma CallFrees(s: Sess, t: Task, id: nat, start: bool, script: Script)
    requires CanPerform(s, t.kind, script) && (s.tx.ring != [] ==> s.tx.sized)
    ensures Frees(s, CallTask(s, t, id, true, start, script).0)
  {
    if !t.op.finished {
      PerformFrees(s, t.kind, script);
      WriteKeepsRing(s, t.kind, script);
    }
  }

  /** A write, the one operation that may be parked with the writers, takes nothing out
      of the ring. */
  lemma WriteKeepsRing(s: Sess, k: Kind, script: Script)
    requires CanPerform(s, k, script)
    ensures k.WriteOp? ==> |s.tx.ring| <= |Perform(s, k, script).0.tx.ring|
  {
  }

  lemma PerformFrees(s: Sess, k: Kind, script: Script)
    requires CanPerform(s, k, script) && (s.tx.ring != [] ==> s.tx.sized)
    ensures Frees(s, Perform(s, k, script).0)
  {
    if k.CloseOp? && s.running && !s.closing {
      RunFrees(BeginClose(s), script.calls);
      RunWakes(BeginClose(s), script.calls);
    }
  }

  /** In every reachable state before EOF or a local close: while a read is parked, no
      queued block contains the next byte, and no queued EOF block is due. */
  lemma NoLostReadWakeup(capacity: nat, marksMax: nat, queueMax: nat, steps: seq<IoStep>, id: nat)
    requires Runs(Start(capacity, marksMax, queueMax), steps)
    requires id in After(Start(capacity, marksMax, queueMax), steps).s.waits.read
    ensures var io := After(Start(capacity, marksMax, queueMax), steps);
            && id in io.tasks && io.tasks[id].kind.ReadOp?
            && (!io.s.eof ==> !Covered(io.s.rx.queue, io.s.rx.distributed)
                              && forall m :: m in io.s.rx.queue && m.block.eof ==> m.block.offset > io.s.rx.distributed)
  {
    IoInvAlways(Start(capacity, marksMax, queueMax), steps);
    var s := After(Start(capacity, marksMax, queueMax), steps).s;
    if !s.eof {
      forall m | m in s.rx.queue && m.block.eof ensures m.block.offset > s.rx.distributed {
        var i :| 0 <= i < |s.rx.queue| && s.rx.queue[i] == m;
      }
    }
  }

  /** Before EOF only the arrival of a block can give a parked read something to do, and
      it wakes every parked read. */
  lemma OnlyArrivalFeedsReads(io: IoSystem, st: IoStep)
    requires IoInv(io) && StepEnabled(io, st) && !io.s.eof && !Next(io, st).s.eof
    requires Drained(io.s.rx.queue, io.s.rx.distributed)
    requires !Drained(Next(io, st).s.rx.queue, Next(io, st).s.rx.distributed)
    ensures st.Session? && st.op.OpPut?
    ensures Next(io, st).s.waits.read == {} && io.s.waits.read <= Next(io, st).s.waits.woken
  {
    match st {
      case Submit(id, kind, onStrand, script) =>
        if onStrand {
          CallFeedsNothing(io.s, Task(kind, OpState(false, Success, 0), OnStrand, onStrand, 0, 0), id, true, script);
        }
      case Resume(id, script) => CallFeedsNothing(SessionFor(io, id), io.tasks[id], id, false, script);
      case Deliver(id) =>
      case Session(op) =>
        if op.OpAckRange? {
          AckRangeSorted(io.s.rx.queue, op.first, op.last);
          DrainedSubset(io.s.rx.queue, AckRange(io.s.rx.queue, op.first, op.last), io.s.rx.distributed);
        }
    }
  }

  lemma CallFeedsNothing(s: Sess, t: Task, id: nat, start: bool, script: Script)
    requires CanPerform(s, t.kind, script) && SortedByRange(s.rx.queue)
    requires !s.eof && Drained(s.rx.queue, s.rx.distributed)
    ensures var s' := CallTask(s, t, id, true, start, script).0;
            s'.eof || Drained(s'.rx.queue, s'.rx.distributed)
  {
    if !t.op.finished {
      PerformFeedsNothing(s, t.kind, script);
    }
  }

  lemma PerformFeedsNothing(s: Sess, k: Kind, script: Script)
    requires CanPerform(s, k, script) && SortedByRange(s.rx.queue) && !s.eof && Drained(s.rx.queue, s.rx.distributed)
    ensures var s' := Perform(s, k, script).0;
            s'.eof || Drained(s'.rx.queue, s'.rx.distributed)
  {
    match k {
      case ReadOp(len) =>
        if len > 0 {
          SweepOfRead(s, len);
          DrainedStays(s.rx.queue, s.rx.distributed, len - s.rx.readOffset);
        }
      case WriteOp(_) =>
      case CloseOp => CloseFeedsNothing(s, script);
    }
  }

  lemma CloseFeedsNothing(s: Sess, script: Script)
    requires CanPerform(s, CloseOp, script) && Drained(s.rx.queue, s.rx.distributed)
    ensures var s' := Perform(s, CloseOp, script).0;
            s'.eof || Drained(s'.rx.queue, s'.rx.distributed)
  {
    if s.running && !s.closing {
      CallbacksKeepFlags(BeginClose(s), script.calls);
    }
  }

  /** A sweep of a drained queue copies nothing and leaves it drained. */
  lemma DrainedStays(q: seq<Mark>, d: nat, room: nat)
    requires SortedByRange(q) && Drained(q, d)
    ensures Sweep(q, d, room).out == [] && Drained(Sweep(q, d, room).kept, d)
  {
    SweepCopiesMaximalRun(q, d, room);
    SweepKeepsOrder(q, d, room);
    DrainedSubset(q, Sweep(q, d, room).kept, d);
  }

  /** A retried read always brings a buffer that the read offset fits: the demand of
      `read` on its caller is met in every reachable state. */
  lemma RetriedReadFits(capacity: nat, marksMax: nat, queueMax: nat, steps: seq<IoStep>, id: nat)
    requires Runs(Start(capacity, marksMax, queueMax), steps)
    ensures var io := After(Start(capacity, marksMax, queueMax), steps);
            && (id in io.tasks && PendingRead(io.tasks[id]) ==> io.s.rx.readOffset <= io.tasks[id].kind.len)
            && ((forall i :: i in io.tasks ==> !PendingRead(io.tasks[i])) ==> io.s.rx.readOffset == 0)
  {
    IoInvAlways(Start(capacity, marksMax, queueMax), steps);
  }
}
