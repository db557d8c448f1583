/** The asynchronous operations of both sides together with the network: every run of
    them is a run of the two sessions, so what was proved about bytes and EOF holds for
    the operations' buffers and results. */
module Hosts {
  import opened Blocks
  import opened SessionSpec
  import opened IoSpec
  import opened Network
  import opened EndToEnd
  import S = Scheduling

  // ---------- runs of a node's actions ----------

  ghost predicate CanRun(x: Node, out: Wire, inn: Wire, acts: seq<Action>)
    decreases |acts|
  {
    acts == []
    || (NodeEnabled(x, out, inn, acts[0])
        && var (x', out', inn') := NodeNext(x, out, inn, acts[0]);
           CanRun(x', out', inn', acts[1..]))
  }

  ghost function RunActs(x: Node, out: Wire, inn: Wire, acts: seq<Action>): (Node, Wire, Wire)
    requires CanRun(x, out, inn, acts)
    decreases |acts|
  {
    if acts == [] then (x, out, inn)
    else
      var (x', out', inn') := NodeNext(x, out, inn, acts[0]);
      RunActs(x', out', inn', acts[1..])
  }

  lemma RunOne(x: Node, out: Wire, inn: Wire, act: Action)
    requires NodeEnabled(x, out, inn, act)
    ensures CanRun(x, out, inn, [act]) && RunActs(x, out, inn, [act]) == NodeNext(x, out, inn, act)
  {
    assert [act][1..] == [];
  }

  lemma {:induction false} RunConcat(x: Node, out: Wire, inn: Wire, p: seq<Action>, q: seq<Action>)
    requires CanRun(x, out, inn, p)
    requires var (x', out', inn') := RunActs(x, out, inn, p); CanRun(x', out', inn', q)
    ensures CanRun(x, out, inn, p + q)
    ensures var (x', out', inn') := RunActs(x, out, inn, p); RunActs(x, out, inn, p + q) == RunActs(x', out', inn', q)
    decreases |p|
  {
    if p == [] {
      assert p + q == q;
    } else {
      var (x', out', inn') := NodeNext(x, out, inn, p[0]);
      assert (p + q)[0] == p[0] && (p + q)[1..] == p[1..] + q;
      RunConcat(x', out', inn', p[1..], q);
    }
  }

  lemma {:induction false} RunSplit(x: Node, out: Wire, inn: Wire, p: seq<Action>, q: seq<Action>)
    requires CanRun(x, out, inn, p + q)
    ensures CanRun(x, out, inn, p)
    ensures var (x', out', inn') := RunActs(x, out, inn, p); CanRun(x', out', inn', q)
    decreases |p|
  {
    if p == [] {
      assert p + q == q;
    } else {
      var (x', out', inn') := NodeNext(x, out, inn, p[0]);
      assert (p + q)[0] == p[0] && (p + q)[1..] == p[1..] + q;
      RunSplit(x', out', inn', p[1..], q);
    }
  }

  /** The system as seen from one side. */
  function Sided(side: Side, x: Node, y: Node, out: Wire, inn: Wire): System {
    match side
    case A => System(x, y, out, inn)
    case B => System(y, x, inn, out)
  }

  lemma {:induction false} ActsReachable(side: Side, x: Node, y: Node, out: Wire, inn: Wire, acts: seq<Action>)
    requires Reachable(Sided(side, x, y, out, inn)) && CanRun(x, out, inn, acts)
    ensures var (x', out', inn') := RunActs(x, out, inn, acts); Reachable(Sided(side, x', y, out', inn'))
    decreases |acts|
  {
    if acts != [] {
      var (x', out', inn') := NodeNext(x, out, inn, acts[0]);
      StepReachable(Sided(side, x, y, out, inn), Step(side, acts[0]));
      assert Next(Sided(side, x, y, out, inn), Step(side, acts[0])) == Sided(side, x', y, out', inn');
      ActsReachable(side, x', y, out', inn', acts[1..]);
    }
  }

  // ---------- the messager's part of a close ----------

  /** What the messager may do while `close` processes the send queue. */
  predicate DuringClose(act: Action) {
    || act.BuildHead? || act.MoveHead? || act.SendHead? || act.Retransmit? || act.Acked?
    || act.Receive? || act.Acknowledge? || act.SendAck?
  }

  /** The calls into the session that an action makes. */
  function CallsOf(x: Node, act: Action): seq<Op> {
    match act
    case BuildHead(max) => [OpHead(max)]
    case MoveHead(clock) => [OpMove(NextOffset(x), clock)]
    case Retransmit(k, clock) => [OpResort(k, clock, Some(k))]
    case Acked(r) => [OpRemoveSent(r.start, r.end)]
    case Receive(b) => [OpPut(b)]
    case Acknowledge(r) => [OpAckRange(r.start, r.end)]
    case _ => []
  }

  ghost function AllCalls(x: Node, out: Wire, inn: Wire, acts: seq<Action>): seq<Op>
    requires CanRun(x, out, inn, acts)
    decreases |acts|
  {
    if acts == [] then []
    else
      var (x', out', inn') := NodeNext(x, out, inn, acts[0]);
      CallsOf(x, acts[0]) + AllCalls(x', out', inn', acts[1..])
  }

  /** What such actions leave alone. */
  ghost predicate SameStreams(x: Node, x': Node) {
    && x'.accepted == x.accepted && x'.completed == x.completed && x'.reports == x.reports
    && x'.reading == x.reading && x'.ended == x.ended
    && x'.s.eof == x.s.eof && x'.s.closing == x.s.closing && x'.s.rx.readOffset == x.s.rx.readOffset
  }

  lemma ActionCalls(x: Node, out: Wire, inn: Wire, act: Action)
    requires NodeEnabled(x, out, inn, act) && DuringClose(act)
    ensures var x', ops := NodeNext(x, out, inn, act).0, CallsOf(x, act);
            && SameStreams(x, x') && |ops| <= 1 && (ops == [] ==> x'.s == x.s)
            && (ops != [] ==> IsCallback(ops[0]) && Enabled(x.s, ops[0]) && Apply(x.s, ops[0]) == x'.s)
  {
  }

  lemma {:induction false} CallsRun(x: Node, out: Wire, inn: Wire, acts: seq<Action>)
    requires CanRun(x, out, inn, acts) && forall a :: a in acts ==> DuringClose(a)
    ensures var x', ops := RunActs(x, out, inn, acts).0, AllCalls(x, out, inn, acts);
            && (forall op :: op in ops ==> IsCallback(op)) && Runnable(x.s, ops) && Run(x.s, ops) == x'.s
            && SameStreams(x, x')
    decreases |acts|
  {
    if acts != [] {
      var (x', out', inn') := NodeNext(x, out, inn, acts[0]);
      var first, rest := CallsOf(x, acts[0]), AllCalls(x', out', inn', acts[1..]);
      assert acts[0] in acts && forall a :: a in acts[1..] ==> a in acts;
      ActionCalls(x, out, inn, acts[0]);
      CallsRun(x', out', inn', acts[1..]);
      if first == [] {
        assert first + rest == rest;
      } else {
        assert (first + rest)[0] == first[0] && (first + rest)[1..] == rest;
      }
    }
  }

  // ---------- one side: session, history and operations ----------

  /** buffers: the callers' buffers of the reads; got: what finished reads hold, put: what
      writes that finished with success were given, both in the order of completion;
      sawEof: a read has finished with EOF. */
  datatype Host = Host(x: Node, tasks: map<nat, S.Task>, buffers: map<nat, seq<byte>>,
                       got: seq<seq<byte>>, put: seq<seq<byte>>, sawEof: bool)

  datatype HostStep =
    | Submit(id: nat, kind: Kind, buffer: seq<byte>, onStrand: bool, during: seq<Action>, bothFinal: bool)
    | Resume(woken: nat, again: seq<Action>, final: bool)
    | Deliver(posted: nat)
    | Messager(act: Action)

  /** Everything but what the operations do. */
  predicate IsMessager(act: Action) {
    !act.Write? && !act.OpenRead? && !act.Read? && !act.Requeue? && !act.Close?
  }

  /** The actions on the session that one call of a task makes, up to its parking. */
  function TaskActs(s: Sess, k: Kind, during: seq<Action>, bothFinal: bool): seq<Action> {
    match k
    case ReadOp(_) => [Action.Read]
    case WriteOp(data) => [Action.Write(data)]
    case CloseOp =>
      if !s.running then [Action.Close]
      else if s.closing then []
      else [Action.Close] + (during + (if bothFinal then [Finish] else []))
  }

  function Closed(x: Node): Node { x.(s := BeginClose(x.s)) }

  ghost function ScriptOf(x: Node, out: Wire, inn: Wire, k: Kind, during: seq<Action>, bothFinal: bool): Script {
    if k.CloseOp? && CanRun(Closed(x), out, inn, during) then Script(AllCalls(Closed(x), out, inn, during), bothFinal)
    else Script([], bothFinal)
  }

  /** What a close demands of the messager. */
  ghost predicate CloseReady(x: Node, out: Wire, inn: Wire, k: Kind, during: seq<Action>) {
    && (forall a :: a in during ==> DuringClose(a))
    && (k.CloseOp? && x.s.running && !x.s.closing ==> CanRun(Closed(x), out, inn, during))
  }

  ghost predicate CanCall(h: Host, out: Wire, inn: Wire, id: nat, during: seq<Action>, bothFinal: bool) {
    && id in h.tasks && !h.tasks[id].op.finished && !h.x.ended
    && (h.tasks[id].kind.ReadOp? ==> id in h.buffers && |h.buffers[id]| == h.tasks[id].kind.len)
    && CloseReady(h.x, out, inn, h.tasks[id].kind, during)
    && CanPerform(h.x.s, h.tasks[id].kind, ScriptOf(h.x, out, inn, h.tasks[id].kind, during, bothFinal))
    && CanRun(h.x, out, inn, TaskActs(h.x.s, h.tasks[id].kind, during, bothFinal))
  }

  /** io_op::operator() runs on the strand for task id. */
  ghost function AfterCall(h: Host, out: Wire, inn: Wire, id: nat, start: bool, during: seq<Action>, bothFinal: bool)
    : (Host, Wire, Wire)
    requires CanCall(h, out, inn, id, during, bothFinal)
  {
    var t := h.tasks[id];
    var (s', t') := S.CallTask(h.x.s, t, id, true, start, ScriptOf(h.x, out, inn, t.kind, during, bothFinal));
    var (x', out', inn') := RunActs(h.x, out, inn, TaskActs(h.x.s, t.kind, during, bothFinal));
    var h' := h.(x := x'.(s := s'), tasks := h.tasks[id := t']);
    if t.kind.ReadOp? then
      var buffer := ReadInto(h.x.s, h.buffers[id]);
      var h'' := h'.(buffers := h.buffers[id := buffer]);
      if t'.op.finished then
        (h''.(got := h.got + [buffer[..t'.op.bytes]], sawEof := h.sawEof || t'.op.ec == Eof), out', inn')
      else (h'', out', inn')
    else if t.kind.WriteOp? && t'.op.finished && t'.op.ec == Success then
      (h'.(put := h.put + [t.kind.data]), out', inn')
    else (h', out', inn')
  }

  /** A task that leaves the strand. */
  function Woken(h: Host, id: nat): Host {
    h.(x := h.x.(s := h.x.s.(waits := h.x.s.waits.(woken := h.x.s.waits.woken - {id}))))
  }

  /** A new task, before it is called. */
  function Entered(h: Host, id: nat, kind: Kind, buffer: seq<byte>, onStrand: bool): Host {
    var t := S.Task(kind, OpState(false, Success, 0), S.OnStrand, onStrand, 0, 0);
    var h' := h.(tasks := h.tasks[id := t]);
    if kind.ReadOp? then h'.(buffers := h.buffers[id := buffer], x := h.x.(reading := Some(buffer))) else h'
  }

  /** What the operations demand: a new operation has a new identity, one read is
      outstanding at a time, and only tasks on the strand run. */
  ghost predicate Ready(h: Host, out: Wire, inn: Wire, st: HostStep) {
    match st
    case Submit(id, kind, buffer, onStrand, during, bothFinal) =>
      && !h.x.ended && id !in h.tasks
      && (kind.ReadOp? ==> |buffer| == kind.len && forall i :: i in h.tasks ==> !S.PendingRead(h.tasks[i]))
      && (onStrand ==> CloseReady(h.x, out, inn, kind, during))
    case Resume(id, during, bothFinal) =>
      && !h.x.ended && id in h.tasks
      && (h.tasks[id].phase.OnStrand? || (h.tasks[id].phase.Waiting? && id in h.x.s.waits.woken))
      && CloseReady(Woken(h, id).x, out, inn, h.tasks[id].kind, during)
    case Deliver(id) => id in h.tasks && h.tasks[id].phase.OnService?
    case Messager(act) => IsMessager(act) && NodeEnabled(h.x, out, inn, act)
  }

  /** In addition, the session can perform it; HostReady shows that it always can. */
  ghost predicate HostEnabled(h: Host, out: Wire, inn: Wire, st: HostStep) {
    && Ready(h, out, inn, st)
    && match st
       case Submit(id, kind, buffer, onStrand, during, bothFinal) =>
         onStrand ==> CanCall(Entered(h, id, kind, buffer, true), out, inn, id, during, bothFinal)
       case Resume(id, during, bothFinal) => CanCall(Woken(h, id), out, inn, id, during, bothFinal)
       case _ => true
  }

  ghost function HostNext(h: Host, out: Wire, inn: Wire, st: HostStep): (Host, Wire, Wire)
    requires HostEnabled(h, out, inn, st)
  {
    match st
    case Submit(id, kind, buffer, onStrand, during, bothFinal) =>
      var h' := Entered(h, id, kind, buffer, onStrand);
      if onStrand then AfterCall(h', out, inn, id, true, during, bothFinal) else (h', out, inn)
    case Resume(id, during, bothFinal) => AfterCall(Woken(h, id), out, inn, id, false, during, bothFinal)
    case Deliver(id) =>
      (h.(tasks := h.tasks[id := S.CallTask(h.x.s, h.tasks[id], id, false, false, Script([], false)).1]), out, inn)
    case Messager(act) =>
      var (x', out', inn') := NodeNext(h.x, out, inn, act);
      (h.(x := x'), out', inn')
  }
}
