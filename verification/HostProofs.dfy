/** In every run of both sides' operations and the network, what finished reads hold is
    what finished writes were given. */
module HostProofs {
  import opened Blocks
  import opened SessionSpec
  import opened IoSpec
  import opened Network
  import opened Hosts
  import S = Scheduling

  // ---------- a host's own invariant ----------

  ghost predicate TasksOk(tasks: map<nat, S.Task>, buffers: map<nat, seq<byte>>) {
    forall id :: id in tasks ==>
      S.TaskOk(tasks[id]) && (tasks[id].kind.ReadOp? ==> id in buffers && |buffers[id]| == tasks[id].kind.len)
  }

  /** The session's outstanding read is the one unfinished read task. */
  ghost predicate ReadsOk(reading: Option<seq<byte>>, tasks: map<nat, S.Task>, buffers: map<nat, seq<byte>>) {
    && S.OneRead(tasks)
    && (forall id :: id in tasks && S.PendingRead(tasks[id]) ==> id in buffers && reading == Some(buffers[id]))
    && (reading.Some? ==> exists id :: id in tasks && S.PendingRead(tasks[id]))
  }

  /** Until a local close only a read sets pending_eof_, and it finishes. */
  ghost predicate EofOk(x: Node, sawEof: bool) {
    !x.ended && !x.s.closing ==> (x.s.eof ==> x.s.rx.readOffset == 0) && (sawEof ==> x.s.eof)
  }

  ghost predicate HostOk(h: Host) {
    && TasksOk(h.tasks, h.buffers) && ReadsOk(h.x.reading, h.tasks, h.buffers) && EofOk(h.x, h.sawEof)
    && h.got == h.x.completed && Joined(h.put) == h.x.accepted && (h.sawEof <==> Eof in h.x.reports)
  }

  lemma MessagerKeeps(x: Node, out: Wire, inn: Wire, act: Action)
    requires NodeEnabled(x, out, inn, act) && IsMessager(act)
    ensures var x' := NodeNext(x, out, inn, act).0; x'.ended || SameStreams(x, x')
    ensures var x' := NodeNext(x, out, inn, act).0;
            x'.accepted == x.accepted && x'.completed == x.completed
            && x'.reports == x.reports && x'.reading == x.reading
  {
  }

  lemma EnteredOk(h: Host, id: nat, kind: Kind, buffer: seq<byte>, onStrand: bool)
    requires HostOk(h) && id !in h.tasks
    requires kind.ReadOp? ==> |buffer| == kind.len && forall i :: i in h.tasks ==> !S.PendingRead(h.tasks[i])
    ensures HostOk(Entered(h, id, kind, buffer, onStrand)) && (kind.ReadOp? ==> h.x.reading.None?)
  {
    var h' := Entered(h, id, kind, buffer, onStrand);
    if kind.ReadOp? {
      assert S.PendingRead(h'.tasks[id]);
    } else if h.x.reading.Some? {
      var i :| i in h.tasks && S.PendingRead(h.tasks[i]);
      assert i in h'.tasks && S.PendingRead(h'.tasks[i]);
    }
  }

  // ---------- one call of operator() ----------

  lemma CalledTaskOk(s: Sess, t: S.Task, id: nat, start: bool, script: Script)
    requires S.TaskOk(t) && !t.op.finished && CanPerform(s, t.kind, script) && (start ==> t.direct && t.runs == 0)
    ensures var (s', t') := S.CallTask(s, t, id, true, start, script);
            var (s1, o) := Perform(s, t.kind, script);
            && S.TaskOk(t') && t'.kind == t.kind
            && (o.Retry? ==> !t'.op.finished && s' == Wait(s1, WantOf(t.kind), id))
            && (o.Finished? ==> s' == s1 && t'.op == OpState(true, o.ec, o.bytes))
  {
  }

  /** The session that the actions of the call leave is the one that the operation
      leaves. */
  lemma TaskActsAgree(h: Host, out: Wire, inn: Wire, id: nat, during: seq<Action>, bothFinal: bool)
    requires HostOk(h) && CanCall(h, out, inn, id, during, bothFinal)
    ensures var k := h.tasks[id].kind;
            var x' := RunActs(h.x, out, inn, TaskActs(h.x.s, k, during, bothFinal)).0;
            var (s1, o) := Perform(h.x.s, k, ScriptOf(h.x, out, inn, k, during, bothFinal));
            x'.s == s1 && (o.Retry? ==> !x'.ended)
  {
    match h.tasks[id].kind {
      case ReadOp(_) =>
        assert S.PendingRead(h.tasks[id]);
        RunOne(h.x, out, inn, Action.Read);
      case WriteOp(data) => RunOne(h.x, out, inn, Action.Write(data));
      case CloseOp => CloseAgrees(h.x, out, inn, during, bothFinal);
    }
  }

  lemma CloseAgrees(x: Node, out: Wire, inn: Wire, during: seq<Action>, bothFinal: bool)
    requires !x.ended && CloseReady(x, out, inn, CloseOp, during)
    requires CanPerform(x.s, CloseOp, ScriptOf(x, out, inn, CloseOp, during, bothFinal))
    requires CanRun(x, out, inn, TaskActs(x.s, CloseOp, during, bothFinal))
    ensures var x' := RunActs(x, out, inn, TaskActs(x.s, CloseOp, during, bothFinal)).0;
            var (s1, o) := Perform(x.s, CloseOp, ScriptOf(x, out, inn, CloseOp, during, bothFinal));
            && x'.s == s1 && (o.Retry? ==> !x'.ended)
            && x'.accepted == x.accepted && x'.completed == x.completed
            && x'.reports == x.reports && x'.reading == x.reading
            && (|| x'.ended || x'.s.closing
                || (x'.s.eof == x.s.eof && x'.s.rx.readOffset == x.s.rx.readOffset && !x.s.closing))
  {
    if !x.s.running {
      RunOne(x, out, inn, Action.Close);
    } else if !x.s.closing {
      var last := if bothFinal then [Finish] else [];
      RunSplit(x, out, inn, [Action.Close], during + last);
      RunOne(x, out, inn, Action.Close);
      RunSplit(Closed(x), out, inn, during, last);
      CloseRuns(x, out, inn, during, bothFinal);
      CallsRun(Closed(x), out, inn, during);
    }
  }

  /** The actions of a close, taken apart. */
  lemma CloseRuns(x: Node, out: Wire, inn: Wire, during: seq<Action>, bothFinal: bool)
    requires !x.ended && CanRun(Closed(x), out, inn, during) && |x.s.tx.ring| <= x.s.tx.capacity
    requires var (x1, out1, inn1) := RunActs(Closed(x), out, inn, during);
             bothFinal ==> NodeEnabled(x1, out1, inn1, Finish)
    ensures var (x1, out1, inn1) := RunActs(Closed(x), out, inn, during);
            var acts := [Action.Close] + (during + (if bothFinal then [Finish] else []));
            && CanRun(x, out, inn, acts)
            && RunActs(x, out, inn, acts) == if bothFinal then NodeNext(x1, out1, inn1, Finish) else (x1, out1, inn1)
  {
    var (x1, out1, inn1) := RunActs(Closed(x), out, inn, during);
    var last := if bothFinal then [Finish] else [];
    RunOne(x, out, inn, Action.Close);
    if bothFinal {
      RunOne(x1, out1, inn1, Finish);
    }
    RunConcat(Closed(x), out, inn, during, last);
    RunConcat(x, out, inn, [Action.Close], during + last);
  }

  // ---------- a call keeps the invariant ----------

  lemma WriteCallKeeps(h: Host, out: Wire, inn: Wire, id: nat, start: bool, during: seq<Action>, bothFinal: bool)
    requires HostOk(h) && CanCall(h, out, inn, id, during, bothFinal) && h.tasks[id].kind.WriteOp?
    requires start ==> h.tasks[id].direct && h.tasks[id].runs == 0
    ensures HostOk(AfterCall(h, out, inn, id, start, during, bothFinal).0)
  {
    var t, script := h.tasks[id], ScriptOf(h.x, out, inn, h.tasks[id].kind, during, bothFinal);
    CalledTaskOk(h.x.s, t, id, start, script);
    OtherReadsOk(h, id, S.CallTask(h.x.s, t, id, true, start, script).1);
    RunOne(h.x, out, inn, Action.Write(t.kind.data));
    WriteEffects(h.x, t.kind.data);
    JoinedAppend(h.put, t.kind.data);
  }

  lemma WriteEffects(x: Node, data: seq<byte>)
    requires |x.s.tx.ring| <= x.s.tx.capacity
    ensures var x', o := WriteOnce(x, data), SessionSpec.Write(x.s, data).1;
            && x'.accepted == (if o.Finished? && o.ec == Success then x.accepted + data else x.accepted)
            && x' == x.(s := x'.s, accepted := x'.accepted) && x'.s == x.s.(tx := x'.s.tx)
  {
  }

  lemma CloseCallKeeps(h: Host, out: Wire, inn: Wire, id: nat, start: bool, during: seq<Action>, bothFinal: bool)
    requires HostOk(h) && CanCall(h, out, inn, id, during, bothFinal) && h.tasks[id].kind.CloseOp?
    requires start ==> h.tasks[id].direct && h.tasks[id].runs == 0
    ensures HostOk(AfterCall(h, out, inn, id, start, during, bothFinal).0)
  {
    var t := h.tasks[id];
    var script := ScriptOf(h.x, out, inn, t.kind, during, bothFinal);
    CalledTaskOk(h.x.s, t, id, start, script);
    var (s', t') := S.CallTask(h.x.s, t, id, true, start, script);
    OtherReadsOk(h, id, t');
    CloseAgrees(h.x, out, inn, during, bothFinal);
  }

  lemma OtherReadsOk(h: Host, id: nat, t': S.Task)
    requires HostOk(h) && id in h.tasks && !h.tasks[id].kind.ReadOp? && t'.kind == h.tasks[id].kind && S.TaskOk(t')
    ensures TasksOk(h.tasks[id := t'], h.buffers) && ReadsOk(h.x.reading, h.tasks[id := t'], h.buffers)
  {
    var tasks' := h.tasks[id := t'];
    if h.x.reading.Some? {
      var i :| i in h.tasks && S.PendingRead(h.tasks[i]);
      assert i in tasks' && S.PendingRead(tasks'[i]);
    }
  }

  /** The host after the call of a read. */
  ghost function ReadCalled(h: Host, id: nat, s': Sess, t': S.Task, buffer: seq<byte>): Host
    requires h.x.reading.Some? && (h.x.reading.value == [] || h.x.s.rx.readOffset <= |h.x.reading.value|)
  {
    h.(x := ReadOnce(h.x).(s := s'), tasks := h.tasks[id := t'], buffers := h.buffers[id := buffer],
       got := if t'.op.finished && t'.op.bytes <= |buffer| then h.got + [buffer[..t'.op.bytes]] else h.got,
       sawEof := h.sawEof || (t'.op.finished && t'.op.ec == Eof))
  }

  lemma ReadCallIs(h: Host, out: Wire, inn: Wire, id: nat, start: bool, during: seq<Action>, bothFinal: bool)
    requires HostOk(h) && CanCall(h, out, inn, id, during, bothFinal) && h.tasks[id].kind.ReadOp?
    requires start ==> h.tasks[id].direct && h.tasks[id].runs == 0
    ensures S.PendingRead(h.tasks[id]) && h.x.reading == Some(h.buffers[id])
    ensures var script := ScriptOf(h.x, out, inn, h.tasks[id].kind, during, bothFinal);
            var (s', t') := S.CallTask(h.x.s, h.tasks[id], id, true, start, script);
            AfterCall(h, out, inn, id, start, during, bothFinal).0
            == ReadCalled(h, id, s', t', ReadInto(h.x.s, h.buffers[id]))
  {
    assert S.PendingRead(h.tasks[id]);
    RunOne(h.x, out, inn, Action.Read);
  }

  /** The call of a read. */
  lemma ReadCallKeeps(h: Host, out: Wire, inn: Wire, id: nat, start: bool, during: seq<Action>, bothFinal: bool)
    requires HostOk(h) && CanCall(h, out, inn, id, during, bothFinal) && h.tasks[id].kind.ReadOp?
    requires start ==> h.tasks[id].direct && h.tasks[id].runs == 0
    ensures HostOk(AfterCall(h, out, inn, id, start, during, bothFinal).0)
  {
    var script := ScriptOf(h.x, out, inn, h.tasks[id].kind, during, bothFinal);
    var (s', t') := S.CallTask(h.x.s, h.tasks[id], id, true, start, script);
    ReadCallIs(h, out, inn, id, start, during, bothFinal);
    CalledTaskOk(h.x.s, h.tasks[id], id, start, script);
    ReadCalledOk(h, id, s', t');
  }

  lemma ReadCalledOk(h: Host, id: nat, s': Sess, t': S.Task)
    requires HostOk(h) && id in h.tasks && S.PendingRead(h.tasks[id]) && id in h.buffers
    requires h.x.reading == Some(h.buffers[id]) && (h.buffers[id] == [] || h.x.s.rx.readOffset <= |h.buffers[id]|)
    requires S.TaskOk(t') && t'.kind == h.tasks[id].kind
    requires var r := SessionSpec.Read(h.x.s, |h.buffers[id]|);
             && s'.rx == r.s.rx && s'.eof == r.s.eof && s'.closing == r.s.closing
             && (r.outcome.Retry? ==> !t'.op.finished)
             && (r.outcome.Finished? ==> t'.op == OpState(true, r.outcome.ec, r.outcome.bytes))
    ensures HostOk(ReadCalled(h, id, s', t', ReadInto(h.x.s, h.buffers[id])))
  {
    ReadEffects(h.x, h.buffers[id]);
    ReadReadsOk(h, id, t', ReadInto(h.x.s, h.buffers[id]), ReadOnce(h.x).reading);
  }

  lemma ReadEffects(x: Node, buf: seq<byte>)
    requires x.reading == Some(buf) && (buf == [] || x.s.rx.readOffset <= |buf|)
    ensures var x', r := ReadOnce(x), SessionSpec.Read(x.s, |buf|);
            && x'.s == r.s && x'.accepted == x.accepted && x'.ended == x.ended && x'.s.closing == x.s.closing
            && |ReadInto(x.s, buf)| == |buf|
            && (r.outcome.Retry? ==> x'.reading == Some(ReadInto(x.s, buf)) && x'.completed == x.completed && !x'.s.eof)
            && (r.outcome.Retry? ==> x'.reports == x.reports)
            && (r.outcome.Finished? ==> x'.reports == x.reports + [r.outcome.ec])
            && (r.outcome.Finished? ==>
                  && x'.reading == None && x'.completed == x.completed + [ReadInto(x.s, buf)[..r.outcome.bytes]]
                  && x'.s.rx.readOffset == 0 && (r.outcome.ec == Eof ==> x'.s.eof) && (x.s.eof ==> x'.s.eof))
  {
  }

  lemma ReadReadsOk(h: Host, id: nat, t': S.Task, buffer: seq<byte>, reading: Option<seq<byte>>)
    requires HostOk(h) && id in h.tasks && S.PendingRead(h.tasks[id])
    requires t'.kind == h.tasks[id].kind && S.TaskOk(t') && |buffer| == t'.kind.len
    requires reading == if t'.op.finished then None else Some(buffer)
    ensures TasksOk(h.tasks[id := t'], h.buffers[id := buffer])
    ensures ReadsOk(reading, h.tasks[id := t'], h.buffers[id := buffer])
  {
    var tasks' := h.tasks[id := t'];
    if reading.Some? {
      assert id in tasks' && S.PendingRead(tasks'[id]);
    }
  }

  lemma StepKeepsHost(h: Host, out: Wire, inn: Wire, st: HostStep)
    requires HostOk(h) && HostEnabled(h, out, inn, st)
    ensures HostOk(HostNext(h, out, inn, st).0)
  {
    match st {
      case Submit(id, kind, buffer, onStrand, during, bothFinal) =>
        EnteredOk(h, id, kind, buffer, onStrand);
        if onStrand {
          CallKeeps(Entered(h, id, kind, buffer, true), out, inn, id, true, during, bothFinal);
        }
      case Resume(id, during, bothFinal) => CallKeeps(Woken(h, id), out, inn, id, false, during, bothFinal);
      case Deliver(id) => DeliverKeeps(h, id);
      case Messager(act) => MessagerKeeps(h.x, out, inn, act);
    }
  }

  lemma CallKeeps(h: Host, out: Wire, inn: Wire, id: nat, start: bool, during: seq<Action>, bothFinal: bool)
    requires HostOk(h) && CanCall(h, out, inn, id, during, bothFinal)
    requires start ==> h.tasks[id].direct && h.tasks[id].runs == 0
    ensures HostOk(AfterCall(h, out, inn, id, start, during, bothFinal).0)
  {
    match h.tasks[id].kind {
      case ReadOp(_) => ReadCallKeeps(h, out, inn, id, start, during, bothFinal);
      case WriteOp(_) => WriteCallKeeps(h, out, inn, id, start, during, bothFinal);
      case CloseOp => CloseCallKeeps(h, out, inn, id, start, during, bothFinal);
    }
  }

  lemma DeliverKeeps(h: Host, id: nat)
    requires HostOk(h) && id in h.tasks && h.tasks[id].phase.OnService?
    ensures var t' := S.CallTask(h.x.s, h.tasks[id], id, false, false, Script([], false)).1;
            HostOk(h.(tasks := h.tasks[id := t']))
  {
    var t' := S.CallTask(h.x.s, h.tasks[id], id, false, false, Script([], false)).1;
    assert S.TaskOk(h.tasks[id]);
    if h.x.reading.Some? {
      var i :| i in h.tasks && S.PendingRead(h.tasks[i]);
      assert i in h.tasks[id := t'] && S.PendingRead(h.tasks[id := t'][i]);
    }
  }
}
