/** Runs of two hosts and the network, as runs of the two sessions. */
module HostRuns {
  import opened Blocks
  import opened SessionSpec
  import opened IoSpec
  import opened Network
  import opened Invariants
  import opened EndToEnd
  import opened Hosts
  import opened HostProofs
  import opened ReportFacts
  import S = Scheduling

  // ---------- every step is a run of session actions ----------

  lemma RequeueReachable(side: Side, x: Node, y: Node, out: Wire, inn: Wire, waits: Waits)
    requires Reachable(Sided(side, x, y, out, inn)) && !x.ended
    ensures Reachable(Sided(side, x.(s := x.s.(waits := waits)), y, out, inn))
  {
    ReachableInv(Sided(side, x, y, out, inn));
    ActionReachable(side, x, y, out, inn, Requeue(waits));
  }

  /** What one call does to the session and to a node that has not ended. */
  lemma CallSession(h: Host, out: Wire, inn: Wire, id: nat, start: bool, during: seq<Action>, bothFinal: bool)
    requires HostOk(h) && CanCall(h, out, inn, id, during, bothFinal)
    requires start ==> h.tasks[id].direct && h.tasks[id].runs == 0
    ensures var (x', out', inn') := RunActs(h.x, out, inn, TaskActs(h.x.s, h.tasks[id].kind, during, bothFinal));
            var (h'', out'', inn'') := AfterCall(h, out, inn, id, start, during, bothFinal);
            && out'' == out' && inn'' == inn'
            && (h''.x == x' || (!x'.ended && h''.x == x'.(s := x'.s.(waits := h''.x.s.waits))))
  {
    var t := h.tasks[id];
    TaskActsAgree(h, out, inn, id, during, bothFinal);
    CallNode(h, out, inn, id, start, during, bothFinal);
    CalledTaskOk(h.x.s, t, id, start, ScriptOf(h.x, out, inn, t.kind, during, bothFinal));
  }

  lemma CallNode(h: Host, out: Wire, inn: Wire, id: nat, start: bool, during: seq<Action>, bothFinal: bool)
    requires CanCall(h, out, inn, id, during, bothFinal)
    ensures var t := h.tasks[id];
            var s' := S.CallTask(h.x.s, t, id, true, start, ScriptOf(h.x, out, inn, t.kind, during, bothFinal)).0;
            var (x', out', inn') := RunActs(h.x, out, inn, TaskActs(h.x.s, t.kind, during, bothFinal));
            var (h'', out'', inn'') := AfterCall(h, out, inn, id, start, during, bothFinal);
            h''.x == x'.(s := s') && out'' == out' && inn'' == inn'
  {
  }

  lemma CallReachable(side: Side, h: Host, y: Node, out: Wire, inn: Wire,
                      id: nat, start: bool, during: seq<Action>, bothFinal: bool)
    requires HostOk(h) && Reachable(Sided(side, h.x, y, out, inn))
    requires CanCall(h, out, inn, id, during, bothFinal) && (start ==> h.tasks[id].direct && h.tasks[id].runs == 0)
    ensures var (h', out', inn') := AfterCall(h, out, inn, id, start, during, bothFinal);
            Reachable(Sided(side, h'.x, y, out', inn'))
  {
    var acts := TaskActs(h.x.s, h.tasks[id].kind, during, bothFinal);
    var (x', out', inn') := RunActs(h.x, out, inn, acts);
    var h' := AfterCall(h, out, inn, id, start, during, bothFinal).0;
    ActsReachable(side, h.x, y, out, inn, acts);
    CallSession(h, out, inn, id, start, during, bothFinal);
    if h'.x != x' {
      RequeueReachable(side, x', y, out', inn', h'.x.s.waits);
    }
  }

  lemma EnteredReachable(side: Side, h: Host, y: Node, out: Wire, inn: Wire,
                         id: nat, kind: Kind, buffer: seq<byte>, onStrand: bool)
    requires HostOk(h) && Reachable(Sided(side, h.x, y, out, inn)) && !h.x.ended && id !in h.tasks
    requires kind.ReadOp? ==> |buffer| == kind.len && forall i :: i in h.tasks ==> !S.PendingRead(h.tasks[i])
    ensures Reachable(Sided(side, Entered(h, id, kind, buffer, onStrand).x, y, out, inn))
  {
    ReachableInv(Sided(side, h.x, y, out, inn));
    EnteredOk(h, id, kind, buffer, onStrand);
    if kind.ReadOp? {
      ActionReachable(side, h.x, y, out, inn, OpenRead(buffer));
    }
  }

  lemma StepReachableToo(side: Side, h: Host, y: Node, out: Wire, inn: Wire, st: HostStep)
    requires HostOk(h) && Reachable(Sided(side, h.x, y, out, inn)) && HostEnabled(h, out, inn, st)
    ensures var (h', out', inn') := HostNext(h, out, inn, st); Reachable(Sided(side, h'.x, y, out', inn'))
  {
    match st {
      case Submit(id, kind, buffer, onStrand, during, bothFinal) =>
        EnteredReachable(side, h, y, out, inn, id, kind, buffer, onStrand);
        if onStrand {
          EnteredOk(h, id, kind, buffer, true);
          CallReachable(side, Entered(h, id, kind, buffer, true), y, out, inn, id, true, during, bothFinal);
        }
      case Resume(id, during, bothFinal) => ResumeReachable(side, h, y, out, inn, id, during, bothFinal);
      case Deliver(id) =>
      case Messager(act) => ActionReachable(side, h.x, y, out, inn, act);
    }
  }

  lemma ResumeReachable(side: Side, h: Host, y: Node, out: Wire, inn: Wire,
                        id: nat, during: seq<Action>, bothFinal: bool)
    requires HostOk(h) && Reachable(Sided(side, h.x, y, out, inn))
    requires CanCall(Woken(h, id), out, inn, id, during, bothFinal)
    ensures var (h', out', inn') := AfterCall(Woken(h, id), out, inn, id, false, during, bothFinal);
            Reachable(Sided(side, h'.x, y, out', inn'))
  {
    RequeueReachable(side, h.x, y, out, inn, Woken(h, id).x.s.waits);
    CallReachable(side, Woken(h, id), y, out, inn, id, false, during, bothFinal);
  }

  lemma ActionReachable(side: Side, x: Node, y: Node, out: Wire, inn: Wire, act: Action)
    requires Reachable(Sided(side, x, y, out, inn)) && NodeEnabled(x, out, inn, act)
    ensures var (x', out', inn') := NodeNext(x, out, inn, act); Reachable(Sided(side, x', y, out', inn'))
  {
    RunOne(x, out, inn, act);
    ActsReachable(side, x, y, out, inn, [act]);
  }

  // ---------- the session can always perform what is asked ----------

  lemma ReachableFits(side: Side, x: Node, y: Node, out: Wire, inn: Wire)
    requires Reachable(Sided(side, x, y, out, inn)) && !x.ended
    ensures |x.s.tx.ring| <= x.s.tx.capacity
    ensures x.reading.Some? ==> x.s.rx.readOffset <= |x.reading.value|
  {
    ReachableInv(Sided(side, x, y, out, inn));
  }

  lemma CallPossible(side: Side, h: Host, y: Node, out: Wire, inn: Wire, id: nat, during: seq<Action>, bothFinal: bool)
    requires HostOk(h) && Reachable(Sided(side, h.x, y, out, inn)) && !h.x.ended
    requires id in h.tasks && !h.tasks[id].op.finished && CloseReady(h.x, out, inn, h.tasks[id].kind, during)
    ensures CanCall(h, out, inn, id, during, bothFinal)
  {
    ReachableFits(side, h.x, y, out, inn);
    assert S.TaskOk(h.tasks[id]);
    match h.tasks[id].kind {
      case ReadOp(_) =>
        assert S.PendingRead(h.tasks[id]);
        RunOne(h.x, out, inn, Action.Read);
      case WriteOp(data) => RunOne(h.x, out, inn, Action.Write(data));
      case CloseOp => ClosePossible(side, h.x, y, out, inn, during, bothFinal);
    }
  }

  lemma ClosePossible(side: Side, x: Node, y: Node, out: Wire, inn: Wire, during: seq<Action>, bothFinal: bool)
    requires Reachable(Sided(side, x, y, out, inn)) && !x.ended && CloseReady(x, out, inn, CloseOp, during)
    ensures CanPerform(x.s, CloseOp, ScriptOf(x, out, inn, CloseOp, during, bothFinal))
    ensures CanRun(x, out, inn, TaskActs(x.s, CloseOp, during, bothFinal))
  {
    ReachableInv(Sided(side, x, y, out, inn));
    CloseCanPerform(x, out, inn, during, bothFinal);
    if !x.s.running {
      RunOne(x, out, inn, Action.Close);
    } else if !x.s.closing {
      FinishPossible(side, x, y, out, inn, during);
      CloseRuns(x, out, inn, during, bothFinal);
    }
  }

  lemma CloseCanPerform(x: Node, out: Wire, inn: Wire, during: seq<Action>, bothFinal: bool)
    requires |x.s.tx.ring| <= x.s.tx.capacity && CloseReady(x, out, inn, CloseOp, during)
    ensures CanPerform(x.s, CloseOp, ScriptOf(x, out, inn, CloseOp, during, bothFinal))
  {
    if CanRun(Closed(x), out, inn, during) {
      CallsRun(Closed(x), out, inn, during);
    }
  }

  lemma FinishPossible(side: Side, x: Node, y: Node, out: Wire, inn: Wire, during: seq<Action>)
    requires Reachable(Sided(side, x, y, out, inn)) && !x.ended && |x.s.tx.ring| <= x.s.tx.capacity
    requires (forall a :: a in during ==> DuringClose(a)) && CanRun(Closed(x), out, inn, during)
    ensures var (x1, out1, inn1) := RunActs(Closed(x), out, inn, during); NodeEnabled(x1, out1, inn1, Finish)
  {
    var (x1, out1, inn1) := RunActs(Closed(x), out, inn, during);
    RunOne(x, out, inn, Action.Close);
    ActsReachable(side, x, y, out, inn, [Action.Close]);
    ActsReachable(side, Closed(x), y, out, inn, during);
    ReachableInv(Sided(side, x1, y, out1, inn1));
    CallsRun(Closed(x), out, inn, during);
  }

  /** In every reachable state the demands that io_op leaves to the session are met: in
      particular a retried read fits its buffer. */
  lemma ReadyIsEnabled(side: Side, h: Host, y: Node, out: Wire, inn: Wire, st: HostStep)
    requires HostOk(h) && Reachable(Sided(side, h.x, y, out, inn)) && Hosts.Ready(h, out, inn, st)
    ensures HostEnabled(h, out, inn, st)
  {
    match st {
      case Submit(id, kind, buffer, onStrand, during, bothFinal) =>
        if onStrand {
          EnteredOk(h, id, kind, buffer, true);
          EnteredReachable(side, h, y, out, inn, id, kind, buffer, true);
          CallPossible(side, Entered(h, id, kind, buffer, true), y, out, inn, id, during, bothFinal);
        }
      case Resume(id, during, bothFinal) =>
        assert S.TaskOk(h.tasks[id]);
        RequeueReachable(side, h.x, y, out, inn, Woken(h, id).x.s.waits);
        CallPossible(side, Woken(h, id), y, out, inn, id, during, bothFinal);
      case _ =>
    }
  }

  // ---------- runs of both sides ----------

  datatype Pair = Pair(a: Host, b: Host, ab: Wire, ba: Wire)

  datatype PairStep = PairStep(side: Side, st: HostStep)

  function Sessions(p: Pair): System { System(p.a.x, p.b.x, p.ab, p.ba) }

  ghost predicate PairEnabled(p: Pair, st: PairStep) {
    match st.side
    case A => HostEnabled(p.a, p.ab, p.ba, st.st)
    case B => HostEnabled(p.b, p.ba, p.ab, st.st)
  }

  ghost function PairNext(p: Pair, st: PairStep): Pair
    requires PairEnabled(p, st)
  {
    match st.side
    case A =>
      var (a', ab', ba') := HostNext(p.a, p.ab, p.ba, st.st);
      Pair(a', p.b, ab', ba')
    case B =>
      var (b', ba', ab') := HostNext(p.b, p.ba, p.ab, st.st);
      Pair(p.a, b', ab', ba')
  }

  ghost predicate PairRuns(p: Pair, steps: seq<PairStep>)
    decreases |steps|
  {
    steps == [] || (PairEnabled(p, steps[0]) && PairRuns(PairNext(p, steps[0]), steps[1..]))
  }

  ghost function PairAfter(p: Pair, steps: seq<PairStep>): Pair
    requires PairRuns(p, steps)
    decreases |steps|
  {
    if steps == [] then p else PairAfter(PairNext(p, steps[0]), steps[1..])
  }

  ghost predicate PairInv(p: Pair) {
    HostOk(p.a) && HostOk(p.b) && Reachable(Sessions(p))
  }

  lemma PairStepKeeps(p: Pair, st: PairStep)
    requires PairInv(p) && PairEnabled(p, st)
    ensures PairInv(PairNext(p, st))
  {
    match st.side {
      case A =>
        StepKeepsHost(p.a, p.ab, p.ba, st.st);
        StepReachableToo(A, p.a, p.b.x, p.ab, p.ba, st.st);
      case B =>
        StepKeepsHost(p.b, p.ba, p.ab, st.st);
        StepReachableToo(B, p.b, p.a.x, p.ba, p.ab, st.st);
    }
  }

  /** Every run of operations and network is a run of the two sessions. */
  lemma {:induction false} PairInvAlways(p: Pair, steps: seq<PairStep>)
    requires PairInv(p) && PairRuns(p, steps)
    ensures PairInv(PairAfter(p, steps))
    decreases |steps|
  {
    if steps != [] {
      PairStepKeeps(p, steps[0]);
      PairInvAlways(PairNext(p, steps[0]), steps[1..]);
    }
  }

  /** Two sessions on which no operation has been started. */
  ghost predicate PairInitial(p: Pair) {
    && Initial(Sessions(p))
    && p.a == Host(p.a.x, map[], map[], [], [], false) && p.b == Host(p.b.x, map[], map[], [], [], false)
  }

  lemma InitialPairInv(p: Pair)
    requires PairInitial(p)
    ensures PairInv(p)
  {
    assert Runs(Sessions(p), []) && After(Sessions(p), []) == Sessions(p);
  }

  /** In every run: the buffers of the finished reads of one side, in the order in which
      they finished, are end to end a prefix of the data of the other side's writes that
      finished with success, in that order. */
  lemma ReadsGetWrites(p: Pair, steps: seq<PairStep>)
    requires PairInitial(p) && PairRuns(p, steps)
    ensures var p' := PairAfter(p, steps);
            Joined(p'.b.got) <= Joined(p'.a.put) && Joined(p'.a.got) <= Joined(p'.b.put)
  {
    InitialPairInv(p);
    PairInvAlways(p, steps);
    DeliveredIsPrefix(Sessions(PairAfter(p, steps)));
  }

  /** And once a read has finished with EOF, on a side that did not close, its reads have
      everything that the other side's writes were or will be given. */
  lemma EofMeansAll(p: Pair, steps: seq<PairStep>, more: seq<PairStep>)
    requires PairInitial(p) && PairRuns(p, steps) && PairRuns(PairAfter(p, steps), more)
    requires var p' := PairAfter(p, steps); p'.b.sawEof && !p'.b.x.ended && !p'.b.x.s.closing
    ensures var p', p'' := PairAfter(p, steps), PairAfter(PairAfter(p, steps), more);
            Joined(p'.b.got) == Joined(p'.a.put) == Joined(p''.a.put)
  {
    var p' := PairAfter(p, steps);
    InitialPairInv(p);
    PairInvAlways(p, steps);
    ReachableInv(Sessions(p'));
    assert Joined(p'.b.got) + [] == Joined(p'.b.got);
    FrozenPair(p', more);
  }

  /** On a side that did not close, a read has finished with EOF if and only if the EOF
      block was met. */
  lemma SawEofExactly(p: Pair, steps: seq<PairStep>)
    requires PairInitial(p) && PairRuns(p, steps)
    requires var p' := PairAfter(p, steps); !p'.b.x.ended && !p'.b.x.s.closing
    ensures PairAfter(p, steps).b.sawEof <==> PairAfter(p, steps).b.x.eofSeen
  {
    InitialPairInv(p);
    PairInvAlways(p, steps);
    EofReportedExactly(Sessions(PairAfter(p, steps)));
  }

  /** A side that accepts no more stays so. */
  ghost predicate StaysFrozen(x: Node, x': Node) {
    SenderOf(x).Frozen() ==> SenderOf(x').Frozen() && x'.accepted == x.accepted
  }

  lemma {:induction false} ActsStayFrozen(x: Node, out: Wire, inn: Wire, acts: seq<Action>)
    requires CanRun(x, out, inn, acts)
    ensures StaysFrozen(x, RunActs(x, out, inn, acts).0)
    decreases |acts|
  {
    if acts != [] {
      var (x', out', inn') := NodeNext(x, out, inn, acts[0]);
      ActionGrows(x, out, inn, acts[0]);
      ActsStayFrozen(x', out', inn', acts[1..]);
    }
  }

  lemma CallStaysFrozen(h: Host, out: Wire, inn: Wire, id: nat, start: bool, during: seq<Action>, bothFinal: bool)
    requires HostOk(h) && CanCall(h, out, inn, id, during, bothFinal)
    requires start ==> h.tasks[id].direct && h.tasks[id].runs == 0
    ensures StaysFrozen(h.x, AfterCall(h, out, inn, id, start, during, bothFinal).0.x)
  {
    ActsStayFrozen(h.x, out, inn, TaskActs(h.x.s, h.tasks[id].kind, during, bothFinal));
    CallSession(h, out, inn, id, start, during, bothFinal);
  }

  lemma StepStaysFrozen(h: Host, out: Wire, inn: Wire, st: HostStep)
    requires HostOk(h) && HostEnabled(h, out, inn, st)
    ensures StaysFrozen(h.x, HostNext(h, out, inn, st).0.x)
  {
    match st {
      case Submit(id, kind, buffer, onStrand, during, bothFinal) =>
        EnteredOk(h, id, kind, buffer, onStrand);
        if onStrand {
          CallStaysFrozen(Entered(h, id, kind, buffer, true), out, inn, id, true, during, bothFinal);
        }
      case Resume(id, during, bothFinal) => CallStaysFrozen(Woken(h, id), out, inn, id, false, during, bothFinal);
      case Deliver(id) =>
      case Messager(act) => ActionGrows(h.x, out, inn, act);
    }
  }

  lemma {:induction false} FrozenPair(p: Pair, steps: seq<PairStep>)
    requires PairInv(p) && PairRuns(p, steps) && SenderOf(p.a.x).Frozen()
    ensures PairAfter(p, steps).a.x.accepted == p.a.x.accepted && PairInv(PairAfter(p, steps))
    decreases |steps|
  {
    if steps != [] {
      PairStepKeeps(p, steps[0]);
      if steps[0].side.A? {
        StepStaysFrozen(p.a, p.ab, p.ba, steps[0].st);
      }
      FrozenPair(PairNext(p, steps[0]), steps[1..]);
    }
  }
}
