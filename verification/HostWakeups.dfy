/** The operations of both sides, seen as operations on one session each: what is known
    about parked operations holds while the network runs. */
module HostWakeups {
  import opened Blocks
  import opened SessionSpec
  import opened SweepFacts
  import opened SenderFacts
  import opened IoSpec
  import opened Network
  import opened Invariants
  import opened EndToEnd
  import opened Hosts
  import opened HostRuns
  import S = Scheduling

  function IoOf(h: Host): S.IoSystem { S.IoSystem(h.x.s, h.tasks) }

  /** A step of the operations on one session leads from the one to the other, or nothing
      happened there. */
  ghost predicate IsIoStep(io: S.IoSystem, io': S.IoSystem) {
    io' == io || exists st :: S.StepEnabled(io, st) && S.Next(io, st) == io'
  }

  lemma CallIsIo(h: Host, out: Wire, inn: Wire, id: nat, start: bool, during: seq<Action>, bothFinal: bool)
    requires CanCall(h, out, inn, id, during, bothFinal)
    ensures var t := h.tasks[id];
            var (s', t') := S.CallTask(h.x.s, t, id, true, start, ScriptOf(h.x, out, inn, t.kind, during, bothFinal));
            IoOf(AfterCall(h, out, inn, id, start, during, bothFinal).0) == S.IoSystem(s', h.tasks[id := t'])
  {
  }

  lemma DirectSubmitIsIo(h: Host, out: Wire, inn: Wire, st: HostStep)
    requires HostEnabled(h, out, inn, st) && st.Submit? && st.onStrand
    ensures IsIoStep(IoOf(h), IoOf(HostNext(h, out, inn, st).0))
  {
    var io, h' := IoOf(h), Entered(h, st.id, st.kind, st.buffer, true);
    var script := ScriptOf(h'.x, out, inn, st.kind, st.during, st.bothFinal);
    CallIsIo(h', out, inn, st.id, true, st.during, st.bothFinal);
    SubmitNext(io, h'.tasks[st.id], st.id, st.kind, script);
    assert S.StepEnabled(io, S.Submit(st.id, st.kind, true, script));
  }

  /** A submission on the strand, for a task that is entered and then called. */
  lemma SubmitNext(io: S.IoSystem, t: S.Task, id: nat, kind: Kind, script: Script)
    requires S.StepEnabled(io, S.Submit(id, kind, true, script))
    requires t == S.Task(kind, OpState(false, Success, 0), S.OnStrand, true, 0, 0)
    ensures var (s', t') := S.CallTask(io.s, t, id, true, true, script);
            S.Next(io, S.Submit(id, kind, true, script)) == S.IoSystem(s', io.tasks[id := t][id := t'])
  {
    var (s', t') := S.CallTask(io.s, t, id, true, true, script);
    assert io.tasks[id := t][id := t'] == io.tasks[id := t'];
  }

  lemma DispatchedSubmitIsIo(h: Host, out: Wire, inn: Wire, st: HostStep)
    requires HostEnabled(h, out, inn, st) && st.Submit? && !st.onStrand
    ensures IsIoStep(IoOf(h), IoOf(HostNext(h, out, inn, st).0))
  {
    var io, step := IoOf(h), S.Submit(st.id, st.kind, false, Script([], false));
    assert S.StepEnabled(io, step);
    assert S.Next(io, step) == IoOf(Entered(h, st.id, st.kind, st.buffer, false));
  }

  lemma ResumeIsIo(h: Host, out: Wire, inn: Wire, st: HostStep)
    requires HostEnabled(h, out, inn, st) && st.Resume?
    ensures IsIoStep(IoOf(h), IoOf(HostNext(h, out, inn, st).0))
  {
    var io, h' := IoOf(h), Woken(h, st.woken);
    var script := ScriptOf(h'.x, out, inn, h.tasks[st.woken].kind, st.again, st.final);
    CallIsIo(h', out, inn, st.woken, false, st.again, st.final);
    var step := S.Resume(st.woken, script);
    assert S.StepEnabled(io, step);
    assert S.Next(io, step) == IoOf(HostNext(h, out, inn, st).0);
  }

  /** The messager's actions are calls into the session, its start or its end, or leave it
      alone. */
  lemma MessagerIsIo(h: Host, out: Wire, inn: Wire, act: Action)
    requires NodeEnabled(h.x, out, inn, act) && IsMessager(act)
    ensures IsIoStep(IoOf(h), IoOf(h.(x := NodeNext(h.x, out, inn, act).0)))
  {
    var io, x' := IoOf(h), NodeNext(h.x, out, inn, act).0;
    if act.Start? {
      assert S.StepEnabled(io, S.Session(OpStart)) && S.Next(io, S.Session(OpStart)) == S.IoSystem(x'.s, h.tasks);
    } else if act.Finish? {
      assert S.StepEnabled(io, S.Session(OpDoClose)) && S.Next(io, S.Session(OpDoClose)) == S.IoSystem(x'.s, h.tasks);
    } else if DuringClose(act) {
      ActionCalls(h.x, out, inn, act);
      var ops := CallsOf(h.x, act);
      if ops != [] {
        assert S.StepEnabled(io, S.Session(ops[0])) && S.Next(io, S.Session(ops[0])) == S.IoSystem(x'.s, h.tasks);
      }
    }
  }

  lemma HostStepIsIo(h: Host, out: Wire, inn: Wire, st: HostStep)
    requires HostEnabled(h, out, inn, st)
    ensures IsIoStep(IoOf(h), IoOf(HostNext(h, out, inn, st).0))
  {
    match st {
      case Submit(_, _, _, onStrand, _, _) =>
        if onStrand {
          DirectSubmitIsIo(h, out, inn, st);
        } else {
          DispatchedSubmitIsIo(h, out, inn, st);
        }
      case Resume(_, _, _) => ResumeIsIo(h, out, inn, st);
      case Deliver(id) =>
        assert S.StepEnabled(IoOf(h), S.Deliver(id));
        assert S.Next(IoOf(h), S.Deliver(id)) == IoOf(HostNext(h, out, inn, st).0);
      case Messager(act) => MessagerIsIo(h, out, inn, act);
    }
  }

  lemma HostStepKeepsIo(h: Host, out: Wire, inn: Wire, st: HostStep)
    requires HostEnabled(h, out, inn, st) && S.IoInv(IoOf(h))
    ensures S.IoInv(IoOf(HostNext(h, out, inn, st).0))
  {
    var io' := IoOf(HostNext(h, out, inn, st).0);
    HostStepIsIo(h, out, inn, st);
    if io' != IoOf(h) {
      var step :| S.StepEnabled(IoOf(h), step) && S.Next(IoOf(h), step) == io';
      S.StepKeepsIoInv(IoOf(h), step);
    }
  }

  lemma {:induction false} IoInvBoth(p: Pair, steps: seq<PairStep>)
    requires S.IoInv(IoOf(p.a)) && S.IoInv(IoOf(p.b)) && PairRuns(p, steps)
    ensures S.IoInv(IoOf(PairAfter(p, steps).a)) && S.IoInv(IoOf(PairAfter(p, steps).b))
    decreases |steps|
  {
    if steps != [] {
      match steps[0].side {
        case A => HostStepKeepsIo(p.a, p.ab, p.ba, steps[0].st);
        case B => HostStepKeepsIo(p.b, p.ba, p.ab, steps[0].st);
      }
      IoInvBoth(PairNext(p, steps[0]), steps[1..]);
    }
  }

  lemma InitialIo(p: Pair)
    requires PairInitial(p)
    ensures S.IoInv(IoOf(p.a)) && S.IoInv(IoOf(p.b))
  {
  }

  /** In every run, while a read is parked on a side that is open and has not met EOF: if
      it lacks bytes that were accepted on the other side, the next of them is in that
      side's ring, head or sendmarkq_. */
  lemma ParkedReadIsOwed(p: Pair, steps: seq<PairStep>, id: nat)
    requires PairInitial(p) && PairRuns(p, steps)
    requires var p' := PairAfter(p, steps);
             && id in p'.b.x.s.waits.read && !p'.b.x.s.eof && !p'.b.x.s.closing && !p'.b.x.ended && !p'.a.x.ended
             && |p'.b.x.delivered| < |p'.a.x.accepted|
    ensures var w, d := SenderOf(PairAfter(p, steps).a.x), |PairAfter(p, steps).b.x.delivered|;
            || (exists b :: b in BlocksOf(w.tx.marks) && b.Covers(d) && Genuine(b, w.accepted, w.Frozen()))
            || |Flat(w.moved)| <= d < |Flat(w.moved)| + |w.HeadData()| + |w.tx.ring|
  {
    var p' := PairAfter(p, steps);
    var w, r, d := SenderOf(p'.a.x), ReceiverOf(p'.b.x), |p'.b.x.delivered|;
    InitialIo(p);
    IoInvBoth(p, steps);
    InitialPairInv(p);
    PairInvAlways(p, steps);
    ReachableInv(Sessions(p'));
    NothingLost(w, r, p'.ab.blocks, p'.ba.acks, d);
    assert Drained(r.rx.queue, r.rx.distributed);
    forall m | m in r.rx.queue ensures !m.block.Covers(d) {
      var i :| 0 <= i < |r.rx.queue| && r.rx.queue[i] == m;
    }
  }

  /** And a parked write is longer than the space that is free in its side's ring; if it
      can fit at all, there is something for that side to send. */
  lemma ParkedWriteWaits(p: Pair, steps: seq<PairStep>, id: nat, myEof: bool)
    requires PairInitial(p) && PairRuns(p, steps) && id in PairAfter(p, steps).a.x.s.waits.write
    ensures var h := PairAfter(p, steps).a;
            && id in h.tasks && h.tasks[id].kind.WriteOp?
            && |h.tasks[id].kind.data| > h.x.s.tx.capacity - |h.x.s.tx.ring|
            && (|h.tasks[id].kind.data| <= h.x.s.tx.capacity ==> !SendqIsEmpty(h.x.s, myEof))
  {
    InitialIo(p);
    IoInvBoth(p, steps);
  }
}
