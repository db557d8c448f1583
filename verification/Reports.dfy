/** When reads report EOF, over whole runs. */
module ReportFacts {
  import opened SessionSpec
  import opened SweepFacts
  import opened Network
  import opened EndToEnd

  /** One report for each finished read; an EOF block that was met is pending and has been
      reported; and until a local close nothing else is reported as EOF. */
  ghost predicate ReportsOk(x: Node) {
    && |x.reports| == |x.completed|
    && (x.eofSeen ==> Eof in x.reports)
    && (!x.ended && x.eofSeen ==> x.s.eof)
    && (!x.ended && !x.s.closing ==> (x.s.eof ==> x.eofSeen) && (Eof in x.reports ==> x.eofSeen))
  }

  lemma ReadKeepsReports(x: Node)
    requires ReportsOk(x) && !x.ended
    requires x.reading.Some? && (x.reading.value == [] || x.s.rx.readOffset <= |x.reading.value|)
    ensures ReportsOk(ReadOnce(x))
  {
    if x.reading.value == [] {
      EmptyReadSucceeds(x.s);
    } else {
      ReadReports(x.s, |x.reading.value|);
      SweepOfRead(x.s, |x.reading.value|);
    }
  }

  lemma OthersReportNothing(x: Node, out: Wire, inn: Wire, act: Action)
    requires NodeEnabled(x, out, inn, act) && !act.Read?
    ensures var x' := NodeNext(x, out, inn, act).0;
            && x'.reports == x.reports && x'.completed == x.completed && x'.eofSeen == x.eofSeen
            && (x.ended ==> x'.ended)
            && (x'.ended || (x'.s.closing && x'.s.eof) || (x'.s.eof == x.s.eof && x'.s.closing == x.s.closing))
  {
  }

  lemma ActionKeepsReports(x: Node, out: Wire, inn: Wire, act: Action)
    requires ReportsOk(x) && NodeEnabled(x, out, inn, act)
    ensures ReportsOk(NodeNext(x, out, inn, act).0)
  {
    if act.Read? {
      ReadKeepsReports(x);
    } else {
      OthersReportNothing(x, out, inn, act);
    }
  }

  lemma {:induction false} ReportsAlways(sys: System, steps: seq<Step>)
    requires ReportsOk(sys.a) && ReportsOk(sys.b) && Runs(sys, steps)
    ensures ReportsOk(After(sys, steps).a) && ReportsOk(After(sys, steps).b)
    decreases |steps|
  {
    if steps != [] {
      match steps[0].side {
        case A => ActionKeepsReports(sys.a, sys.ab, sys.ba, steps[0].act);
        case B => ActionKeepsReports(sys.b, sys.ba, sys.ab, steps[0].act);
      }
      ReportsAlways(Next(sys, steps[0]), steps[1..]);
    }
  }

  lemma ReachableReports(sys: System)
    requires Reachable(sys)
    ensures ReportsOk(sys.a) && ReportsOk(sys.b)
  {
    var init, steps :| Initial(init) && Runs(init, steps) && After(init, steps) == sys;
    ReportsAlways(init, steps);
  }

  /** In every reachable state of a receiver that has not closed: some read has reported
      EOF if and only if the EOF block was met, and then the reader has everything. */
  lemma EofReportedExactly(sys: System)
    requires Reachable(sys) && !sys.b.ended && !sys.b.s.closing
    ensures |sys.b.reports| == |sys.b.completed|
    ensures Eof in sys.b.reports <==> sys.b.eofSeen
    ensures Eof in sys.b.reports ==> sys.b.delivered == sys.a.accepted
  {
    ReachableInv(sys);
    ReachableReports(sys);
  }

  /** The read that is outstanding there, into a buffer that is not empty, finishes if the
      EOF block has been met or is met by it, or the buffer is full; and it reports EOF if
      and only if the EOF block has been met then, whether the buffer is full or not. */
  lemma ReadReportsEof(sys: System)
    requires Reachable(sys) && !sys.b.ended && !sys.b.s.closing && sys.b.reading.Some? && sys.b.reading.value != []
    ensures sys.b.s.rx.readOffset <= |sys.b.reading.value|
    ensures var b', r := ReadOnce(sys.b), SessionSpec.Read(sys.b.s, |sys.b.reading.value|);
            && (r.outcome.Finished? <==> b'.eofSeen || sys.b.s.rx.readOffset + |r.out| == |sys.b.reading.value|)
            && (r.outcome.Finished? ==> (r.outcome.ec == Eof <==> b'.eofSeen))
  {
    ReachableInv(sys);
    ReachableReports(sys);
    ReadReports(sys.b.s, |sys.b.reading.value|);
  }
}
