/** The running_ / pending_eof_ / pending_close_ machine. */
module ClosingFacts {
  import opened Blocks
  import opened SessionSpec

  /** Holds at every step boundary: a session that is closing is running and will send
      EOF. (The ring bound is what lets every further operation take place.) */
  ghost predicate CloseValid(s: Sess) {
    (s.closing ==> s.eof && s.running) && |s.tx.ring| <= s.tx.capacity
  }

  lemma CloseValidStays(s: Sess, op: Op)
    requires CloseValid(s) && Enabled(s, op)
    ensures CloseValid(Apply(s, op))
  {
  }

  lemma CloseValidAlways(capacity: nat, marksMax: nat, queueMax: nat, ops: seq<Op>)
    requires Runnable(Fresh(capacity, marksMax, queueMax), ops)
    ensures CloseValid(Run(Fresh(capacity, marksMax, queueMax), ops))
  {
    CloseValidRun(Fresh(capacity, marksMax, queueMax), ops);
  }

  lemma {:induction false} CloseValidRun(s: Sess, ops: seq<Op>)
    requires CloseValid(s) && Runnable(s, ops)
    ensures CloseValid(Run(s, ops))
    decreases |ops|
  {
    if ops != [] {
      CloseValidStays(s, ops[0]);
      CloseValidRun(Apply(s, ops[0]), ops[1..]);
    }
  }

  lemma {:induction false} RunAppend(s: Sess, ops: seq<Op>, op: Op)
    requires Runnable(s, ops) && Enabled(Run(s, ops), op)
    ensures Runnable(s, ops + [op]) && Run(s, ops + [op]) == Apply(Run(s, ops), op)
    decreases |ops|
  {
    var all := ops + [op];
    if ops == [] {
      assert all == [op] && all[1..] == [];
    } else {
      assert all[0] == ops[0] && all[1..] == ops[1..] + [op];
      RunAppend(Apply(s, ops[0]), ops[1..], op);
    }
  }

  /** `close` is a run of single operations, keeps the machine valid, and returns true
      exactly when the session is not running on exit; then no read or write is left
      parked. */
  lemma CloseResult(s: Sess, calls: seq<Op>, bothFinal: bool)
    requires CloseValid(s) && forall c :: c in calls ==> IsCallback(c)
    requires s.running && !s.closing ==> Runnable(BeginClose(s), calls)
    ensures var (s', done) := Close(s, calls, bothFinal);
            && CloseValid(s') && (done <==> !s'.running)
            && (done ==> s'.waits.read == {} && s'.waits.write == {})
            && (s.running && !s.closing ==>
                  var ops := [OpBeginClose] + calls + (if bothFinal then [OpDoClose] else []);
                  Runnable(s, ops) && Run(s, ops) == s')
            && (s'.running ==> s'.closing)
  {
    if s.running && !s.closing {
      var s1 := BeginClose(s);
      var ops := [OpBeginClose] + calls;
      CallbacksKeepFlags(s1, calls);
      CloseValidRun(s1, calls);
      assert ops[0] == OpBeginClose && ops[1..] == calls;
      if bothFinal {
        RunAppend(s, ops, OpDoClose);
      } else {
        assert ops + [] == ops;
      }
    }
  }

  lemma {:induction false} CallbacksKeepFlags(s: Sess, calls: seq<Op>)
    requires Runnable(s, calls) && forall c :: c in calls ==> IsCallback(c)
    ensures var s' := Run(s, calls);
            && s'.running == s.running && s'.closing == s.closing && s'.eof == s.eof
            && s'.closeCalls == s.closeCalls && s'.waits.close == s.waits.close
    decreases |calls|
  {
    if calls != [] {
      assert calls[0] in calls && forall c :: c in calls[1..] ==> c in calls;
      CallbacksKeepFlags(Apply(s, calls[0]), calls[1..]);
    }
  }

  /** The bytes that the writes of a run put into the ring. */
  function Accepted(s: Sess, ops: seq<Op>): seq<byte>
    requires Runnable(s, ops)
    decreases |ops|
  {
    if ops == [] then []
    else
      (if ops[0].OpWrite? && Write(s, ops[0].data).1.Finished?
       then ops[0].data[..Write(s, ops[0].data).1.bytes] else [])
      + Accepted(Apply(s, ops[0]), ops[1..])
  }

  /** From the first close of a running session until do_close, over every run: the
      session stays closing, nothing is accepted, and a non-empty write returns EOF. */
  lemma {:induction false} ClosingAcceptsNothing(s: Sess, ops: seq<Op>)
    requires CloseValid(s) && s.closing && Runnable(s, ops) && OpDoClose !in ops
    ensures Run(s, ops).closing && CloseValid(Run(s, ops)) && Accepted(s, ops) == []
    ensures forall data :: data != [] ==> Write(Run(s, ops), data) == (Run(s, ops), Finished(Eof, 0))
    decreases |ops|
  {
    if ops != [] {
      CloseValidStays(s, ops[0]);
      assert OpDoClose !in ops[1..];
      ClosingAcceptsNothing(Apply(s, ops[0]), ops[1..]);
    }
  }

  lemma {:induction false} EofStaysPending(s: Sess, ops: seq<Op>)
    requires s.eof && Runnable(s, ops) && OpDoClose !in ops
    ensures Run(s, ops).eof
    decreases |ops|
  {
    if ops != [] {
      assert OpDoClose !in ops[1..];
      EofStaysPending(Apply(s, ops[0]), ops[1..]);
    }
  }

  /** From the close of a running session until do_close, over every run: the send queue
      is not empty for a messager that has not sent EOF, so it keeps asking for the EOF
      block; for one that has, it is empty as soon as neither head nor bytes are left. */
  lemma ClosingQueueNotEmpty(s: Sess, ops: seq<Op>)
    requires s.running && Runnable(BeginClose(s), ops) && OpDoClose !in ops
    ensures var s' := Run(BeginClose(s), ops);
            && !SendqIsEmpty(s', false)
            && (SendqIsEmpty(s', true) <==> s'.tx.head.None? && s'.tx.ring == [])
  {
    EofStaysPending(BeginClose(s), ops);
  }

  /** Whoever closed: once both directions are final, processing the send queue ends the
      session, wakes everybody and reports it once; and otherwise it does none of that. */
  lemma ProcessEnds(s: Sess, calls: seq<Op>)
    requires Runnable(s, calls) && forall c :: c in calls ==> IsCallback(c)
    ensures var s', w := Process(s, calls, true), Run(s, calls).waits;
            && !s'.running && !s'.closing && !s'.eof && s'.closeCalls == s.closeCalls + 1
            && s'.waits.read == {} && s'.waits.write == {} && s'.waits.close == {}
            && w.read + w.write + w.close + w.woken == s'.waits.woken
    ensures var s' := Process(s, calls, false);
            && s'.running == s.running && s'.closing == s.closing && s'.eof == s.eof
            && s'.closeCalls == s.closeCalls && s'.waits.close == s.waits.close
  {
    CallbacksKeepFlags(s, calls);
  }

  /** Only do_close stops a running session, and calls its close_handler_. */
  lemma {:induction false} OnlyDoCloseStops(s: Sess, ops: seq<Op>)
    requires s.running && Runnable(s, ops) && OpDoClose !in ops
    ensures Run(s, ops).running && Run(s, ops).closeCalls == s.closeCalls
    decreases |ops|
  {
    if ops != [] {
      assert OpDoClose !in ops[1..];
      OnlyDoCloseStops(Apply(s, ops[0]), ops[1..]);
    }
  }

  /** Whatever a running session does before it ends: a close that waits for do_close,
      and is retried after it, has close_handler_ called a second time. */
  lemma RetriedCloseCallsHandlerAgain(s: Sess, ops: seq<Op>)
    requires s.running && Runnable(s, ops) && OpDoClose !in ops
    ensures var (s', done) := Close(DoClose(Run(s, ops)), [], false);
            done && s'.closeCalls == s.closeCalls + 2
  {
    OnlyDoCloseStops(s, ops);
  }

  // ---------- close_handler_ ----------

  /** How often the operations of a run report the end of the session: each do_close, and
      each close of a session that is not running. */
  function Reports(s: Sess, ops: seq<Op>): nat
    requires Runnable(s, ops)
    decreases |ops|
  {
    if ops == [] then 0
    else
      (if ops[0].OpDoClose? || (ops[0].OpBeginClose? && !s.running) then 1 else 0) + Reports(Apply(s, ops[0]), ops[1..])
  }

  /** Over every run close_handler_ is called exactly that often. */
  lemma {:induction false} CloseCallsCounted(s: Sess, ops: seq<Op>)
    requires Runnable(s, ops)
    ensures Run(s, ops).closeCalls == s.closeCalls + Reports(s, ops)
    decreases |ops|
  {
    if ops != [] {
      CloseCallsCounted(Apply(s, ops[0]), ops[1..]);
    }
  }

  lemma {:induction false} StoppedReports(s: Sess, ops: seq<Op>)
    requires !s.running && Runnable(s, ops) && OpStart !in ops && OpDoClose !in ops
    ensures Reports(s, ops) == 0 <==> OpBeginClose !in ops
    decreases |ops|
  {
    if ops != [] {
      assert OpStart !in ops[1..] && OpDoClose !in ops[1..];
      assert !Apply(s, ops[0]).running;
      StoppedReports(Apply(s, ops[0]), ops[1..]);
      assert OpBeginClose in ops <==> ops[0] == OpBeginClose || OpBeginClose in ops[1..];
    }
  }

  /** A running session that ends, up to its next start: close_handler_ has been called
      once if and only if no close was called after do_close. */
  lemma CloseHandlerOnce(s: Sess, before: seq<Op>, after: seq<Op>)
    requires s.running && Runnable(s, before) && OpDoClose !in before
    requires Runnable(DoClose(Run(s, before)), after) && OpStart !in after && OpDoClose !in after
    ensures Run(DoClose(Run(s, before)), after).closeCalls == s.closeCalls + 1 <==> OpBeginClose !in after
  {
    OnlyDoCloseStops(s, before);
    CloseCallsCounted(DoClose(Run(s, before)), after);
    StoppedReports(DoClose(Run(s, before)), after);
  }
}
