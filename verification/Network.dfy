/** Two sessions and a network between them that loses, duplicates and reorders what
    they send. The messager of each side is a nondeterministic caller. */
module Network {
  import opened Blocks
  import opened SessionSpec
  import opened SweepFacts
  import opened LateFacts

  datatype Range = Range(start: nat, end: nat)

  /** What travels in one direction: data blocks, and acknowledged ranges. */
  datatype Wire = Wire(blocks: multiset<Block>, acks: multiset<Range>)

  /** A session with the history of what it did.
      accepted: bytes taken by `write`; cut: blocks built as heads, in order; moved: those
      moved to sendmarkq_;
      released: ranges given to handle_sendmarkq_remove_range;
      delivered: bytes `read` copied to readers; completed: what finished reads hold;
      reports: the error codes they finished with;
      reading: the buffer of the outstanding read;
      live, late: positions of the blocks stored while pending_eof_ was false, true;
      erased: positions that an acknowledgement took out of recvmarkq_ before `read` came;
      eofSeen: `read` has met an EOF block; ended: do_close has run. */
  datatype Node = Node(s: Sess, accepted: seq<byte>, cut: seq<Block>, moved: seq<Block>, released: set<Range>,
                       delivered: seq<byte>, completed: seq<seq<byte>>, reports: seq<ErrorCode>,
                       reading: Option<seq<byte>>,
                       live: set<nat>, late: set<nat>, erased: set<nat>, eofSeen: bool, ended: bool)

  /** Requeue: io_op parks operations of this node on the pending_ready_ timers, or takes
      them off the strand. */
  datatype Action =
    | Start
    | Write(data: seq<byte>)
    | BuildHead(max: nat)
    | MoveHead(clock: nat)
    | SendHead
    | Retransmit(k: nat, newClock: nat)
    | Acked(range: Range)
    | Receive(block: Block)
    | Acknowledge(local: Range)
    | SendAck(stored: Range)
    | OpenRead(buffer: seq<byte>)
    | Read
    | Requeue(waits: Waits)
    | Close
    | Finish
    | LoseBlock(lost: Block)
    | DuplicateBlock(again: Block)
    | LoseAck(lostAck: Range)
    | DuplicateAck(ackAgain: Range)

  predicate IsNetwork(act: Action) {
    act.LoseBlock? || act.DuplicateBlock? || act.LoseAck? || act.DuplicateAck?
  }

  function Positions(b: Block): set<nat> {
    set p: nat | b.offset <= p < b.End() && b.Covers(p)
  }

  /** Every position of the range was stored by the receiver. */
  ghost predicate Honest(r: Range, stored: set<nat>) {
    forall p: nat :: r.start <= p < r.end ==> p in stored
  }

  /** The offset that the messager gives to the next block: the bytes moved so far. */
  function NextOffset(x: Node): nat { |Flat(x.moved)| }

  function HeadBlock(x: Node): Block
    requires x.s.tx.head.Some?
  {
    Block(NextOffset(x), x.s.tx.head.value.data, x.s.tx.head.value.eof)
  }

  ghost predicate NodeEnabled(x: Node, out: Wire, inn: Wire, act: Action) {
    && |x.s.tx.ring| <= x.s.tx.capacity
    && (x.ended ==> IsNetwork(act))
    && match act
       case MoveHead(_) => x.s.tx.head.Some?
       case SendHead => x.s.tx.head.Some?
       case Retransmit(k, _) => k < |x.s.tx.marks|
       case Acked(r) => r in inn.acks
       case Receive(b) => b in inn.blocks
       case SendAck(r) => Honest(r, x.live + x.late)
       case OpenRead(_) => x.reading.None?
       case Read => x.reading.Some? && (x.reading.value == [] || x.s.rx.readOffset <= |x.reading.value|)
       case LoseBlock(b) => b in out.blocks
       case DuplicateBlock(b) => b in out.blocks
       case LoseAck(r) => r in out.acks
       case DuplicateAck(r) => r in out.acks
       case _ => true
  }

  function WriteOnce(x: Node, data: seq<byte>): Node
    requires |x.s.tx.ring| <= x.s.tx.capacity
  {
    var (s', o) := SessionSpec.Write(x.s, data);
    x.(s := s', accepted := if o == Finished(Success, |data|) then x.accepted + data else x.accepted)
  }

  function BuildOnce(x: Node, max: nat): Node {
    var (s', c) := Head(x.s, max);
    x.(s := s', cut := if x.s.tx.head.None? && c.Some? then x.cut + [Block(NextOffset(x), c.value.data, c.value.eof)]
                       else x.cut)
  }

  function MoveOnce(x: Node, clock: nat): Node
    requires x.s.tx.head.Some?
  {
    var (s', moved) := Move(x.s, NextOffset(x), clock);
    x.(s := s', moved := if moved then x.moved + [HeadBlock(x)] else x.moved)
  }

  function Store(x: Node, b: Block): Node {
    var (s', stored) := Put(x.s, b);
    if !stored then x.(s := s')
    else if x.s.eof then x.(s := s', late := x.late + Positions(b))
    else x.(s := s', live := x.live + Positions(b))
  }

  /** The acknowledgement of the range takes the last entry that contains position p. */
  ghost predicate Uncovers(x: Node, r: Range, p: nat) {
    |x.delivered| <= p && Covered(x.s.rx.queue, p) && !SurvivorCovers(x.s.rx.queue, r.start, r.end, p)
  }

  ghost function AckOnce(x: Node, r: Range): Node {
    x.(s := AckRangeStep(x.s, r.start, r.end),
       erased := x.erased + set p | p in x.live + x.late && Uncovers(x, r, p))
  }

  function ReadOnce(x: Node): Node
    requires x.reading.Some? && (x.reading.value == [] || x.s.rx.readOffset <= |x.reading.value|)
  {
    var buf := x.reading.value;
    var r := SessionSpec.Read(x.s, |buf|);
    var buf' := if buf == [] then buf else Fill(buf, x.s.rx.readOffset, r.out);
    var x' := x.(s := r.s, delivered := x.delivered + r.out, eofSeen := x.eofSeen || r.eofBlock);
    match r.outcome
    case Retry => x'.(reading := Some(buf'))
    case Finished(ec, n) =>
      x'.(reading := None, completed := x.completed + [buf'[..n]], reports := x.reports + [ec])
  }

  /** One action of node x, with the wires it sends on and receives from. */
  ghost function NodeNext(x: Node, out: Wire, inn: Wire, act: Action): (Node, Wire, Wire)
    requires NodeEnabled(x, out, inn, act)
  {
    match act
    case Start => (x.(s := x.s.(running := true)), out, inn)
    case Write(data) => (WriteOnce(x, data), out, inn)
    case BuildHead(max) => (BuildOnce(x, max), out, inn)
    case MoveHead(clock) => (MoveOnce(x, clock), out, inn)
    case SendHead => (x, out.(blocks := out.blocks + multiset{HeadBlock(x)}), inn)
    case Retransmit(k, clock) =>
      (x.(s := ResortStep(x.s, k, clock, Some(k))),
       out.(blocks := out.blocks + multiset{x.s.tx.marks[k].block}), inn)
    case Acked(r) =>
      (x.(s := RemoveSentStep(x.s, r.start, r.end), released := x.released + {r}), out,
       inn.(acks := inn.acks - multiset{r}))
    case Receive(b) => (Store(x, b), out, inn.(blocks := inn.blocks - multiset{b}))
    case Acknowledge(r) => (AckOnce(x, r), out, inn)
    case SendAck(r) => (x, out.(acks := out.acks + multiset{r}), inn)
    case OpenRead(buffer) => (x.(reading := Some(buffer)), out, inn)
    case Read => (ReadOnce(x), out, inn)
    case Requeue(waits) => (x.(s := x.s.(waits := waits)), out, inn)
    case Close => (x.(s := BeginClose(x.s)), out, inn)
    case Finish => (x.(s := DoClose(x.s), ended := true), out, inn)
    case LoseBlock(b) => (x, out.(blocks := out.blocks - multiset{b}), inn)
    case DuplicateBlock(b) => (x, out.(blocks := out.blocks + multiset{b}), inn)
    case LoseAck(r) => (x, out.(acks := out.acks - multiset{r}), inn)
    case DuplicateAck(r) => (x, out.(acks := out.acks + multiset{r}), inn)
  }

  // ---------- the system and its runs ----------

  datatype Side = A | B

  datatype Step = Step(side: Side, act: Action)

  /** ab carries what a sends, ba what b sends. */
  datatype System = System(a: Node, b: Node, ab: Wire, ba: Wire)

  function Idle(s: Sess): Node {
    Node(s, [], [], [], {}, [], [], [], None, {}, {}, {}, false, false)
  }

  ghost predicate Initial(sys: System) {
    && (exists c, m, q :: sys.a == Idle(Fresh(c, m, q))) && (exists c, m, q :: sys.b == Idle(Fresh(c, m, q)))
    && sys.ab == Wire(multiset{}, multiset{}) && sys.ba == Wire(multiset{}, multiset{})
  }

  ghost predicate StepEnabled(sys: System, st: Step) {
    match st.side
    case A => NodeEnabled(sys.a, sys.ab, sys.ba, st.act)
    case B => NodeEnabled(sys.b, sys.ba, sys.ab, st.act)
  }

  ghost function Next(sys: System, st: Step): System
    requires StepEnabled(sys, st)
  {
    match st.side
    case A =>
      var (a', ab', ba') := NodeNext(sys.a, sys.ab, sys.ba, st.act);
      System(a', sys.b, ab', ba')
    case B =>
      var (b', ba', ab') := NodeNext(sys.b, sys.ba, sys.ab, st.act);
      System(sys.a, b', ab', ba')
  }

  ghost predicate Runs(sys: System, steps: seq<Step>)
    decreases |steps|
  {
    steps == [] || (StepEnabled(sys, steps[0]) && Runs(Next(sys, steps[0]), steps[1..]))
  }

  ghost function After(sys: System, steps: seq<Step>): System
    requires Runs(sys, steps)
    decreases |steps|
  {
    if steps == [] then sys else After(Next(sys, steps[0]), steps[1..])
  }
}
