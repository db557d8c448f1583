/** DISTRIBUTED bits that do not tell the truth: blocks put into a session that is at
    EOF carry the bit although no reader has their bytes. */
module LateFacts {
  import opened Blocks
  import opened SessionSpec
  import opened SweepFacts
  import opened AckFacts

  // ---------- what an acknowledgement takes away ----------

  /** The acknowledgement of [start, end) erases the entry. */
  predicate Erased(m: Mark, start: nat, end: nat) {
    m.distributed && m.block.Inside(start, end)
  }

  /** An entry that covers p survives the acknowledgement. */
  ghost predicate SurvivorCovers(q: seq<Mark>, start: nat, end: nat, p: nat) {
    exists i :: 0 <= i < |q| && q[i].block.Covers(p) && !Erased(q[i], start, end)
  }

  /** A position stays covered exactly if an entry that covers it is not erased. */
  lemma {:induction false} AckRangeCovers(q: seq<Mark>, start: nat, end: nat, p: nat)
    ensures Covered(AckRange(q, start, end), p) <==> SurvivorCovers(q, start, end, p)
  {
    if q != [] {
      var one, rest := AckOne(q[0], start, end), AckRange(q[1..], start, end);
      AckRangeCovers(q[1..], start, end, p);
      CoveredConcat(one, rest, p);
      SurvivorFirst(q, start, end, p);
    }
  }

  lemma CoveredConcat(q: seq<Mark>, r: seq<Mark>, p: nat)
    ensures Covered(q + r, p) <==> Covered(q, p) || Covered(r, p)
  {
    if Covered(q, p) {
      var i :| 0 <= i < |q| && q[i].block.Covers(p);
      assert (q + r)[i].block.Covers(p);
    }
    if Covered(r, p) {
      var i :| 0 <= i < |r| && r[i].block.Covers(p);
      assert (q + r)[|q| + i].block.Covers(p);
    }
  }

  lemma SurvivorFirst(q: seq<Mark>, start: nat, end: nat, p: nat)
    requires q != []
    ensures SurvivorCovers(q, start, end, p)
       <==> Covered(AckOne(q[0], start, end), p) || SurvivorCovers(q[1..], start, end, p)
  {
    var one := AckOne(q[0], start, end);
    if one != [] && one[0].block.Covers(p) {
      assert q[0].block.Covers(p);
    }
    if SurvivorCovers(q[1..], start, end, p) {
      var i :| 0 <= i < |q[1..]| && q[1..][i].block.Covers(p) && !Erased(q[1..][i], start, end);
      assert q[i + 1].block.Covers(p);
    }
    if SurvivorCovers(q, start, end, p) {
      var i :| 0 <= i < |q| && q[i].block.Covers(p) && !Erased(q[i], start, end);
      if i > 0 {
        assert q[1..][i - 1].block.Covers(p);
      } else {
        assert one[0].block.Covers(p);
      }
    }
  }

  // ---------- blocks put at EOF ----------

  function PutAll(s: Sess, bs: seq<Block>): Sess
    decreases |bs|
  {
    if bs == [] then s else PutAll(Put(s, bs[0]).0, bs[1..])
  }

  /** However many blocks a session at EOF is given, one acknowledgement that covers
      them leaves it as if they had never been put: the queue does not fill up. */
  lemma {:induction false} LateBlocksVanish(s: Sess, bs: seq<Block>, start: nat, end: nat)
    requires s.eof && forall b :: b in bs ==> b.Inside(start, end)
    ensures AckRangeStep(PutAll(s, bs), start, end) == AckRangeStep(s, start, end)
    ensures |AckRangeStep(PutAll(s, bs), start, end).rx.queue| <= |s.rx.queue|
    decreases |bs|
  {
    if bs != [] {
      LateBlocksVanish(Put(s, bs[0]).0, bs[1..], start, end);
      DistributedVanishes(s.rx.queue, Mark(bs[0], true, false), start, end);
    }
    AckRangeLength(s.rx.queue, start, end);
  }

  lemma {:induction false} AckRangeLength(q: seq<Mark>, start: nat, end: nat)
    ensures |AckRange(q, start, end)| <= |q|
  {
    if q != [] {
      AckRangeLength(q[1..], start, end);
    }
  }

  lemma {:induction false} DistributedVanishes(q: seq<Mark>, m: Mark, start: nat, end: nat)
    requires Erased(m, start, end)
    ensures AckRange(InsertByRange(q, m), start, end) == AckRange(q, start, end)
  {
    if q == [] || RangeLess(m.block, q[0].block) {
      assert ([m] + q)[0] == m && ([m] + q)[1..] == q;
    } else {
      DistributedVanishes(q[1..], m, start, end);
      assert ([q[0]] + InsertByRange(q[1..], m))[1..] == InsertByRange(q[1..], m);
    }
  }

  // ---------- when the order of acknowledgement and distribution matters ----------

  /** Blocks cut from one stream: the same block, or ranges that do not overlap. */
  predicate SameOrApart(a: Block, b: Block) {
    a == b || a.End() <= b.offset || b.End() <= a.offset
  }

  ghost predicate Apart(q: seq<Mark>) {
    forall i, j :: 0 <= i < |q| && 0 <= j < |q| ==> SameOrApart(q[i].block, q[j].block)
  }

  /** Every byte that the next sweep copies is also in an entry that the acknowledgement
      does not erase. */
  ghost predicate RunSurvives(q: seq<Mark>, d: nat, room: nat, start: nat, end: nat) {
    forall p :: d <= p < Min(d + room, Frontier(q, d)) ==> SurvivorCovers(q, start, end, p)
  }

  /** In a queue of blocks of one stream, whatever its DISTRIBUTED bits say, the order
      of an acknowledgement and a sweep makes no difference to queue, bytes and EOF flag
      if and only if the acknowledgement erases no byte that the sweep would copy. */
  lemma AckAndSweepCommuteExactly(q: seq<Mark>, d: nat, room: nat, start: nat, end: nat, eof: bool)
    requires SortedByRange(q) && Apart(q) && forall m :: m in q ==> !m.Done()
    requires forall m :: m in q && m.distributed && m.block.eof ==> eof
    ensures EffectOf(Sweep(AckRange(q, start, end), d, room), eof)
            == ThenAck(EffectOf(Sweep(q, d, room), eof), start, end)
       <==> RunSurvives(q, d, room, start, end)
  {
    if RunSurvives(q, d, room, start, end) {
      SweepByEntry(q, d, room, eof);
      SweepByEntry(AckRange(q, start, end), d, room, eof);
      CommuteSurviving(q, d, room, start, end, eof);
    } else {
      var p :| d <= p < Min(d + room, Frontier(q, d)) && !SurvivorCovers(q, start, end, p);
      AckFirstCopiesLess(q, d, room, start, end, p);
    }
  }

  lemma AckFirstCopiesLess(q: seq<Mark>, d: nat, room: nat, start: nat, end: nat, p: nat)
    requires SortedByRange(q) && d <= p < Min(d + room, Frontier(q, d)) && !SurvivorCovers(q, start, end, p)
    ensures |Sweep(AckRange(q, start, end), d, room).out| < |Sweep(q, d, room).out|
  {
    var r := AckRange(q, start, end);
    AckRangeSorted(q, start, end);
    AckRangeCovers(q, start, end, p);
    SweepStopsBefore(r, d, room, p);
    SweepReaches(q, d, room, p);
  }

  lemma SweepReaches(q: seq<Mark>, d: nat, room: nat, p: nat)
    requires SortedByRange(q) && d <= p < Min(d + room, Frontier(q, d))
    ensures |Sweep(q, d, room).out| > p - d
  {
    SweepCopiesMaximalRun(q, d, room);
  }

  lemma SweepStopsBefore(q: seq<Mark>, d: nat, room: nat, p: nat)
    requires SortedByRange(q) && !Covered(q, p) && d <= p
    ensures |Sweep(q, d, room).out| <= p - d
  {
    SweepCopiesMaximalRun(q, d, room);
  }

  lemma {:induction false} CommuteSurviving(q: seq<Mark>, d: nat, room: nat, start: nat, end: nat, eof: bool)
    requires SortedByRange(q) && Apart(q) && forall m :: m in q ==> !m.Done()
    requires forall m :: m in q && m.distributed && m.block.eof ==> eof
    requires RunSurvives(q, d, room, start, end)
    ensures Entries(AckRange(q, start, end), d, room, eof) == ThenAck(Entries(q, d, room, eof), start, end)
    decreases |q|, 1
  {
    if q == [] || q[0].block.offset > d {
      CommuteAhead(q, d, room, start, end, eof);
    } else if Erased(q[0], start, end) && q[0].block.End() > d {
      CommuteErased(q, d, room, start, end, eof);
    } else if Fits(q, d, room) {
      var m, tail := q[0], q[1..];
      var d', room' := d + Beyond(m.block, d), room - Beyond(m.block, d);
      assert m in q && q == [m] + tail;
      TailOfQueue(q, d, d', room, room', start, end, eof);
      CommuteSurviving(tail, d', room', start, end, eof);
      CommuteFirst(m, tail, AckRange(tail, start, end), d, d', room, room', start, end, eof);
    } else {
      assert AckRange(q, start, end)[0].block == q[0].block;
    }
  }

  lemma CommuteAhead(q: seq<Mark>, d: nat, room: nat, start: nat, end: nat, eof: bool)
    requires SortedByRange(q) && (q == [] || q[0].block.offset > d)
    ensures Entries(AckRange(q, start, end), d, room, eof) == ThenAck(Entries(q, d, room, eof), start, end)
  {
    var r := AckRange(q, start, end);
    AckRangeSorted(q, start, end);
    if r != [] {
      assert r[0] in r;
      var i :| 0 <= i < |q| && q[i].block == r[0].block;
      assert q[0].block.offset <= q[i].block.offset;
    }
  }

  /** What is required of the queue holds for its tail, from a position d' on that the
      first entry reaches and beyond which it does not help. */
  lemma TailOfQueue(q: seq<Mark>, d: nat, d': nat, room: nat, room': nat, start: nat, end: nat, eof: bool)
    requires q != [] && SortedByRange(q) && Apart(q) && forall m :: m in q ==> !m.Done()
    requires forall m :: m in q && m.distributed && m.block.eof ==> eof
    requires RunSurvives(q, d, room, start, end) && d <= d' && d + room == d' + room'
    requires forall p :: d <= p < d' ==> q[0].block.Covers(p)
    requires q[0].block.End() <= d' || Erased(q[0], start, end)
    ensures SortedByRange(q[1..]) && Apart(q[1..]) && forall m :: m in q[1..] ==> !m.Done()
    ensures forall m :: m in q[1..] && m.distributed && m.block.eof ==> eof
    ensures RunSurvives(q[1..], d', room', start, end)
  {
    var tail := q[1..];
    TailSorted(q);
    assert forall i :: 0 <= i < |tail| ==> tail[i] == q[i + 1];
    forall p | d' <= p < Min(d' + room', Frontier(tail, d')) ensures SurvivorCovers(tail, start, end, p) {
      FrontierTail(q, d, d');
      assert SurvivorCovers(q, start, end, p);
      var i :| 0 <= i < |q| && q[i].block.Covers(p) && !Erased(q[i], start, end);
      assert tail[i - 1] == q[i];
    }
  }

  lemma FrontierTail(q: seq<Mark>, d: nat, d': nat)
    requires q != [] && d <= d' && forall p :: d <= p < d' ==> q[0].block.Covers(p)
    ensures Frontier(q[1..], d') <= Frontier(q, d)
  {
    forall p | d <= p < Frontier(q[1..], d') ensures Covered(q, p) {
      if p < d' {
        assert q[0].block.Covers(p);
      } else {
        assert Covered(q[1..], p);
        var i :| 0 <= i < |q[1..]| && q[1..][i].block.Covers(p);
        assert q[i + 1].block.Covers(p);
      }
    }
  }

  /** The first entry is erased although the reader lacks some of its bytes: a twin of
      it behind it supplies them. */
  lemma {:induction false} CommuteErased(q: seq<Mark>, d: nat, room: nat, start: nat, end: nat, eof: bool)
    requires SortedByRange(q) && Apart(q) && forall m :: m in q ==> !m.Done()
    requires forall m :: m in q && m.distributed && m.block.eof ==> eof
    requires RunSurvives(q, d, room, start, end)
    requires q != [] && q[0].block.offset <= d < q[0].block.End() && Erased(q[0], start, end)
    ensures Entries(AckRange(q, start, end), d, room, eof) == ThenAck(Entries(q, d, room, eof), start, end)
    decreases |q|, 0
  {
    var m, tail := q[0], q[1..];
    assert AckRange(q, start, end) == [] + AckRange(tail, start, end) == AckRange(tail, start, end);
    assert m in q && q == [m] + tail;
    if room == 0 {
      NothingFits(q, d, start, end);
    } else {
      TwinFollows(q, d, room, start, end);
      TailOfQueue(q, d, d, room, room, start, end, eof);
      CommuteSurviving(tail, d, room, start, end, eof);
      TwinDoesNotMatter(m, tail, d, room, start, end, eof);
    }
  }

  /** No block behind the first ends at or before d, which lies inside the first. */
  lemma NothingFits(q: seq<Mark>, d: nat, start: nat, end: nat)
    requires SortedByRange(q) && Apart(q) && q != [] && q[0].block.offset <= d < q[0].block.End()
    ensures !Fits(AckRange(q[1..], start, end), d, 0)
  {
    var r := AckRange(q[1..], start, end);
    TailSorted(q);
    AckRangeSorted(q[1..], start, end);
    if r != [] {
      assert r[0] in r;
      var i :| 0 <= i < |q[1..]| && q[1..][i].block == r[0].block;
      assert SameOrApart(q[0].block, q[i + 1].block) && !RangeLess(q[i + 1].block, q[0].block);
    }
  }

  lemma TwinFollows(q: seq<Mark>, d: nat, room: nat, start: nat, end: nat)
    requires SortedByRange(q) && Apart(q) && RunSurvives(q, d, room, start, end) && room > 0
    requires q != [] && q[0].block.offset <= d < q[0].block.End() && Erased(q[0], start, end)
    ensures q[1..] != [] && q[1].block == q[0].block
  {
    assert Covered(q, d) by {
      assert q[0].block.Covers(d);
    }
    assert d < Frontier(q, d);
    assert SurvivorCovers(q, start, end, d);
    var i :| 0 <= i < |q| && q[i].block.Covers(d) && !Erased(q[i], start, end);
    assert SameOrApart(q[0].block, q[i].block) && SameOrApart(q[0].block, q[1].block);
    assert !RangeLess(q[1].block, q[0].block) && (i > 1 ==> !RangeLess(q[i].block, q[1].block));
  }

  lemma TwinDoesNotMatter(m: Mark, tail: seq<Mark>, d: nat, room: nat, start: nat, end: nat, eof: bool)
    requires tail != [] && tail[0].block == m.block && m.block.offset <= d && Erased(m, start, end)
    requires !m.Done() && (m.block.eof ==> eof)
    ensures ThenAck(Entries([m] + tail, d, room, eof), start, end) == ThenAck(Entries(tail, d, room, eof), start, end)
  {
    if Beyond(m.block, d) <= room {
      assert tail == [tail[0]] + tail[1..];
      TwinFits(m, tail[0], tail[1..], d, d + Beyond(m.block, d), room, room - Beyond(m.block, d), start, end, eof);
    } else {
      assert ([m] + tail)[0] == m && ([m] + tail)[1..] == tail;
      assert [] + AckRange(tail, start, end) == AckRange(tail, start, end);
    }
  }

  lemma TwinFits(m: Mark, twin: Mark, rest: seq<Mark>, d: nat, d': nat, room: nat, room': nat,
                 start: nat, end: nat, eof: bool)
    requires twin.block == m.block && m.block.offset <= d && Erased(m, start, end)
    requires !m.Done() && (m.block.eof ==> eof)
    requires d' == d + Beyond(m.block, d) && room == room' + Beyond(m.block, d)
    ensures ThenAck(Entries([m] + ([twin] + rest), d, room, eof), start, end)
         == ThenAck(Entries([twin] + rest, d, room, eof), start, end)
  {
    var e := Entries(rest, d', room', eof);
    EntriesFirst(m, [twin] + rest, d, d', room, room', eof);
    EntriesFirst(twin, rest, d', d', room', room', eof);
    EntriesFirst(twin, rest, d, d', room, room', eof);
    EofStays(rest, d', room', eof);
    TwinRetired(m, twin, d, d', e, start, end);
  }

  lemma TwinRetired(m: Mark, twin: Mark, d: nat, d': nat, e: Effect, start: nat, end: nat)
    requires twin.block == m.block && m.block.offset <= d && d' == d + Beyond(m.block, d)
    requires Erased(m, start, end) && !m.Done() && (m.block.eof ==> e.eof)
    ensures ThenAck(FirstRetired(m, d, FirstRetired(twin, d', e)), start, end)
         == ThenAck(FirstRetired(twin, d, e), start, end)
  {
    var queue := Retire(twin) + e.queue;
    AckRangeRetired(m, queue, start, end);
    assert [] + AckRange(queue, start, end) == AckRange(queue, start, end);
    assert NewBytes(m.block, d) + ([] + e.copied) == NewBytes(m.block, d) + e.copied;
  }

  /** As long as DISTRIBUTED bits tell the truth no order matters. */
  lemma TrueBitsSurvive(q: seq<Mark>, d: nat, room: nat, start: nat, end: nat)
    requires forall m :: m in q && m.distributed ==> m.block.End() <= d
    ensures RunSurvives(q, d, room, start, end)
  {
    forall p | d <= p < Min(d + room, Frontier(q, d)) ensures SurvivorCovers(q, start, end, p) {
      assert Covered(q, p);
      var i :| 0 <= i < |q| && q[i].block.Covers(p);
      assert q[i] in q;
    }
  }
}
