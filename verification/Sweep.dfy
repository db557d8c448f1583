/** What the sweep in `read` achieves, stated without reference to how it loops. */
module SweepFacts {
  import opened Blocks
  import opened SessionSpec

  // ---------- independent definitions ----------

  /** Some queued block contains stream position p. */
  ghost predicate Covered(q: seq<Mark>, p: nat) {
    exists i :: 0 <= i < |q| && q[i].block.Covers(p)
  }

  ghost function MaxEnd(q: seq<Mark>): nat {
    if q == [] then 0 else Max(q[0].block.End(), MaxEnd(q[1..]))
  }

  lemma CoveredBelowMaxEnd(q: seq<Mark>, p: nat)
    ensures Covered(q, p) ==> p < MaxEnd(q)
  {
    if q != [] && !q[0].block.Covers(p) {
      assert Covered(q, p) ==> Covered(q[1..], p);
      CoveredBelowMaxEnd(q[1..], p);
    }
  }

  /** The first position from d on that no queued block contains. */
  ghost function Frontier(q: seq<Mark>, d: nat): (f: nat)
    ensures f >= d && !Covered(q, f)
    ensures forall p :: d <= p < f ==> Covered(q, p)
    decreases MaxEnd(q) - d
  {
    CoveredBelowMaxEnd(q, d);
    if Covered(q, d) then Frontier(q, d + 1) else d
  }

  /** The block carries the stream's bytes. */
  ghost predicate FromStream(b: Block, stream: seq<byte>) {
    b.End() <= |stream| && b.data == stream[b.offset..b.End()]
  }

  ghost predicate OfStream(q: seq<Mark>, stream: seq<byte>) {
    forall i :: 0 <= i < |q| ==> FromStream(q[i].block, stream)
  }

  /** Nothing the reader could still get from this queue. */
  ghost predicate Drained(q: seq<Mark>, d: nat) {
    forall i :: 0 <= i < |q| && q[i].block.offset <= d ==> q[i].block.End() <= d && !q[i].block.eof
  }

  lemma TailSorted(q: seq<Mark>)
    requires q != [] && SortedByRange(q)
    ensures SortedByRange(q[1..])
    ensures forall j :: 0 <= j < |q| ==> q[0].block.offset <= q[j].block.offset
    ensures forall j :: 0 < j < |q| ==> !RangeLess(q[j].block, q[0].block)
  {
    assert forall i :: 0 <= i < |q[1..]| ==> q[1..][i] == q[i + 1];
  }

  // ---------- the shape of a sweep ----------

  /** A sweep that retires its first entry goes on with the others. */
  lemma SweepFirst(q: seq<Mark>, d: nat, room: nat)
    requires Fits(q, d, room)
    ensures Sweep(q, d, room)
         == RetireFirst(q[0], d, Sweep(q[1..], d + Beyond(q[0].block, d), room - Beyond(q[0].block, d)))
  {
    SplitFirst(q, Retired(q, d, room));
  }

  lemma SweepNothing(q: seq<Mark>, d: nat, room: nat)
    requires !Fits(q, d, room)
    ensures var sw := Sweep(q, d, room);
            && sw.kept == q && !sw.eof
            && sw.out == if q != [] && q[0].block.offset <= d then NewBytes(q[0].block, d)[..room] else []
  {
  }

  lemma SplitFirst(q: seq<Mark>, k: nat)
    requires 0 < k <= |q|
    ensures RetireAll(q[..k]) + q[k..] == Retire(q[0]) + (RetireAll(q[1..][..k - 1]) + q[1..][k - 1..])
    ensures AnyEof(q[..k]) <==> q[0].block.eof || AnyEof(q[1..][..k - 1])
  {
    assert q[..k][1..] == q[1..][..k - 1] && q[1..][k - 1..] == q[k..] && q[..k] == [q[0]] + q[..k][1..];
    Associative(Retire(q[0]), RetireAll(q[1..][..k - 1]), q[k..]);
    if AnyEof(q[..k]) && !q[0].block.eof {
      var i :| 0 <= i < k && q[..k][i].block.eof;
      assert q[1..][..k - 1][i - 1].block.eof;
    }
    if AnyEof(q[1..][..k - 1]) {
      var i :| 0 <= i < k - 1 && q[1..][..k - 1][i].block.eof;
      assert q[..k][i + 1].block.eof;
    }
    assert q[..k][0] == q[0];
  }


  /** A sweep retires a prefix of the queue, all of whose bytes the reader then has. */
  lemma {:induction false} RetiredEnd(q: seq<Mark>, d: nat, room: nat)
    ensures forall i :: 0 <= i < Retired(q, d, room) ==> q[i].block.End() <= SweepEnd(q, d, room)
  {
    if Fits(q, d, room) {
      RetiredEnd(q[1..], d + Beyond(q[0].block, d), room - Beyond(q[0].block, d));
      assert forall i :: 0 < i < |q| ==> q[i] == q[1..][i - 1];
    }
  }

  /** The sweep stops at a block part of which it copies. */
  ghost predicate StopsInside(q: seq<Mark>, d: nat, room: nat) {
    var k := Retired(q, d, room);
    k < |q| && q[k].block.offset <= SweepEnd(q, d, room)
  }

  /** It stops inside a block only when the buffer is full. */
  lemma {:induction false} StopsInsideBlock(q: seq<Mark>, d: nat, room: nat)
    requires StopsInside(q, d, room)
    ensures var b := q[Retired(q, d, room)].block;
            && SweepEnd(q, d, room) == d + room < b.End()
            && b.offset <= Max(d, Settled(q, d, room))
  {
    if Fits(q, d, room) {
      StopsInsideBlock(q[1..], d + Beyond(q[0].block, d), room - Beyond(q[0].block, d));
    }
  }

  /** All of the bytes copied are settled, unless the sweep stopped inside a block. */
  lemma {:induction false} SettledEnd(q: seq<Mark>, d: nat, room: nat)
    ensures Settled(q, d, room) <= SweepEnd(q, d, room)
    ensures !StopsInside(q, d, room) ==> Max(d, Settled(q, d, room)) == SweepEnd(q, d, room)
  {
    if Fits(q, d, room) {
      SettledEnd(q[1..], d + Beyond(q[0].block, d), room - Beyond(q[0].block, d));
    }
  }

  ghost predicate HasBlock(q: seq<Mark>, b: Block) {
    exists i :: 0 <= i < |q| && q[i].block == b
  }

  lemma {:induction false} RetireAllFrom(q: seq<Mark>)
    ensures forall m :: m in RetireAll(q) ==> m.distributed && !m.acknowledged && HasBlock(q, m.block)
  {
    if q != [] {
      RetireAllFrom(q[1..]);
      forall m | m in RetireAll(q) ensures m.distributed && !m.acknowledged && HasBlock(q, m.block) {
        if m in RetireAll(q[1..]) {
          var i :| 0 <= i < |q[1..]| && q[1..][i].block == m.block;
          assert q[i + 1].block == m.block;
        } else {
          assert m in Retire(q[0]);
          assert q[0].block == m.block;
        }
      }
    }
  }

  lemma SortedCons(m: Mark, q: seq<Mark>)
    requires SortedByRange(q)
    requires forall j :: 0 <= j < |q| ==> !RangeLess(q[j].block, m.block)
    ensures SortedByRange([m] + q)
  {
  }

  /** Insertion behind every entry that is not larger, equal ones included. */
  lemma {:induction false} InsertByRangeAt(q: seq<Mark>, m: Mark, i: nat)
    requires i <= |q|
    requires forall j :: 0 <= j < i ==> !RangeLess(m.block, q[j].block)
    requires i == |q| || RangeLess(m.block, q[i].block)
    ensures InsertByRange(q, m) == q[..i] + [m] + q[i..]
  {
    if i > 0 {
      InsertByRangeAt(q[1..], m, i - 1);
    }
  }

  lemma {:induction false} InsertByRangeKeeps(q: seq<Mark>, m: Mark)
    requires SortedByRange(q)
    ensures SortedByRange(InsertByRange(q, m))
    ensures forall x :: x in InsertByRange(q, m) <==> x in q || x == m
  {
    if q != [] && !RangeLess(m.block, q[0].block) {
      TailSorted(q);
      InsertByRangeKeeps(q[1..], m);
      var r := InsertByRange(q[1..], m);
      assert q == [q[0]] + q[1..];
      forall j | 0 <= j < |r| ensures !RangeLess(r[j].block, q[0].block) {
        assert r[j] in r;
        if r[j] != m {
          var i :| 0 <= i < |q[1..]| && q[1..][i] == r[j];
          assert q[i + 1] == r[j];
        }
      }
      SortedCons(q[0], r);
    } else if q != [] {
      TailSorted(q);
      SortedCons(m, q);
    }
  }

  lemma {:induction false} RetireAllSorted(p: seq<Mark>, r: seq<Mark>)
    requires SortedByRange(p + r)
    ensures SortedByRange(RetireAll(p) + r)
  {
    if p == [] {
      assert RetireAll(p) + r == p + r;
    } else {
      var rest := RetireAll(p[1..]) + r;
      assert SortedByRange(p[1..] + r) by {
        TailSorted(p + r);
        assert (p + r)[1..] == p[1..] + r;
      }
      RetireAllSorted(p[1..], r);
      Associative(Retire(p[0]), RetireAll(p[1..]), r);
      if !p[0].acknowledged {
        RetireAllNotLess(p, r, rest);
        SortedCons(p[0].(distributed := true), rest);
      } else {
        assert [] + rest == rest;
      }
    }
  }

  lemma RetireAllNotLess(p: seq<Mark>, r: seq<Mark>, rest: seq<Mark>)
    requires p != [] && SortedByRange(p + r) && rest == RetireAll(p[1..]) + r
    ensures forall j :: 0 <= j < |rest| ==> !RangeLess(rest[j].block, p[0].block)
  {
    var left := RetireAll(p[1..]);
    TailSorted(p + r);
    RetireAllFrom(p[1..]);
    forall j | 0 <= j < |rest| ensures !RangeLess(rest[j].block, p[0].block) {
      if j < |left| {
        assert left[j] in left;
        var i :| 0 <= i < |p[1..]| && p[1..][i].block == left[j].block;
        assert (p + r)[i + 1].block == left[j].block;
      } else {
        assert rest[j] == (p + r)[j - |left| + |p|];
      }
    }
  }

  // ---------- the copied run is maximal ----------

  /** The bytes copied are covered by the queue. */
  lemma {:induction false} SweepCovers(q: seq<Mark>, d: nat, room: nat)
    ensures forall p :: d <= p < SweepEnd(q, d, room) ==> Covered(q, p)
  {
    if q != [] && q[0].block.offset <= d {
      var n := Beyond(q[0].block, d);
      forall p | d <= p < d + n ensures Covered(q, p) {
        assert q[0].block.Covers(p);
      }
      if n <= room {
        SweepCovers(q[1..], d + n, room - n);
        forall p | Covered(q[1..], p) ensures Covered(q, p) {
          var i :| 0 <= i < |q[1..]| && q[1..][i].block.Covers(p);
          assert q[i + 1].block.Covers(p);
        }
      }
    }
  }

  /** One call copies exactly min(room, run) bytes, where run is the longest gap-free
      stretch from d that the union of the queued ranges covers. */
  lemma SweepCopiesMaximalRun(q: seq<Mark>, d: nat, room: nat)
    requires SortedByRange(q)
    ensures |Sweep(q, d, room).out| == Min(room, Frontier(q, d) - d)
  {
    var e, k := SweepEnd(q, d, room), Retired(q, d, room);
    SweepCovers(q, d, room);
    RetiredEnd(q, d, room);
    if e < d + room && Covered(q, e) {
      var i :| 0 <= i < |q| && q[i].block.Covers(e);
      assert i >= k && q[k].block.offset <= q[i].block.offset;
      StopsInsideBlock(q, d, room);
    }
    assert e > Frontier(q, d) ==> Covered(q, Frontier(q, d));
  }

  /** And they are the stream's bytes from d on. */
  lemma SweepCopiesStream(q: seq<Mark>, d: nat, room: nat, stream: seq<byte>)
    requires OfStream(q, stream) && d <= |stream|
    ensures var out := Sweep(q, d, room).out;
            d + |out| <= |stream| && out == stream[d..d + |out|]
  {
    OutOfStream(q, d, room, stream);
  }

  /** The bytes are the stream's at position d. */
  ghost predicate FoundAt(bytes: seq<byte>, d: nat, stream: seq<byte>) {
    d + |bytes| <= |stream| && bytes == stream[d..d + |bytes|]
  }

  lemma {:induction false} OutOfStream(q: seq<Mark>, d: nat, room: nat, stream: seq<byte>)
    requires OfStream(q, stream) && d <= |stream|
    ensures FoundAt(SweepOut(q, d, room), d, stream)
  {
    if q != [] && q[0].block.offset <= d {
      var bytes := NewBytes(q[0].block, d);
      FirstOfStream(q, d, stream);
      if Fits(q, d, room) {
        OutOfStream(q[1..], d + Beyond(q[0].block, d), room - Beyond(q[0].block, d), stream);
        FoundBehind(bytes, SweepOut(q[1..], d + Beyond(q[0].block, d), room - Beyond(q[0].block, d)), d, stream);
      } else {
        FoundPrefix(bytes, room, d, stream);
      }
    }
  }

  lemma FirstOfStream(q: seq<Mark>, d: nat, stream: seq<byte>)
    requires OfStream(q, stream) && q != [] && q[0].block.offset <= d <= |stream|
    ensures OfStream(q[1..], stream) && d + Beyond(q[0].block, d) <= |stream|
    ensures FoundAt(NewBytes(q[0].block, d), d, stream)
  {
    assert forall i :: 0 <= i < |q[1..]| ==> q[1..][i] == q[i + 1];
  }

  lemma FoundBehind(bytes: seq<byte>, more: seq<byte>, d: nat, stream: seq<byte>)
    requires FoundAt(bytes, d, stream) && FoundAt(more, d + |bytes|, stream)
    ensures FoundAt(bytes + more, d, stream)
  {
  }

  lemma FoundPrefix(bytes: seq<byte>, n: nat, d: nat, stream: seq<byte>)
    requires FoundAt(bytes, d, stream) && n <= |bytes|
    ensures FoundAt(bytes[..n], d, stream)
  {
  }

  // ---------- what stays in the queue ----------

  /** Entries keep their order and their blocks. */
  lemma SweepKeepsOrder(q: seq<Mark>, d: nat, room: nat)
    requires SortedByRange(q)
    ensures SortedByRange(Sweep(q, d, room).kept)
    ensures forall m :: m in Sweep(q, d, room).kept ==> HasBlock(q, m.block)
  {
    var k := Retired(q, d, room);
    assert q[..k] + q[k..] == q;
    RetireAllSorted(q[..k], q[k..]);
    RetireAllFrom(q[..k]);
    forall m | m in Sweep(q, d, room).kept ensures HasBlock(q, m.block) {
      if m in RetireAll(q[..k]) {
        var i :| 0 <= i < |q[..k]| && q[..k][i].block == m.block;
        assert q[i].block == m.block;
      } else {
        var i :| 0 <= i < |q[k..]| && q[k..][i] == m;
        assert q[k + i].block == m.block;
      }
    }
  }

  /** An entry becomes distributed only when the reader has all of its bytes, and is
      erased only if it was acknowledged as well: no entry is left DONE, and every
      entry with bytes that the reader lacks stays, undistributed. */
  lemma SweepConserves(q: seq<Mark>, d: nat, room: nat)
    requires forall m :: m in q ==> !m.Done()
    ensures var sw := Sweep(q, d, room);
            && (forall m :: m in sw.kept ==> !m.Done())
            && (forall m :: m in sw.kept && m.distributed ==>
                  m in q || (m.block.End() <= d + |sw.out| && (m.block.eof ==> sw.eof)))
            && (forall m :: m in q && m.block.End() > d + |sw.out| ==> m in sw.kept)
  {
    forall m | m in Sweep(q, d, room).kept
      ensures !m.Done() && (m in q || RetiredIn(m, q, d, room))
    {
      KeptEntry(q, d, room, m);
    }
    forall m | m in q && m.block.End() > SweepEnd(q, d, room) ensures m in Sweep(q, d, room).kept {
      UnreadStays(q, d, room, m);
    }
  }

  /** The reader has all of the entry's bytes, and has met its EOF mark. */
  ghost predicate RetiredIn(m: Mark, q: seq<Mark>, d: nat, room: nat) {
    m.block.End() <= SweepEnd(q, d, room) && (m.block.eof ==> Sweep(q, d, room).eof)
  }

  lemma KeptEntry(q: seq<Mark>, d: nat, room: nat, m: Mark)
    requires (forall x :: x in q ==> !x.Done()) && m in Sweep(q, d, room).kept
    ensures !m.Done() && (m in q || RetiredIn(m, q, d, room))
  {
    var k := Retired(q, d, room);
    if m in RetireAll(q[..k]) {
      RetiredEnd(q, d, room);
      RetireAllFrom(q[..k]);
      var i :| 0 <= i < |q[..k]| && q[..k][i].block == m.block;
      assert q[i].block == m.block;
    } else {
      assert m in q[k..];
    }
  }

  lemma UnreadStays(q: seq<Mark>, d: nat, room: nat, m: Mark)
    requires m in q && m.block.End() > SweepEnd(q, d, room)
    ensures m in Sweep(q, d, room).kept
  {
    var k := Retired(q, d, room);
    RetiredEnd(q, d, room);
    var i :| 0 <= i < |q| && q[i] == m;
    assert i >= k && q[k..][i - k] == m;
  }

  /** A read into a non-empty buffer in terms of its sweep. */
  lemma SweepOfRead(s: Sess, len: nat)
    requires 0 < len && s.rx.readOffset <= len
    ensures var r, sw := SessionSpec.Read(s, len), Sweep(s.rx.queue, s.rx.distributed, len - s.rx.readOffset);
            var off := s.rx.readOffset + |sw.out|;
            && r.s == s.(rx := r.s.rx, eof := s.eof || sw.eof) && r.out == sw.out && r.eofBlock == sw.eof
            && r.s.rx == s.rx.(queue := sw.kept, distributed := s.rx.distributed + |sw.out|,
                               readOffset := r.s.rx.readOffset, contiguous := Max(s.rx.contiguous, sw.settled))
            && (r.outcome.Retry? ==> !r.s.eof && off < len && r.s.rx.readOffset == off)
            && (r.outcome.Finished? ==> r.s.rx.readOffset == 0 && r.outcome.bytes == off)
  {
  }

  // ---------- EOF, acknowledgement bound, waiting ----------

  /** A read into a non-empty buffer finishes exactly when the buffer is full or EOF is
      pending, with the bytes it holds then; it reports EOF exactly when EOF is pending,
      be the buffer full or not; and EOF is pending if it was, or the read met it. */
  lemma ReadReports(s: Sess, len: nat)
    requires 0 < len && s.rx.readOffset <= len
    ensures var r := SessionSpec.Read(s, len);
            var held := s.rx.readOffset + |r.out|;
            && (r.s.eof <==> s.eof || r.eofBlock)
            && (r.outcome.Finished? <==> held == len || r.s.eof)
            && (r.outcome.Finished? ==> r.outcome.bytes == held && (r.outcome.ec == Eof <==> r.s.eof))
            && (r.outcome.Retry? ==> r.s.rx.readOffset == held < len)
  {
  }

  /** A read into an empty buffer succeeds, EOF or not, and starts the next one afresh. */
  lemma EmptyReadSucceeds(s: Sess)
    ensures var r := SessionSpec.Read(s, 0);
            && r.outcome == Finished(Success, 0) && r.out == [] && !r.eofBlock
            && r.s == s.(rx := s.rx.(readOffset := 0))
  {
  }

  /** EOF blocks all ending at `total`, `read` reports one exactly when the reader then
      has the whole stream and such a block is queued. */
  lemma SweepSeesEof(q: seq<Mark>, d: nat, room: nat, total: nat)
    requires SortedByRange(q) && d <= total
    requires forall i :: 0 <= i < |q| ==> q[i].block.End() <= total
    requires forall i :: 0 <= i < |q| && q[i].block.eof ==> q[i].block.End() == total
    ensures var sw := Sweep(q, d, room);
            sw.eof <==> (d + |sw.out| >= total && exists i :: 0 <= i < |q| && q[i].block.eof)
  {
    var k, sw := Retired(q, d, room), Sweep(q, d, room);
    RetiredEnd(q, d, room);
    if sw.eof {
      var i :| 0 <= i < |q[..k]| && q[..k][i].block.eof;
      assert q[i].block.eof;
    }
    if d + |sw.out| >= total && exists i :: 0 <= i < |q| && q[i].block.eof {
      var i :| 0 <= i < |q| && q[i].block.eof;
      if i < k {
        assert q[..k][i].block.eof;
      } else {
        assert q[k].block.offset <= q[i].block.offset;
        StopsInsideBlock(q, d, room);
      }
    }
  }

  /** their_contiguous_sent_bytes lags the read position only inside one block that is
      still queued. */
  ghost predicate LagWithinBlock(q: seq<Mark>, contiguous: nat, d: nat) {
    && contiguous <= d
    && (contiguous < d ==>
          exists m :: m in q && !m.distributed && m.block.offset <= contiguous && d < m.block.End())
  }

  lemma SweepKeepsLag(q: seq<Mark>, d: nat, room: nat, contiguous: nat)
    requires SortedByRange(q) && LagWithinBlock(q, contiguous, d)
    requires forall m :: m in q && m.distributed ==> m.block.End() <= d
    ensures var sw := Sweep(q, d, room);
            LagWithinBlock(sw.kept, Max(contiguous, sw.settled), d + |sw.out|)
  {
    var k, sw := Retired(q, d, room), Sweep(q, d, room);
    SettledEnd(q, d, room);
    if StopsInside(q, d, room) {
      StopsInsideBlock(q, d, room);
      assert q[k] in q && q[k] in q[k..];
      if k == 0 && contiguous < d {
        var m :| m in q && !m.distributed && m.block.offset <= contiguous && d < m.block.End();
        var i :| 0 <= i < |q| && q[i] == m;
        assert q[0].block.offset <= q[i].block.offset;
      }
    } else if k == 0 {
      assert sw.kept == q;
    }
  }

  /** When a call returns false nothing is left for the reader: no queued block
      contains the next byte and no EOF block is due. */
  lemma SweepDrains(q: seq<Mark>, d: nat, room: nat)
    requires SortedByRange(q)
    ensures var sw := Sweep(q, d, room);
            |sw.out| < room && !sw.eof ==> Drained(sw.kept, d + |sw.out|)
  {
    var k, sw := Retired(q, d, room), Sweep(q, d, room);
    var left := RetireAll(q[..k]);
    RetiredEnd(q, d, room);
    RetireAllFrom(q[..k]);
    if |sw.out| < room && !sw.eof {
      if StopsInside(q, d, room) {
        StopsInsideBlock(q, d, room);
      }
      forall m | m in left ensures m.block.End() <= d + |sw.out| && !m.block.eof {
        var j :| 0 <= j < |q[..k]| && q[..k][j].block == m.block;
        assert q[j].block == m.block;
      }
      assert forall i :: 0 <= i < |left| ==> sw.kept[i] == left[i] && left[i] in left;
      assert forall i :: |left| <= i < |sw.kept| ==> sw.kept[i] == q[k + (i - |left|)];
      assert forall j :: k <= j < |q| ==> q[k].block.offset <= q[j].block.offset;
    }
  }
}
