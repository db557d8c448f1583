/** Acknowledging received blocks: what handle_recvmarkq_remove_range leaves, what
    handle_recvmarkq_get_nth_unacknowledged enumerates, and how both commute with
    distribution. */
module AckFacts {
  import opened Blocks
  import opened SessionSpec
  import opened SweepFacts

  // ---------- what acknowledging leaves ----------

  /** m' is m with possibly the ACKNOWLEDGED bit added. */
  ghost predicate AckedFrom(m': Mark, m: Mark) {
    m'.block == m.block && m'.distributed == m.distributed && (m.acknowledged ==> m'.acknowledged)
  }

  ghost predicate StemsFrom(m': Mark, q: seq<Mark>) {
    exists m :: m in q && AckedFrom(m', m)
  }

  ghost predicate LivesOn(m: Mark, r: seq<Mark>) {
    exists m' :: m' in r && AckedFrom(m', m)
  }

  /** Every entry left stems from an entry of the queue, none is DONE, and every
      undistributed entry stays. */
  lemma {:induction false} AckRangeConserves(q: seq<Mark>, start: nat, end: nat)
    requires forall m :: m in q ==> !m.Done()
    ensures var r := AckRange(q, start, end);
            && (forall m' :: m' in r ==> !m'.Done() && StemsFrom(m', q))
            && (forall m :: m in q && !m.distributed ==> LivesOn(m, r))
  {
    if q != [] {
      var one, rest := AckOne(q[0], start, end), AckRange(q[1..], start, end);
      AckRangeConserves(q[1..], start, end);
      forall m': Mark | m' in one + rest ensures !m'.Done() && StemsFrom(m', q) {
        if m' in one {
          assert AckedFrom(m', q[0]);
        } else {
          var m :| m in q[1..] && AckedFrom(m', m);
          assert m in q;
        }
      }
      forall m | m in q && !m.distributed ensures LivesOn(m, one + rest) {
        if m == q[0] {
          assert AckedFrom(one[0], m);
        } else {
          assert m in q[1..];
          var m' :| m' in rest && AckedFrom(m', m);
          assert m' in one + rest;
        }
      }
    }
  }

  lemma {:induction false} AckRangeSorted(q: seq<Mark>, start: nat, end: nat)
    requires SortedByRange(q)
    ensures SortedByRange(AckRange(q, start, end))
    ensures forall m :: m in AckRange(q, start, end) ==> HasBlock(q, m.block)
  {
    if q != [] {
      var one, rest := AckOne(q[0], start, end), AckRange(q[1..], start, end);
      TailSorted(q);
      AckRangeSorted(q[1..], start, end);
      forall m | m in rest ensures HasBlock(q, m.block) && !RangeLess(m.block, q[0].block) {
        var i :| 0 <= i < |q[1..]| && q[1..][i].block == m.block;
        assert q[i + 1].block == m.block;
      }
      if one != [] {
        assert forall j :: 0 <= j < |rest| ==> rest[j] in rest;
        SortedCons(one[0], rest);
        assert one[0].block == q[0].block;
        assert one + rest == [one[0]] + rest;
      } else {
        assert one + rest == rest;
      }
    }
  }

  // ---------- the enumeration of unacknowledged blocks ----------

  /** How many of the first i entries are unacknowledged. */
  ghost function Rank(q: seq<Mark>, i: nat): nat
    requires i <= |q|
  {
    if i == 0 then 0 else Rank(q, i - 1) + if q[i - 1].acknowledged then 0 else 1
  }

  lemma {:induction false} RankTail(q: seq<Mark>, i: nat)
    requires 0 < i <= |q|
    ensures Rank(q, i) == Rank(q[1..], i - 1) + if q[0].acknowledged then 0 else 1
  {
    if i > 1 {
      RankTail(q, i - 1);
    } else {
      assert Rank(q, 0) == 0;
    }
  }

  /** The enumeration is exactly the unacknowledged entries, each once, in queue order:
      entry i sits at the number of unacknowledged entries before it, and there is
      nothing else. */
  lemma {:induction false} EnumerationIsExact(q: seq<Mark>)
    ensures |Unacknowledged(q)| == Rank(q, |q|)
    ensures forall i :: 0 <= i < |q| && !q[i].acknowledged ==>
              Rank(q, i) < |Unacknowledged(q)| && Unacknowledged(q)[Rank(q, i)] == q[i].block
  {
    if q != [] {
      EnumerationIsExact(q[1..]);
      RankTail(q, |q|);
      forall i | 0 <= i < |q| && !q[i].acknowledged
        ensures Rank(q, i) < |Unacknowledged(q)| && Unacknowledged(q)[Rank(q, i)] == q[i].block
      {
        EnumeratedAtRank(q, i);
      }
    }
  }

  lemma {:induction false} EnumeratedAtRank(q: seq<Mark>, i: nat)
    requires i < |q| && !q[i].acknowledged
    ensures Rank(q, i) < |Unacknowledged(q)| && Unacknowledged(q)[Rank(q, i)] == q[i].block
  {
    if i > 0 {
      EnumeratedAtRank(q[1..], i - 1);
      RankTail(q, i);
    }
  }

  /** (offset, data_len) order of a list of blocks. */
  ghost predicate SortedBlocks(bs: seq<Block>) {
    forall i, j :: 0 <= i < j < |bs| ==> !RangeLess(bs[j], bs[i])
  }

  lemma {:induction false} EnumerationIsSorted(q: seq<Mark>)
    requires SortedByRange(q)
    ensures SortedBlocks(Unacknowledged(q))
    ensures forall b :: b in Unacknowledged(q) ==> HasBlock(q, b)
  {
    if q != [] {
      TailSorted(q);
      EnumerationIsSorted(q[1..]);
      var rest := Unacknowledged(q[1..]);
      forall b | b in rest ensures HasBlock(q, b) && !RangeLess(b, q[0].block) {
        var i :| 0 <= i < |q[1..]| && q[1..][i].block == b;
        assert q[i + 1].block == b;
      }
      assert forall j :: 0 <= j < |rest| ==> rest[j] in rest;
      assert q[0].block == q[0].block;
    }
  }

  /** The blocks of the list that do not lie in the range. */
  function Outside(bs: seq<Block>, start: nat, end: nat): seq<Block> {
    if bs == [] then []
    else (if bs[0].Inside(start, end) then [] else [bs[0]]) + Outside(bs[1..], start, end)
  }

  /** remove_range takes exactly the blocks inside the range out of the enumeration and
      keeps the order of the others. */
  lemma {:induction false} AckRangeShrinksEnumeration(q: seq<Mark>, start: nat, end: nat)
    ensures Unacknowledged(AckRange(q, start, end)) == Outside(Unacknowledged(q), start, end)
  {
    if q != [] {
      var one, rest := AckOne(q[0], start, end), AckRange(q[1..], start, end);
      AckRangeShrinksEnumeration(q[1..], start, end);
      if one != [] {
        assert (one + rest)[0] == one[0] && (one + rest)[1..] == rest;
      } else {
        assert one + rest == rest;
      }
      var u := Unacknowledged(q);
      if !q[0].acknowledged {
        assert u[0] == q[0].block && u[1..] == Unacknowledged(q[1..]);
      } else {
        assert u == Unacknowledged(q[1..]);
      }
    }
  }

  lemma {:induction false} RetireKeepsEnumeration(p: seq<Mark>, r: seq<Mark>)
    ensures Unacknowledged(RetireAll(p) + r) == Unacknowledged(p + r)
  {
    if p == [] {
      assert RetireAll(p) + r == r && p + r == r;
    } else {
      var rest := RetireAll(p[1..]) + r;
      RetireKeepsEnumeration(p[1..], r);
      Associative(Retire(p[0]), RetireAll(p[1..]), r);
      assert (p + r)[0] == p[0] && (p + r)[1..] == p[1..] + r;
      if p[0].acknowledged {
        assert [] + rest == rest;
      } else {
        var m := p[0].(distributed := true);
        assert ([m] + rest)[0] == m && ([m] + rest)[1..] == rest;
      }
    }
  }

  /** Reading does not change what is still to be acknowledged. */
  lemma ReadKeepsEnumeration(q: seq<Mark>, d: nat, room: nat)
    ensures Unacknowledged(Sweep(q, d, room).kept) == Unacknowledged(q)
  {
    var k := Retired(q, d, room);
    RetireKeepsEnumeration(q[..k], q[k..]);
    assert q[..k] + q[k..] == q;
  }

  /** A block that is put, at EOF or not, joins what is to be acknowledged. */
  lemma {:induction false} PutEnumerates(q: seq<Mark>, m: Mark)
    requires !m.acknowledged
    ensures multiset(Unacknowledged(InsertByRange(q, m))) == multiset(Unacknowledged(q)) + multiset{m.block}
  {
    if q == [] || RangeLess(m.block, q[0].block) {
      assert ([m] + q)[0] == m && ([m] + q)[1..] == q;
    } else {
      var rest := InsertByRange(q[1..], m);
      PutEnumerates(q[1..], m);
      assert ([q[0]] + rest)[0] == q[0] && ([q[0]] + rest)[1..] == rest;
    }
  }

  // ---------- the order of acknowledgement and distribution ----------

  /** What a sweep leaves that matters besides the contiguous count: the queue, the
      bytes copied, and the EOF flag. */
  datatype Effect = Effect(queue: seq<Mark>, copied: seq<byte>, eof: bool)

  ghost function EffectOf(sw: Swept, eof: bool): Effect { Effect(sw.kept, sw.out, eof || sw.eof) }

  ghost function ThenAck(e: Effect, start: nat, end: nat): Effect {
    e.(queue := AckRange(e.queue, start, end))
  }

  /** Retiring m before an effect e. */
  ghost function FirstRetired(m: Mark, d: nat, e: Effect): Effect
    requires m.block.offset <= d
  {
    Effect(Retire(m) + e.queue, NewBytes(m.block, d) + e.copied, m.block.eof || e.eof)
  }

  /** The effect of a sweep, entry by entry. */
  ghost function Entries(q: seq<Mark>, d: nat, room: nat, eof: bool): Effect {
    if Fits(q, d, room) then
      FirstRetired(q[0], d, Entries(q[1..], d + Beyond(q[0].block, d), room - Beyond(q[0].block, d), eof))
    else if q != [] && q[0].block.offset <= d then Effect(q, NewBytes(q[0].block, d)[..room], eof)
    else Effect(q, [], eof)
  }

  lemma {:induction false} SweepByEntry(q: seq<Mark>, d: nat, room: nat, eof: bool)
    ensures EffectOf(Sweep(q, d, room), eof) == Entries(q, d, room, eof)
  {
    if Fits(q, d, room) {
      SweepFirst(q, d, room);
      SweepByEntry(q[1..], d + Beyond(q[0].block, d), room - Beyond(q[0].block, d), eof);
      EffectFirst(q[0], d, Sweep(q[1..], d + Beyond(q[0].block, d), room - Beyond(q[0].block, d)), eof);
    } else {
      SweepNothing(q, d, room);
    }
  }

  lemma EffectFirst(m: Mark, d: nat, r: Swept, eof: bool)
    requires m.block.offset <= d
    ensures EffectOf(RetireFirst(m, d, r), eof) == FirstRetired(m, d, EffectOf(r, eof))
  {
  }

  lemma EntriesFirst(m: Mark, tail: seq<Mark>, d: nat, d': nat, room: nat, room': nat, eof: bool)
    requires m.block.offset <= d && d' == d + Beyond(m.block, d) && room == room' + Beyond(m.block, d)
    ensures Entries([m] + tail, d, room, eof) == FirstRetired(m, d, Entries(tail, d', room', eof))
  {
    assert ([m] + tail)[0] == m && ([m] + tail)[1..] == tail;
  }

  /** Whether a range is acknowledged before or after a sweep makes no difference to
      the queue, the bytes copied or the EOF flag. */
  lemma AckAndSweepCommute(q: seq<Mark>, d: nat, room: nat, start: nat, end: nat, eof: bool)
    requires SortedByRange(q) && forall m :: m in q ==> !m.Done()
    requires forall m :: m in q && m.distributed ==> m.block.End() <= d && (m.block.eof ==> eof)
    ensures EffectOf(Sweep(AckRange(q, start, end), d, room), eof)
         == ThenAck(EffectOf(Sweep(q, d, room), eof), start, end)
  {
    SweepByEntry(q, d, room, eof);
    SweepByEntry(AckRange(q, start, end), d, room, eof);
    CommuteEntries(q, d, room, start, end, eof);
  }

  lemma {:induction false} CommuteEntries(q: seq<Mark>, d: nat, room: nat, start: nat, end: nat, eof: bool)
    requires SortedByRange(q) && forall m :: m in q ==> !m.Done()
    requires forall m :: m in q && m.distributed ==> m.block.End() <= d && (m.block.eof ==> eof)
    ensures Entries(AckRange(q, start, end), d, room, eof) == ThenAck(Entries(q, d, room, eof), start, end)
  {
    if Fits(q, d, room) {
      var m, tail := q[0], q[1..];
      var d', room' := d + Beyond(m.block, d), room - Beyond(m.block, d);
      assert m in q && q == [m] + tail;
      assert !m.Done() && (m.distributed ==> m.block.End() <= d && (m.block.eof ==> eof));
      TailSorted(q);
      CommuteEntries(tail, d', room', start, end, eof);
      CommuteFirst(m, tail, AckRange(tail, start, end), d, d', room, room', start, end, eof);
    } else if q != [] {
      AckedDoesNotFit(q, d, room, start, end);
    }
  }

  lemma CommuteFirst(m: Mark, tail: seq<Mark>, acked: seq<Mark>, d: nat, d': nat, room: nat, room': nat,
                     start: nat, end: nat, eof: bool)
    requires m.block.offset <= d && d' == d + Beyond(m.block, d) && room == room' + Beyond(m.block, d) && !m.Done()
    requires m.distributed && m.block.Inside(start, end) ==> m.block.End() <= d && (m.block.eof ==> eof)
    requires Entries(acked, d', room', eof) == ThenAck(Entries(tail, d', room', eof), start, end)
    ensures Entries(AckOne(m, start, end) + acked, d, room, eof)
         == ThenAck(Entries([m] + tail, d, room, eof), start, end)
  {
    var one := AckOne(m, start, end);
    EntriesFirst(m, tail, d, d', room, room', eof);
    EofStays(tail, d', room', eof);
    AckAfterFirst(m, d, Entries(tail, d', room', eof), start, end, eof);
    if one == [] {
      assert one + acked == acked;
    } else {
      EntriesFirst(one[0], acked, d, d', room, room', eof);
      assert one == [one[0]];
    }
  }

  lemma {:induction false} EofStays(q: seq<Mark>, d: nat, room: nat, eof: bool)
    ensures eof ==> Entries(q, d, room, eof).eof
  {
    if Fits(q, d, room) {
      EofStays(q[1..], d + Beyond(q[0].block, d), room - Beyond(q[0].block, d), eof);
    }
  }

  /** The first entry is erased by the acknowledgement or by the retirement, whichever
      comes second, or by neither. */
  lemma AckAfterFirst(m: Mark, d: nat, e: Effect, start: nat, end: nat, eof: bool)
    requires m.block.offset <= d && !m.Done()
    requires m.distributed && m.block.Inside(start, end) ==> m.block.End() <= d && (m.block.eof ==> e.eof)
    ensures ThenAck(FirstRetired(m, d, e), start, end)
         == if AckOne(m, start, end) == [] then ThenAck(e, start, end)
            else FirstRetired(AckOne(m, start, end)[0], d, ThenAck(e, start, end))
  {
    AckRangeRetired(m, e.queue, start, end);
    assert [] + AckRange(e.queue, start, end) == AckRange(e.queue, start, end) && [] + e.copied == e.copied;
  }

  lemma AckedDoesNotFit(q: seq<Mark>, d: nat, room: nat, start: nat, end: nat)
    requires q != [] && !Fits(q, d, room) && SortedByRange(q)
    requires forall m :: m in q && m.distributed ==> m.block.End() <= d
    ensures var r := AckRange(q, start, end);
            && !Fits(r, d, room)
            && (if q[0].block.offset <= d then r != [] && r[0].block == q[0].block
                else r == [] || r[0].block.offset > d)
  {
    var r := AckRange(q, start, end);
    assert q[0] in q;
    if q[0].block.offset > d && r != [] {
      AckRangeSorted(q, start, end);
      TailSorted(q);
      assert r[0] in r;
      var i :| 0 <= i < |q| && q[i].block == r[0].block;
      assert q[0].block.offset <= q[i].block.offset;
    } else if q[0].block.offset <= d {
      assert r[0] == AckOne(q[0], start, end)[0];
    }
  }

  lemma AckRangeRetired(m: Mark, kept: seq<Mark>, start: nat, end: nat)
    requires !m.Done()
    ensures AckRange(Retire(m) + kept, start, end)
         == (if AckOne(m, start, end) == [] then [] else Retire(AckOne(m, start, end)[0])) + AckRange(kept, start, end)
  {
    if m.acknowledged {
      assert Retire(m) + kept == kept;
    } else {
      var m' := m.(distributed := true);
      assert ([m'] + kept)[0] == m' && ([m'] + kept)[1..] == kept;
    }
  }

  /** It makes a difference to their_contiguous_sent_bytes exactly when the count lags
      and the read would retire entries, all of which the acknowledgement erases: an
      entry distributed by an earlier read would have advanced the count once more. */
  lemma AckFirstKeepsContiguous(q: seq<Mark>, d: nat, room: nat, start: nat, end: nat, contiguous: nat)
    requires forall m :: m in q && m.distributed ==> m.block.End() <= d
    ensures Max(contiguous, Sweep(AckRange(q, start, end), d, room).settled)
            == Max(contiguous, Sweep(q, d, room).settled)
       <==> contiguous >= d || !Fits(q, d, room) || Fits(AckRange(q, start, end), d, room)
  {
    SettledAfterAck(q, d, room, start, end);
  }

  /** The sweep of r settles what that of q settles, or r lets it retire nothing and q
      nothing new. */
  ghost predicate SettledAlike(r: seq<Mark>, q: seq<Mark>, d: nat, room: nat) {
    if Fits(r, d, room) then Settled(r, d, room) == Settled(q, d, room) >= d
    else Settled(q, d, room) == if Fits(q, d, room) then d else 0
  }

  lemma {:induction false} SettledAfterAck(q: seq<Mark>, d: nat, room: nat, start: nat, end: nat)
    requires forall m :: m in q && m.distributed ==> m.block.End() <= d
    ensures SettledAlike(AckRange(q, start, end), q, d, room)
  {
    if q != [] {
      var m, one, rest := q[0], AckOne(q[0], start, end), AckRange(q[1..], start, end);
      assert m in q && AckRange(q, start, end) == one + rest;
      if one == [] {
        SettledAfterAck(q[1..], d, room, start, end);
        SettledErased(rest, q, d, room);
        assert [] + rest == rest;
      } else if Fits(q, d, room) {
        SettledAfterAck(q[1..], d + Beyond(m.block, d), room - Beyond(m.block, d), start, end);
        SettledKept(one[0], rest, q, d, room);
        assert one == [one[0]];
      } else {
        assert (one + rest)[0].block == m.block;
      }
    }
  }

  lemma SettledErased(r: seq<Mark>, q: seq<Mark>, d: nat, room: nat)
    requires q != [] && q[0].block.End() <= d && SettledAlike(r, q[1..], d, room)
    ensures SettledAlike(r, q, d, room)
  {
    assert Settled(q, d, room) == Max(d, Settled(q[1..], d, room));
  }

  lemma SettledKept(m: Mark, rest: seq<Mark>, q: seq<Mark>, d: nat, room: nat)
    requires Fits(q, d, room) && m.block == q[0].block
    requires SettledAlike(rest, q[1..], d + Beyond(m.block, d), room - Beyond(m.block, d))
    ensures SettledAlike([m] + rest, q, d, room)
  {
    assert ([m] + rest)[0] == m && ([m] + rest)[1..] == rest;
  }

  /** A sorted queue, with the count lagging inside a queued block, where it does. */
  lemma AckFirstCanDelayContiguous()
    ensures var bytes := [0, 1, 2, 3, 4, 5, 6, 7, 8, 9];
            var q := [Mark(Block(0, bytes[..5], false), true, false), Mark(Block(5, bytes[5..], false), false, false)];
            && SortedByRange(q) && LagWithinBlock(q, 5, 7)
            && Max(5, Sweep(q, 7, 1).settled) == 7
            && Max(5, Sweep(AckRange(q, 0, 5), 7, 1).settled) == 5
  {
    var bytes := [0, 1, 2, 3, 4, 5, 6, 7, 8, 9];
    var a, b := Mark(Block(0, bytes[..5], false), true, false), Mark(Block(5, bytes[5..], false), false, false);
    assert b in [a, b];
    assert [a, b][1..] == [b] && [b][1..] == [];
    assert AckRange([b], 0, 5) == [b];
    assert AckRange([a, b], 0, 5) == [b];
    assert !Fits([b], 7, 1);
  }
}
