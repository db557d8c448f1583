/** The values a session handles: bytes, blocks, and the entries of its queues. */
module Blocks {

  newtype byte = x: int | 0 <= x < 256

  datatype Option<+T> = None | Some(value: T)

  /** What the session itself puts into a head block: the bytes and whether the
      block carries an end-of-stream mark (anything but CURVECPR_BLOCK_STREAM). */
  datatype Chunk = Chunk(data: seq<byte>, eof: bool)

  /** A block as it travels: the messager has stamped the stream offset. */
  datatype Block = Block(offset: nat, data: seq<byte>, eof: bool) {
    function End(): nat { offset + |data| }

    predicate Covers(p: nat) { offset <= p < End() }

    predicate Inside(start: nat, end: nat) { start <= offset && End() <= end }
  }

  /** An entry of sendmarkq_: a block waiting for acknowledgement and the time it
      was last sent. */
  datatype Sent = Sent(block: Block, clock: nat)

  /** An entry of recvmarkq_: a received block with its two status bits. */
  datatype Mark = Mark(block: Block, distributed: bool, acknowledged: bool) {
    predicate Done() { distributed && acknowledged }
  }

  /** block_range_compare: by offset, then by length. */
  predicate RangeLess(a: Block, b: Block) {
    if a.offset == b.offset then |a.data| < |b.data| else a.offset < b.offset
  }

  ghost predicate SortedByRange(q: seq<Mark>) {
    forall i, j :: 0 <= i < j < |q| ==> !RangeLess(q[j].block, q[i].block)
  }

  /** block_clock_compare orders sendmarkq_ by clock. */
  ghost predicate SortedByClock(q: seq<Sent>) {
    forall i, j :: 0 <= i < j < |q| ==> q[i].clock <= q[j].clock
  }

  function Max(a: nat, b: nat): nat { if a < b then b else a }

  function Min(a: nat, b: nat): nat { if a < b then a else b }

  /** The buffer with its bytes from `at` on overwritten. */
  function Fill(buffer: seq<byte>, at: nat, bytes: seq<byte>): seq<byte>
    requires at + |bytes| <= |buffer|
  {
    buffer[..at] + bytes + buffer[at + |bytes|..]
  }

  /** The bytes of a list of blocks, end to end. */
  function Flat(blocks: seq<Block>): seq<byte> {
    if blocks == [] then []
    else Flat(blocks[..|blocks| - 1]) + blocks[|blocks| - 1].data
  }

  /** The bytes of a list of byte strings, end to end. */
  function Joined(parts: seq<seq<byte>>): seq<byte> {
    if parts == [] then [] else Joined(parts[..|parts| - 1]) + parts[|parts| - 1]
  }

  lemma FlatAppend(blocks: seq<Block>, b: Block)
    ensures Flat(blocks + [b]) == Flat(blocks) + b.data
  {
    assert (blocks + [b])[..|blocks|] == blocks;
  }

  lemma JoinedAppend(parts: seq<seq<byte>>, p: seq<byte>)
    ensures Joined(parts + [p]) == Joined(parts) + p
  {
    assert (parts + [p])[..|parts|] == parts;
  }

  lemma Associative<T>(a: seq<T>, b: seq<T>, c: seq<T>)
    ensures (a + b) + c == a + (b + c)
  {
  }
}
