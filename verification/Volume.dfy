/** A volume in memory and on disk, with the chain of blocks of every inode. */
module Volume {
  import opened Bytes
  import opened Sums
  import opened Layout
  import opened Metadata

  /** Block number `pos` of an inode's chain. */
  datatype Slot = Slot(inode: nat, pos: nat)

  /** `chains` lists the blocks each inode's `next` links visit, and `owner` inverts it; both are proof data. */
  datatype World = World(m: Meta, image: seq<byte>, chains: seq<seq<nat>>, owner: map<nat, Slot>)

  predicate IsFree(b: Block) { !b.used }

  predicate IsEmpty(x: Inode) { x.kind == Empty }

  function UsedBit(b: Block): nat { if b.used then 1 else 0 }

  function LiveBit(x: Inode): nat { if x.kind == Empty then 0 else 1 }

  function Len(c: seq<nat>): nat { |c| }

  function FreeBlock(w: World): int { Least(IsFree, w.m.blocks) }

  function FreeInode(w: World): int { Least(IsEmpty, w.m.inodes) }

  // ---- the invariant ----

  ghost predicate Tables(w: World) {
    && Fits(w.m.geo)
    && |w.m.inodes| == |w.chains| == w.m.geo.inodeCount
    && |w.m.blocks| == w.m.geo.blockCount
    && MetaEnd(w.m.geo) <= |w.image|
  }

  /** The block at a place of a chain belongs there and nowhere else, and links to the next one or ends with -1. */
  ghost predicate Placed(w: World, i: nat, p: nat)
    requires i < |w.chains| && p < |w.chains[i]|
  {
    var c: seq<nat> := w.chains[i];
    && c[p] < |w.m.blocks|
    && c[p] in w.owner && w.owner[c[p]] == Slot(i, p)
    && w.m.blocks[c[p]].next == if p + 1 < |c| then c[p + 1] else -1
  }

  ghost predicate Owned(w: World, b: nat)
    requires b in w.owner
  {
    var s := w.owner[b];
    b < |w.m.blocks| && s.inode < |w.chains| && s.pos < |w.chains[s.inode]| && w.chains[s.inode][s.pos] == b
  }

  /** An inode in use starts its chain at `root`; an EMPTY one has none and all its fields are zero. */
  ghost predicate Rooted(w: World, i: nat)
    requires i < |w.chains| && i < |w.m.inodes|
  {
    var x := w.m.inodes[i];
    if x.kind == Empty then w.chains[i] == [] && x == EMPTY_INODE
    else w.chains[i] != [] && x.root == w.chains[i][0] && x.size < TWO32 && Signed(x.parent)
  }

  ghost predicate Linked(w: World) {
    && |w.m.inodes| == |w.chains|
    && (forall i | 0 <= i < |w.chains| :: Rooted(w, i))
    && (forall i, p | 0 <= i < |w.chains| && 0 <= p < |w.chains[i]| :: Placed(w, i, p))
    && (forall b | b in w.owner :: Owned(w, b))
    && (forall b | 0 <= b < |w.m.blocks| :: w.m.blocks[b].used <==> b in w.owner)
  }

  /** Used blocks hold at most `blockSize` bytes, those with a successor exactly that, and their bytes are in the
      file. Free ones are all zero: their `next` is 0, not -1. */
  ghost predicate Filled(w: World) {
    forall b | 0 <= b < |w.m.blocks| :: FilledBlock(w, b)
  }

  ghost predicate FilledBlock(w: World, b: nat)
    requires b < |w.m.blocks|
  {
    var x := w.m.blocks[b];
    if !x.used then x == EMPTY_BLOCK
    else
      && x.size <= w.m.geo.blockSize
      && (x.next >= 0 ==> x.size == w.m.geo.blockSize)
      && (x.size > 0 ==> BodyStart(w.m.geo, b) + x.size <= |w.image|)
  }

  /** The counters are one below the number of used blocks and of inodes in use. */
  ghost predicate Counted(w: World) {
    && w.m.usedBlocks + 1 == Sum(UsedBit, w.m.blocks) == Sum(Len, w.chains)
    && w.m.usedInodes + 1 == Sum(LiveBit, w.m.inodes)
  }

  /** Inode 0 is a directory that starts at block 0. */
  ghost predicate HasRoot(w: World) {
    0 < |w.m.inodes| && w.m.inodes[0].kind == Directory && w.m.inodes[0].root == 0
  }

  ghost predicate Core(w: World) {
    Tables(w) && Linked(w) && Filled(w) && Counted(w) && HasRoot(w)
  }

  /** `i` is an inode in use. */
  ghost predicate Live(w: World, i: int) {
    0 <= i < |w.m.inodes| && w.m.inodes[i].kind != Empty
  }

  // ---- contents ----

  /** The bytes stored in a block. */
  function Body(w: World, b: nat): seq<byte> {
    if b < |w.m.blocks| then Slice(w.image, BodyStart(w.m.geo, b), w.m.blocks[b].size) else []
  }

  function Gather(w: World, c: seq<nat>): seq<byte> {
    if c == [] then [] else Gather(w, c[..|c| - 1]) + Body(w, c[|c| - 1])
  }

  /** The byte sequence of an inode: what its blocks hold, in chain order. */
  function Content(w: World, i: nat): seq<byte> {
    if i < |w.chains| then Gather(w, w.chains[i]) else []
  }

  lemma {:induction false} GatherFrame(w: World, w': World, c: seq<nat>)
    requires forall p | 0 <= p < |c| :: Body(w', c[p]) == Body(w, c[p])
    ensures Gather(w', c) == Gather(w, c)
  {
    if c != [] {
      GatherFrame(w, w', c[..|c| - 1]);
    }
  }

  // ---- consequences a reader can use ----

  /** The list visits exactly the blocks reached by following `next` from its first one until -1. */
  ghost predicate Follows(blocks: seq<Block>, c: seq<nat>) {
    && c != []
    && (forall p | 0 <= p < |c| :: LinkOk(blocks, c, p))
  }

  ghost predicate LinkOk(blocks: seq<Block>, c: seq<nat>, p: nat)
    requires p < |c|
  {
    c[p] < |blocks| && blocks[c[p]].next == if p + 1 < |c| then c[p + 1] else -1
  }

  lemma FollowsTail(blocks: seq<Block>, c: seq<nat>)
    requires Follows(blocks, c) && |c| > 1
    ensures Follows(blocks, c[1..])
  {
    forall p | 0 <= p < |c| - 1 ensures LinkOk(blocks, c[1..], p) {
      assert LinkOk(blocks, c, p + 1);
    }
  }

  /** Chains are finite, end at -1, share no block, never repeat one, and cover exactly the USED blocks. */
  lemma ChainsPartitionUsed(w: World)
    requires Core(w)
    ensures forall i | Live(w, i) :: Follows(w.m.blocks, w.chains[i]) && w.chains[i][0] == w.m.inodes[i].root
    ensures forall i, p, j, q | 0 <= i < |w.chains| && 0 <= p < |w.chains[i]| && 0 <= j < |w.chains| && 0 <= q < |w.chains[j]| ::
              w.chains[i][p] == w.chains[j][q] ==> i == j && p == q
    ensures forall b | 0 <= b < w.m.geo.blockCount ::
              w.m.blocks[b].used <==> exists i, p :: Live(w, i) && 0 <= p < |w.chains[i]| && w.chains[i][p] == b
    ensures Live(w, 0) && w.m.inodes[0].kind == Directory && w.m.inodes[0].root == 0
  {
    forall i, p | Live(w, i) && 0 <= p < |w.chains[i]|
      ensures w.chains[i][p] < w.m.geo.blockCount && w.m.blocks[w.chains[i][p]].used
    {
      assert Placed(w, i, p);
    }
    forall b | 0 <= b < w.m.geo.blockCount && w.m.blocks[b].used
      ensures exists i, p :: Live(w, i) && 0 <= p < |w.chains[i]| && w.chains[i][p] == b
    {
      assert Owned(w, b);
      var s := w.owner[b];
      assert Rooted(w, s.inode);
      assert Live(w, s.inode) && 0 <= s.pos < |w.chains[s.inode]| && w.chains[s.inode][s.pos] == b;
    }
    forall i | Live(w, i) ensures Follows(w.m.blocks, w.chains[i]) && w.chains[i][0] == w.m.inodes[i].root {
      assert Rooted(w, i);
      forall p | 0 <= p < |w.chains[i]| ensures LinkOk(w.m.blocks, w.chains[i], p) {
        assert Placed(w, i, p);
      }
    }
    forall i, p, j, q | 0 <= i < |w.chains| && 0 <= p < |w.chains[i]| && 0 <= j < |w.chains| && 0 <= q < |w.chains[j]|
      && w.chains[i][p] == w.chains[j][q]
      ensures i == j && p == q
    {
      assert Placed(w, i, p) && Placed(w, j, q);
    }
  }

  /** The links alone determine the chain. */
  lemma {:induction false} FollowsUnique(blocks: seq<Block>, c: seq<nat>, d: seq<nat>)
    requires Follows(blocks, c) && Follows(blocks, d) && c[0] == d[0]
    ensures c == d
  {
    assert LinkOk(blocks, c, 0) && LinkOk(blocks, d, 0);
    if |c| > 1 && |d| > 1 {
      FollowsTail(blocks, c);
      FollowsTail(blocks, d);
      FollowsUnique(blocks, c[1..], d[1..]);
      assert c == [c[0]] + c[1..] && d == [d[0]] + d[1..];
    }
  }

  lemma ChainAt(w: World, i: nat, p: nat)
    requires Core(w) && i < |w.chains| && p < |w.chains[i]|
    ensures Placed(w, i, p) && FilledBlock(w, w.chains[i][p])
    ensures w.chains[i][p] < |w.m.blocks| == w.m.geo.blockCount < TWO31 && w.m.blocks[w.chains[i][p]].used
  {
    assert Placed(w, i, p);
    assert FilledBlock(w, w.chains[i][p]);
    Scaled(w.m.geo.blockSize, 1, w.m.geo.blockCount);
    Scaled(w.m.geo.blockCount, 1, w.m.geo.blockSize);
  }

  lemma ChainStart(w: World, i: nat)
    requires Core(w) && Live(w, i)
    ensures Fits(w.m.geo) && |w.chains| == |w.m.inodes| && w.chains[i] != [] && w.m.inodes[i].root == w.chains[i][0]
  {
    assert Rooted(w, i);
  }

  /** A block other than 0 follows only inside its own chain; block 0 opens the root directory's. */
  lemma BlockZero(w: World, i: nat, p: nat)
    requires Core(w) && i < |w.chains| && p < |w.chains[i]|
    ensures w.chains[i][p] == 0 <==> i == 0 && p == 0
  {
    assert Placed(w, i, p) && Rooted(w, i) && Rooted(w, 0);
    assert Placed(w, 0, 0);
  }

  /** No counter is near wrapping, and a free slot exists unless the table is full. */
  lemma CountersExact(w: World)
    requires Core(w)
    ensures w.m.usedBlocks < w.m.geo.blockCount < TWO31 && w.m.usedInodes < w.m.geo.inodeCount < TWO31
    ensures FreeBlock(w) < 0 <==> w.m.usedBlocks + 1 == w.m.geo.blockCount
    ensures FreeInode(w) < 0 <==> w.m.usedInodes + 1 == w.m.geo.inodeCount
  {
    Scaled(w.m.geo.blockSize, 0, w.m.geo.blockCount);
    SumOfFlags(UsedBit, w.m.blocks);
    SumOfFlags(LiveBit, w.m.inodes);
  }
}
