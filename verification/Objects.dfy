/** Creating, resizing, releasing and committing: the other elementary changes of a volume. */
module Objects {
  import opened Bytes
  import opened Sums
  import opened Layout
  import opened Metadata
  import opened Volume
  import opened Steps

  // ---- create ----

  /** Take the least free inode and the least free block for an empty object. */
  function Create(w: World, kind: Kind, parent: int): World
    requires FreeInode(w) >= 0 && FreeBlock(w) >= 0 && |w.chains| == |w.m.inodes|
  {
    var i, b := FreeInode(w), FreeBlock(w);
    w.(m := w.m.(inodes := w.m.inodes[i := Inode(0, b, parent, kind)],
                 blocks := w.m.blocks[b := Block(-1, 0, true)],
                 usedInodes := Wrap(w.m.usedInodes + 1), usedBlocks := Wrap(w.m.usedBlocks + 1)),
       chains := w.chains[i := [b]],
       owner := w.owner[b := Slot(i, 0)])
  }

  lemma CreateCore(w: World, kind: Kind, parent: int)
    requires Core(w) && kind != Empty && Signed(parent) && FreeInode(w) >= 0 && FreeBlock(w) >= 0
    ensures Core(Create(w, kind, parent))
  {
    var i, b, w' := FreeInode(w), FreeBlock(w), Create(w, kind, parent);
    assert Rooted(w, i);
    CountersExact(w);
    CreateCounts(w, kind, parent);
    CreateLinks(w, kind, parent);
    forall k | 0 <= k < |w'.m.blocks| ensures FilledBlock(w', k) { assert FilledBlock(w, k); }
  }

  lemma CreateCounts(w: World, kind: Kind, parent: int)
    requires Counted(w) && kind != Empty && FreeInode(w) >= 0 && FreeBlock(w) >= 0
    requires |w.chains| == |w.m.inodes| && w.chains[FreeInode(w)] == []
    requires w.m.usedBlocks + 1 < TWO32 && w.m.usedInodes + 1 < TWO32
    ensures Counted(Create(w, kind, parent))
  {
    var i: nat, b: nat := FreeInode(w), FreeBlock(w);
    SumUpdate(UsedBit, w.m.blocks, b, Block(-1, 0, true));
    SumUpdate(LiveBit, w.m.inodes, i, Inode(0, b, parent, kind));
    SumUpdate(Len, w.chains, i, [b]);
  }

  lemma CreateLinks(w: World, kind: Kind, parent: int)
    requires Core(w) && kind != Empty && Signed(parent) && FreeInode(w) >= 0 && FreeBlock(w) >= 0
    ensures Linked(Create(w, kind, parent))
  {
    hide Filled, Counted;
    var i, b, w' := FreeInode(w), FreeBlock(w), Create(w, kind, parent);
    assert Rooted(w, i);
    assert b < TWO31 by { Scaled(w.m.geo.blockSize, 0, w.m.geo.blockCount); }
    forall j, p | 0 <= j < |w'.chains| && 0 <= p < |w'.chains[j]| ensures Placed(w', j, p) {
      if j != i { assert Placed(w, j, p); }
    }
    forall j | 0 <= j < |w'.chains| ensures Rooted(w', j) { assert Rooted(w, j); }
    forall k | k in w'.owner ensures Owned(w', k) {
      if k != b { assert Owned(w, k); }
    }
  }

  /** The new object is empty and every other keeps its bytes. */
  lemma CreateContent(w: World, kind: Kind, parent: int)
    requires Core(w) && kind != Empty && Signed(parent) && FreeInode(w) >= 0 && FreeBlock(w) >= 0
    ensures Content(Create(w, kind, parent), FreeInode(w)) == []
    ensures forall j | Live(w, j) :: Content(Create(w, kind, parent), j) == Content(w, j)
  {
    hide Filled, Counted, Owned;
    var i, b, w' := FreeInode(w), FreeBlock(w), Create(w, kind, parent);
    CreateBodies(w, kind, parent);
    assert w'.chains[i] == [b] && [b][..0] == [];
    assert Content(w', i) == Gather(w', [b][..0]) + Body(w', b);
    forall j | Live(w, j) ensures Content(w', j) == Content(w, j) {
      forall p | 0 <= p < |w.chains[j]| ensures Body(w', w.chains[j][p]) == Body(w, w.chains[j][p]) {
        assert Placed(w, j, p);
      }
      GatherFrame(w, w', w.chains[j]);
    }
  }

  lemma CreateBodies(w: World, kind: Kind, parent: int)
    requires FreeInode(w) >= 0 && FreeBlock(w) >= 0 && |w.chains| == |w.m.inodes|
    ensures Body(Create(w, kind, parent), FreeBlock(w)) == []
    ensures forall k | 0 <= k < |w.m.blocks| && w.m.blocks[k].used :: Body(Create(w, kind, parent), k) == Body(w, k)
  {
  }

  // ---- resize ----

  function Resize(w: World, i: nat, n: nat): World
    requires i < |w.m.inodes|
  {
    w.(m := w.m.(inodes := w.m.inodes[i := w.m.inodes[i].(size := Wrap(w.m.inodes[i].size + n))]))
  }

  lemma ResizeKeeps(w: World, i: nat, n: nat)
    requires Core(w) && Live(w, i)
    ensures Core(Resize(w, i, n))
    ensures forall j | Live(w, j) :: Content(Resize(w, i, n), j) == Content(w, j)
  {
    var w' := Resize(w, i, n);
    SumUpdate(LiveBit, w.m.inodes, i, w'.m.inodes[i]);
    forall j, p | 0 <= j < |w'.chains| && 0 <= p < |w'.chains[j]| ensures Placed(w', j, p) { assert Placed(w, j, p); }
    forall j | 0 <= j < |w'.chains| ensures Rooted(w', j) { assert Rooted(w, j); }
    forall b | b in w'.owner ensures Owned(w', b) { assert Owned(w, b); }
    forall b | 0 <= b < |w'.m.blocks| ensures FilledBlock(w', b) { assert FilledBlock(w, b); }
    forall j | Live(w, j) ensures Content(w', j) == Content(w, j) {
      forall p | 0 <= p < |w.chains[j]| ensures Body(w', w.chains[j][p]) == Body(w, w.chains[j][p]) {}
      GatherFrame(w, w', w.chains[j]);
    }
  }

  // ---- release ----

  /** The block table with the blocks of `c` set free. */
  function Freed(blocks: seq<Block>, c: seq<nat>): (r: seq<Block>)
    ensures |r| == |blocks|
  {
    seq(|blocks|, b requires 0 <= b < |blocks| => if b in c then EMPTY_BLOCK else blocks[b])
  }

  /** Give the chain of `i` back and mark the inode EMPTY. */
  function Release(w: World, i: nat): World
    requires i < |w.chains| == |w.m.inodes|
  {
    var c := w.chains[i];
    w.(m := w.m.(inodes := w.m.inodes[i := EMPTY_INODE], blocks := Freed(w.m.blocks, c),
                 usedInodes := Wrap(w.m.usedInodes - 1), usedBlocks := Wrap(w.m.usedBlocks - |c|)),
       chains := w.chains[i := []],
       owner := w.owner - (set b | b in c))
  }

  lemma FreedStep(blocks: seq<Block>, c: seq<nat>, n: nat)
    requires n < |c| && c[n] < |blocks|
    ensures Freed(blocks, c[..n + 1]) == Freed(blocks, c[..n])[c[n] := EMPTY_BLOCK]
  {
    assert c[..n + 1] == c[..n] + [c[n]];
  }

  lemma FreedNone(blocks: seq<Block>, c: seq<nat>)
    ensures Freed(blocks, c[..0]) == blocks
  {
  }

  lemma FreedOther(blocks: seq<Block>, c: seq<nat>, b: nat)
    requires b < |blocks| && b !in c
    ensures Freed(blocks, c)[b] == blocks[b]
  {
  }

  lemma {:induction false} FreedCount(blocks: seq<Block>, c: seq<nat>, n: nat)
    requires n <= |c|
    requires forall p | 0 <= p < |c| :: c[p] < |blocks| && blocks[c[p]].used
    requires forall p, q | 0 <= p < q < |c| :: c[p] != c[q]
    ensures Sum(UsedBit, Freed(blocks, c[..n])) == Sum(UsedBit, blocks) - n
  {
    if n == 0 {
      assert Freed(blocks, c[..0]) == blocks;
    } else {
      FreedCount(blocks, c, n - 1);
      FreedStep(blocks, c, n - 1);
      SumUpdate(UsedBit, Freed(blocks, c[..n - 1]), c[n - 1], EMPTY_BLOCK);
    }
  }

  lemma ChainDistinct(w: World, i: nat)
    requires Core(w) && Live(w, i)
    ensures forall p | 0 <= p < |w.chains[i]| :: w.chains[i][p] < |w.m.blocks| && w.m.blocks[w.chains[i][p]].used
    ensures forall p, q | 0 <= p < q < |w.chains[i]| :: w.chains[i][p] != w.chains[i][q]
  {
    forall p | 0 <= p < |w.chains[i]| ensures w.chains[i][p] < |w.m.blocks| && w.m.blocks[w.chains[i][p]].used {
      assert Placed(w, i, p);
    }
    forall p, q | 0 <= p < q < |w.chains[i]| ensures w.chains[i][p] != w.chains[i][q] {
      assert Placed(w, i, p) && Placed(w, i, q);
    }
  }

  lemma ReleaseLinks(w: World, i: nat)
    requires Core(w) && Live(w, i) && i != 0
    ensures Linked(Release(w, i))
  {
    hide Filled, Counted;
    var w', c := Release(w, i), w.chains[i];
    forall j, p | 0 <= j < |w'.chains| && 0 <= p < |w'.chains[j]| ensures Placed(w', j, p) {
      assert Placed(w, j, p);
      forall q | 0 <= q < |c| ensures c[q] != w.chains[j][p] { assert Placed(w, i, q); }
    }
    forall j | 0 <= j < |w'.chains| ensures Rooted(w', j) { assert Rooted(w, j); }
    forall k | k in w'.owner ensures Owned(w', k) {
      assert Owned(w, k);
      assert w.owner[k].inode != i;
    }
    forall b | 0 <= b < |w'.m.blocks| ensures w'.m.blocks[b].used <==> b in w'.owner {
      if b in c { var q :| 0 <= q < |c| && c[q] == b; assert Placed(w, i, q); }
    }
  }

  lemma ReleaseCounts(w: World, i: nat)
    requires Core(w) && Live(w, i) && i != 0
    ensures Counted(Release(w, i))
    ensures Release(w, i).m.usedBlocks == w.m.usedBlocks - |w.chains[i]|
    ensures Release(w, i).m.usedInodes == w.m.usedInodes - 1
  {
    var c := w.chains[i];
    ChainDistinct(w, i);
    FreedCount(w.m.blocks, c, |c|);
    assert c[..|c|] == c;
    SumUpdate(LiveBit, w.m.inodes, i, EMPTY_INODE);
    SumUpdate(Len, w.chains, i, []);
    assert Rooted(w, 0);
    SumAtLeast(Len, w.chains[i := []], 0);
    SumAtLeast(LiveBit, w.m.inodes[i := EMPTY_INODE], 0);
    CountersExact(w);
    Scaled(w.m.geo.blockSize, 0, w.m.geo.blockCount);
  }

  /** Releasing an object sets exactly its chain free, once each, and touches no other object. */
  lemma ReleaseKeeps(w: World, i: nat)
    requires Core(w) && Live(w, i) && i != 0
    ensures Core(Release(w, i))
    ensures forall b | 0 <= b < |w.m.blocks| ::
              IsFree(Release(w, i).m.blocks[b]) <==> IsFree(w.m.blocks[b]) || b in w.chains[i]
    ensures forall j | Live(w, j) && j != i ::
              && Release(w, i).chains[j] == w.chains[j]
              && Content(Release(w, i), j) == Content(w, j)
    ensures Sum(UsedBit, Release(w, i).m.blocks) == Sum(UsedBit, w.m.blocks) - |w.chains[i]|
  {
    var w', c := Release(w, i), w.chains[i];
    ReleaseLinks(w, i);
    ReleaseCounts(w, i);
    forall b | 0 <= b < |w'.m.blocks| ensures FilledBlock(w', b) { assert FilledBlock(w, b); }
    forall j | Live(w, j) && j != i ensures Content(w', j) == Content(w, j) {
      forall p | 0 <= p < |w.chains[j]| ensures Body(w', w.chains[j][p]) == Body(w, w.chains[j][p]) {
        assert Placed(w', j, p);
      }
      GatherFrame(w, w', w.chains[j]);
    }
  }

  // ---- commit ----

  /** All metadata written back; `raw` is what the superblock carries besides its counters. */
  function Committing(w: World, raw: seq<byte>): World
    requires |raw| == 20
  {
    w.(image := Commit(w.m, w.image, raw))
  }

  /** The file opens to the tables in memory. */
  ghost predicate Committed(w: World) {
    Load(w.image) == Some(w.m)
  }

  lemma CoreEncodable(w: World)
    requires Core(w)
    ensures Encodable(w.m)
  {
    CountersExact(w);
    Scaled(w.m.geo.blockSize, 0, w.m.geo.blockCount);
    Scaled(w.m.geo.blockCount, 1, w.m.geo.blockSize);
    Scaled(w.m.geo.blockSize, 1, w.m.geo.blockCount);
    forall k | 0 <= k < |w.m.inodes| ensures EncodableInode(w.m.inodes[k]) {
      assert Rooted(w, k);
      if w.m.inodes[k].kind != Empty { assert Placed(w, k, 0); }
    }
    forall b | 0 <= b < |w.m.blocks| ensures EncodableBlock(w.m.blocks[b]) {
      assert FilledBlock(w, b);
      if w.m.blocks[b].used {
        assert Owned(w, b);
        var s := w.owner[b];
        assert Placed(w, s.inode, s.pos);
        if s.pos + 1 < |w.chains[s.inode]| { assert Placed(w, s.inode, s.pos + 1); }
      }
    }
  }

  /** Changes of the file that keep every stored byte keep everything else. */
  lemma ImageFrame(w: World, image: seq<byte>)
    requires Core(w) && |w.image| <= |image|
    ensures Core(w.(image := image))
  {
    var w' := w.(image := image);
    forall j, p | 0 <= j < |w'.chains| && 0 <= p < |w'.chains[j]| ensures Placed(w', j, p) { assert Placed(w, j, p); }
    forall j | 0 <= j < |w'.chains| ensures Rooted(w', j) { assert Rooted(w, j); }
    forall b | b in w'.owner ensures Owned(w', b) { assert Owned(w, b); }
    forall b | 0 <= b < |w'.m.blocks| ensures FilledBlock(w', b) { assert FilledBlock(w, b); }
  }

  lemma BodiesFrame(w: World, w': World)
    requires Core(w) && w'.chains == w.chains
    requires forall b | 0 <= b < |w.m.blocks| && w.m.blocks[b].used :: Body(w', b) == Body(w, b)
    ensures forall j | Live(w, j) :: Content(w', j) == Content(w, j)
  {
    forall j | Live(w, j) ensures Content(w', j) == Content(w, j) {
      forall p | 0 <= p < |w.chains[j]| ensures Body(w', w.chains[j][p]) == Body(w, w.chains[j][p]) {
        assert Placed(w, j, p);
      }
      GatherFrame(w, w', w.chains[j]);
    }
  }

  /** A commit makes the file open to the tables in memory and changes no stored byte. */
  lemma CommitKeeps(w: World, raw: seq<byte>)
    requires Core(w) && |raw| == 20
    ensures Core(Committing(w, raw)) && Committed(Committing(w, raw))
    ensures forall j | Live(w, j) :: Content(Committing(w, raw), j) == Content(w, j)
  {
    var w' := Committing(w, raw);
    CoreEncodable(w);
    CommitLoad(w.m, w.image, raw);
    ImageFrame(w, w'.image);
    PatchSlice(w.image, 0, EncodeMeta(w.m, raw));
    forall b | 0 <= b < |w.m.blocks| && w.m.blocks[b].used ensures Body(w', b) == Body(w, b) {
      BodiesApart(w.m.geo, b, b);
    }
    BodiesFrame(w, w');
  }
}
