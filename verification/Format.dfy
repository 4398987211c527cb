/** A freshly initialised volume. */
module Format {
  import opened Bytes
  import opened Sums
  import opened Layout
  import opened Metadata
  import opened Volume
  import opened Directory
  import opened Model
  import opened Refinement

  /** Zeroed tables with a root directory at inode 0 and block 0; both counters start at zero. */
  function NewMeta(g: Geometry): Meta
    requires 0 < g.inodeCount && 0 < g.blockCount
  {
    Meta(g, 0, 0,
         seq(g.inodeCount, _ => EMPTY_INODE)[0 := Inode(0, 0, 0, Directory)],
         seq(g.blockCount, _ => EMPTY_BLOCK)[0 := Block(-1, 0, true)])
  }

  function NewWorld(g: Geometry, image: seq<byte>): World
    requires 0 < g.inodeCount && 0 < g.blockCount
  {
    World(NewMeta(g), image, seq<seq<nat>>(g.inodeCount, _ => [])[0 := [0]], map[0 := Slot(0, 0)])
  }

  lemma {:induction false} SumZero<T>(f: T -> nat, s: seq<T>)
    requires forall k | 0 <= k < |s| :: f(s[k]) == 0
    ensures Sum(f, s) == 0
  {
    if s != [] { SumZero(f, s[..|s| - 1]); }
  }

  lemma NewCounts(g: Geometry, image: seq<byte>)
    requires 0 < g.inodeCount && 0 < g.blockCount
    ensures Counted(NewWorld(g, image))
  {
    var inodes, blocks := seq(g.inodeCount, _ => EMPTY_INODE), seq(g.blockCount, _ => EMPTY_BLOCK);
    var chains := seq<seq<nat>>(g.inodeCount, _ => []);
    SumZero(LiveBit, inodes);
    SumZero(UsedBit, blocks);
    SumZero(Len, chains);
    SumUpdate(LiveBit, inodes, 0, Inode(0, 0, 0, Directory));
    SumUpdate(UsedBit, blocks, 0, Block(-1, 0, true));
    SumUpdate(Len, chains, 0, [0]);
  }

  lemma NewCore(g: Geometry, image: seq<byte>)
    requires Fits(g) && MetaEnd(g) <= |image|
    ensures Core(NewWorld(g, image))
  {
    var w := NewWorld(g, image);
    NewCounts(g, image);
    forall i, p | 0 <= i < |w.chains| && 0 <= p < |w.chains[i]| ensures Placed(w, i, p) {}
    forall b | 0 <= b < |w.m.blocks| ensures FilledBlock(w, b) {}
  }

  lemma NewContent(g: Geometry, image: seq<byte>)
    requires 0 < g.inodeCount && 0 < g.blockCount
    ensures Content(NewWorld(g, image), 0) == []
  {
    var w := NewWorld(g, image);
    assert [0][..0] == [] && Content(w, 0) == Gather(w, [0][..0]) + Body(w, 0);
  }

  /** A new volume is sound, and the user sees one empty root directory. */
  lemma NewSound(g: Geometry, image: seq<byte>)
    requires Fits(g) && MetaEnd(g) <= |image| && Load(image) == Some(NewMeta(g))
    ensures Sound(NewWorld(g, image))
    ensures Abs(NewWorld(g, image), 0) == Model(map[0 := DirObj(0, [])], 0)
  {
    hide Core, Content;
    var w := NewWorld(g, image);
    NewCore(g, image);
    NewContent(g, image);
    assert Records([]) == [];
    assert GoodAt(w, 0);
    assert Abs(w, 0).objects == map[0 := DirObj(0, [])];
  }

  /** `minifs_init`: three writes. The header table is written as `blockSize` headers, which is the whole table only
      because the program's block size equals its block count. */
  method Init(g: Geometry, existing: seq<byte>, raw: seq<byte>) returns (file: seq<byte>)
    requires Fits(g) && g.blockSize == g.blockCount && |raw| == 20
    ensures file == Commit(NewMeta(g), existing, raw)
    ensures Load(file) == Some(NewMeta(g)) && Sound(NewWorld(g, file))
    ensures Abs(NewWorld(g, file), 0) == Model(map[0 := DirObj(0, [])], 0)
  {
    hide Fits, Patch, Load, Sound, Abs, NewMeta, EncodeSuper, EncodeInodes, EncodeBlocks;
    NewSizes(g);
    var inodes := new Inode[g.inodeCount](_ => EMPTY_INODE);
    var blocks := new Block[g.blockCount](_ => EMPTY_BLOCK);
    inodes[0] := Inode(0, 0, 0, Directory);
    blocks[0] := Block(-1, 0, true);
    NewTables(g, inodes[..], blocks[..]);
    assert blocks[..g.blockSize] == blocks[..];
    var super := EncodeSuper(Meta(g, 0, 0, [], []), raw);
    file := Patch(existing, 0, super);
    file := Patch(file, SUPER, EncodeInodes(inodes[..]));
    file := Patch(file, SUPER + SLOT * g.inodeCount, EncodeBlocks(blocks[..g.blockSize]));
    ThreeWrites(g, existing, raw);
    NewSound(g, file);
  }

  lemma NewTables(g: Geometry, inodes: seq<Inode>, blocks: seq<Block>)
    requires 0 < |inodes| == g.inodeCount && 0 < |blocks| == g.blockCount
    requires inodes[0] == Inode(0, 0, 0, Directory) && blocks[0] == Block(-1, 0, true)
    requires forall k | 0 < k < |inodes| :: inodes[k] == EMPTY_INODE
    requires forall k | 0 < k < |blocks| :: blocks[k] == EMPTY_BLOCK
    ensures inodes == NewMeta(g).inodes && blocks == NewMeta(g).blocks
  {
  }

  lemma ThreeWrites(g: Geometry, f: seq<byte>, raw: seq<byte>)
    requires Fits(g) && 0 < g.inodeCount && 0 < g.blockCount && Encodable(NewMeta(g)) && |raw| == 20
    ensures var super, m := EncodeSuper(Meta(g, 0, 0, [], []), raw), NewMeta(g);
            var file := Patch(Patch(Patch(f, 0, super), SUPER, EncodeInodes(m.inodes)),
                              SUPER + SLOT * g.inodeCount, EncodeBlocks(m.blocks));
            && file == Commit(m, f, raw) && Load(file) == Some(m) && MetaEnd(g) <= |file|
  {
    hide Patch, Load, EncodeSuper;
    var super, m := EncodeSuper(Meta(g, 0, 0, [], []), raw), NewMeta(g);
    assert super == EncodeSuper(m, raw) by { SameSuper(g, raw); }
    PatchConcat(f, 0, super, EncodeInodes(m.inodes));
    PatchConcat(f, 0, super + EncodeInodes(m.inodes), EncodeBlocks(m.blocks));
    CommitLoad(m, f, raw);
    CommitLength(m, f, raw);
  }

  lemma SameSuper(g: Geometry, raw: seq<byte>)
    requires 0 < g.inodeCount && 0 < g.blockCount && |raw| == 20
    ensures EncodeSuper(Meta(g, 0, 0, [], []), raw) == EncodeSuper(NewMeta(g), raw)
  {
  }

  lemma NewSizes(g: Geometry)
    requires Fits(g)
    ensures 0 < g.inodeCount && 0 < g.blockCount && Encodable(NewMeta(g))
  {
    Scaled(g.blockSize, 1, g.blockCount);
    Scaled(g.blockCount, 1, g.blockSize);
  }

  lemma CommitLength(m: Meta, f: seq<byte>, raw: seq<byte>)
    requires Encodable(m) && |raw| == 20
    ensures MetaEnd(m.geo) <= |Commit(m, f, raw)|
  {
  }
}
