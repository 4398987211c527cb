/** Three commands on a new volume of 3 inodes and 4 blocks of 32 bytes lead to the volume of `Witness`. */
module Reached {
  import opened Bytes
  import opened Layout
  import opened Metadata
  import opened Volume
  import opened Steps
  import opened Objects
  import opened Append
  import opened Directory
  import opened Model
  import opened Refinement
  import opened Outcomes
  import opened Format
  import opened FirstFit
  import opened Witness

  /** The tables in memory and their chains. */
  predicate Tab(w: World, used: nat, blocksUsed: nat, inodes: seq<Inode>, blocks: seq<Block>, chains: seq<seq<nat>>,
                owner: map<nat, Slot>) {
    w.m == Meta(GEO, used, blocksUsed, inodes, blocks) && w.chains == chains && w.owner == owner
  }

  predicate Tab0(w: World) {
    Tab(w, 0, 0, [Inode(0, 0, 0, Directory), EMPTY_INODE, EMPTY_INODE],
        [Block(-1, 0, true), EMPTY_BLOCK, EMPTY_BLOCK, EMPTY_BLOCK], [[0], [], []], map[0 := Slot(0, 0)])
  }

  predicate Tab1(w: World) {
    Tab(w, 1, 1, [Inode(1, 0, 0, Directory), Inode(0, 1, -1, File), EMPTY_INODE],
        [Block(-1, 32, true), Block(-1, 0, true), EMPTY_BLOCK, EMPTY_BLOCK], [[0], [1], []],
        map[0 := Slot(0, 0), 1 := Slot(1, 0)])
  }

  predicate Tab2(w: World) {
    Tab(w, 2, 3, [Inode(2, 0, 0, Directory), Inode(0, 1, -1, File), Inode(0, 2, -1, File)],
        [Block(3, 32, true), Block(-1, 0, true), Block(-1, 0, true), Block(-1, 32, true)], [[0, 3], [1], [2]],
        map[0 := Slot(0, 0), 1 := Slot(1, 0), 2 := Slot(2, 0), 3 := Slot(0, 1)])
  }

  lemma FreeBlockAt(w: World, b: nat)
    requires b < |w.m.blocks| && !w.m.blocks[b].used && forall k | 0 <= k < b :: w.m.blocks[k].used
    ensures FreeBlock(w) == b
  {
    FreeBlockMeans(w);
  }

  lemma FreeInodeAt(w: World, i: nat)
    requires i < |w.m.inodes| && w.m.inodes[i].kind == Empty && forall k | 0 <= k < i :: w.m.inodes[k].kind != Empty
    ensures FreeInode(w) == i
  {
    FreeInodeMeans(w);
  }

  lemma PourHere(w: World, i: nat, data: seq<byte>)
    requires Ready(w, i) && |data| <= Room(w, i)
    ensures Pour(w, i, data) == Done(Put(w, i, data))
  {
  }

  /** A full last block: one more is linked. */
  lemma PourNext(w: World, i: nat, data: seq<byte>, b: nat)
    requires Ready(w, i) && Room(w, i) == 0 && 0 < |data| <= w.m.geo.blockSize && Tail(w, i) != b && b < |w.m.blocks|
    requires !w.m.blocks[b].used && forall k | 0 <= k < b :: w.m.blocks[k].used
    ensures Ready(Grow(Put(w, i, []), i, b), i)
    ensures Pour(w, i, data) == Done(Put(Grow(Put(w, i, []), i, b), i, data))
  {
    hide FreeBlock;
    var full := Put(w, i, []);
    assert data[..0] == [] && data[0..] == data;
    FreeBlockAt(full, b);
    PourHere(Grow(full, i, b), i, data);
  }

  /** `touch a` */
  lemma First(w: World, record: seq<byte>)
    requires Tab0(w) && |record| == 32
    ensures FreeInode(w) == 1 && FreeBlock(w) == 1 && Ready(Prepared(w, 0, File, -1), 0)
    ensures Pour(Prepared(w, 0, File, -1), 0, record).Done? && Tab1(Pour(Prepared(w, 0, File, -1), 0, record).w)
  {
    hide FreeInode, FreeBlock, Pour, Patch;
    FreeInodeAt(w, 1);
    FreeBlockAt(w, 1);
    var p := Prepared(w, 0, File, -1);
    PourHere(p, 0, record);
    var r := Put(p, 0, record);
    assert r.m.inodes == [Inode(1, 0, 0, Directory), Inode(0, 1, -1, File), EMPTY_INODE];
    assert r.m.blocks == [Block(-1, 32, true), Block(-1, 0, true), EMPTY_BLOCK, EMPTY_BLOCK];
    assert r.chains == [[0], [1], []];
  }

  /** `touch b`: the root directory's block is full. */
  lemma Second(w: World, record: seq<byte>)
    requires Tab1(w) && |record| == 32
    ensures FreeInode(w) == 2 && FreeBlock(w) == 2 && Ready(Prepared(w, 0, File, -1), 0)
    ensures Pour(Prepared(w, 0, File, -1), 0, record).Done? && Tab2(Pour(Prepared(w, 0, File, -1), 0, record).w)
  {
    hide FreeInode, FreeBlock, Pour, Patch;
    FreeInodeAt(w, 2);
    FreeBlockAt(w, 2);
    var p := Prepared(w, 0, File, -1);
    PourNext(p, 0, record, 3);
    var r := Put(Grow(Put(p, 0, []), 0, 3), 0, record);
    assert r.m.inodes == [Inode(2, 0, 0, Directory), Inode(0, 1, -1, File), Inode(0, 2, -1, File)];
    assert r.m.blocks == [Block(3, 32, true), Block(-1, 0, true), Block(-1, 0, true), Block(-1, 32, true)];
    var root: seq<nat> := [0];
    assert root + [3] == [0, 3];
    assert r.chains == [[0, 3], [1], [2]];
  }

  /** `write a` with "x" */
  lemma Third(w: World)
    requires Tab2(w)
    ensures Ready(w, 1) && Pour(w, 1, X).Done?
    ensures var r := Resize(Pour(w, 1, X).w, 1, 1);
            r.m == Uncommitted().m && r.chains == Chains() && r.owner == Uncommitted().owner
  {
    hide Pour, Patch, Stored;
    PourHere(w, 1, X);
    var r := Resize(Put(w, 1, X), 1, 1);
    assert r.m.inodes == Inodes();
    assert r.m.blocks == Blocks();
  }

  // ---- the three commands ----

  /** What `touch` commits. */
  ghost function Touched(w: World, name: seq<byte>, raw: seq<byte>): World
    requires |raw| == 20
  {
    Committing(Making(w, 0, File, -1, name).w, raw)
  }

  /** What `write` commits. */
  ghost function Texted(w: World, i: nat, data: seq<byte>, raw: seq<byte>): World
    requires |raw| == 20
  {
    if Ready(w, i) && i < |w.m.inodes| then Committing(Resize(Pour(w, i, data).w, i, |data|), raw) else w
  }

  /** `v` shows what `w` shows, but for the text behind the bytes of file 1. */
  ghost predicate TextIn(w: World, v: World) {
    Abs(v, 0) == Abs(w, 0).(objects := Abs(w, 0).objects[1 := FileObj(Content(w, 1) + X)])
  }

  /** The witness's tables. */
  predicate Tab3(w: World) {
    w.m == Uncommitted().m && w.chains == Chains() && w.owner == Uncommitted().owner
  }

  lemma TouchA(w: World, raw: seq<byte>)
    requires Sound(w) && LiveDir(w, 0) && Tab0(w) && |raw| == 20
    ensures var v := Touched(w, A, raw);
            Sound(v) && LiveDir(v, 0) && Tab1(v) && FreeInode(w) == 1 && Abs(v, 0) == WithNew(w, 0, File, -1, A)
  {
    hide Core, AllGood, Committed, Making, Pour, Prepared, WithNew, Abs, FreeInode, FreeBlock;
    First(w, EncodeRecord(Record(1, Field(A), 1)));
    MakingIs(w, 0, File, -1, A);
    MakingDone(w, 0, File, -1, A, raw);
  }

  lemma TouchB(w: World, raw: seq<byte>)
    requires Sound(w) && LiveDir(w, 0) && Tab1(w) && |raw| == 20
    ensures var v := Touched(w, B, raw);
            Sound(v) && LiveDir(v, 0) && Tab2(v) && FreeInode(w) == 2 && Abs(v, 0) == WithNew(w, 0, File, -1, B)
  {
    hide Core, AllGood, Committed, Making, Pour, Prepared, WithNew, Abs, FreeInode, FreeBlock;
    Second(w, EncodeRecord(Record(1, Field(B), 2)));
    MakingIs(w, 0, File, -1, B);
    MakingDone(w, 0, File, -1, B, raw);
  }

  lemma WriteDoneHere(w: World, i: nat, data: seq<byte>, raw: seq<byte>)
    requires Sound(w) && LiveDir(w, 0) && Live(w, i) && w.m.inodes[i].kind == File && |raw| == 20
    requires Ready(w, i) && Pour(w, i, data).Done? && i < |w.m.inodes|
    ensures var v := Texted(w, i, data, raw);
            && Sound(v) && LiveDir(v, 0)
            && Abs(v, 0) == Abs(w, 0).(objects := Abs(w, 0).objects[i := FileObj(Content(w, i) + data)])
  {
    hide Sound, LiveDir, Pour, Abs, Content, Resize, Total, Committing, Ready;
    WriteOutcome(w, 0, i, data, raw);
  }

  lemma WriteA(w: World, raw: seq<byte>)
    requires |raw| == 20 && Sound(w) && LiveDir(w, 0) && Tab2(w)
    ensures Tab3(Texted(w, 1, X, raw)) && Sound(Texted(w, 1, X, raw)) && LiveDir(Texted(w, 1, X, raw), 0)
    ensures TextIn(w, Texted(w, 1, X, raw))
  {
    hide Sound, LiveDir, Pour, Abs, Content, Uncommitted, Tab2, Resize, Committing;
    Third(w);
    FileOne(w);
    WriteDoneHere(w, 1, X, raw);
    SameBehind(Resize(Pour(w, 1, X).w, 1, 1), raw);
  }

  lemma FileOne(w: World)
    requires Tab2(w)
    ensures Live(w, 1) && w.m.inodes[1].kind == File
  {
  }

  lemma SameBehind(w: World, raw: seq<byte>)
    requires |raw| == 20
    ensures var v := Committing(w, raw);
            v.m == w.m && v.chains == w.chains && v.owner == w.owner
  {
  }

  /** A new volume, after `touch a`, `touch b` and `write a`. */
  ghost function AfterThree(file: seq<byte>, raw: seq<byte>): World
    requires |raw| == 20
  {
    Texted(Touched(Touched(NewWorld(GEO, file), A, raw), B, raw), 1, X, raw)
  }

  lemma NewTab(file: seq<byte>)
    ensures Fits(GEO) && Tab0(NewWorld(GEO, file))
  {
    var m := NewMeta(GEO);
    assert m.inodes == [Inode(0, 0, 0, Directory), EMPTY_INODE, EMPTY_INODE];
    assert m.blocks == [Block(-1, 0, true), EMPTY_BLOCK, EMPTY_BLOCK, EMPTY_BLOCK];
    var w := NewWorld(GEO, file);
    assert w.chains == [[0], [], []];
  }

  /** The three commands leave a volume like that of `Witness`, so `rm b` on it damages `a`. */
  lemma ThreeCommands(file: seq<byte>, raw: seq<byte>)
    requires |raw| == 20 && MetaEnd(GEO) <= |file| && Load(file) == Some(NewMeta(GEO))
    ensures Like(AfterThree(file, raw)) && DamagedByRm(AfterThree(file, raw))
  {
    hide Sound, LiveDir, Abs, Touched, Texted, NewWorld, WithNew, Uncommitted, DamagedByRm, Tab0, Tab1, Tab2, FreeInode;
    hide Content, Load, Fits;
    NewTab(file);
    NewSound(GEO, file);
    NewDir(file);
    var w0 := NewWorld(GEO, file);
    TouchA(w0, raw);
    var w1 := Touched(w0, A, raw);
    TouchB(w1, raw);
    var w2 := Touched(w1, B, raw);
    WriteA(w2, raw);
    SeenAtLast(w0, w1, w2);
    LikeIsDamaged(Texted(w2, 1, X, raw));
  }

  lemma NewDir(file: seq<byte>)
    requires Abs(NewWorld(GEO, file), 0) == Model(map[0 := DirObj(0, [])], 0)
    ensures LiveDir(NewWorld(GEO, file), 0)
  {
  }

  lemma SeenAtLast(w0: World, w1: World, w2: World)
    requires LiveDir(w0, 0) && LiveDir(w1, 0) && LiveDir(w2, 0) && Abs(w0, 0) == Model(map[0 := DirObj(0, [])], 0)
    requires FreeInode(w0) == 1 && Abs(w1, 0) == WithNew(w0, 0, File, -1, A)
    requires FreeInode(w1) == 2 && Abs(w2, 0) == WithNew(w1, 0, File, -1, B)
    ensures Abs(w2, 0).(objects := Abs(w2, 0).objects[1 := FileObj(Content(w2, 1) + X)]) == Abs(Uncommitted(), 0)
  {
    hide Abs, LiveDir, Uncommitted, Field, FreeInode, Content;
    Seen();
    var m1, m2, m := Abs(w1, 0), Abs(w2, 0), Abs(Uncommitted(), 0);
    var none: seq<Record> := [];
    assert none + [RecordA()] == [RecordA()] && [RecordA()] + [RecordB()] == [RecordA(), RecordB()];
    assert m1.objects == map[0 := DirObj(0, [RecordA()]), 1 := FileObj([])];
    assert m2.objects == map[0 := DirObj(0, [RecordA(), RecordB()]), 1 := FileObj([]), 2 := FileObj([])];
    FileIs(w2, 1);
    assert Content(w2, 1) + X == X;
    assert m2.objects[1 := FileObj(X)] == m.objects;
  }

  lemma FileIs(w: World, i: nat)
    requires IsFile(Abs(w, 0), i)
    ensures Abs(w, 0).objects[i] == FileObj(Content(w, i))
  {
  }
}
