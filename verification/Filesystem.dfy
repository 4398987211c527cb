/** The mounted file system: tables in memory, the device file, and the operations that change them in place. */
module Filesystem {
  import opened Bytes
  import opened Layout
  import opened Metadata
  import opened Volume
  import opened Steps
  import opened Objects
  import opened Append
  import opened Directory
  import opened Model
  import opened Refinement
  import opened Removal
  import opened Outcomes
  import opened FirstFit

  class Filesystem {
    const geo: Geometry
    const raw: seq<byte>              // padding and addresses saved with the superblock
    const inodeMap: array<Inode>
    const blockMap: array<Block>
    var usedInodes: nat
    var usedBlocks: nat
    var currentDir: nat
    var image: seq<byte>              // the device file
    ghost var chains: seq<seq<nat>>
    ghost var owner: map<nat, Slot>

    ghost function W(): World
      reads this, inodeMap, blockMap
    {
      World(Meta(geo, usedInodes, usedBlocks, inodeMap[..], blockMap[..]), image, chains, owner)
    }

    /** What the user sees. */
    ghost function View(): Model
      reads this, inodeMap, blockMap
    {
      Abs(W(), currentDir)
    }

    /** Holds between commands. */
    ghost predicate Valid()
      reads this, inodeMap, blockMap
    {
      |raw| == 20 && Sound(W()) && LiveDir(W(), currentDir)
    }

    /** Open a file that holds a committed volume: the tables in memory are again those of the commit. */
    constructor Open(file: seq<byte>, addresses: seq<byte>, ghost w: World)
      requires Core(w) && Committed(w) && w.image == file && |addresses| == 20
      ensures W() == w && currentDir == 0 && raw == addresses
      ensures Sound(w) ==> Valid() && View() == Abs(w, 0)
      ensures fresh(inodeMap) && fresh(blockMap)
    {
      hide Core, Load, DecodeInode, DecodeBlock, LoadGeometry;
      LoadParts(file, w.m);
      RootLive(w);
      var g := LoadGeometry(file);
      geo := g;
      raw := addresses;
      usedInodes := DecodeU32(WordAt(file, 8));
      usedBlocks := DecodeU32(WordAt(file, 12));
      inodeMap := new Inode[g.inodeCount](k requires 0 <= k => DecodeInode(file, SUPER + SLOT * k));
      blockMap := new Block[g.blockCount](k requires 0 <= k =>
        DecodeBlock(file, SUPER + SLOT * g.inodeCount + HEAD * k));
      currentDir := 0;
      image := file;
      chains := w.chains;
      owner := w.owner;
      new;
      assert inodeMap[..] == LoadInodes(file, g.inodeCount);
      assert blockMap[..] == LoadBlocks(file, SUPER + SLOT * g.inodeCount, g.blockCount);
    }

    // ---- allocation ----

    /** The least EMPTY inode, or -1; the early exit never hides one. */
    method FindFreeInode() returns (r: int)
      requires Core(W())
      ensures r == FreeInode(W())
      ensures -1 <= r < inodeMap.Length
      ensures r >= 0 ==> inodeMap[r].kind == Empty && forall k | 0 <= k < r :: inodeMap[k].kind != Empty
      ensures r == -1 <==> forall k | 0 <= k < inodeMap.Length :: inodeMap[k].kind != Empty
    {
      hide Linked, Filled, Counted, HasRoot;
      CountersExact(W());
      FreeInodeMeans(W());
      assert forall k | 0 <= k < inodeMap.Length :: inodeMap[k] == W().m.inodes[k];
      if usedInodes >= geo.inodeCount { return -1; }
      var index := 0;
      while index < geo.inodeCount
        invariant 0 <= index <= geo.inodeCount == |inodeMap[..]|
        invariant forall k | 0 <= k < index :: !IsEmpty(inodeMap[..][k])
      {
        if inodeMap[index].kind == Empty {
          assert IsEmpty(inodeMap[..][index]);
          return index;
        }
        index := index + 1;
      }
      return -1;
    }

    /** The least EMPTY block, or -1. */
    method FindFreeBlock() returns (r: int)
      requires Core(W())
      ensures r == FreeBlock(W())
      ensures -1 <= r < blockMap.Length
      ensures r >= 0 ==> !blockMap[r].used && forall k | 0 <= k < r :: blockMap[k].used
      ensures r == -1 <==> forall k | 0 <= k < blockMap.Length :: blockMap[k].used
    {
      hide Linked, Filled, Counted, HasRoot;
      CountersExact(W());
      FreeBlockMeans(W());
      assert forall k | 0 <= k < blockMap.Length :: blockMap[k] == W().m.blocks[k];
      if usedBlocks >= geo.blockCount { return -1; }
      var index := 0;
      while index < geo.blockCount
        invariant 0 <= index <= geo.blockCount == |blockMap[..]|
        invariant forall k | 0 <= k < index :: !IsFree(blockMap[..][k])
      {
        if !blockMap[index].used {
          assert IsFree(blockMap[..][index]);
          return index;
        }
        index := index + 1;
      }
      return -1;
    }

    // ---- device ----

    method WriteBlock(d: seq<byte>, off: nat)
      modifies this`image
      ensures image == Patch(old(image), off, d)
    {
      image := Patch(image, off, d);
    }

    /** Reading past the end would make the program exit; callers never do. */
    method ReadBlock(n: nat, off: nat) returns (d: seq<byte>)
      requires n > 0 ==> off + n <= |image|
      ensures d == Slice(image, off, n)
    {
      d := Slice(image, off, n);
    }

    /** Rewrite the superblock, then every inode slot, then every block header. */
    method UpdateSuperblock()
      requires Core(W()) && |raw| == 20
      modifies this`image
      ensures W() == Committing(old(W()), raw)
    {
      ghost var w := W();
      hide Linked, Filled, Counted, HasRoot, Patch, Fits;
      hide EncodeSuper, EncodeInodes, EncodeBlocks, EncodeInode, EncodeBlock, InodeOffset, HeadOffset, Torn;
      SuperFields(w.m, raw);
      TornEnds(w.m, w.image, raw);
      WriteBlock(EncodeSuper(Meta(geo, usedInodes, usedBlocks, [], []), raw), 0);
      var index := 0;
      while index < geo.inodeCount
        invariant 0 <= index <= geo.inodeCount == inodeMap.Length
        invariant image == Torn(w.m, w.image, raw, 1 + index)
      {
        OffsetsExact(geo, index);
        NextInodeSlot(w.m, w.image, raw, index);
        WriteBlock(EncodeInode(inodeMap[index]), InodeOffset(geo, index));
        index := index + 1;
      }
      index := 0;
      while index < geo.blockCount
        invariant 0 <= index <= geo.blockCount == blockMap.Length
        invariant image == Torn(w.m, w.image, raw, 1 + geo.inodeCount + index)
      {
        OffsetsExact(geo, index);
        NextBlockSlot(w.m, w.image, raw, index);
        WriteBlock(EncodeBlock(blockMap[index]), HeadOffset(geo, index));
        index := index + 1;
      }
    }

    // ---- append ----

    /** Write `d` behind the bytes of block `t`, the last of inode `i`'s chain. */
    method Store(t: nat, d: seq<byte>, ghost i: nat)
      requires Core(W()) && Live(W(), i) && Ready(W(), i) && t == Tail(W(), i) && |d| <= Room(W(), i)
      modifies this`image, blockMap
      ensures W() == Put(old(W()), i, d)
      ensures Core(W())
    {
      hide Linked, Filled, Counted, HasRoot, Patch;
      ghost var w := W();
      ReadyLive(w, i);
      InsideBody(geo, t, blockMap[t].size);
      WriteBlock(d, Wrap(BodyOffset(geo, t) + blockMap[t].size));
      Scaled(geo.blockSize, 0, geo.blockCount);
      Scaled(geo.blockSize, 1, geo.blockCount);
      blockMap[t] := blockMap[t].(size := Wrap(blockMap[t].size + |d|));
      assert blockMap[..] == Put(w, i, d).m.blocks;
      PutCore(w, i, d);
    }

    /** Put the free block `b` behind block `t`, the last of inode `i`'s chain. */
    method Link(t: nat, b: nat, ghost i: nat)
      requires Core(W()) && Live(W(), i) && Ready(W(), i) && t == Tail(W(), i) && Room(W(), i) == 0
      requires b == FreeBlock(W())
      modifies this`usedBlocks, this`chains, this`owner, blockMap
      ensures W() == Grow(old(W()), i, b)
      ensures Core(W()) && Ready(W(), i) && Tail(W(), i) == b && Room(W(), i) == geo.blockSize
    {
      hide Core, OnlyGrows, Content, Live;
      ghost var w := W();
      ReadyLive(w, i);
      GrowStep(w, i);
      blockMap[b] := Block(-1, 0, true);
      assert blockMap[..] == w.m.blocks[b := Block(-1, 0, true)];
      blockMap[t] := blockMap[t].(next := b);
      usedBlocks := Wrap(usedBlocks + 1);
      chains, owner := chains[i := chains[i] + [b]], owner[b := Slot(i, |chains[i]|)];
      assert blockMap[..] == Grow(w, i, b).m.blocks;
    }

    /** Append `data` to inode `i`; `false` is the program's exit when no block is free. */
    method AppendData(i: nat, data: seq<byte>) returns (ok: bool)
      requires Core(W()) && Live(W(), i) && |data| < TWO32
      modifies this`image, this`usedBlocks, this`chains, this`owner, blockMap
      ensures Ready(old(W()), i)
      ensures Pour(old(W()), i, data) == if ok then Done(W()) else Stopped(W())
    {
      hide Core, Put, Grow, Pour;
      var current := LastBlock(i);
      ReadyLive(W(), i);
      if geo.blockSize - blockMap[current].size >= |data| {
        PourFits(W(), i, data);
        Store(current, data, i);
        ok := true;
      } else {
        var rest := data;
        PourFill(W(), i, data);
        if blockMap[current].size < geo.blockSize {
          var delta := geo.blockSize - blockMap[current].size;
          Store(current, rest[..delta], i);
          rest := rest[delta..];
        } else {
          PutNothing(W(), i);
          assert rest[..0] == [] && rest[0..] == rest;
        }
        ok := AppendBlocks(i, current, rest);
      }
    }

    /** The last block is full: link new ones until `data` is stored. */
    method AppendBlocks(i: nat, last: nat, data: seq<byte>) returns (ok: bool)
      requires Core(W()) && Live(W(), i) && Ready(W(), i) && last == Tail(W(), i) && Room(W(), i) == 0
      requires 0 < |data| < TWO32
      modifies this`image, this`usedBlocks, this`chains, this`owner, blockMap
      ensures Pour(old(W()), i, data) == if ok then Done(W()) else Stopped(W())
    {
      hide Core, Put, Grow, Pour;
      var current, rest := last, data;
      while |rest| > 0
        invariant Core(W()) && Live(W(), i) && Ready(W(), i) && current == Tail(W(), i) && Room(W(), i) == 0
        invariant 0 < |rest| && Pour(old(W()), i, data) == Pour(W(), i, rest)
      {
        PourAtFull(W(), i, rest);
        var newBlock := FindFreeBlock();
        if newBlock < 0 {
          return false;
        }
        Link(current, newBlock, i);
        current := newBlock;
        if |rest| <= geo.blockSize {
          PourFits(W(), i, rest);
          Store(current, rest, i);
          return true;
        }
        PourFill(W(), i, rest);
        Store(current, rest[..geo.blockSize], i);
        rest := rest[geo.blockSize..];
      }
      assert false;
    }

    /** Follow the links to the end of the chain. */
    method LastBlock(i: nat) returns (current: nat)
      requires Core(W()) && Live(W(), i)
      ensures Ready(W(), i) && current == Tail(W(), i)
    {
      ReadyLive(W(), i);
      assert Rooted(W(), i);
      ghost var c: seq<nat>, p: nat := chains[i], 0;
      assert Placed(W(), i, 0);
      current := inodeMap[i].root;
      var block := blockMap[current];
      while block.next >= 0
        invariant p < |c| && current == c[p] < blockMap.Length && block == blockMap[current]
        decreases |c| - p
      {
        assert Placed(W(), i, p);
        current := block.next;
        p := p + 1;
        assert Placed(W(), i, p);
        block := blockMap[current];
      }
      assert Placed(W(), i, p);
    }

    // ---- reading ----

    /** The bytes of a file; the buffer of `size` bytes is filled exactly. */
    method ReadData(i: nat) returns (data: seq<byte>)
      requires Core(W()) && Live(W(), i) && i != 0 && inodeMap[i].size == |Content(W(), i)|
      ensures data == Content(W(), i)
    {
      hide Core, Body;
      ChainStart(W(), i);
      ghost var w, c: seq<nat>, p: nat := W(), chains[i], 0;
      assert c[..0] == [];
      var buffer := new byte[inodeMap[i].size];
      var readSize: nat := 0;
      var current := inodeMap[i].root;
      while current > 0
        invariant W() == w && fresh(buffer) && buffer.Length == |Gather(w, c)|
        invariant p <= |c| && current == if p < |c| then c[p] else -1
        invariant readSize <= buffer.Length && buffer[..readSize] == Gather(w, c[..p])
        decreases |c| - p
      {
        ChainAt(w, i, p);
        BodySize(w, c[p]);
        InsideBody(geo, current, 0);
        GatherPrefix(w, c, p + 1);
        assert c[..p + 1][..p] == c[..p];
        var block := blockMap[current];
        if block.size > 0 {
          var d := ReadBlock(block.size, BodyOffset(geo, current));
          Copy(buffer, readSize, d);
          readSize := readSize + block.size;
        }
        current := block.next;
        p := p + 1;
      }
      if p < |c| { BlockZero(w, i, p); }
      assert c[..p] == c;
      return buffer[..];
    }

    static method Copy(buffer: array<byte>, at: nat, d: seq<byte>)
      requires at + |d| <= buffer.Length
      modifies buffer
      ensures buffer[..at + |d|] == old(buffer[..at]) + d
    {
      forall k | 0 <= k < |d| { buffer[at + k] := d[k]; }
    }

    /** All records of a directory in order; the array of `size` entries is filled exactly. */
    method ReadDir(i: nat) returns (entries: seq<Record>)
      requires Core(W()) && Live(W(), i) && |Content(W(), i)| == RECORD * inodeMap[i].size
      ensures entries == Records(Content(W(), i))
    {
      hide Core, Body, Records, Content;
      ChainStart(W(), i);
      ghost var w, c: seq<nat>, p: nat, rs := W(), chains[i], 0, Records(Content(W(), i));
      ContentIsGather(w, i);
      var result := new Record[inodeMap[i].size](_ => Record(0, [], 0));
      var size := 0;
      var current := inodeMap[i].root;
      assert c[..0] == [];
      while current >= 0
        invariant W() == w && fresh(result) && result.Length == |rs|
        invariant p <= |c| && current == if p < |c| then c[p] else -1
        invariant size <= result.Length && RECORD * size == |Gather(w, c[..p])|
        invariant result[..size] == rs[..size]
        decreases |c| - p
      {
        ChainAt(w, i, p);
        var block := blockMap[current];
        FullPrefix(w, i, p);
        WholeBlock(w, i, p);
        size := ReadRecords(i, current, block.size / RECORD, result, size, p);
        assert c[..p + 1][..p] == c[..p];
        BodySize(w, c[p]);
        current := block.next;
        p := p + 1;
      }
      assert c[..p] == c;
      return result[..];
    }

    /** The records of one block, stored from `size` on. */
    method ReadRecords(i: nat, block: nat, count: nat, result: array<Record>, size: nat, ghost p: nat) returns (next: nat)
      requires Core(W()) && Live(W(), i) && |Content(W(), i)| % RECORD == 0
      requires p < |chains[i]| && chains[i][p] == block < blockMap.Length && RECORD * count == blockMap[block].size
      requires size <= result.Length == |Records(Content(W(), i))| && RECORD * size == p * geo.blockSize
      requires result[..size] == Records(Content(W(), i))[..size]
      modifies result
      ensures next == size + count <= result.Length
      ensures result[..next] == Records(Content(W(), i))[..next]
    {
      hide Core, Content, Records, RecordAt;
      ghost var w, rs := W(), Records(Content(W(), i));
      ChainStart(w, i);
      ChainAt(w, i, p);
      InsideBody(geo, block, 0);
      next := size;
      var index := 0;
      while index < count
        invariant 0 <= index <= count && next == size + index <= result.Length == |rs|
        invariant result[..next] == rs[..next]
      {
        RecordOnDisk(w, i, p, index, next);
        var offset := BodyOffset(geo, block) + index * RECORD;
        var used := ReadBlock(1, offset);
        var name := ReadBlock(NAME, offset + 1);
        var inodeId := ReadBlock(4, offset + 1 + NAME);
        result[next] := Record(used[0], name, DecodeU32(inodeId));
        assert result[next] == RecordAt(w.image, offset) by { RecordParts(w.image, offset); }
        next := next + 1;
        index := index + 1;
      }
    }

    // ---- removing ----

    /** Clear the flag the walk reaches; `false` when the walk leaves the block table. */
    method RemoveFromDir(i: nat, index: nat) returns (ok: bool)
      requires Core(W()) && Live(W(), i) && 0 < PerBlock(geo)
      modifies this`image
      ensures ok <==> TargetOf(old(W()), i, index) != Wild
      ensures W() == Unflag(old(W()), i, index)
    {
      hide Core, TargetOf, Unflag, BodyOffset, Fits, Walked, BlockReached, Patch;
      ChainStart(W(), i);
      ghost var w, c: seq<nat>, h: nat := W(), chains[i], 0;
      PerBlockFits(geo);
      var perBlock := geo.blockSize / RECORD;
      var current: nat, k: nat := inodeMap[i].root, index;
      WalkStart(index, perBlock);
      ReachStart(w, i);
      while k * RECORD > geo.blockSize
        invariant W() == w && h <= |c| && current == BlockReached(c, h)
        invariant Walked(index, perBlock, h, k)
        decreases k
      {
        HopStep(index, perBlock, h, k);
        ReachNext(w, i, h);
        if current >= geo.blockCount {
          UnflagWild(w, i, index, k);
          return false;
        }
        current := Wrap(blockMap[current].next);
        k := k - perBlock;
        h := h + 1;
      }
      UnflagIs(w, i, index, h, k);
      WriteBlock([0], Wrap(BodyOffset(geo, current) + k * RECORD));
      return true;
    }

    /** Set the chain of `t` free block by block. */
    method FreeChain(t: nat)
      requires Core(W()) && Live(W(), t) && t != 0
      modifies this`usedBlocks, blockMap
      ensures t < |chains| && blockMap[..] == Freed(old(blockMap[..]), chains[t])
      ensures usedBlocks == Wrap(old(usedBlocks) - |chains[t]|)
    {
      hide Core, Freed, Wrap;
      ChainStart(W(), t);
      ghost var w, c: seq<nat>, p: nat := W(), chains[t], 0;
      ChainDistinct(w, t);
      ChainAt(w, t, 0);
      CountersExact(w);
      var current := inodeMap[t].root;
      FreedNone(w.m.blocks, c);
      while current > 0
        invariant p <= |c| && current == if p < |c| then c[p] else -1
        invariant blockMap[..] == Freed(w.m.blocks, c[..p])
        invariant usedBlocks == Wrap(w.m.usedBlocks - p)
        decreases |c| - p
      {
        ChainAt(w, t, p);
        FreedStep(w.m.blocks, c, p);
        FreedOther(w.m.blocks, c[..p], current);
        assert blockMap[..][current] == w.m.blocks[current];
        var next := blockMap[current].next;
        blockMap[current] := EMPTY_BLOCK;
        usedBlocks := Wrap(usedBlocks - 1);
        WrapDown(w.m.usedBlocks - p);
        current := next;
        p := p + 1;
      }
      if p < |c| { BlockZero(w, t, p); }
      assert c[..p] == c;
    }

    /** Give the blocks of `t` back, then clear its inode. */
    method ReleaseObject(t: nat)
      requires Core(W()) && Live(W(), t) && t != 0
      modifies this`usedInodes, this`usedBlocks, this`chains, this`owner, inodeMap, blockMap
      ensures t < |old(W()).chains| == |old(W()).m.inodes| && W() == Release(old(W()), t)
    {
      ghost var w := W();
      FreeChain(t);
      hide Core;
      inodeMap[t] := EMPTY_INODE;
      usedInodes := Wrap(usedInodes - 1);
      chains, owner := chains[t := []], owner - (set b | b in chains[t]);
      assert inodeMap[..] == w.m.inodes[t := EMPTY_INODE];
    }

    // ---- commands ----

    /** Place a new, empty object and count it in the current directory. */
    method Prepare(kind: Kind, parent: int, inodeIndex: nat, blockIndex: nat)
      requires Core(W()) && LiveDir(W(), currentDir) && Makeable(W(), kind, parent)
      requires inodeIndex == FreeInode(W()) && blockIndex == FreeBlock(W())
      modifies this`usedInodes, this`usedBlocks, this`chains, this`owner, inodeMap, blockMap
      ensures |old(W()).chains| == |old(W()).m.inodes|
      ensures W() == Prepared(old(W()), currentDir, kind, parent)
    {
      hide Core;
      CoreFits(W());
      ghost var w := W();
      inodeMap[inodeIndex] := Inode(0, blockIndex, parent, kind);
      assert inodeMap[..] == w.m.inodes[inodeIndex := Inode(0, blockIndex, parent, kind)];
      blockMap[blockIndex] := Block(-1, 0, true);
      assert blockMap[..] == w.m.blocks[blockIndex := Block(-1, 0, true)];
      usedInodes := Wrap(usedInodes + 1);
      usedBlocks := Wrap(usedBlocks + 1);
      chains, owner := chains[inodeIndex := [blockIndex]], owner[blockIndex := Slot(inodeIndex, 0)];
      label created:
      inodeMap[currentDir] := inodeMap[currentDir].(size := Wrap(inodeMap[currentDir].size + 1));
      assert inodeMap[..] == old@created(inodeMap[..])[currentDir := inodeMap[currentDir]];
    }

    /** Append a record to a directory, field by field. */
    method AppendRecord(i: nat, r: Record) returns (ok: bool)
      requires Core(W()) && Live(W(), i) && Ready(W(), i) && |r.name| == NAME
      modifies this`image, this`usedBlocks, this`chains, this`owner, blockMap
      ensures Pour(old(W()), i, EncodeRecord(r)) == if ok then Done(W()) else Stopped(W())
    {
      hide Core, Pour;
      ghost var w := W();
      var id := Encode32(r.inode);
      ThreeAppends(w, i, [r.used], r.name, id);
      PourKeeps(w, i, [r.used]);
      ok := AppendData(i, [r.used]);
      if !ok { return; }
      PourKeeps(W(), i, r.name);
      ok := AppendData(i, r.name);
      if !ok { return; }
      ok := AppendData(i, id);
    }

    /** What `mkdir` and `touch` share. */
    method MakeObject(kind: Kind, parent: int, name: seq<byte>) returns (r: Reply)
      requires Valid() && 0 !in name && kind != Empty
      requires parent == if kind == Directory then currentDir else -1
      modifies this`image, this`usedInodes, this`usedBlocks, this`chains, this`owner, inodeMap, blockMap
      ensures IsDir(old(View()), currentDir)
      ensures r == Make(old(View()), geo, NewObject(kind, parent), name).1
      ensures r != OutOfSpace ==> Valid() && View() == Make(old(View()), geo, NewObject(kind, parent), name).0
      ensures r == OutOfSpace ==> Recovers(old(W()), image)
      ensures r == Ok ==> Takes(old(W()).m, W().m, currentDir, kind, parent)
      ensures r == NameTooLong || r == NoInodes || r == NoBlocks ==> W() == old(W())
    {
      hide Core, AllGood, Committed, Make, Recovers, Making, Abs, IsDir, Committing, FreeInode, FreeBlock, Takes;
      AbsDir(W(), currentDir);
      if |name| > NAME {
        MakeRefused(W(), currentDir, NewObject(kind, parent), name);
        r := NameTooLong;
      } else {
        var inodeIndex := FindFreeInode();
        var blockIndex := FindFreeBlock();
        if inodeIndex < 0 || blockIndex < 0 {
          MakeRefused(W(), currentDir, NewObject(kind, parent), name);
          r := if inodeIndex < 0 then NoInodes else NoBlocks;
        } else {
          CoreFits(W());
          MakeOutcome(W(), currentDir, kind, parent, name, raw);
          CommitTakes(W(), currentDir, kind, parent, name, raw);
          r := Place(kind, parent, name, inodeIndex, blockIndex);
        }
      }
    }

    /** Place the object, append its record and commit. */
    method Place(kind: Kind, parent: int, name: seq<byte>, inodeIndex: nat, blockIndex: nat) returns (r: Reply)
      requires Core(W()) && |raw| == 20 && LiveDir(W(), currentDir) && Makeable(W(), kind, parent)
      requires inodeIndex == FreeInode(W()) && blockIndex == FreeBlock(W())
      modifies this`image, this`usedInodes, this`usedBlocks, this`chains, this`owner, inodeMap, blockMap
      ensures var made := Making(old(W()), currentDir, kind, parent, name);
              if made.Done? then r == Ok && W() == Committing(made.w, raw) else r == OutOfSpace && W() == made.w
    {
      hide Core, Committing, Making, Pour, Prepared;
      ghost var w := W();
      CoreFits(w);
      PreparedFacts(w, currentDir, kind, parent);
      MakingIs(w, currentDir, kind, parent, name);
      Prepare(kind, parent, inodeIndex, blockIndex);
      var ok := AppendRecord(currentDir, Record(1, Field(name), inodeIndex));
      if !ok {
        return OutOfSpace;
      }
      PourKeeps(Prepared(w, currentDir, kind, parent), currentDir, EncodeRecord(Record(1, Field(name), inodeIndex)));
      UpdateSuperblock();
      return Ok;
    }

    /** `mkdir <name>` */
    method Mkdir(name: seq<byte>) returns (r: Reply)
      requires Valid() && 0 !in name
      modifies this`image, this`usedInodes, this`usedBlocks, this`chains, this`owner, inodeMap, blockMap
      ensures IsDir(old(View()), currentDir)
      ensures r == Make(old(View()), geo, DirObj(currentDir, []), name).1
      ensures r != OutOfSpace ==> Valid() && View() == Make(old(View()), geo, DirObj(currentDir, []), name).0
      ensures r == OutOfSpace ==> Recovers(old(W()), image)
      ensures r == Ok ==> Takes(old(W()).m, W().m, currentDir, Directory, currentDir)
      ensures r == NameTooLong || r == NoInodes || r == NoBlocks ==> W() == old(W())
    {
      r := MakeObject(Directory, currentDir, name);
    }

    /** `touch <name>` */
    method Touch(name: seq<byte>) returns (r: Reply)
      requires Valid() && 0 !in name
      modifies this`image, this`usedInodes, this`usedBlocks, this`chains, this`owner, inodeMap, blockMap
      ensures IsDir(old(View()), currentDir)
      ensures r == Make(old(View()), geo, FileObj([]), name).1
      ensures r != OutOfSpace ==> Valid() && View() == Make(old(View()), geo, FileObj([]), name).0
      ensures r == OutOfSpace ==> Recovers(old(W()), image)
      ensures r == Ok ==> Takes(old(W()).m, W().m, currentDir, File, -1)
      ensures r == NameTooLong || r == NoInodes || r == NoBlocks ==> W() == old(W())
    {
      r := MakeObject(File, -1, name);
    }

    /** The last object of the wanted kind that a record of the current directory names so; -1 if none does. */
    method Lookup(dir: bool, name: seq<byte>) returns (t: int)
      requires Valid()
      ensures IsDir(View(), currentDir) && t == LastMatch(View(), Here(View()), dir, name)
      ensures var m, rs := View(), Here(View());
              && (t < 0 ==> forall k | 0 <= k < |rs| :: !Matches(m, rs[k], dir, name))
              && (t >= 0 ==> exists k :: 0 <= k < |rs| && Matches(m, rs[k], dir, name) && rs[k].inode == t
                                         && forall j | k < j < |rs| :: !Matches(m, rs[j], dir, name))
    {
      hide Core, AllGood, Committed, Abs, Matches, LastMatch, Records, Content;
      AbsDir(W(), currentDir);
      DirGood(W(), currentDir);
      CoreFits(W());
      ghost var m := View();
      var content := ReadDir(currentDir);
      t := -1;
      NoMatch(m, content, dir, name);
      var index := 0;
      while index < |content|
        invariant 0 <= index <= |content| && t == LastMatch(m, content[..index], dir, name)
      {
        var r := content[index];
        assert SaneRecord(r, currentDir, geo.inodeCount);
        MatchesKind(W(), currentDir, r, dir, name);
        NextPick(m, content, index, dir, name);
        if inodeMap[r.inode].kind == (if dir then Directory else File) && Text(r.name) == name {
          t := r.inode;
        }
        index := index + 1;
      }
      assert content[..index] == content;
      LastWitness(m, content, dir, name);
    }

    /** `write <name>`, with the text the user types */
    method Write(name: seq<byte>, data: seq<byte>) returns (r: Reply)
      requires Valid() && |data| < TWO32
      modifies this`image, this`usedBlocks, this`chains, this`owner, inodeMap, blockMap
      ensures IsDir(old(View()), currentDir)
      ensures r == Written(old(View()), geo, name, data).1
      ensures r != OutOfSpace ==> Valid() && View() == Written(old(View()), geo, name, data).0
      ensures r == NotFound ==> W() == old(W())
      ensures r == OutOfSpace ==> Recovers(old(W()), image)
    {
      hide Core, AllGood, Committed, Recovers, Committing, Abs, Pour, Written;
      AbsDir(W(), currentDir);
      var t := Lookup(false, name);
      if t < 0 {
        WriteMissed(W(), currentDir, name, data);
        r := NotFound;
      } else {
        WriteCommand(W(), currentDir, name, t, data, raw);
        r := AppendTo(t, data);
      }
    }

    /** Append, count the bytes, commit. */
    method AppendTo(t: nat, data: seq<byte>) returns (r: Reply)
      requires Core(W()) && |raw| == 20 && Live(W(), t) && |data| < TWO32
      modifies this`image, this`usedBlocks, this`chains, this`owner, inodeMap, blockMap
      ensures Ready(old(W()), t)
      ensures var p := Pour(old(W()), t, data);
              if p.Done? then r == Ok && W() == Committing(Resize(p.w, t, |data|), raw) else r == OutOfSpace && W() == p.w
    {
      hide Core, Committing, Pour;
      PourKeepsIf(W(), t, data);
      var ok := AppendData(t, data);
      if !ok {
        return OutOfSpace;
      }
      ghost var w1 := W();
      ResizeKeeps(w1, t, |data|);
      inodeMap[t] := inodeMap[t].(size := Wrap(inodeMap[t].size + |data|));
      assert inodeMap[..] == Resize(w1, t, |data|).m.inodes;
      UpdateSuperblock();
      return Ok;
    }

    /** `read <name>` */
    method Read(name: seq<byte>) returns (r: Reply)
      requires Valid()
      ensures IsDir(View(), currentDir) && r == ReadReply(View(), name)
    {
      var t := Lookup(false, name);
      if t < 0 {
        return NotFound;
      }
      FileFound(W(), currentDir, t, name);
      FileGood(W(), t);
      hide Core, AllGood, Content;
      ContentBound(W(), t);
      var content := ReadData(t);
      var shown := Print(content);
      return Data(shown);
    }

    /** Print `dsize` bytes, where `dsize` is a signed word. */
    static method Print(content: seq<byte>) returns (shown: seq<byte>)
      requires |content| < TWO32
      ensures shown == Shown(content)
    {
      shown := [];
      var dsize := AsSigned(|content|);
      var index := 0;
      while index < dsize
        invariant 0 <= index && (dsize >= 0 ==> index <= dsize) && (dsize < 0 ==> index == 0)
        invariant index <= |content| && shown == content[..index]
      {
        shown := shown + [content[index]];
        index := index + 1;
      }
    }

    /** The first directory that a record of the current directory names so; -1 if none does. */
    method LookupDir(name: seq<byte>) returns (t: int)
      requires Valid()
      ensures IsDir(View(), currentDir) && t == FirstMatch(View(), Here(View()), true, name)
      ensures var m, rs := View(), Here(View());
              && (t < 0 ==> forall k | 0 <= k < |rs| :: !Matches(m, rs[k], true, name))
              && (t >= 0 ==> exists k :: 0 <= k < |rs| && Matches(m, rs[k], true, name) && rs[k].inode == t
                                         && forall j | 0 <= j < k :: !Matches(m, rs[j], true, name))
    {
      hide Core, AllGood, Committed, Abs, Matches, Records, Content;
      AbsDir(W(), currentDir);
      DirGood(W(), currentDir);
      CoreFits(W());
      ghost var m := View();
      var content := ReadDir(currentDir);
      FirstWitness(m, content, name);
      var index := 0;
      assert content[0..] == content;
      while index < |content|
        invariant 0 <= index <= |content|
        invariant FirstMatch(m, content, true, name) == FirstMatch(m, content[index..], true, name)
      {
        var r := content[index];
        assert SaneRecord(r, currentDir, geo.inodeCount);
        MatchesKind(W(), currentDir, r, true, name);
        assert content[index..][1..] == content[index + 1..];
        if inodeMap[r.inode].kind == Directory && Text(r.name) == name {
          return r.inode;
        }
        index := index + 1;
      }
      return -1;
    }

    /** `cd <name>` */
    method Cd(name: seq<byte>) returns (r: Reply)
      requires Valid()
      modifies this`currentDir
      ensures IsDir(old(View()), old(currentDir))
      ensures (View(), r) == Moved(old(View()), name) && W() == old(W())
      ensures Valid() <==> IsDir(View(), currentDir)
    {
      hide Core, AllGood, Committed, Matches, Abs, FirstMatch, Records, Content;
      AbsDir(W(), currentDir);
      DirGood(W(), currentDir);
      ghost var cwd := currentDir;
      r := Ok;
      if name == [46] {
      } else if name == [46, 46] {
        currentDir := inodeMap[currentDir].parent;
      } else {
        var t := LookupDir(name);
        if t < 0 {
          r := NotFound;
        } else {
          currentDir := t;
        }
      }
      AbsMoved(W(), cwd, currentDir);
    }

    /** Clear the flag of every record that names an object of the wanted kind so; return the last such object. */
    method Unlink(dir: bool, name: seq<byte>) returns (t: int)
      requires Valid()
      modifies this`image
      ensures IsDir(old(View()), currentDir) && t == LastMatch(old(View()), Here(old(View())), dir, name)
      ensures W() == UnflagAll(old(W()), currentDir, Picks(old(View()), Here(old(View())), dir, name))
    {
      hide Core, AllGood, Committed, Abs, Matches, Content, Records, Unflag, TargetOf, LastMatch, Picks;
      AbsDir(W(), currentDir);
      DirGood(W(), currentDir);
      CoreFits(W());
      ghost var w, m := W(), View();
      var content := ReadDir(currentDir);
      t := -1;
      var index := 0;
      UnflagNone(w, currentDir);
      NoMatch(m, content, dir, name);
      while index < |content|
        invariant 0 <= index <= |content| && t == LastMatch(m, content[..index], dir, name)
        invariant W() == UnflagAll(w, currentDir, Picks(m, content[..index], dir, name))
      {
        var r := content[index];
        assert SaneRecord(r, currentDir, geo.inodeCount);
        MatchesKind(w, currentDir, r, dir, name);
        NextPick(m, content, index, dir, name);
        UnflagTables(w, currentDir, Picks(m, content[..index], dir, name));
        if inodeMap[r.inode].kind == (if dir then Directory else File) && Text(r.name) == name {
          t := r.inode;
          ClearNext(m, index, Picks(m, content[..index], dir, name), w);
        }
        index := index + 1;
      }
      assert content[..index] == content;
    }

    /** One more clear behind those of `ks`. */
    method ClearNext(ghost m: Model, index: nat, ghost ks: seq<nat>, ghost w: World)
      requires Sound(w) && LiveDir(w, currentDir) && W() == UnflagAll(w, currentDir, ks)
      requires index < |Records(Content(w, currentDir))|
      requires forall p | 0 <= p < |ks| :: ks[p] < |Records(Content(w, currentDir))|
      modifies this`image
      ensures W() == UnflagAll(w, currentDir, ks + [index])
    {
      hide Core, AllGood, Committed, Abs, Content, Records, Unflag, UnflagAll, TargetOf;
      UnlinkOutcome(w, currentDir, ks);
      UnflagTables(w, currentDir, ks);
      RecordInChain(w, currentDir, index);
      RecordReached(W(), currentDir, index);
      UnflagSnoc(w, currentDir, ks, index);
      var ok := RemoveFromDir(currentDir, index);
      assert ok;
    }

    /** `rmdir <name>` */
    method Rmdir(name: seq<byte>) returns (r: Reply)
      requires Valid()
      modifies this`image, this`usedInodes, this`usedBlocks, this`chains, this`owner, inodeMap, blockMap
      ensures Valid() && (View(), r) == RmdirEffect(old(W()), currentDir, name)
      ensures r == NotFound ==> W() == old(W())
    {
      hide Core, AllGood, Committed, Abs, Picks, UnflagAll, PlacesAt, ScribbleAll, Release, Committing;
      AbsDir(W(), currentDir);
      ghost var w, m := W(), View();
      var t := Unlink(true, name);
      if t < 0 {
        NothingPicked(m, Here(m), true, name);
        assert W() == w by { UnflagNone(w, currentDir); }
        r := NotFound;
      } else {
        TargetFound(w, currentDir, t, true, name);
        RemoveOutcome(w, currentDir, Picks(m, Here(m), true, name), t, raw);
        ReleaseObject(t);
        UpdateSuperblock();
        r := Ok;
      }
    }

    /** `rm <name>`: after the matching records it also clears the one numbered like the removed inode. */
    method Rm(name: seq<byte>) returns (r: Reply)
      requires Valid()
      modifies this`image, this`usedInodes, this`usedBlocks, this`chains, this`owner, inodeMap, blockMap
      ensures Valid() && (View(), r) == RmEffect(old(W()), currentDir, name)
      ensures r == NotFound ==> W() == old(W())
    {
      hide Core, AllGood, Committed, Abs, Picks, UnflagAll, PlacesAt, ScribbleAll, Release, Committing;
      hide TargetOf, Unflag, Content, Records;
      AbsDir(W(), currentDir);
      ghost var w, m := W(), View();
      var t := Unlink(false, name);
      if t < 0 {
        NothingPicked(m, Here(m), false, name);
        assert W() == w by { UnflagNone(w, currentDir); }
        r := NotFound;
      } else {
        ghost var ks := Picks(m, Here(m), false, name);
        TargetFound(w, currentDir, t, false, name);
        AllPicked(m, Here(m), false, name);
        UnlinkOutcome(w, currentDir, ks);
        UnflagTables(w, currentDir, ks);
        RemoveOutcome(w, currentDir, ks + [t], t, raw);
        UnflagSnoc(w, currentDir, ks, t);
        assert 0 < PerBlock(geo) && currentDir < |chains| by { CoreFits(w); PerBlockFits(geo); }
        assert TargetOf(W(), currentDir, t) == TargetOf(w, currentDir, t) by { SameTarget(w, W(), currentDir, t); }
        var ok := RemoveFromDir(currentDir, t);
        if !ok {
          WildKeeps(w, currentDir, ks, t);
          r := OutOfBounds;
        } else {
          ReleaseObject(t);
          UpdateSuperblock();
          r := Ok;
        }
      }
    }
  }

  lemma LastWitness(m: Model, rs: seq<Record>, dir: bool, name: seq<byte>)
    ensures var t := LastMatch(m, rs, dir, name);
            t >= 0 ==> exists k :: 0 <= k < |rs| && Matches(m, rs[k], dir, name) && rs[k].inode == t
                                   && forall j | k < j < |rs| :: !Matches(m, rs[j], dir, name)
  {
    hide Matches, LastMatch;
    if LastMatch(m, rs, dir, name) >= 0 {
      var n :| 0 <= n < |rs| && Matches(m, rs[n], dir, name);
      var k := LastExists(m, rs, dir, name, n);
      LastMatchIs(m, rs, dir, name, k);
    }
  }

  lemma FirstWitness(m: Model, rs: seq<Record>, name: seq<byte>)
    ensures var t := FirstMatch(m, rs, true, name);
            t >= 0 ==> exists k :: 0 <= k < |rs| && Matches(m, rs[k], true, name) && rs[k].inode == t
                                   && forall j | 0 <= j < k :: !Matches(m, rs[j], true, name)
  {
    hide Matches, FirstMatch;
    if FirstMatch(m, rs, true, name) >= 0 {
      var n :| 0 <= n < |rs| && Matches(m, rs[n], true, name);
      var k := FirstExists(m, rs, true, name, n);
      FirstMatchIs(m, rs, true, name, k);
    }
  }

  lemma PourKeepsIf(w: World, i: nat, data: seq<byte>)
    requires Core(w) && Live(w, i)
    ensures Ready(w, i) && Core(Pour(w, i, data).w) && Live(Pour(w, i, data).w, i)
  {
    ReadyLive(w, i);
    PourKeeps(w, i, data);
  }

  lemma ReachStart(w: World, i: nat)
    requires Core(w) && Live(w, i) && i < |w.chains| && w.chains[i] != []
    ensures w.m.inodes[i].root == BlockReached(w.chains[i], 0)
  {
    ChainStart(w, i);
  }

  /** Following one link, as an unsigned number; behind the last block there is none to follow. */
  lemma ReachNext(w: World, i: nat, h: nat)
    requires Core(w) && Live(w, i) && i < |w.chains| && w.chains[i] != [] && h <= |w.chains[i]|
    ensures var b := BlockReached(w.chains[i], h);
            if h == |w.chains[i]| then b >= w.m.geo.blockCount == |w.m.blocks|
            else b < w.m.geo.blockCount == |w.m.blocks| && Wrap(w.m.blocks[b].next) == BlockReached(w.chains[i], h + 1)
  {
    ChainAt(w, i, 0);
    if h < |w.chains[i]| { ChainAt(w, i, h); }
    if h + 1 < |w.chains[i]| { ChainAt(w, i, h + 1); }
  }

  lemma RootLive(w: World)
    requires Core(w)
    ensures LiveDir(w, 0)
  {
  }

  lemma BodySize(w: World, b: nat)
    requires b < |w.m.blocks|
    ensures Body(w, b) == Slice(w.image, BodyStart(w.m.geo, b), w.m.blocks[b].size)
    ensures |Body(w, b)| == w.m.blocks[b].size
  {
  }

  lemma RecordParts(f: seq<byte>, off: nat)
    ensures RecordAt(f, off) == Record(Slice(f, off, 1)[0], Slice(f, off + 1, NAME), DecodeU32(Slice(f, off + 1 + NAME, 4)))
  {
    assert Slice(f, off, 1)[0] == At(f, off + 0);
  }

  lemma SuperFields(m: Meta, raw: seq<byte>)
    requires |raw| == 20
    ensures EncodeSuper(Meta(m.geo, m.usedInodes, m.usedBlocks, [], []), raw) == EncodeSuper(m, raw)
  {
  }
}
