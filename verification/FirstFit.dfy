/** Which inode and which blocks are taken: always the lowest that are free. */
module FirstFit {
  import opened Bytes
  import opened Metadata
  import opened Volume
  import opened Steps
  import opened Objects
  import opened Append
  import opened Directory
  import opened Refinement
  import opened Outcomes
  import opened TornAppend

  lemma FreeBlockMeans(w: World)
    ensures FreeBlock(w) >= 0 ==>
              && FreeBlock(w) < |w.m.blocks| && !w.m.blocks[FreeBlock(w)].used
              && forall k | 0 <= k < FreeBlock(w) :: w.m.blocks[k].used
    ensures FreeBlock(w) < 0 <==> forall k | 0 <= k < |w.m.blocks| :: w.m.blocks[k].used
    ensures FreeBlock(w) >= -1
  {
    forall k | 0 <= k < |w.m.blocks| ensures IsFree(w.m.blocks[k]) <==> !w.m.blocks[k].used {}
  }

  lemma FreeInodeMeans(w: World)
    ensures FreeInode(w) >= 0 ==>
              && FreeInode(w) < |w.m.inodes| && w.m.inodes[FreeInode(w)].kind == Empty
              && forall k | 0 <= k < FreeInode(w) :: w.m.inodes[k].kind != Empty
    ensures FreeInode(w) < 0 <==> forall k | 0 <= k < |w.m.inodes| :: w.m.inodes[k].kind != Empty
    ensures FreeInode(w) >= -1
  {
    forall k | 0 <= k < |w.m.inodes| ensures IsEmpty(w.m.inodes[k]) <==> w.m.inodes[k].kind == Empty {}
  }

  /** The blocks newly used are those of `c`: they ascend, were free, and lie below every block that is still free. */
  predicate Lowest(before: seq<Block>, after: seq<Block>, c: seq<nat>) {
    && |after| == |before|
    && (forall p, q | 0 <= p < q < |c| :: c[p] < c[q])
    && (forall p | 0 <= p < |c| :: c[p] < |before| && !before[c[p]].used && after[c[p]].used)
    && (forall b | 0 <= b < |before| && before[b].used :: after[b].used)
    && (forall b | 0 <= b < |before| && !before[b].used && after[b].used :: b in c)
    && (forall b, p | 0 <= b < |before| && !after[b].used && 0 <= p < |c| :: c[p] < b)
  }

  /** One block taken, the lowest; then those of `c`. */
  lemma LowestMore(before: seq<Block>, between: seq<Block>, after: seq<Block>, b: nat, c: seq<nat>)
    requires Lowest(between, after, c) && |between| == |before| && b < |before|
    requires !before[b].used && between[b].used && forall k | 0 <= k < b :: before[k].used
    requires forall k | 0 <= k < |before| && k != b :: between[k].used == before[k].used
    ensures Lowest(before, after, [b] + c)
  {
    var d := [b] + c;
    assert forall p | 0 < p < |d| :: d[p] == c[p - 1];
    forall k | 0 <= k < |before| && !before[k].used && after[k].used ensures k in d {
      if k != b { assert k in c; }
    }
    forall k, p | 0 <= k < |before| && !after[k].used && 0 <= p < |d| ensures d[p] < k {
      assert !before[k].used;
      if p > 0 { assert c[p - 1] < k; }
    }
  }

  lemma LowestNone(before: seq<Block>, after: seq<Block>)
    requires |after| == |before| && forall k | 0 <= k < |before| :: after[k].used == before[k].used
    ensures Lowest(before, after, [])
  {
  }

  lemma PutUsed(w: World, i: nat, d: seq<byte>)
    requires Ready(w, i)
    ensures var v := Put(w, i, d);
            && |v.m.blocks| == |w.m.blocks| && v.chains == w.chains
            && forall k | 0 <= k < |w.m.blocks| :: v.m.blocks[k].used == w.m.blocks[k].used
  {
  }

  lemma GrowUsed(w: World, i: nat, b: nat)
    requires Ready(w, i) && b < |w.m.blocks| && w.m.blocks[Tail(w, i)].used && Tail(w, i) != b
    ensures var v := Grow(w, i, b);
            && |v.m.blocks| == |w.m.blocks| && |v.chains| == |w.chains|
            && v.chains[i] == w.chains[i] + [b] && v.m.blocks[b] == Block(-1, 0, true)
            && forall k | 0 <= k < |w.m.blocks| && k != b :: v.m.blocks[k].used == w.m.blocks[k].used
  {
  }

  /** An append extends the chain by the lowest free blocks, in ascending order, and takes no other. */
  lemma {:induction false} PourFirstFit(w: World, i: nat, data: seq<byte>)
    requires Core(w) && Live(w, i) && Ready(w, i)
    ensures var r := Pour(w, i, data).w;
            && |r.chains| == |w.chains| && w.chains[i] <= r.chains[i]
            && Lowest(w.m.blocks, r.m.blocks, r.chains[i][|w.chains[i]|..])
    decreases |data|, if Room(w, i) == 0 then 1 else 0
  {
    hide Core, Put, Grow, Lowest, FreeBlock;
    var room := Room(w, i);
    if |data| <= room {
      PutUsed(w, i, data);
      LowestNone(w.m.blocks, Put(w, i, data).m.blocks);
      assert w.chains[i][|w.chains[i]|..] == [];
    } else {
      var full := Put(w, i, data[..room]);
      PutStep(w, i, data[..room]);
      PutUsed(w, i, data[..room]);
      FreeBlockMeans(full);
      if FreeBlock(full) < 0 {
        LowestNone(w.m.blocks, full.m.blocks);
        assert w.chains[i][|w.chains[i]|..] == [];
      } else {
        var b := FreeBlock(full);
        var next := Grow(full, i, b);
        GrowStep(full, i);
        ReadyLive(full, i);
        GrowUsed(full, i, b);
        PourFirstFit(next, i, data[room..]);
        var r := Pour(next, i, data[room..]).w;
        var c := r.chains[i][|next.chains[i]|..];
        LowestMore(w.m.blocks, next.m.blocks, r.m.blocks, b, c);
        assert r.chains[i][|w.chains[i]|..] == [b] + c;
      }
    }
  }

  // ---- a new object ----

  /** Inode slot `id` was the lowest EMPTY one and now holds the new object, whose block `b` was the lowest free one. */
  predicate NewSlot(m: Meta, m': Meta, cwd: nat, kind: Kind, parent: int, id: nat, b: nat) {
    && id < |m.inodes| == |m'.inodes| && b < |m.blocks| == |m'.blocks| && id != cwd
    && m.inodes[id].kind == Empty && (forall k | 0 <= k < id :: m.inodes[k].kind != Empty)
    && !m.blocks[b].used && (forall k | 0 <= k < b :: m.blocks[k].used)
    && m'.inodes[id] == Inode(0, b, parent, kind) && m'.blocks[b] == Block(-1, 0, true)
    && (forall k | 0 <= k < |m.inodes| && k != id && k != cwd :: m'.inodes[k] == m.inodes[k])
    && (cwd < |m.inodes| ==> m'.inodes[cwd] == m.inodes[cwd].(size := Wrap(m.inodes[cwd].size + 1)))
  }

  /** Some lowest EMPTY slot and some lowest free block were taken so. */
  ghost predicate Takes(m: Meta, m': Meta, cwd: nat, kind: Kind, parent: int) {
    exists id: nat, b: nat :: NewSlot(m, m', cwd, kind, parent, id, b)
  }

  lemma PreparedSlots(w: World, cwd: nat, kind: Kind, parent: int)
    requires Core(w) && LiveDir(w, cwd) && Makeable(w, kind, parent) && |w.chains| == |w.m.inodes|
    ensures var p, id, b := Prepared(w, cwd, kind, parent), FreeInode(w), FreeBlock(w);
            && NewSlot(w.m, p.m, cwd, kind, parent, id, b)
            && |p.m.blocks| == |w.m.blocks| && cwd < |p.chains| == |w.chains| && p.chains[cwd] == w.chains[cwd]
            && forall k | 0 <= k < |w.m.blocks| && k != b :: p.m.blocks[k] == w.m.blocks[k]
  {
    hide Core, Wrap;
    FreeBlockMeans(w);
    FreeInodeMeans(w);
  }

  lemma NewSlotKept(m: Meta, p: Meta, r: Meta, cwd: nat, kind: Kind, parent: int, id: nat, b: nat)
    requires NewSlot(m, p, cwd, kind, parent, id, b) && r.inodes == p.inodes && |r.blocks| == |p.blocks|
    requires b < |p.blocks| && r.blocks[b] == p.blocks[b]
    ensures NewSlot(m, r, cwd, kind, parent, id, b)
  {
  }

  lemma TailIsNot(w: World, cwd: nat, b: nat)
    requires Core(w) && Live(w, cwd) && Ready(w, cwd) && b < |w.m.blocks| && !w.m.blocks[b].used
    ensures Tail(w, cwd) != b
  {
    hide Core;
    ReadyLive(w, cwd);
  }

  /** `mkdir` and `touch` take the lowest EMPTY inode, the lowest free block for the object, and for the record the
      lowest free ones after that. */
  lemma MakeFirstFit(w: World, cwd: nat, kind: Kind, parent: int, name: seq<byte>)
    requires Core(w) && LiveDir(w, cwd) && Makeable(w, kind, parent)
    ensures var r := Making(w, cwd, kind, parent, name).w;
            && cwd < |w.chains| == |r.chains| && w.chains[cwd] <= r.chains[cwd]
            && exists id: nat, b: nat ::
                 && NewSlot(w.m, r.m, cwd, kind, parent, id, b)
                 && Lowest(w.m.blocks, r.m.blocks, [b] + r.chains[cwd][|w.chains[cwd]|..])
  {
    hide Core, Pour, Prepared, EncodeRecord, NewSlot, Lowest, FreeInode, FreeBlock, LiveDir;
    CoreFits(w);
    PreparedFacts(w, cwd, kind, parent);
    InDirs(w, cwd);
    MakingIs(w, cwd, kind, parent, name);
    PouredFirstFit(w, cwd, kind, parent, EncodeRecord(Record(1, Field(name), FreeInode(w))), FreeInode(w), FreeBlock(w));
  }

  lemma InDirs(w: World, cwd: nat)
    requires LiveDir(w, cwd)
    ensures cwd < |w.m.inodes|
  {
  }

  lemma PouredFirstFit(w: World, cwd: nat, kind: Kind, parent: int, record: seq<byte>, id: nat, b: nat)
    requires Core(w) && LiveDir(w, cwd) && Makeable(w, kind, parent) && cwd < |w.chains| == |w.m.inodes|
    requires Ready(Prepared(w, cwd, kind, parent), cwd) && id == FreeInode(w) && b == FreeBlock(w)
    ensures var r := Pour(Prepared(w, cwd, kind, parent), cwd, record).w;
            && |r.chains| == |w.chains| && w.chains[cwd] <= r.chains[cwd]
            && NewSlot(w.m, r.m, cwd, kind, parent, id, b)
            && Lowest(w.m.blocks, r.m.blocks, [b] + r.chains[cwd][|w.chains[cwd]|..])
  {
    hide Core, Pour, NewSlot, Lowest, FreeInode, FreeBlock, OthersStay, Prepared, Tail;
    PreparedFacts(w, cwd, kind, parent);
    PreparedSlots(w, cwd, kind, parent);
    FreeBlockMeans(w);
    ReadyLive(w, cwd);
    var p := Prepared(w, cwd, kind, parent);
    var r := Pour(p, cwd, record).w;
    PourFirstFit(p, cwd, record);
    PourOthers(p, cwd, record);
    BlockPlaced(w, p, r, cwd, kind, parent, id, b);
    NewSlotKept(w.m, p.m, r.m, cwd, kind, parent, id, b);
    LowestMore(w.m.blocks, p.m.blocks, r.m.blocks, b, r.chains[cwd][|w.chains[cwd]|..]);
  }

  lemma BlockPlaced(w: World, p: World, r: World, cwd: nat, kind: Kind, parent: int, id: nat, b: nat)
    requires Core(w) && Live(w, cwd) && Ready(w, cwd) && NewSlot(w.m, p.m, cwd, kind, parent, id, b)
    requires Ready(p, cwd) && cwd < |p.chains| && cwd < |w.chains| && p.chains[cwd] == w.chains[cwd]
    requires |r.m.blocks| == |p.m.blocks| && OthersStay(p, r, cwd)
    ensures b < |p.m.blocks| && r.m.blocks[b] == p.m.blocks[b] && p.m.blocks[b].used && !w.m.blocks[b].used
  {
    hide Core;
    TailIsNot(w, cwd, b);
  }

  lemma CommitTakes(w: World, cwd: nat, kind: Kind, parent: int, name: seq<byte>, raw: seq<byte>)
    requires Core(w) && LiveDir(w, cwd) && Makeable(w, kind, parent) && |raw| == 20
    ensures Takes(w.m, Committing(Making(w, cwd, kind, parent, name).w, raw).m, cwd, kind, parent)
  {
    hide Core, Making, NewSlot, Lowest;
    MakeFirstFit(w, cwd, kind, parent, name);
    CommitTables(Making(w, cwd, kind, parent, name).w, raw);
  }
}
