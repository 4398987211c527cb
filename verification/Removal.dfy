/** Clearing a record's flag, with the byte the program really writes, and removing an object. */
module Removal {
  import opened Bytes
  import opened Layout
  import opened Metadata
  import opened Volume
  import opened Steps
  import opened Objects
  import opened Append
  import opened Directory
  import opened Model
  import opened Refinement

  // ---- which byte is written ----

  /** Links followed before the write: the walk goes on while `index * 32 > blockSize`. */
  function Hops(index: nat, perBlock: nat): nat
    requires 0 < perBlock
    decreases index
  {
    if index <= perBlock then 0 else 1 + Hops(index - perBlock, perBlock)
  }

  lemma {:induction false} HopsExact(index: nat, perBlock: nat)
    requires 0 < perBlock
    ensures Hops(index, perBlock) == if index == 0 then 0 else (index - 1) / perBlock
    ensures Hops(index, perBlock) * perBlock <= index <= Hops(index, perBlock) * perBlock + perBlock
    ensures index > 0 ==> Hops(index, perBlock) * perBlock < index
  {
    if index <= perBlock {
      if index > 0 { Quotient(index - 1, 0, perBlock); }
    } else {
      var h := Hops(index - perBlock, perBlock);
      HopsExact(index - perBlock, perBlock);
      assert (h + 1) * perBlock == h * perBlock + perBlock == perBlock * (h + 1);
      Quotient(index - 1, h + 1, perBlock);
    }
  }

  /** After `h` links the index is down to `k`. */
  predicate Walked(index: nat, perBlock: nat, h: nat, k: nat)
    requires 0 < perBlock
  {
    index == h * perBlock + k && Hops(index, perBlock) == h + Hops(k, perBlock)
  }

  lemma WalkStart(index: nat, perBlock: nat)
    requires 0 < perBlock
    ensures Walked(index, perBlock, 0, index)
  {
  }

  /** One more link followed, as long as the index is larger than a block's records. */
  lemma HopStep(index: nat, perBlock: nat, h: nat, k: nat)
    requires 0 < perBlock && Walked(index, perBlock, h, k)
    ensures k > perBlock ==> Walked(index, perBlock, h + 1, k - perBlock) && Hops(index, perBlock) > h
    ensures k <= perBlock ==> Hops(index, perBlock) == h && index == h * perBlock + k
  {
    assert (h + 1) * perBlock == h * perBlock + perBlock;
  }

  /** Where the zero goes: a file offset, or nowhere when a link is looked up for block number 2^32 - 1. */
  datatype Target = Offset(off: nat) | Wild

  /** The block the walk ends in; behind the last one lies -1, that is 2^32 - 1 as an unsigned number. */
  function BlockReached(c: seq<nat>, hops: nat): nat
    requires hops <= |c|
  {
    if hops < |c| then c[hops] else Wrap(-1)
  }

  function ClearTarget(g: Geometry, c: seq<nat>, index: nat): Target
    requires 0 < PerBlock(g)
  {
    var h := Hops(index, PerBlock(g));
    if h > |c| then Wild
    else Offset(Wrap(BodyOffset(g, BlockReached(c, h)) + (index - h * PerBlock(g)) * RECORD))
  }

  /** Where the flag of record `index` lies. */
  function FlagOffset(g: Geometry, c: seq<nat>, index: nat): nat
    requires 0 < PerBlock(g) && index / PerBlock(g) < |c|
  {
    BodyStart(g, c[index / PerBlock(g)]) + RECORD * (index % PerBlock(g))
  }

  lemma PerBlockFits(g: Geometry)
    requires Fits(g)
    ensures 0 < PerBlock(g) && PerBlock(g) * RECORD == g.blockSize
  {
  }

  lemma InsideBody(g: Geometry, b: nat, o: nat)
    requires Fits(g) && b < g.blockCount && o <= g.blockSize
    ensures BodyOffset(g, b) == BodyStart(g, b)
    ensures MetaEnd(g) <= BodyStart(g, b) + o < TWO32
  {
    OffsetsExact(g, b);
    BodiesApart(g, b, g.blockCount);
  }

  /** The walk stops one block early at a multiple of the records per block. */
  function StopsAt(index: nat, perBlock: nat): nat
    requires 0 < perBlock
  {
    var q := index / perBlock;
    if index % perBlock == 0 && q > 0 then q - 1 else q
  }

  lemma HopsStop(index: nat, R: nat)
    requires 0 < R
    ensures Hops(index, R) == StopsAt(index, R)
    ensures index == StopsAt(index, R) * R + (if StopsAt(index, R) < index / R then R else index % R)
    ensures StopsAt(index, R) < index / R <==> index > 0 && index % R == 0
  {
    hide Hops;
    HopsExact(index, R);
    DivMod(index, R);
    if index > 0 {
      if index % R == 0 { AtMultiple(index, R); } else { OffMultiple(index, R); }
    }
  }

  lemma AtMultiple(n: nat, d: nat)
    requires 0 < d && 0 < n && n % d == 0
    ensures n / d > 0 && (n - 1) / d == n / d - 1 && n == (n / d - 1) * d + d
  {
    DivMod(n, d);
    var q := n / d;
    Scaled(d, q - 1, q);
    Quotient(n - 1, q - 1, d);
  }

  lemma OffMultiple(n: nat, d: nat)
    requires 0 < d && n % d != 0
    ensures (n - 1) / d == n / d && n == n / d * d + n % d
  {
    DivMod(n, d);
    Quotient(n - 1, n / d, d);
  }

  lemma DivMod(n: nat, d: nat)
    requires 0 < d
    ensures n == d * (n / d) + n % d && n == n / d * d + n % d && n % d < d
    ensures n > 0 && n % d == 0 ==> n / d > 0
    ensures n == 0 ==> n / d == 0 && n % d == 0
  {
    if n == 0 { Quotient(n, 0, d); }
  }

  /** For a record inside the chain, the walk stays inside it. */
  lemma TargetInside(g: Geometry, c: seq<nat>, index: nat)
    requires Fits(g) && 0 < PerBlock(g) && index / PerBlock(g) < |c|
    requires forall p | 0 <= p < |c| :: c[p] < g.blockCount
    ensures var R, h := PerBlock(g), StopsAt(index, PerBlock(g));
            h < |c| && ClearTarget(g, c, index) ==
              Offset(BodyStart(g, c[h]) + if h < index / R then g.blockSize else RECORD * (index % R))
  {
    var R, h := PerBlock(g), StopsAt(index, PerBlock(g));
    PerBlockFits(g);
    HopsStop(index, R);
    var o := if h < index / R then R else index % R;
    assert RECORD * o <= g.blockSize;
    InsideBody(g, c[h], RECORD * o);
    TargetUnfold(g, c, index, h, o);
  }

  lemma TargetUnfold(g: Geometry, c: seq<nat>, index: nat, h: nat, o: nat)
    requires 0 < PerBlock(g) && Hops(index, PerBlock(g)) == h <= |c| && index == h * PerBlock(g) + o
    ensures ClearTarget(g, c, index) == Offset(Wrap(BodyOffset(g, BlockReached(c, h)) + RECORD * o))
  {
  }

  /** The program clears the flag of record `index` exactly when the index is 0, is no multiple of the records per
      block, or the two blocks around the boundary happen to be neighbours on disk. */
  lemma ClearsItsRecord(g: Geometry, c: seq<nat>, index: nat)
    requires Fits(g) && 0 < PerBlock(g) && index / PerBlock(g) < |c|
    requires forall p | 0 <= p < |c| :: c[p] < g.blockCount
    ensures ClearTarget(g, c, index) == Offset(FlagOffset(g, c, index)) <==>
              || index == 0 || index % PerBlock(g) != 0
              || c[index / PerBlock(g)] == c[index / PerBlock(g) - 1] + 1
    ensures index > 0 && index % PerBlock(g) == 0 ==>
              index / PerBlock(g) > 0 &&
              ClearTarget(g, c, index) == Offset(BodyStart(g, c[index / PerBlock(g) - 1] + 1))
  {
    hide ClearTarget, PerBlock;
    var R, q := PerBlock(g), index / PerBlock(g);
    TargetInside(g, c, index);
    HopsStop(index, R);
    if index > 0 && index % R == 0 {
      var a, b := c[q - 1] + 1, c[q];
      Scaled(g.blockSize, c[q - 1], a);
      BodiesApart(g, a, b);
    }
  }

  // ---- what the write changes ----

  function Clear(w: World, off: nat): World {
    w.(image := Patch(w.image, off, [0]))
  }

  /** The inode byte at a file offset. */
  function PlaceOf(w: World, off: nat): Place {
    var g := w.m.geo;
    if off < MetaEnd(g) || g.blockSize == 0 then Nowhere
    else
      var b, o := (off - MetaEnd(g)) / g.blockSize, (off - MetaEnd(g)) % g.blockSize;
      if b in w.owner && b < |w.m.blocks| && o < w.m.blocks[b].size
      then Byte(w.owner[b].inode, w.owner[b].pos * g.blockSize + o)
      else Nowhere
  }

  lemma PlaceIn(w: World, b: nat, o: nat)
    requires o < w.m.geo.blockSize
    ensures PlaceOf(w, BodyStart(w.m.geo, b) + o) ==
            if b in w.owner && b < |w.m.blocks| && o < w.m.blocks[b].size
            then Byte(w.owner[b].inode, w.owner[b].pos * w.m.geo.blockSize + o) else Nowhere
  {
    var bs := w.m.geo.blockSize;
    Scaled(bs, 0, b);
    Quotient(bs * b + o, b, bs);
    assert bs * b + o == bs * ((bs * b + o) / bs) + (bs * b + o) % bs;
  }

  lemma {:induction false} GatherUpdate(w: World, w': World, c: seq<nat>, p: nat, o: nat)
    requires p < |c| && o < |Body(w, c[p])|
    requires forall q | 0 <= q < |c| && q != p :: Body(w', c[q]) == Body(w, c[q])
    requires Body(w', c[p]) == Body(w, c[p])[o := 0]
    ensures |Gather(w, c[..p])| + o < |Gather(w, c)|
    ensures Gather(w', c) == Gather(w, c)[|Gather(w, c[..p])| + o := 0]
  {
    hide Body;
    var n := |c| - 1;
    if p == n {
      GatherFrame(w, w', c[..n]);
    } else {
      assert c[..n][..p] == c[..p];
      GatherUpdate(w, w', c[..n], p, o);
    }
  }

  lemma PatchByte(f: seq<byte>, off: nat, start: nat, n: nat)
    requires start <= off < start + n
    ensures Slice(Patch(f, off, [0]), start, n) == Slice(f, start, n)[off - start := 0]
  {
    var f' := Patch(f, off, [0]);
    forall k | 0 <= k < n ensures Slice(f', start, n)[k] == Slice(f, start, n)[off - start := 0][k] {
      assert At(f', start + k) == if off <= start + k < off + 1 then 0 else At(f, start + k);
    }
  }

  lemma ClearBodies(w: World, off: nat)
    requires Core(w)
    ensures forall b | 0 <= b < |w.m.blocks| && !(BodyStart(w.m.geo, b) <= off < BodyStart(w.m.geo, b) + w.m.blocks[b].size) ::
              Body(Clear(w, off), b) == Body(w, b)
  {
    PatchSlice(w.image, off, [0]);
  }

  /** Whatever byte of the file is set to zero, the objects change in that byte alone. */
  lemma ClearContent(w: World, off: nat)
    requires Core(w)
    ensures Core(Clear(w, off))
    ensures forall i | Live(w, i) ::
              var p := PlaceOf(w, off);
              if p.Byte? && p.inode == i
              then p.pos < |Content(w, i)| && Content(Clear(w, off), i) == Content(w, i)[p.pos := 0]
              else Content(Clear(w, off), i) == Content(w, i)
  {
    ImageFrame(w, Clear(w, off).image);
    forall i | Live(w, i)
      ensures var p := PlaceOf(w, off);
              if p.Byte? && p.inode == i
              then p.pos < |Content(w, i)| && Content(Clear(w, off), i) == Content(w, i)[p.pos := 0]
              else Content(Clear(w, off), i) == Content(w, i)
    {
      ClearContentAt(w, off, i);
    }
  }

  lemma ClearContentAt(w: World, off: nat, i: nat)
    requires Core(w) && Live(w, i)
    ensures var p := PlaceOf(w, off);
            if p.Byte? && p.inode == i
            then p.pos < |Content(w, i)| && Content(Clear(w, off), i) == Content(w, i)[p.pos := 0]
            else Content(Clear(w, off), i) == Content(w, i)
  {
    var w', c := Clear(w, off), w.chains[i];
    ClearBodies(w, off);
    if p :| 0 <= p < |c| && InBody(w, c[p], off) {
      ClearInside(w, off, i, p);
    } else {
      forall q | 0 <= q < |c| ensures Body(w', c[q]) == Body(w, c[q]) { assert !InBody(w, c[q], off); }
      GatherFrame(w, w', c);
      NotInside(w, off, i);
    }
  }

  predicate InBody(w: World, b: nat, off: nat) {
    b < |w.m.blocks| && BodyStart(w.m.geo, b) <= off < BodyStart(w.m.geo, b) + w.m.blocks[b].size
  }

  lemma NotInside(w: World, off: nat, i: nat)
    requires Core(w) && Live(w, i) && forall q | 0 <= q < |w.chains[i]| :: !InBody(w, w.chains[i][q], off)
    ensures !(PlaceOf(w, off).Byte? && PlaceOf(w, off).inode == i)
  {
    var g := w.m.geo;
    if off >= MetaEnd(g) {
      var b, o := (off - MetaEnd(g)) / g.blockSize, (off - MetaEnd(g)) % g.blockSize;
      assert off - MetaEnd(g) == g.blockSize * b + o;
      if b in w.owner && w.owner[b].inode == i {
        assert Owned(w, b);
        assert !InBody(w, w.chains[i][w.owner[b].pos], off);
      }
    }
  }

  lemma ClearInside(w: World, off: nat, i: nat, p: nat)
    requires Core(w) && Live(w, i) && p < |w.chains[i]| && InBody(w, w.chains[i][p], off)
    ensures PlaceOf(w, off) == Byte(i, p * w.m.geo.blockSize + (off - BodyStart(w.m.geo, w.chains[i][p])))
    ensures PlaceOf(w, off).pos < |Content(w, i)|
    ensures Content(Clear(w, off), i) == Content(w, i)[PlaceOf(w, off).pos := 0]
  {
    hide Content, Gather;
    var w', c: seq<nat> := Clear(w, off), w.chains[i];
    var b, o := c[p], off - BodyStart(w.m.geo, c[p]);
    assert Placed(w, i, p);
    assert FilledBlock(w, b);
    PlaceIn(w, b, o);
    PatchByte(w.image, off, BodyStart(w.m.geo, b), w.m.blocks[b].size);
    ClearBodies(w, off);
    forall q | 0 <= q < |c| && q != p ensures Body(w', c[q]) == Body(w, c[q]) {
      assert Placed(w, i, q);
      assert FilledBlock(w, c[q]);
      BodiesApart(w.m.geo, b, c[q]);
    }
    GatherUpdate(w, w', c, p, o);
    FullPrefix(w, i, p);
    ContentIsGather(w, i);
    ContentIsGather(w', i);
  }

  lemma ContentIsGather(w: World, i: nat)
    requires i < |w.chains|
    ensures Content(w, i) == Gather(w, w.chains[i])
  {
  }

  // ---- seen from the model ----

  /** The offset is in the metadata, or a whole number of records behind it. */
  predicate Aligned(g: Geometry, off: nat) {
    off < MetaEnd(g) || (off - MetaEnd(g)) % RECORD == 0
  }

  lemma LastBlockOffset(g: Geometry)
    requires Fits(g)
    ensures BodyOffset(g, Wrap(-1)) == Wrap(MetaEnd(g) - g.blockSize)
  {
    hide Wrap;
    MetaFits(g);
    WrapLast(g.blockSize);
    WrapTurn(MetaEnd(g) - g.blockSize);
  }

  lemma MetaFits(g: Geometry)
    requires Fits(g)
    ensures MetaEnd(g) < TWO32 && 0 < g.blockSize < TWO32
  {
    Scaled(g.blockSize, 0, g.blockCount);
    Scaled(g.blockSize, 1, g.blockCount);
  }

  /** Every zero the program writes lies at the start of a record, or in metadata it rewrites before it returns. */
  lemma TargetAligned(g: Geometry, c: seq<nat>, index: nat)
    requires Fits(g) && 0 < PerBlock(g) && ClearTarget(g, c, index).Offset?
    requires forall p | 0 <= p < |c| :: c[p] < g.blockCount
    ensures Aligned(g, ClearTarget(g, c, index).off)
  {
    hide BodyOffset, Fits, PerBlock, Hops, ClearTarget, Aligned;
    var h := Hops(index, PerBlock(g));
    HopsExact(index, PerBlock(g));
    if h > |c| {
      BeyondIsWild(g, c, index);
    } else if h < |c| {
      AlignedInside(g, c, index, h, index - h * PerBlock(g));
    } else {
      AlignedBehind(g, c, index, index - h * PerBlock(g));
    }
  }

  lemma BeyondIsWild(g: Geometry, c: seq<nat>, index: nat)
    requires 0 < PerBlock(g)
    ensures ClearTarget(g, c, index).Wild? <==> Hops(index, PerBlock(g)) > |c|
  {
    hide BodyOffset, Hops;
  }

  lemma AlignedBehind(g: Geometry, c: seq<nat>, index: nat, o: nat)
    requires Fits(g) && 0 < PerBlock(g) && Hops(index, PerBlock(g)) == |c|
    requires index == |c| * PerBlock(g) + o && o <= PerBlock(g)
    ensures ClearTarget(g, c, index).Offset? && Aligned(g, ClearTarget(g, c, index).off)
  {
    hide BodyOffset, ClearTarget, Hops;
    TargetBehind(g, c, index, o);
    MetaFits(g);
    PerBlockFits(g);
    BehindLast(MetaEnd(g), PerBlock(g), o);
  }

  lemma AlignedInside(g: Geometry, c: seq<nat>, index: nat, h: nat, o: nat)
    requires Fits(g) && 0 < PerBlock(g) && Hops(index, PerBlock(g)) == h < |c| && c[h] < g.blockCount
    requires index == h * PerBlock(g) + o && o <= PerBlock(g)
    ensures ClearTarget(g, c, index).Offset? && Aligned(g, ClearTarget(g, c, index).off)
  {
    hide BodyOffset, ClearTarget, Hops;
    PerBlockFits(g);
    assert RECORD * o <= g.blockSize;
    InsideBody(g, c[h], RECORD * o);
    TargetUnfold(g, c, index, h, o);
    WholeRecords(g.blockSize, PerBlock(g), c[h], o);
  }

  /** A walk that ends on -1 writes one block before the first one: into the metadata, which is rewritten, or, at
      its end, into the first byte of block 0. */
  lemma TargetBehind(g: Geometry, c: seq<nat>, index: nat, o: nat)
    requires Fits(g) && 0 < PerBlock(g) && Hops(index, PerBlock(g)) == |c| && index == |c| * PerBlock(g) + o
    ensures ClearTarget(g, c, index) == Offset(Wrap(Wrap(MetaEnd(g) - g.blockSize) + RECORD * o))
  {
    hide BodyOffset;
    LastBlockOffset(g);
  }

  lemma WholeRecords(bs: nat, R: nat, a: nat, o: nat)
    requires bs == RECORD * R
    ensures (bs * a + RECORD * o) % RECORD == 0
  {
    assert bs * a == RECORD * (R * a);
  }

  lemma BehindLast(start: nat, R: nat, o: nat)
    requires 0 < R && o <= R && start < TWO32 && RECORD * R < TWO32
    ensures var off := Wrap(Wrap(start - RECORD * R) + RECORD * o);
            off <= start || (off - start) % RECORD == 0
  {
    var x := start - RECORD * R + RECORD * o;
    if start < RECORD * R {
      assert Wrap(start - RECORD * R) == start - RECORD * R + TWO32;
    }
  }

  lemma PlaceAligned(w: World, off: nat)
    requires Core(w) && Aligned(w.m.geo, off) && PlaceOf(w, off).Byte?
    ensures PlaceOf(w, off).pos % RECORD == 0
  {
    var g := w.m.geo;
    PerBlockFits(g);
    PlaceMultiple(g.blockSize, PerBlock(g), off - MetaEnd(g), w.owner[(off - MetaEnd(g)) / g.blockSize].pos);
  }

  lemma PlaceMultiple(bs: nat, R: nat, x: nat, p: nat)
    requires 0 < bs == RECORD * R && x % RECORD == 0
    ensures (p * bs + x % bs) % RECORD == 0
  {
    DivMod(x, bs);
    WholeRecords(bs, R, x / bs, 0);
    Difference(x, bs * (x / bs));
    PlusWhole(bs, R, p, x % bs);
  }

  lemma PlusWhole(bs: nat, R: nat, p: nat, o: nat)
    requires bs == RECORD * R && o % RECORD == 0
    ensures (p * bs + o) % RECORD == 0
  {
    WholeRecords(bs, R, p, o / RECORD);
    assert p * bs == bs * p;
  }

  lemma Difference(a: nat, b: nat)
    requires b <= a && a % RECORD == 0 && b % RECORD == 0
    ensures (a - b) % RECORD == 0
  {
  }

  lemma ClearedGood(g: Geometry, i: nat, x: Inode, n: nat, c: seq<byte>, pos: nat)
    requires Good(g, i, x, n, c) && pos < |c| && (x.kind == Directory ==> pos % RECORD == 0)
    ensures Good(g, i, x, n, c[pos := 0])
  {
    if x.kind == Directory {
      RecordsCleared(c, pos);
    }
  }

  /** Setting a byte to zero on disk is the model's `Scribble`. */
  lemma ClearRefines(w: World, cwd: nat, off: nat)
    requires Core(w) && AllGood(w) && Aligned(w.m.geo, off)
    ensures Core(Clear(w, off)) && AllGood(Clear(w, off))
    ensures Abs(Clear(w, off), cwd) == Scribble(Abs(w, cwd), PlaceOf(w, off))
  {
    hide Linked, Filled, Counted, Tables, HasRoot, Content;
    hide PlaceOf, Foot, Records, Patch;
    var w', p := Clear(w, off), PlaceOf(w, off);
    ClearContent(w, off);
    forall i | Live(w', i) ensures GoodAt(w', i) {
      assert GoodAt(w, i);
      if p.Byte? && p.inode == i {
        PlaceAligned(w, off);
        ClearedGood(w.m.geo, i, w.m.inodes[i], |w.chains[i]|, Content(w, i), p.pos);
      }
    }
    if p.Byte? && Live(w, p.inode) {
      assert GoodAt(w, p.inode);
      PlaceAligned(w, off);
      if w.m.inodes[p.inode].kind == Directory {
        RecordsCleared(Content(w, p.inode), p.pos);
      }
    }
    assert Abs(w', cwd).objects == Scribble(Abs(w, cwd), p).objects;
  }

  /** Releasing an inode takes its object away and no other. */
  lemma ReleaseRefines(w: World, cwd: nat, t: nat)
    requires Core(w) && AllGood(w) && Live(w, t) && t != 0
    ensures Core(Release(w, t)) && AllGood(Release(w, t))
    ensures Abs(Release(w, t), cwd) == Drop(Abs(w, cwd), t)
  {
    hide Linked, Filled, Counted, Tables, HasRoot, Content;
    ReleaseKeeps(w, t);
    var w' := Release(w, t);
    forall i | Live(w', i) ensures GoodAt(w', i) {
      assert GoodAt(w, i);
    }
    assert Abs(w', cwd).objects == Drop(Abs(w, cwd), t).objects;
  }

  // ---- several clears ----

  /** The world after the program cleared "record `index`" of directory `d`. */
  function Unflag(w: World, d: nat, index: nat): World {
    if d < |w.chains| && 0 < PerBlock(w.m.geo) && ClearTarget(w.m.geo, w.chains[d], index).Offset?
    then Clear(w, ClearTarget(w.m.geo, w.chains[d], index).off)
    else w
  }

  /** The byte that clear hits. */
  function PlaceAt(w: World, d: nat, index: nat): Place {
    if d < |w.chains| && 0 < PerBlock(w.m.geo) && ClearTarget(w.m.geo, w.chains[d], index).Offset?
    then PlaceOf(w, ClearTarget(w.m.geo, w.chains[d], index).off)
    else Nowhere
  }

  function UnflagAll(w: World, d: nat, ks: seq<nat>): World {
    if ks == [] then w else Unflag(UnflagAll(w, d, ks[..|ks| - 1]), d, ks[|ks| - 1])
  }

  function PlacesAt(w: World, d: nat, ks: seq<nat>): seq<Place> {
    if ks == [] then [] else PlacesAt(w, d, ks[..|ks| - 1]) + [PlaceAt(w, d, ks[|ks| - 1])]
  }

  lemma {:induction false} UnflagTables(w: World, d: nat, ks: seq<nat>)
    ensures var w' := UnflagAll(w, d, ks);
            w'.m == w.m && w'.chains == w.chains && w'.owner == w.owner
  {
    if ks != [] { UnflagTables(w, d, ks[..|ks| - 1]); }
  }

  lemma UnflagRefines(w: World, cwd: nat, d: nat, index: nat)
    requires Core(w) && AllGood(w) && Live(w, d)
    ensures Core(Unflag(w, d, index)) && AllGood(Unflag(w, d, index))
    ensures Abs(Unflag(w, d, index), cwd) == Scribble(Abs(w, cwd), PlaceAt(w, d, index))
  {
    hide Core, AllGood, Abs, Scribble, PlaceOf, Clear, ClearTarget, PerBlock;
    ChainStart(w, d);
    forall p | 0 <= p < |w.chains[d]| ensures w.chains[d][p] < w.m.geo.blockCount { ChainAt(w, d, p); }
    PerBlockFits(w.m.geo);
    if ClearTarget(w.m.geo, w.chains[d], index).Offset? {
      TargetAligned(w.m.geo, w.chains[d], index);
      ClearRefines(w, cwd, ClearTarget(w.m.geo, w.chains[d], index).off);
    } else {
      ScribbleNowhere(Abs(w, cwd));
    }
  }

  lemma ScribbleNowhere(m: Model)
    ensures Scribble(m, Nowhere) == m
  {
  }

  /** Clearing a list of indices is scribbling on the bytes those clears hit. */
  lemma {:induction false} UnflagAllRefines(w: World, cwd: nat, d: nat, ks: seq<nat>)
    requires Core(w) && AllGood(w) && Live(w, d)
    ensures Core(UnflagAll(w, d, ks)) && AllGood(UnflagAll(w, d, ks))
    ensures Abs(UnflagAll(w, d, ks), cwd) == ScribbleAll(Abs(w, cwd), PlacesAt(w, d, ks))
  {
    hide Core, AllGood, Abs, Scribble, Unflag, PlaceAt;
    if ks != [] {
      var n := |ks| - 1;
      UnflagAllRefines(w, cwd, d, ks[..n]);
      UnflagTables(w, d, ks[..n]);
      var v := UnflagAll(w, d, ks[..n]);
      UnflagRefines(v, cwd, d, ks[n]);
      SamePlace(w, v, d, ks[n]);
      ScribbleSnoc(Abs(w, cwd), PlacesAt(w, d, ks[..n]), PlaceAt(w, d, ks[n]));
    }
  }

  lemma ScribbleSnoc(m: Model, ps: seq<Place>, p: Place)
    ensures ScribbleAll(m, ps + [p]) == Scribble(ScribbleAll(m, ps), p)
  {
    assert (ps + [p])[..|ps|] == ps;
  }

  lemma SamePlace(w: World, v: World, d: nat, k: nat)
    requires v.m == w.m && v.chains == w.chains && v.owner == w.owner
    ensures PlaceAt(v, d, k) == PlaceAt(w, d, k)
  {
  }

  /** A clear aimed at a record of the chain never reaches the metadata. */
  lemma UnflagCommitted(w: World, d: nat, index: nat)
    requires Core(w) && Live(w, d) && Committed(w) && 0 < PerBlock(w.m.geo)
    requires d < |w.chains| && index / PerBlock(w.m.geo) < |w.chains[d]|
    ensures Committed(Unflag(w, d, index)) && ClearTarget(w.m.geo, w.chains[d], index).Offset?
    ensures MetaEnd(w.m.geo) <= ClearTarget(w.m.geo, w.chains[d], index).off
  {
    hide Core, ClearTarget, PerBlock, Load, Patch;
    ChainStart(w, d);
    forall p | 0 <= p < |w.chains[d]| ensures w.chains[d][p] < w.m.geo.blockCount { ChainAt(w, d, p); }
    TargetInside(w.m.geo, w.chains[d], index);
    var off := ClearTarget(w.m.geo, w.chains[d], index).off;
    BodiesApart(w.m.geo, w.chains[d][StopsAt(index, PerBlock(w.m.geo))], 0);
    PatchSlice(w.image, off, [0]);
    LoadFrame(w.image, Patch(w.image, off, [0]), w.m);
  }

  /** Every record of a directory lies inside its chain. */
  lemma RecordInChain(w: World, d: nat, index: nat)
    requires Core(w) && Live(w, d) && index < |Records(Content(w, d))|
    ensures 0 < PerBlock(w.m.geo) && d < |w.chains| && index / PerBlock(w.m.geo) < |w.chains[d]|
  {
    hide Core, Content, Records, PerBlock;
    ChainStart(w, d);
    PerBlockFits(w.m.geo);
    ContentLength(w, d);
    var R, n, bs := PerBlock(w.m.geo), |w.chains[d]|, w.m.geo.blockSize;
    assert (n - 1) * bs + bs == n * bs;
    assert RECORD * index < |Content(w, d)|;
    assert n * bs == RECORD * (n * R);
    QuotientBelow(index, R, n);
  }

  lemma QuotientBelow(x: nat, d: nat, n: nat)
    requires 0 < d && x < n * d
    ensures x / d < n
  {
    DivMod(x, d);
    assert n * d == d * n;
    if x / d >= n { Scaled(d, n, x / d); }
  }

  // ---- the effect in the intended case ----

  /** A clear of record `index` clears that record, and it alone, when the offset is the record's own. */
  lemma OwnRecord(w: World, d: nat, index: nat)
    requires Core(w) && Live(w, d) && |Content(w, d)| % RECORD == 0 && index < |Records(Content(w, d))|
    requires 0 < PerBlock(w.m.geo) && d < |w.chains| && index / PerBlock(w.m.geo) < |w.chains[d]|
    requires ClearTarget(w.m.geo, w.chains[d], index) == Offset(FlagOffset(w.m.geo, w.chains[d], index))
    ensures PlaceAt(w, d, index) == Byte(d, RECORD * index)
  {
    hide Core, Content, ClearTarget, PlaceOf, FilledBlock, Placed, Records, BodyStart, PerBlock;
    var p, o := index / PerBlock(w.m.geo), RECORD * (index % PerBlock(w.m.geo));
    ChainStart(w, d);
    ChainAt(w, d, p);
    FlagStored(w, d, index);
    PlaceIn(w, w.chains[d][p], o);
    assert w.owner[w.chains[d][p]] == Slot(d, p) by { PlacedOwner(w, d, p); }
  }

  lemma PlacedOwner(w: World, i: nat, p: nat)
    requires Core(w) && i < |w.chains| && p < |w.chains[i]|
    ensures w.chains[i][p] in w.owner && w.owner[w.chains[i][p]] == Slot(i, p)
  {
    assert Placed(w, i, p);
  }

  /** The place of record `index` lies in the chain of directory `d`. */
  predicate InChain(w: World, d: nat, index: nat) {
    0 < PerBlock(w.m.geo) && d < |w.chains| && index / PerBlock(w.m.geo) < |w.chains[d]|
  }

  /** The flag of record `index` is a stored byte of its block. */
  predicate StoredFlag(w: World, d: nat, index: nat) {
    InChain(w, d, index) &&
    var b, p, o := w.chains[d][index / PerBlock(w.m.geo)], index / PerBlock(w.m.geo), RECORD * (index % PerBlock(w.m.geo));
    && b < |w.m.blocks| && o < w.m.blocks[b].size && o < w.m.geo.blockSize
    && p * w.m.geo.blockSize + o == RECORD * index
  }

  lemma FlagStored(w: World, d: nat, index: nat)
    requires Core(w) && Live(w, d) && index < |Records(Content(w, d))| && InChain(w, d, index)
    ensures StoredFlag(w, d, index)
  {
    hide Core, Content, Placed, FilledBlock, Records;
    var R, bs, c: seq<nat> := PerBlock(w.m.geo), w.m.geo.blockSize, w.chains[d];
    var p, r := index / R, index % R;
    ChainStart(w, d);
    ChainAt(w, d, p);
    PerBlockFits(w.m.geo);
    DivMod(index, R);
    OwnOffset(R, p, r, index, bs);
    if p + 1 < |c| {
      FullBlock(w, d, p);
    } else {
      ContentLength(w, d);
      assert RECORD * index < |Content(w, d)|;
    }
  }

  lemma OwnOffset(R: nat, p: nat, r: nat, index: nat, bs: nat)
    requires index == p * R + r && r < R && bs == RECORD * R
    ensures p * bs + RECORD * r == RECORD * index && RECORD * r < bs
  {
    assert p * bs == RECORD * (p * R);
  }

  // ---- bookkeeping ----

  function TargetOf(w: World, d: nat, index: nat): Target {
    if d < |w.chains| && 0 < PerBlock(w.m.geo) then ClearTarget(w.m.geo, w.chains[d], index) else Wild
  }

  lemma UnflagSnoc(w: World, d: nat, ks: seq<nat>, k: nat)
    ensures UnflagAll(w, d, ks + [k]) == Unflag(UnflagAll(w, d, ks), d, k)
  {
    assert (ks + [k])[..|ks|] == ks;
  }

  lemma UnflagNone(w: World, d: nat)
    ensures UnflagAll(w, d, []) == w
  {
  }

  lemma PicksInRange(m: Model, rs: seq<Record>, n: nat, dir: bool, name: seq<byte>)
    requires n <= |rs|
    ensures forall p | 0 <= p < |Picks(m, rs[..n], dir, name)| :: Picks(m, rs[..n], dir, name)[p] < n
  {
    var ks := Picks(m, rs[..n], dir, name);
    forall p | 0 <= p < |ks| ensures ks[p] < n { assert ks[p] in ks; }
  }

  lemma AllPicked(m: Model, rs: seq<Record>, dir: bool, name: seq<byte>)
    ensures forall p | 0 <= p < |Picks(m, rs, dir, name)| :: Picks(m, rs, dir, name)[p] < |rs|
  {
    assert rs[..|rs|] == rs;
    PicksInRange(m, rs, |rs|, dir, name);
  }

  /** The clear after a walk of `h` links that left index `k`. */
  lemma UnflagIs(w: World, d: nat, index: nat, h: nat, k: nat)
    requires d < |w.chains| && 0 < PerBlock(w.m.geo)
    requires Walked(index, PerBlock(w.m.geo), h, k) && k <= PerBlock(w.m.geo) && h <= |w.chains[d]|
    ensures TargetOf(w, d, index) != Wild
    ensures Unflag(w, d, index) == Clear(w, Wrap(BodyOffset(w.m.geo, BlockReached(w.chains[d], h)) + k * RECORD))
  {
    hide ClearTarget, PerBlock, Hops, BodyOffset, Walked;
    HopStep(index, PerBlock(w.m.geo), h, k);
    TargetUnfold(w.m.geo, w.chains[d], index, h, k);
  }

  lemma UnflagWild(w: World, d: nat, index: nat, k: nat)
    requires d < |w.chains| && 0 < PerBlock(w.m.geo)
    requires Walked(index, PerBlock(w.m.geo), |w.chains[d]|, k) && k > PerBlock(w.m.geo)
    ensures TargetOf(w, d, index) == Wild && Unflag(w, d, index) == w
  {
    hide PerBlock, Hops, Walked;
    HopStep(index, PerBlock(w.m.geo), |w.chains[d]|, k);
  }

  lemma NextPick(m: Model, rs: seq<Record>, n: nat, dir: bool, name: seq<byte>)
    requires n < |rs|
    ensures Picks(m, rs[..n + 1], dir, name)
         == if Matches(m, rs[n], dir, name) then Picks(m, rs[..n], dir, name) + [n] else Picks(m, rs[..n], dir, name)
    ensures LastMatch(m, rs[..n + 1], dir, name)
         == if Matches(m, rs[n], dir, name) then rs[n].inode else LastMatch(m, rs[..n], dir, name)
    ensures forall p | 0 <= p < |Picks(m, rs[..n], dir, name)| :: Picks(m, rs[..n], dir, name)[p] < |rs|
  {
    assert rs[..n + 1][..n] == rs[..n];
    PicksInRange(m, rs, n, dir, name);
  }

  lemma NoMatch(m: Model, rs: seq<Record>, dir: bool, name: seq<byte>)
    ensures LastMatch(m, rs[..0], dir, name) == -1 && Picks(m, rs[..0], dir, name) == []
  {
  }

  lemma RecordReached(w: World, d: nat, index: nat)
    requires Core(w) && Live(w, d) && Committed(w) && 0 < PerBlock(w.m.geo)
    requires d < |w.chains| && index / PerBlock(w.m.geo) < |w.chains[d]|
    ensures TargetOf(w, d, index) != Wild
  {
    hide Core;
    UnflagCommitted(w, d, index);
  }

  lemma SameTarget(w: World, v: World, d: nat, k: nat)
    requires v.m == w.m && v.chains == w.chains
    ensures TargetOf(v, d, k) == TargetOf(w, d, k)
  {
  }

  /** A walk that leaves the block table writes nothing. */
  lemma WildKeeps(w: World, d: nat, ks: seq<nat>, k: nat)
    requires TargetOf(w, d, k) == Wild
    ensures UnflagAll(w, d, ks + [k]) == UnflagAll(w, d, ks)
  {
    UnflagSnoc(w, d, ks, k);
    UnflagTables(w, d, ks);
  }
}
