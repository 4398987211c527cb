/** Which byte `minifs_remove_from_dir` really sets to zero, for every index. */
module Places {
  import opened Bytes
  import opened Layout
  import opened Volume
  import opened Append
  import opened Directory
  import opened Model
  import opened Refinement
  import opened Removal

  /** The first byte of block `b` on disk: a byte of the object that owns the block, if it stores any there. */
  function FirstByteOf(w: World, b: nat): Place {
    if b in w.owner && b < |w.m.blocks| && w.m.blocks[b].size > 0
    then Byte(w.owner[b].inode, w.owner[b].pos * w.m.geo.blockSize)
    else Nowhere
  }

  /** The byte hit, read off the index, the chain and the number of records.
      A positive multiple of the records per block hits the block that follows on disk the one before the boundary; a
      walk that ends behind the last block takes block 0 for it. Any other index hits its own record, or nothing behind
      the last record. Past the chain it hits metadata, or, when a block is larger than all metadata, what lies at the
      offset that wraps around. */
  function ExtraPlace(w: World, d: nat, index: nat): Place
    requires d < |w.chains| && 0 < PerBlock(w.m.geo)
  {
    var g, R, c := w.m.geo, PerBlock(w.m.geo), w.chains[d];
    if index > 0 && index % R == 0 then FirstByteOf(w, if index / R <= |c| then c[index / R - 1] + 1 else 0)
    else if index / R < |c| then
      if index < |Records(Content(w, d))| then Byte(d, RECORD * index) else Nowhere
    else
      var end := MetaEnd(g) + RECORD * (index % R);
      if end >= g.blockSize then Nowhere else PlaceOf(w, Wrap(end - g.blockSize))
  }

  lemma ChainInTable(w: World, d: nat)
    requires Core(w) && Live(w, d)
    ensures Fits(w.m.geo) && d < |w.chains| && w.chains[d] != [] && 0 < PerBlock(w.m.geo)
    ensures PerBlock(w.m.geo) * RECORD == w.m.geo.blockSize
    ensures forall p | 0 <= p < |w.chains[d]| :: w.chains[d][p] < w.m.geo.blockCount
  {
    hide Core;
    ChainStart(w, d);
    PerBlockFits(w.m.geo);
    forall p | 0 <= p < |w.chains[d]| ensures w.chains[d][p] < w.m.geo.blockCount { ChainAt(w, d, p); }
  }

  lemma FirstByteAt(w: World, b: nat)
    requires 0 < w.m.geo.blockSize
    ensures PlaceOf(w, BodyStart(w.m.geo, b)) == FirstByteOf(w, b)
  {
    hide PlaceOf;
    PlaceIn(w, b, 0);
  }

  lemma PlaceFor(w: World, d: nat, index: nat, off: nat)
    requires d < |w.chains| && 0 < PerBlock(w.m.geo) && ClearTarget(w.m.geo, w.chains[d], index) == Offset(off)
    ensures PlaceAt(w, d, index) == PlaceOf(w, off)
  {
  }

  /** At a boundary the byte hit is the first one of the block that follows on disk: the object owning that block
      loses it, if it stores anything there, and otherwise nothing is hit. */
  lemma BoundaryPlace(w: World, d: nat, index: nat)
    requires Core(w) && Live(w, d) && d < |w.chains| && 0 < PerBlock(w.m.geo)
    requires index > 0 && index % PerBlock(w.m.geo) == 0 && index / PerBlock(w.m.geo) <= |w.chains[d]|
    ensures index / PerBlock(w.m.geo) > 0
    ensures PlaceAt(w, d, index) == FirstByteOf(w, w.chains[d][index / PerBlock(w.m.geo) - 1] + 1)
  {
    hide Core, PerBlock, Hops, BodyOffset, ClearTarget, PlaceOf, PlaceAt, FirstByteOf;
    var g, R, c := w.m.geo, PerBlock(w.m.geo), w.chains[d];
    ChainInTable(w, d);
    AtMultiple(index, R);
    HopsStop(index, R);
    var h := index / R - 1;
    InsideBody(g, c[h], g.blockSize);
    TargetUnfold(g, c, index, h, R);
    Scaled(g.blockSize, c[h], c[h] + 1);
    PlaceFor(w, d, index, BodyStart(g, c[h] + 1));
    FirstByteAt(w, c[h] + 1);
  }

  /** Unless the two blocks around the boundary are neighbours, the record asked for keeps its flag. */
  lemma BoundaryMisses(w: World, d: nat, index: nat)
    requires Core(w) && LiveDir(w, d) && d < |w.chains| && 0 < PerBlock(w.m.geo)
    requires index > 0 && index % PerBlock(w.m.geo) == 0 && index / PerBlock(w.m.geo) < |w.chains[d]|
    requires var q := index / PerBlock(w.m.geo);
             q > 0 && w.chains[d][q] != w.chains[d][q - 1] + 1
    ensures PlaceAt(w, d, index) != Byte(d, RECORD * index)
  {
    hide Tables, Linked, Filled, Counted, PerBlock, PlaceAt;
    var R, bs, q := PerBlock(w.m.geo), w.m.geo.blockSize, index / PerBlock(w.m.geo);
    var b := w.chains[d][q - 1] + 1;
    ChainInTable(w, d);
    BoundaryPlace(w, d, index);
    DivMod(index, R);
    assert q * bs == RECORD * index by { OwnOffset(R, q, 0, index, bs); }
    if b in w.owner {
      OwnerHas(w, b);
      var p := w.owner[b].pos;
      if p < q { Scaled(bs, p, q); } else if q < p { Scaled(bs, q, p); }
      assert p * bs == bs * p && q * bs == bs * q;
    }
  }

  lemma OwnerHas(w: World, b: nat)
    requires Core(w) && b in w.owner
    ensures var s := w.owner[b]; s.inode < |w.chains| && s.pos < |w.chains[s.inode]| && w.chains[s.inode][s.pos] == b
  {
    assert Owned(w, b);
  }

  /** Inside a block the byte hit is the record's own flag, or none behind the last record. */
  lemma OwnPlace(w: World, d: nat, index: nat)
    requires Core(w) && LiveDir(w, d) && |Content(w, d)| % RECORD == 0
    requires d < |w.chains| && 0 < PerBlock(w.m.geo)
    requires (index == 0 || index % PerBlock(w.m.geo) != 0) && index / PerBlock(w.m.geo) < |w.chains[d]|
    ensures PlaceAt(w, d, index) == if index < |Records(Content(w, d))| then Byte(d, RECORD * index) else Nowhere
  {
    hide Core, Content, Records, PerBlock, ClearTarget, FlagOffset;
    ChainInTable(w, d);
    ClearsItsRecord(w.m.geo, w.chains[d], index);
    if index < |Records(Content(w, d))| {
      OwnRecord(w, d, index);
    } else {
      BehindRecords(w, d, index);
      PlaceFor(w, d, index, FlagOffset(w.m.geo, w.chains[d], index));
    }
  }

  lemma BehindRecords(w: World, d: nat, index: nat)
    requires Core(w) && LiveDir(w, d) && |Content(w, d)| % RECORD == 0
    requires d < |w.chains| && 0 < PerBlock(w.m.geo) && index / PerBlock(w.m.geo) < |w.chains[d]|
    requires index >= |Records(Content(w, d))|
    ensures PlaceOf(w, FlagOffset(w.m.geo, w.chains[d], index)) == Nowhere
  {
    hide Core, Content, PlaceOf, FilledBlock, Placed, PerBlock;
    var g, R, c: seq<nat> := w.m.geo, PerBlock(w.m.geo), w.chains[d];
    var p, r := index / R, index % R;
    ChainInTable(w, d);
    ChainAt(w, d, p);
    DivMod(index, R);
    OwnOffset(R, p, r, index, g.blockSize);
    PastSize(w, d, p, index, RECORD * r);
    PlaceIn(w, c[p], RECORD * r);
  }

  lemma PastSize(w: World, d: nat, p: nat, index: nat, o: nat)
    requires Core(w) && Live(w, d) && d < |w.chains| && p < |w.chains[d]| && w.chains[d][p] < |w.m.blocks|
    requires p * w.m.geo.blockSize + o == RECORD * index && |Content(w, d)| % RECORD == 0
    requires index >= |Records(Content(w, d))|
    ensures w.m.blocks[w.chains[d][p]].size <= o
  {
    hide Core, Content;
    var bs, n := w.m.geo.blockSize, |w.chains[d]|;
    ContentLength(w, d);
    assert |Content(w, d)| == RECORD * |Records(Content(w, d))|;
    if p + 1 < n {
      FullBlock(w, d, p);
      Scaled(bs, p + 1, n - 1);
      assert p * bs + bs == bs * (p + 1) && (n - 1) * bs == bs * (n - 1);
    }
  }

  /** Past the chain: metadata, block 0, or a wrapped offset. */
  lemma PastPlace(w: World, d: nat, index: nat, o: nat)
    requires Core(w) && Live(w, d) && d < |w.chains| && 0 < PerBlock(w.m.geo)
    requires Hops(index, PerBlock(w.m.geo)) == |w.chains[d]| && index == |w.chains[d]| * PerBlock(w.m.geo) + o
    requires 0 < o <= PerBlock(w.m.geo)
    ensures PlaceAt(w, d, index) ==
            var end := MetaEnd(w.m.geo) + RECORD * o;
            if o == PerBlock(w.m.geo) then FirstByteOf(w, 0)
            else if end >= w.m.geo.blockSize then Nowhere
            else PlaceOf(w, Wrap(end - w.m.geo.blockSize))
  {
    hide Core, ClearTarget, PlaceAt, FirstByteOf, BodyOffset, Hops, PerBlock;
    var g := w.m.geo;
    ChainInTable(w, d);
    MetaFits(g);
    TargetBehind(g, w.chains[d], index, o);
    WrapBack(MetaEnd(g), g.blockSize, RECORD * o);
    var off := ClearTarget(g, w.chains[d], index).off;
    PlaceFor(w, d, index, off);
    if o == PerBlock(g) {
      assert off == MetaEnd(g) == BodyStart(g, 0);
      FirstByteAt(w, 0);
    }
  }

  lemma WrapBack(start: nat, bs: nat, x: nat)
    requires start < TWO32 && bs < TWO32 && x <= bs
    ensures Wrap(Wrap(start - bs) + x) == Wrap(start + x - bs)
    ensures start + x >= bs ==> Wrap(start + x - bs) == start + x - bs
  {
    if start < bs { WrapTurn(start - bs); }
    WrapTurn(start + x - bs);
  }

  /** For every index whose walk stays in the block table. */
  lemma ExtraPlaceExact(w: World, d: nat, index: nat)
    requires Core(w) && LiveDir(w, d) && |Content(w, d)| % RECORD == 0 && TargetOf(w, d, index) != Wild
    ensures d < |w.chains| && 0 < PerBlock(w.m.geo) && PlaceAt(w, d, index) == ExtraPlace(w, d, index)
  {
    hide Core, Content, Records, PerBlock, ClearTarget, PlaceAt, PlaceOf, FirstByteOf, Hops, BodyOffset;
    ChainInTable(w, d);
    var R, n := PerBlock(w.m.geo), |w.chains[d]|;
    BeyondIsWild(w.m.geo, w.chains[d], index);
    HopsStop(index, R);
    DivMod(index, R);
    if index > 0 && index % R == 0 {
      AtMultiple(index, R);
      if index / R <= n { BoundaryPlace(w, d, index); } else { PastPlace(w, d, index, R); }
    } else if index / R < n {
      OwnPlace(w, d, index);
    } else {
      PastPlace(w, d, index, index % R);
    }
  }
}
