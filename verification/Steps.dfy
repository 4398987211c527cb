/** The elementary changes the commands make to a volume, and what each keeps. */
module Steps {
  import opened Bytes
  import opened Sums
  import opened Layout
  import opened Metadata
  import opened Volume

  /** `i` has a chain whose last block is in the table. */
  predicate Ready(w: World, i: nat) {
    i < |w.chains| && w.chains[i] != [] && Tail(w, i) < |w.m.blocks| && 0 < w.m.geo.blockSize
  }

  function Tail(w: World, i: nat): nat
    requires i < |w.chains| && w.chains[i] != []
  {
    w.chains[i][|w.chains[i]| - 1]
  }

  /** Free bytes in the last block of the chain. */
  function Room(w: World, i: nat): nat
    requires Ready(w, i)
  {
    var size := w.m.blocks[Tail(w, i)].size;
    if size < w.m.geo.blockSize then w.m.geo.blockSize - size else 0
  }

  /** Write `d` behind the bytes of the last block. */
  function Put(w: World, i: nat, d: seq<byte>): World
    requires Ready(w, i)
  {
    var t := Tail(w, i);
    var x := w.m.blocks[t];
    w.(m := w.m.(blocks := w.m.blocks[t := x.(size := x.size + |d|)]),
       image := Patch(w.image, BodyStart(w.m.geo, t) + x.size, d))
  }

  /** Link the free block `b` behind the last block. */
  function Grow(w: World, i: nat, b: nat): World
    requires Ready(w, i) && b < |w.m.blocks|
  {
    var t := Tail(w, i);
    var blocks := w.m.blocks[b := Block(-1, 0, true)];
    w.(m := w.m.(blocks := blocks[t := blocks[t].(next := b)], usedBlocks := Wrap(w.m.usedBlocks + 1)),
       chains := w.chains[i := w.chains[i] + [b]],
       owner := w.owner[b := Slot(i, |w.chains[i]|)])
  }

  lemma BodiesApart(g: Geometry, a: nat, b: nat)
    ensures a < b ==> BodyStart(g, a) + g.blockSize <= BodyStart(g, b)
    ensures b < a ==> BodyStart(g, b) + g.blockSize <= BodyStart(g, a)
    ensures MetaEnd(g) <= BodyStart(g, a)
  {
    Scaled(g.blockSize, 0, a);
    if a < b { Scaled(g.blockSize, a, b); } else if b < a { Scaled(g.blockSize, b, a); }
  }

  // ---- Put ----

  lemma TailFilled(w: World, i: nat)
    requires Core(w) && Live(w, i) && Ready(w, i)
    ensures w.m.blocks[Tail(w, i)].used && FilledBlock(w, Tail(w, i))
  {
    assert Placed(w, i, |w.chains[i]| - 1);
  }

  lemma PutBodies(w: World, i: nat, d: seq<byte>)
    requires Core(w) && Live(w, i) && Ready(w, i) && |d| <= Room(w, i)
    ensures forall b | 0 <= b < |w.m.blocks| && w.m.blocks[b].used && b != Tail(w, i) ::
              Body(Put(w, i, d), b) == Body(w, b)
    ensures Body(Put(w, i, d), Tail(w, i)) == Body(w, Tail(w, i)) + d
  {
    TailFilled(w, i);
    hide Linked, Counted, HasRoot, Slice, Patch;
    var t := Tail(w, i);
    var s, start := w.m.blocks[t].size, BodyStart(w.m.geo, t);
    PatchSlice(w.image, start + s, d);
    SliceSplit(Put(w, i, d).image, start, s, |d|);
    forall b | 0 <= b < |w.m.blocks| && w.m.blocks[b].used && b != t
      ensures Body(Put(w, i, d), b) == Body(w, b)
    {
      assert FilledBlock(w, b);
      BodiesApart(w.m.geo, b, t);
    }
  }

  lemma PutCore(w: World, i: nat, d: seq<byte>)
    requires Core(w) && Live(w, i) && Ready(w, i) && |d| <= Room(w, i)
    ensures Core(Put(w, i, d))
  {
    var w' := Put(w, i, d);
    var t := Tail(w, i);
    assert Placed(w, i, |w.chains[i]| - 1);
    assert FilledBlock(w, t);
    SumUpdate(UsedBit, w.m.blocks, t, w'.m.blocks[t]);
    forall j, p | 0 <= j < |w'.chains| && 0 <= p < |w'.chains[j]| ensures Placed(w', j, p) { assert Placed(w, j, p); }
    forall j | 0 <= j < |w'.chains| ensures Rooted(w', j) { assert Rooted(w, j); }
    forall b | b in w'.owner ensures Owned(w', b) { assert Owned(w, b); }
    forall b | 0 <= b < |w'.m.blocks| ensures FilledBlock(w', b) { assert FilledBlock(w, b); }
  }

  lemma ContentApart(w: World, w': World, j: nat, t: nat)
    requires Core(w) && Live(w, j) && w'.chains == w.chains
    requires forall p | 0 <= p < |w.chains[j]| :: w.chains[j][p] != t
    requires forall b | 0 <= b < |w.m.blocks| && w.m.blocks[b].used && b != t :: Body(w', b) == Body(w, b)
    ensures Content(w', j) == Content(w, j)
  {
    forall p | 0 <= p < |w.chains[j]| ensures Body(w', w.chains[j][p]) == Body(w, w.chains[j][p]) {
      assert Placed(w, j, p);
    }
    GatherFrame(w, w', w.chains[j]);
  }

  /** A write into the last block appends to this inode's bytes and to nothing else. */
  lemma PutContent(w: World, i: nat, d: seq<byte>)
    requires Core(w) && Live(w, i) && Ready(w, i) && |d| <= Room(w, i)
    ensures Content(Put(w, i, d), i) == Content(w, i) + d
    ensures forall j | Live(w, j) && j != i :: Content(Put(w, i, d), j) == Content(w, j)
  {
    PutBodies(w, i, d);
    PutOwn(w, i, d);
    forall j | Live(w, j) && j != i ensures Content(Put(w, i, d), j) == Content(w, j) {
      forall p | 0 <= p < |w.chains[j]| ensures w.chains[j][p] != Tail(w, i) {
        assert Placed(w, j, p) && Placed(w, i, |w.chains[i]| - 1);
      }
      ContentApart(w, Put(w, i, d), j, Tail(w, i));
    }
  }

  lemma PutChains(w: World, i: nat, d: seq<byte>)
    requires Ready(w, i)
    ensures Put(w, i, d).chains == w.chains
  {
  }

  lemma PutOwn(w: World, i: nat, d: seq<byte>)
    requires Core(w) && Live(w, i) && Ready(w, i) && |d| <= Room(w, i)
    ensures Content(Put(w, i, d), i) == Content(w, i) + d
  {
    hide Filled, Counted, Put, Body, Gather;
    var c := w.chains[i];
    PutBodies(w, i, d);
    forall p | 0 <= p < |c| - 1 ensures Body(Put(w, i, d), c[p]) == Body(w, c[p]) {
      assert Placed(w, i, p) && Placed(w, i, |c| - 1);
    }
    assert Put(w, i, d).chains == w.chains by { PutChains(w, i, d); }
    LastBodyGrows(w, Put(w, i, d), c, d);
  }

  lemma LastBodyGrows(w: World, w': World, c: seq<nat>, d: seq<byte>)
    requires c != []
    requires forall p | 0 <= p < |c| - 1 :: Body(w', c[p]) == Body(w, c[p])
    requires Body(w', c[|c| - 1]) == Body(w, c[|c| - 1]) + d
    ensures Gather(w', c) == Gather(w, c) + d
  {
    hide Body;
    GatherFrame(w, w', c[..|c| - 1]);
  }

  // ---- Grow ----

  lemma GrowCore(w: World, i: nat)
    requires Core(w) && Live(w, i) && Ready(w, i) && Room(w, i) == 0 && FreeBlock(w) >= 0
    ensures Core(Grow(w, i, FreeBlock(w)))
    ensures Ready(Grow(w, i, FreeBlock(w)), i)
  {
    var b := FreeBlock(w);
    var w', t := Grow(w, i, b), Tail(w, i);
    assert Placed(w, i, |w.chains[i]| - 1);
    CountersExact(w);
    GrowLinks(w, i, b);
    GrowCounts(w, i, b);
    GrowFills(w, i, b);
  }

  lemma GrowFills(w: World, i: nat, b: nat)
    requires Filled(w) && Ready(w, i) && Room(w, i) == 0 && b < |w.m.blocks| && !w.m.blocks[b].used
    requires w.m.blocks[Tail(w, i)].used
    ensures Filled(Grow(w, i, b))
  {
    assert FilledBlock(w, Tail(w, i));
    forall k | 0 <= k < |w.m.blocks| ensures FilledBlock(Grow(w, i, b), k) { assert FilledBlock(w, k); }
  }

  lemma GrowLinks(w: World, i: nat, b: nat)
    requires Core(w) && Live(w, i) && Ready(w, i) && b < |w.m.blocks| && !w.m.blocks[b].used
    ensures Linked(Grow(w, i, b))
  {
    var w', c := Grow(w, i, b), w.chains[i];
    assert Placed(w, i, |c| - 1);
    forall j, p | 0 <= j < |w'.chains| && 0 <= p < |w'.chains[j]| ensures Placed(w', j, p) {
      if j != i || p < |c| { assert Placed(w, j, p); }
    }
    forall j | 0 <= j < |w'.chains| ensures Rooted(w', j) { assert Rooted(w, j); }
    forall k | k in w'.owner ensures Owned(w', k) {
      if k != b { assert Owned(w, k); }
    }
  }

  lemma GrowCounts(w: World, i: nat, b: nat)
    requires Counted(w) && Ready(w, i) && b < |w.m.blocks| && !w.m.blocks[b].used
    requires w.m.blocks[Tail(w, i)].used && w.m.usedBlocks + 1 < TWO32
    ensures Counted(Grow(w, i, b))
  {
    var t := Tail(w, i);
    var blocks := w.m.blocks[b := Block(-1, 0, true)];
    SumUpdate(UsedBit, w.m.blocks, b, Block(-1, 0, true));
    SumUpdate(UsedBit, blocks, t, blocks[t].(next := b));
    SumUpdate(Len, w.chains, i, w.chains[i] + [b]);
  }

  /** A new block adds no byte yet. */
  lemma GrowContent(w: World, i: nat)
    requires Core(w) && Live(w, i) && Ready(w, i) && FreeBlock(w) >= 0
    ensures forall j | Live(w, j) :: Content(Grow(w, i, FreeBlock(w)), j) == Content(w, j)
  {
    var b := FreeBlock(w);
    var w', c := Grow(w, i, b), w.chains[i];
    assert Placed(w, i, |c| - 1);
    forall j | Live(w, j) ensures Content(w', j) == Content(w, j) {
      forall p | 0 <= p < |w.chains[j]| ensures Body(w', w.chains[j][p]) == Body(w, w.chains[j][p]) {
        assert Placed(w, j, p);
      }
      GatherFrame(w, w', w.chains[j]);
      if j == i {
        assert w'.chains[i][..|c|] == c;
      }
    }
  }
}
