/** What an interrupted command leaves on disk: the state of the last commit. */
module Crash {
  import opened Bytes
  import opened Layout
  import opened Metadata
  import opened Volume
  import opened Steps
  import opened Objects
  import opened Append

  /** Since `w0` was committed, the file changed only behind committed bytes and inside blocks that were free. */
  ghost predicate Extends(w0: World, w: World) {
    && w.m.geo == w0.m.geo && |w.m.blocks| == |w0.m.blocks|
    && |w0.image| <= |w.image|
    && Slice(w.image, 0, MetaEnd(w0.m.geo)) == Slice(w0.image, 0, MetaEnd(w0.m.geo))
    && forall b | 0 <= b < |w0.m.blocks| && w0.m.blocks[b].used :: Survives(w0, w, b)
  }

  ghost predicate Survives(w0: World, w: World, b: nat)
    requires b < |w0.m.blocks| == |w.m.blocks|
  {
    && w.m.blocks[b].used && w0.m.blocks[b].size <= w.m.blocks[b].size
    && Slice(w.image, BodyStart(w0.m.geo, b), w0.m.blocks[b].size) == Body(w0, b)
  }

  /** The world found by opening file `image` when the metadata committed last is that of `w0`. */
  function Reopened(w0: World, image: seq<byte>): World {
    w0.(image := image)
  }

  lemma ExtendsSelf(w: World)
    requires Core(w)
    ensures Extends(w, w)
  {
  }

  lemma PutExtends(w0: World, w: World, i: nat, d: seq<byte>)
    requires Core(w0) && Core(w) && Live(w, i) && Ready(w, i) && |d| <= Room(w, i) && Extends(w0, w)
    ensures Extends(w0, Put(w, i, d))
  {
    hide Linked, Counted, HasRoot;
    var t, w' := Tail(w, i), Put(w, i, d);
    ReadyLive(w, i);
    var off := BodyStart(w.m.geo, t) + w.m.blocks[t].size;
    PatchSlice(w.image, off, d);
    BodiesApart(w.m.geo, t, t);
    forall b | 0 <= b < |w0.m.blocks| && w0.m.blocks[b].used ensures Survives(w0, w', b) {
      assert Survives(w0, w, b) && FilledBlock(w0, b) && FilledBlock(w, t);
      BodiesApart(w.m.geo, b, t);
    }
  }

  lemma GrowExtends(w0: World, w: World, i: nat)
    requires Ready(w, i) && FreeBlock(w) >= 0 && Extends(w0, w)
    ensures Extends(w0, Grow(w, i, FreeBlock(w)))
  {
    forall b | 0 <= b < |w0.m.blocks| && w0.m.blocks[b].used ensures Survives(w0, Grow(w, i, FreeBlock(w)), b) {
      assert Survives(w0, w, b);
    }
  }

  lemma CreateExtends(w0: World, w: World, kind: Kind, parent: int)
    requires FreeInode(w) >= 0 && FreeBlock(w) >= 0 && |w.chains| == |w.m.inodes| && Extends(w0, w)
    ensures Extends(w0, Create(w, kind, parent))
  {
    forall b | 0 <= b < |w0.m.blocks| && w0.m.blocks[b].used ensures Survives(w0, Create(w, kind, parent), b) {
      assert Survives(w0, w, b);
    }
  }

  lemma ResizeExtends(w0: World, w: World, i: nat, n: nat)
    requires i < |w.m.inodes| && Extends(w0, w)
    ensures Extends(w0, Resize(w, i, n))
  {
    forall b | 0 <= b < |w0.m.blocks| && w0.m.blocks[b].used ensures Survives(w0, Resize(w, i, n), b) {
      assert Survives(w0, w, b);
    }
  }

  lemma {:induction false} PourExtends(w0: World, w: World, i: nat, data: seq<byte>)
    requires Core(w0) && Core(w) && Live(w, i) && Ready(w, i) && Extends(w0, w)
    ensures Extends(w0, Pour(w, i, data).w)
    decreases |data|, if Room(w, i) == 0 then 1 else 0
  {
    hide Linked, Filled, Counted, Tables, HasRoot, Put, Grow, Extends;
    var room := Room(w, i);
    if |data| <= room {
      PutExtends(w0, w, i, data);
    } else {
      var full := Put(w, i, data[..room]);
      PutStep(w, i, data[..room]);
      PutExtends(w0, w, i, data[..room]);
      if FreeBlock(full) >= 0 {
        GrowStep(full, i);
        GrowExtends(w0, full, i);
        PourExtends(w0, Grow(full, i, FreeBlock(full)), i, data[room..]);
      }
    }
  }

  /** Opening the file left behind gives the committed inodes, chains, counters and contents. */
  lemma ReopenRestores(w0: World, w: World)
    requires Core(w0) && Committed(w0) && Extends(w0, w)
    ensures Load(w.image) == Some(w0.m)
    ensures Core(Reopened(w0, w.image)) && Committed(Reopened(w0, w.image))
    ensures forall i | Live(w0, i) :: Content(Reopened(w0, w.image), i) == Content(w0, i)
  {
    LoadFrame(w0.image, w.image, w0.m);
    ImageFrame(w0, w.image);
    forall b | 0 <= b < |w0.m.blocks| && w0.m.blocks[b].used
      ensures Body(Reopened(w0, w.image), b) == Body(w0, b)
    {
      assert Survives(w0, w, b);
    }
    BodiesFrame(w0, Reopened(w0, w.image));
  }
}
