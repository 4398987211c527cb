/** The commit of an `rm` whose second clear went into the committed tables, cut off between two of its writes. */
module TornRm {
  import opened Bytes
  import opened Sums
  import opened Layout
  import opened Metadata
  import opened Volume
  import opened Objects
  import opened Refinement
  import opened Removal
  import opened Outcomes
  import opened TornCommit
  import opened Struck

  /** The slot of field `x` is among the first `n` writes of a commit. */
  predicate SlotWritten(g: Geometry, x: Field, n: nat) {
    if OfInode(x) then 1 + x.k < n else 1 + g.inodeCount + x.b < n
  }

  /** `w` is the state after the clears of the matching records; the second clear hit field `x`. A sound volume opens
      exactly when nothing was written yet and the hit does no harm, or the headers of the whole freed chain were written
      and the hit was overwritten or changed nothing. */
  lemma TornStruckIff(w: World, x: Field, t: nat, raw: seq<byte>, n: nat)
    requires Sound(w) && Typed(w.m.geo, w.image) && InTables(w.m.geo, x) && Live(w, t) && t != 0 && |raw| == 20
    requires t < |w.chains| == |w.m.inodes| && n <= 1 + |w.m.inodes| + |w.m.blocks|
    ensures |w.m.inodes| == w.m.geo.inodeCount && |w.m.blocks| == w.m.geo.blockCount
    ensures |Release(w, t).m.inodes| == |w.m.inodes| && |Release(w, t).m.blocks| == |w.m.blocks|
    ensures var f := Torn(Release(w, t).m, Patch(w.image, FieldStart(w.m.geo, x), [0]), raw, n);
            OpensSound(f) <==>
              || (n == 0 && (Hit(w.m, x) == w.m || x.ParentOf?))
              || (FreedBy(w, t, n) && (SlotWritten(w.m.geo, x, n) || Hit(w.m, x) == w.m))
  {
    hide Core, AllGood, Committed, Torn, Load, OpensSound, Release, FreedBy, TornMeta, Typed, Hit, Patch, Stores;
    ReleasedStores(w, t);
    HitOpensIff(w, x);
    LoadIsMeta(w);
    LoadHit(w.m, w.image, x);
    var w1, f0 := Release(w, t), Patch(w.image, FieldStart(w.m.geo, x), [0]);
    var f := Torn(w1.m, f0, raw, n);
    ReleaseRefines(w, 0, t);
    CoreEncodable(w1);
    HitSizes(w.m, x);
    TornLoad(Hit(w.m, x), w1.m, f0, raw, n);
    if n == 0 {
      TornEnds(w1.m, f0, raw);
      NotFreedYet(w, t);
    } else if FreedBy(w, t, n) {
      AfterFreed(w, x, t, raw, n, f);
    } else {
      BeforeFreed(w, x, t, n, f);
    }
  }

  lemma HitSizes(m: Meta, x: Field)
    requires |m.inodes| == m.geo.inodeCount && |m.blocks| == m.geo.blockCount && InTables(m.geo, x)
    ensures var h := Hit(m, x);
            h.geo == m.geo && |h.inodes| == |m.inodes| && |h.blocks| == |m.blocks|
  {
  }

  lemma NotFreedYet(w: World, t: nat)
    requires Core(w) && Live(w, t) && t < |w.chains|
    ensures !FreedBy(w, t, 0)
  {
    ChainStart(w, t);
    assert 1 + |w.m.inodes| + w.chains[t][0] >= 0;
  }

  // ---- all freed headers are written ----

  lemma AfterFreed(w: World, x: Field, t: nat, raw: seq<byte>, n: nat, f: seq<byte>)
    requires Sound(w) && InTables(w.m.geo, x) && Live(w, t) && t != 0 && |raw| == 20
    requires t < |w.chains| == |w.m.inodes| == w.m.geo.inodeCount && |w.m.blocks| == w.m.geo.blockCount
    requires |Release(w, t).m.inodes| == |w.m.inodes| && |Release(w, t).m.blocks| == |w.m.blocks|
    requires n <= 1 + |w.m.inodes| + |w.m.blocks| && FreedBy(w, t, n)
    requires |Hit(w.m, x).inodes| == |w.m.inodes| && |Hit(w.m, x).blocks| == |w.m.blocks|
    requires f == Torn(Release(w, t).m, Patch(w.image, FieldStart(w.m.geo, x), [0]), raw, n)
    requires Load(f) == Some(TornMeta(Hit(w.m, x), Release(w, t).m, n))
    ensures OpensSound(f) <==> SlotWritten(w.m.geo, x, n) || Hit(w.m, x) == w.m
  {
    hide Sound, Core, AllGood, Torn, Load, OpensSound, Release, FreedBy, TornMeta, Hit, Patch, Stores, SlotWritten;
    hide Committing, Recovers;
    SoundParts(w);
    var w1 := Release(w, t);
    ReleasedGeometry(w, t);
    ReleaseRefines(w, 0, t);
    CommitSound(w1, 0, raw);
    FreedMeta(w, x, t, n);
    if SlotWritten(w.m.geo, x, n) || Hit(w.m, x) == w.m {
      ReleasedBytes(w, x, t, raw, n);
      StoredRecovers(w1, f);
      RecoversOpens(w1, f);
    } else {
      CommitTables(w1, raw);
      NoneWithHit(Committing(w1, raw), x, f);
    }
  }

  lemma NoneWithHit(w: World, x: Field, f: seq<byte>)
    requires Sound(w) && |w.m.inodes| == w.m.geo.inodeCount && |w.m.blocks| == w.m.geo.blockCount
    requires InTables(w.m.geo, x) && !x.ParentOf? && Hit(w.m, x) != w.m && Load(f) == Some(Hit(w.m, x))
    ensures !OpensSound(f)
  {
    hide Core, AllGood, Hit;
    forall v: World | v.image == f ensures !Sound(v) {
      if Sound(v) { HitKept(w, v, x); }
    }
  }

  lemma SoundParts(w: World)
    requires Sound(w)
    ensures Core(w) && AllGood(w)
  {
  }

  lemma ReleasedGeometry(w: World, t: nat)
    requires t < |w.chains| == |w.m.inodes|
    ensures Release(w, t).m.geo == w.m.geo
  {
  }

  lemma NotInFreed(w: World, t: nat, n: nat, b: nat)
    requires t < |w.chains| && FreedBy(w, t, n) && n <= 1 + |w.m.inodes| + b
    ensures b !in w.chains[t]
  {
  }

  lemma FreedMeta(w: World, x: Field, t: nat, n: nat)
    requires Sound(w) && InTables(w.m.geo, x) && Live(w, t) && t != 0
    requires t < |w.chains| == |w.m.inodes| == w.m.geo.inodeCount && |w.m.blocks| == w.m.geo.blockCount
    requires |Release(w, t).m.inodes| == |w.m.inodes| && |Release(w, t).m.blocks| == |w.m.blocks|
    requires n <= 1 + |w.m.inodes| + |w.m.blocks| && FreedBy(w, t, n)
    requires |Hit(w.m, x).inodes| == |w.m.inodes| && |Hit(w.m, x).blocks| == |w.m.blocks|
    requires Release(w, t).m.geo == w.m.geo
    ensures var m1 := Release(w, t).m;
            if SlotWritten(w.m.geo, x, n) || Hit(w.m, x) == w.m then TornMeta(Hit(w.m, x), m1, n) == m1
            else TornMeta(Hit(w.m, x), m1, n) == Hit(m1, x) != m1 && !x.ParentOf?
  {
    hide Core, AllGood, Committed, Low, Release, FreedBy;
    var m, m1, h, k := w.m, Release(w, t).m, Hit(w.m, x), n - 1 - |w.m.inodes|;
    FreedBehind(w, t, n);
    ReleasedHead(w, x, t, n);
    if SlotWritten(w.m.geo, x, n) || h == m {
      assert Mixed(m1.blocks, h.blocks, k) == m1.blocks;
    } else {
      assert Mixed(m1.blocks, h.blocks, k) == Hit(m1, x).blocks;
    }
  }

  /** Behind the freed headers the tables are the old ones. */
  lemma FreedBehind(w: World, t: nat, n: nat)
    requires Core(w) && Live(w, t) && t < |w.chains| == |w.m.inodes| && FreedBy(w, t, n)
    requires |Release(w, t).m.blocks| == |w.m.blocks|
    ensures 1 + |w.m.inodes| < n
    ensures forall b | n - 1 - |w.m.inodes| <= b < |w.m.blocks| :: Release(w, t).m.blocks[b] == w.m.blocks[b]
  {
    hide Core;
    ChainStart(w, t);
    assert 1 + |w.m.inodes| + w.chains[t][0] < n;
    forall b | n - 1 - |w.m.inodes| <= b < |w.m.blocks| ensures Release(w, t).m.blocks[b] == w.m.blocks[b] {
      NotInFreed(w, t, n, b);
      FreedOther(w.m.blocks, w.chains[t], b);
    }
  }

  /** A hit that is not overwritten and changes something is in a header, and changes the same in the new tables. */
  lemma ReleasedHead(w: World, x: Field, t: nat, n: nat)
    requires InTables(w.m.geo, x) && t < |w.chains| == |w.m.inodes| == w.m.geo.inodeCount
    requires |w.m.blocks| == w.m.geo.blockCount && Release(w, t).m.geo == w.m.geo
    requires |Release(w, t).m.inodes| == |w.m.inodes| && |Release(w, t).m.blocks| == |w.m.blocks|
    requires 1 + |w.m.inodes| < n
    requires forall b | n - 1 - |w.m.inodes| <= b < |w.m.blocks| :: Release(w, t).m.blocks[b] == w.m.blocks[b]
    ensures !SlotWritten(w.m.geo, x, n) ==> !OfInode(x) && n - 1 - |w.m.inodes| <= x.b
    ensures !SlotWritten(w.m.geo, x, n) && Hit(w.m, x) != w.m ==> Hit(Release(w, t).m, x) != Release(w, t).m
  {
    hide Low, Release;
    if !SlotWritten(w.m.geo, x, n) {
      assert w.m.blocks[x.b := w.m.blocks[x.b]] == w.m.blocks;
    }
  }

  lemma ReleasedBytes(w: World, x: Field, t: nat, raw: seq<byte>, n: nat)
    requires Sound(w) && InTables(w.m.geo, x) && Live(w, t) && t != 0 && |raw| == 20
    requires t < |w.chains| == |w.m.inodes| == w.m.geo.inodeCount && |w.m.blocks| == w.m.geo.blockCount
    requires |Release(w, t).m.inodes| == |w.m.inodes| && |Release(w, t).m.blocks| == |w.m.blocks|
    requires n <= 1 + |w.m.inodes| + |w.m.blocks| && Release(w, t).m.geo == w.m.geo
    ensures Stores(Release(w, t), Torn(Release(w, t).m, Patch(w.image, FieldStart(w.m.geo, x), [0]), raw, n))
  {
    hide Core, AllGood, Committed, Torn, Stores, Patch;
    var w1 := Release(w, t);
    FieldInside(w.m.geo, x);
    StillStores(w1, FieldStart(w.m.geo, x));
    TornStores(w1, Patch(w1.image, FieldStart(w.m.geo, x), [0]), w1.m, raw, n);
  }

  // ---- some are not ----

  lemma BeforeFreed(w: World, x: Field, t: nat, n: nat, f: seq<byte>)
    requires Sound(w) && InTables(w.m.geo, x) && Live(w, t) && t != 0
    requires t < |w.chains| == |w.m.inodes| == w.m.geo.inodeCount && |w.m.blocks| == w.m.geo.blockCount
    requires |Release(w, t).m.inodes| == |w.m.inodes| && |Release(w, t).m.blocks| == |w.m.blocks|
    requires 0 < n <= 1 + |w.m.inodes| + |w.m.blocks| && !FreedBy(w, t, n)
    requires |Hit(w.m, x).inodes| == |w.m.inodes| && |Hit(w.m, x).blocks| == |w.m.blocks|
    requires Load(f) == Some(TornMeta(Hit(w.m, x), Release(w, t).m, n))
    ensures !OpensSound(f)
  {
    hide Core, AllGood, Committed, Load, Release, FreedBy, TornMeta, Hit, Miscounted;
    StillCounted(w, t, n);
    var m1, h := Release(w, t).m, Hit(w.m, x);
    TornSizes(w.m, m1, n);
    TornSizes(h, m1, n);
    if b :| 0 <= b < |w.m.blocks| && TornMeta(h, m1, n).blocks[b].used != TornMeta(w.m, m1, n).blocks[b].used {
      UsedHit(w, x, m1, n, b);
      forall v: World | v.image == f ensures !Sound(v) {
        if Sound(v) { LoadIsMeta(v); UsedOrBlank(v, b); }
      }
    } else {
      SameCount(w.m, h, m1, n);
      NoneCounted(f);
    }
  }

  lemma TornSizes(m0: Meta, m: Meta, n: nat)
    requires |m0.inodes| == |m.inodes| && |m0.blocks| == |m.blocks| && n <= 1 + |m.inodes| + |m.blocks|
    ensures |TornMeta(m0, m, n).blocks| == |m.blocks|
  {
  }

  lemma LoadIsMeta(v: World)
    requires Sound(v)
    ensures Load(v.image) == Some(v.m)
  {
  }

  /** The only way to change which headers count as used is to hit the type field of a used one; it is not blank then. */
  lemma UsedHit(w: World, x: Field, m1: Meta, n: nat, b: nat)
    requires Core(w) && InTables(w.m.geo, x) && |w.m.inodes| == w.m.geo.inodeCount && |w.m.blocks| == w.m.geo.blockCount
    requires |m1.inodes| == |w.m.inodes| && |m1.blocks| == |w.m.blocks| && n <= 1 + |w.m.inodes| + |w.m.blocks|
    requires |Hit(w.m, x).inodes| == |w.m.inodes| && |Hit(w.m, x).blocks| == |w.m.blocks| && b < |w.m.blocks|
    requires TornMeta(Hit(w.m, x), m1, n).blocks[b].used != TornMeta(w.m, m1, n).blocks[b].used
    ensures !TornMeta(Hit(w.m, x), m1, n).blocks[b].used && TornMeta(Hit(w.m, x), m1, n).blocks[b] != EMPTY_BLOCK
  {
    hide Core, Low;
    assert TornMeta(w.m, m1, n).blocks[b] == w.m.blocks[b] && TornMeta(Hit(w.m, x), m1, n).blocks[b] == Hit(w.m, x).blocks[b];
    assert x == UsedOf(b) && w.m.blocks[b].used;
    NextNotZero(w, b);
  }

  lemma NextNotZero(w: World, b: nat)
    requires Core(w) && b < |w.m.blocks| && w.m.blocks[b].used
    ensures w.m.blocks[b].next != 0
  {
    hide Tables, Filled, Counted;
    assert Owned(w, b);
    var s := w.owner[b];
    assert Placed(w, s.inode, s.pos);
    if s.pos + 1 < |w.chains[s.inode]| { BlockZero(w, s.inode, s.pos + 1); }
  }

  lemma SameCount(m: Meta, h: Meta, m1: Meta, n: nat)
    requires |m1.inodes| == |m.inodes| == |h.inodes| && |m1.blocks| == |m.blocks| == |h.blocks|
    requires 0 < n <= 1 + |m.inodes| + |m.blocks| && Miscounted(TornMeta(m, m1, n))
    requires forall b | 0 <= b < |m.blocks| :: TornMeta(h, m1, n).blocks[b].used == TornMeta(m, m1, n).blocks[b].used
    ensures Miscounted(TornMeta(h, m1, n))
  {
    var p, q := TornMeta(m, m1, n), TornMeta(h, m1, n);
    assert p.usedBlocks == q.usedBlocks && |p.blocks| == |q.blocks| == |m.blocks|;
    SumLess(UsedBit, p.blocks, q.blocks, 0);
    SumLess(UsedBit, q.blocks, p.blocks, 0);
  }
}
