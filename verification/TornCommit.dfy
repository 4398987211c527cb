/** A commit cut off between two of its writes. */
module TornCommit {
  import opened Bytes
  import opened Sums
  import opened Metadata
  import opened Volume
  import opened Steps
  import opened Objects
  import opened Append
  import opened Crash
  import opened Refinement
  import opened Removal
  import opened Outcomes

  lemma TornStores(w: World, f: seq<byte>, m: Meta, raw: seq<byte>, n: nat)
    requires Stores(w, f) && |raw| == 20 && n <= 1 + |m.inodes| + |m.blocks|
    requires m.geo == w.m.geo && |m.inodes| == m.geo.inodeCount && |m.blocks| == m.geo.blockCount
    ensures Stores(w, Torn(m, f, raw, n))
  {
    var f' := Torn(m, f, raw, n);
    PatchSlice(f, 0, Slots(m, raw, n));
    forall b | 0 <= b < |w.m.blocks| && w.m.blocks[b].used ensures Body(Reopened(w, f'), b) == Body(w, b) {
      assert Body(Reopened(w, f), b) == Body(w, b);
      BodiesApart(w.m.geo, b, b);
    }
  }

  /** A command that has stored its data over the committed state `w0` and commits `w1`: after any number of slots the
      file opens to the tables mixed of both. It shows the old state exactly when nothing that changed was written yet,
      and the new state exactly when all of it was. */
  lemma TornCommitExact(w0: World, w1: World, raw: seq<byte>, n: nat)
    requires Sound(w0) && Core(w1) && AllGood(w1) && w1.m.geo == w0.m.geo
    requires Load(w1.image) == Some(w0.m) && Stores(w0, w1.image)
    requires |raw| == 20 && n <= 1 + |w1.m.inodes| + |w1.m.blocks|
    ensures |w0.m.inodes| == |w1.m.inodes| && |w0.m.blocks| == |w1.m.blocks|
    ensures var f := Torn(w1.m, w1.image, raw, n);
            && Load(f) == Some(TornMeta(w0.m, w1.m, n))
            && (Recovers(w0, f) <==> TornMeta(w0.m, w1.m, n) == w0.m)
            && (Recovers(w1, f) <==> TornMeta(w0.m, w1.m, n) == w1.m)
  {
    hide Linked, Filled, Counted, HasRoot, AllGood, Load, Torn, TornMeta, Stores;
    CoreEncodable(w1);
    TornLoad(w0.m, w1.m, w1.image, raw, n);
    TornStores(w0, w1.image, w1.m, raw, n);
    StoresSelf(w1);
    TornStores(w1, w1.image, w1.m, raw, n);
    RecoversOrNot(w0, Torn(w1.m, w1.image, raw, n));
    RecoversOrNot(w1, Torn(w1.m, w1.image, raw, n));
  }

  lemma StoresSelf(w: World)
    ensures Stores(w, w.image)
  {
  }

  lemma RecoversOrNot(w: World, f: seq<byte>)
    requires Core(w) && AllGood(w) && Stores(w, f)
    ensures Recovers(w, f) <==> Load(f) == Some(w.m)
  {
    hide Core, AllGood, Stores, Load;
    if Load(f) == Some(w.m) { StoredRecovers(w, f); }
  }

  // ---- a write into the last block ----

  /** Some sound volume opens from the file. */
  ghost predicate OpensSound(f: seq<byte>) {
    exists w: World :: w.image == f && Sound(w)
  }

  /** What the commit of such a write puts down. */
  ghost function Appended(w: World, t: nat, data: seq<byte>): World
    requires Ready(w, t) && t < |w.m.inodes|
  {
    Resize(Put(w, t, data), t, |data|)
  }

  /** A `write` that needs no new block changes two slots, that of its inode and that of its last block. Cut off before
      the first the file shows the old state, behind the second the new one; between them no sound volume opens. */
  lemma TornWriteIff(w: World, t: nat, data: seq<byte>, raw: seq<byte>, n: nat)
    requires Sound(w) && Live(w, t) && w.m.inodes[t].kind == File && |raw| == 20
    requires Ready(w, t) && |data| <= Room(w, t) && n <= 1 + |w.m.inodes| + |w.m.blocks|
    ensures var w1 := Appended(w, t, data);
            var f := Torn(w1.m, w1.image, raw, n);
            var before, after := n <= 1 + t, 1 + |w.m.inodes| + Tail(w, t) < n;
            && (before ==> Recovers(w, f)) && (after ==> Recovers(w1, f))
            && (OpensSound(f) <==> before || after || data == [])
  {
    hide Linked, Filled, Counted, HasRoot, AllGood, Committed, Torn, Load, Recovers, Content, OpensSound;
    var w1 := Appended(w, t, data);
    var f := Torn(w1.m, w1.image, raw, n);
    AppendedFacts(w, t, data);
    ExtendsStores(w, w1);
    TornCommitExact(w, w1, raw, n);
    TornWriteMeta(w, t, data, n);
    if n <= 1 + t || data == [] {
      RecoversOpens(w, f);
    } else if 1 + |w.m.inodes| + Tail(w, t) < n {
      RecoversOpens(w1, f);
    } else {
      NoneBetween(w, t, data, f);
    }
  }

  lemma RecoversOpens(w: World, f: seq<byte>)
    requires Recovers(w, f)
    ensures OpensSound(f)
  {
    hide Sound, Load, Abs;
    assert Reopened(w, f).image == f;
  }

  lemma AppendedFacts(w: World, t: nat, data: seq<byte>)
    requires Sound(w) && Live(w, t) && w.m.inodes[t].kind == File && Ready(w, t) && |data| <= Room(w, t)
    ensures var w1 := Appended(w, t, data);
            && Core(w1) && AllGood(w1) && Extends(w, w1)
            && |w1.m.inodes| == |w.m.inodes| && |w1.m.blocks| == |w.m.blocks|
            && w1.m.inodes[t].size == w.m.inodes[t].size + |data|
  {
    hide Linked, Filled, Counted, HasRoot, Content, Extends, Committed;
    assert Pour(w, t, data) == Done(Put(w, t, data));
    WriteDone(w, 0, t, data);
    ExtendsSelf(w);
    PutExtends(w, w, t, data);
    ResizeExtends(w, Put(w, t, data), t, |data|);
    PutStep(w, t, data);
    ResizeKeeps(Put(w, t, data), t, |data|);
    assert GoodAt(w, t) && GoodAt(Appended(w, t, data), t);
  }

  /** The tables in between: the inode is new and its last block is old. */
  ghost function Between(w: World, t: nat, data: seq<byte>): Meta
    requires Ready(w, t) && t < |w.m.inodes|
  {
    w.m.(inodes := Appended(w, t, data).m.inodes)
  }

  lemma TornWriteMeta(w: World, t: nat, data: seq<byte>, n: nat)
    requires Sound(w) && Live(w, t) && w.m.inodes[t].kind == File && Ready(w, t) && |data| <= Room(w, t)
    requires n <= 1 + |w.m.inodes| + |w.m.blocks|
    requires Appended(w, t, data).m.inodes[t].size == w.m.inodes[t].size + |data|
    ensures TornMeta(w.m, Appended(w, t, data).m, n) ==
            if n <= 1 + t then w.m
            else if n <= 1 + |w.m.inodes| + Tail(w, t) then Between(w, t, data)
            else Appended(w, t, data).m
    ensures data == [] ==> Between(w, t, data) == w.m == Appended(w, t, data).m
  {
    hide Sound;
    var m, m1 := w.m, Appended(w, t, data).m;
    if n <= 1 + |m.inodes| {
      if 0 < n <= 1 + t { assert Mixed(m1.inodes, m.inodes, n - 1) == m.inodes; }
      if 1 + t < n { assert Mixed(m1.inodes, m.inodes, n - 1) == m1.inodes; }
    } else {
      var k := n - 1 - |m.inodes|;
      if k <= Tail(w, t) { assert Mixed(m1.blocks, m.blocks, k) == m.blocks; }
      if Tail(w, t) < k { assert Mixed(m1.blocks, m.blocks, k) == m1.blocks; }
    }
    if data == [] {
      assert m.inodes[t := m.inodes[t]] == m.inodes && m.blocks[Tail(w, t) := m.blocks[Tail(w, t)]] == m.blocks;
    }
  }

  /** The links give the file its old bytes, and the size field says more. */
  lemma NoneBetween(w: World, t: nat, data: seq<byte>, f: seq<byte>)
    requires Sound(w) && Live(w, t) && w.m.inodes[t].kind == File && Ready(w, t)
    requires data != [] && Load(f) == Some(Between(w, t, data))
    requires Appended(w, t, data).m.inodes[t].size == w.m.inodes[t].size + |data|
    ensures !OpensSound(f)
  {
    hide Core, AllGood, Content;
    SizeIsLength(w, t);
    forall v: World | v.image == f ensures !Sound(v) {
      if Sound(v) {
        SameLength(w, v, t);
        SizeIsLength(v, t);
      }
    }
  }

  lemma SizeIsLength(w: World, t: nat)
    requires Sound(w) && Live(w, t) && w.m.inodes[t].kind == File
    ensures w.m.inodes[t].size == |Content(w, t)|
  {
    assert GoodAt(w, t);
  }

  lemma SameLength(w: World, v: World, t: nat)
    requires Core(w) && Core(v) && Live(w, t) && Live(v, t)
    requires v.m.geo == w.m.geo && v.m.blocks == w.m.blocks && v.m.inodes[t].root == w.m.inodes[t].root
    ensures |Content(v, t)| == |Content(w, t)|
  {
    ChainsPartitionUsed(w);
    ChainsPartitionUsed(v);
    FollowsUnique(w.m.blocks, w.chains[t], v.chains[t]);
    ContentLength(w, t);
    ContentLength(v, t);
  }

  // ---- a removal ----

  /** The headers of all blocks of `t` were written. */
  ghost predicate FreedBy(w: World, t: nat, n: nat)
    requires t < |w.chains|
  {
    forall p | 0 <= p < |w.chains[t]| :: 1 + |w.m.inodes| + w.chains[t][p] < n
  }

  /** The superblock, which a commit writes first, already counts the blocks of the removed object as free. Until the
      last of their headers is written no sound volume opens. */
  lemma TornRemovalIff(w: World, t: nat, raw: seq<byte>, n: nat)
    requires Sound(w) && Live(w, t) && t != 0 && |raw| == 20
    requires t < |w.chains| == |w.m.inodes| && n <= 1 + |w.m.inodes| + |w.m.blocks|
    ensures |Release(w, t).m.inodes| == |w.m.inodes| && |Release(w, t).m.blocks| == |w.m.blocks|
    ensures var w1 := Release(w, t);
            var f := Torn(w1.m, w1.image, raw, n);
            && (n == 0 ==> Recovers(w, f)) && (FreedBy(w, t, n) ==> Recovers(w1, f))
            && (OpensSound(f) <==> n == 0 || FreedBy(w, t, n))
  {
    hide Linked, Filled, Counted, HasRoot, AllGood, Torn, Load, Recovers, Content;
    hide OpensSound, Release, FreedBy, TornMeta;
    ReleasedStores(w, t);
    var w1 := Release(w, t);
    var f := Torn(w1.m, w1.image, raw, n);
    ReleaseRefines(w, 0, t);
    TornCommitExact(w, w1, raw, n);
    TornReleaseMeta(w, t, n);
    if n == 0 {
      RecoversOpens(w, f);
    } else if FreedBy(w, t, n) {
      RecoversOpens(w1, f);
    } else {
      StillCounted(w, t, n);
      NoneCounted(f);
    }
  }

  lemma ReleasedStores(w: World, t: nat)
    requires Sound(w) && Live(w, t) && t != 0
    ensures t < |w.chains| == |w.m.inodes|
    ensures var w1 := Release(w, t);
            && Load(w1.image) == Some(w.m) && Stores(w, w1.image) && w1.m.geo == w.m.geo
            && |w1.m.inodes| == |w.m.inodes| && |w1.m.blocks| == |w.m.blocks|
  {
    hide Linked, Filled, Counted, HasRoot, AllGood;
  }

  lemma TornReleaseMeta(w: World, t: nat, n: nat)
    requires Sound(w) && Live(w, t) && t != 0 && t < |w.chains| == |w.m.inodes|
    requires |Release(w, t).m.inodes| == |w.m.inodes| && |Release(w, t).m.blocks| == |w.m.blocks|
    requires n <= 1 + |w.m.inodes| + |w.m.blocks|
    ensures n == 0 ==> TornMeta(w.m, Release(w, t).m, n) == w.m
    ensures FreedBy(w, t, n) ==> TornMeta(w.m, Release(w, t).m, n) == Release(w, t).m
  {
    hide Linked, Filled, Counted, AllGood, Committed;
    var m, m1, k := w.m, Release(w, t).m, n - 1 - |w.m.inodes|;
    ReleaseKeeps(w, t);
    if FreedBy(w, t, n) {
      ChainStart(w, t);
      assert 1 + |w.m.inodes| + w.chains[t][0] < n;
      forall b | k <= b < |m.blocks| ensures m1.blocks[b] == m.blocks[b] { FreedOther(m.blocks, w.chains[t], b); }
      assert Mixed(m1.blocks, m.blocks, k) == m1.blocks;
    }
  }

  /** The counter does not agree with the headers that are on disk. */
  ghost predicate Miscounted(m: Meta) {
    m.usedBlocks + 1 != Sum(UsedBit, m.blocks)
  }

  lemma StillCounted(w: World, t: nat, n: nat)
    requires Sound(w) && Live(w, t) && t != 0 && t < |w.chains| == |w.m.inodes|
    requires |Release(w, t).m.inodes| == |w.m.inodes| && |Release(w, t).m.blocks| == |w.m.blocks|
    requires 0 < n <= 1 + |w.m.inodes| + |w.m.blocks| && !FreedBy(w, t, n)
    ensures Miscounted(TornMeta(w.m, Release(w, t).m, n))
  {
    hide Core, AllGood, Committed, Release, Mixed, Sum;
    var m, m1 := w.m, Release(w, t).m;
    var mixed := TornMeta(m, m1, n).blocks;
    var p :| 0 <= p < |w.chains[t]| && n <= 1 + |w.m.inodes| + w.chains[t][p];
    var b := w.chains[t][p];
    ChainAt(w, t, p);
    ReleaseKeeps(w, t);
    MixedBlocks(m.blocks, m1.blocks, if n <= 1 + |m.inodes| then 0 else n - 1 - |m.inodes|, b);
    ReleaseCounter(w, t, n);
  }

  /** Headers freed in `ys` and not yet written at `b` make the mixed table count more than `ys`. */
  lemma MixedBlocks(xs: seq<Block>, ys: seq<Block>, k: nat, b: nat)
    requires k <= b < |xs| == |ys| && xs[b].used && IsFree(ys[b])
    requires forall i | 0 <= i < |xs| :: IsFree(xs[i]) ==> IsFree(ys[i])
    ensures Sum(UsedBit, ys) < Sum(UsedBit, Mixed(ys, xs, k))
    ensures Mixed(ys, xs, 0) == xs
  {
    var mixed := Mixed(ys, xs, k);
    forall i | 0 <= i < |xs| ensures UsedBit(ys[i]) <= UsedBit(mixed[i]) {
      assert mixed[i] == if i < k then ys[i] else xs[i];
      assert IsFree(xs[i]) ==> IsFree(ys[i]);
    }
    assert mixed[b] == xs[b];
    SumLess(UsedBit, ys, mixed, b);
  }

  lemma ReleaseCounter(w: World, t: nat, n: nat)
    requires Sound(w) && Live(w, t) && t != 0 && t < |w.chains| == |w.m.inodes|
    requires |Release(w, t).m.inodes| == |w.m.inodes| && |Release(w, t).m.blocks| == |w.m.blocks|
    requires 0 < n <= 1 + |w.m.inodes| + |w.m.blocks|
    ensures TornMeta(w.m, Release(w, t).m, n).usedBlocks + 1 == Sum(UsedBit, Release(w, t).m.blocks)
  {
    hide Linked, Filled, AllGood, Committed, Release;
    ReleasedStores(w, t);
    ReleaseKeeps(w, t);
  }

  lemma NoneCounted(f: seq<byte>)
    requires Load(f).Some? && Miscounted(Load(f).value)
    ensures !OpensSound(f)
  {
    hide Linked, Filled, AllGood, Load;
  }
}
