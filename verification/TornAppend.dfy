/** The commit of a command that took new blocks, cut off between two of its writes. */
module TornAppend {
  import opened Bytes
  import opened Sums
  import opened Metadata
  import opened Volume
  import opened Steps
  import opened Objects
  import opened Append
  import opened Crash
  import opened Directory
  import opened Refinement
  import opened Outcomes
  import opened TornCommit

  // ---- what such a command does to the tables ----

  /** Inode `i` keeps its kind and its root and changes its size; used blocks stay as they are, but for the last one of
      its chain; and some block is newly used. */
  ghost predicate TakesBlocks(w: World, w1: World, i: nat) {
    && Live(w, i) && Ready(w, i) && |w1.m.inodes| == |w.m.inodes| && |w1.m.blocks| == |w.m.blocks|
    && w1.m.inodes[i].kind == w.m.inodes[i].kind && w1.m.inodes[i].root == w.m.inodes[i].root
    && w1.m.inodes[i].size != w.m.inodes[i].size
    && OthersStay(w, w1, i) && NewlyUsed(w, w1)
  }

  ghost predicate OthersStay(w: World, w1: World, i: nat)
    requires Ready(w, i) && |w1.m.blocks| == |w.m.blocks|
  {
    && (forall b | 0 <= b < |w.m.blocks| && w.m.blocks[b].used :: w1.m.blocks[b].used)
    && (forall b | 0 <= b < |w.m.blocks| && w.m.blocks[b].used && b != Tail(w, i) :: w1.m.blocks[b] == w.m.blocks[b])
  }

  ghost predicate NewlyUsed(w: World, w1: World)
    requires |w1.m.blocks| == |w.m.blocks|
  {
    exists b :: 0 <= b < |w.m.blocks| && !w.m.blocks[b].used && w1.m.blocks[b].used
  }

  /** The headers in which the two tables differ are all among the first `n` writes. */
  ghost predicate HeadersWritten(m0: Meta, m: Meta, n: nat)
    requires |m0.blocks| == |m.blocks|
  {
    forall b | 0 <= b < |m.blocks| && m0.blocks[b] != m.blocks[b] :: 1 + |m.inodes| + b < n
  }

  /** Once the superblock is written, a sound volume opens again only when every header that changed is written, and
      then it shows the new state. */
  lemma TornAppendIff(w: World, w1: World, i: nat, raw: seq<byte>, n: nat)
    requires Sound(w) && Core(w1) && AllGood(w1) && Extends(w, w1) && TakesBlocks(w, w1, i) && |raw| == 20
    requires n <= 1 + |w1.m.inodes| + |w1.m.blocks|
    ensures var f := Torn(w1.m, w1.image, raw, n);
            && (n == 0 ==> Recovers(w, f)) && (HeadersWritten(w.m, w1.m, n) ==> Recovers(w1, f))
            && (OpensSound(f) <==> n == 0 || HeadersWritten(w.m, w1.m, n))
  {
    hide Core, AllGood, Committed, Extends, Torn, Load, Recovers, OpensSound, TornMeta, HeadersWritten, TakesBlocks;
    SameSizes(w, w1, i);
    var f := Torn(w1.m, w1.image, raw, n);
    ExtendsStores(w, w1);
    TornCommitExact(w, w1, raw, n);
    if n == 0 {
      NothingTorn(w.m, w1.m);
      RecoversOpens(w, f);
    }
    if HeadersWritten(w.m, w1.m, n) {
      AllTorn(w, w1, i, n);
      RecoversOpens(w1, f);
    }
    if n > 0 && !HeadersWritten(w.m, w1.m, n) {
      NoneUntilWritten(w, w1, i, n, f);
    }
  }

  lemma SameSizes(w: World, w1: World, i: nat)
    requires TakesBlocks(w, w1, i)
    ensures |w1.m.inodes| == |w.m.inodes| && |w1.m.blocks| == |w.m.blocks|
  {
  }

  lemma NothingTorn(m0: Meta, m: Meta)
    requires |m0.inodes| == |m.inodes| && |m0.blocks| == |m.blocks|
    ensures TornMeta(m0, m, 0) == m0
  {
  }

  lemma AllTorn(w: World, w1: World, i: nat, n: nat)
    requires TakesBlocks(w, w1, i) && n <= 1 + |w1.m.inodes| + |w1.m.blocks| && HeadersWritten(w.m, w1.m, n)
    ensures TornMeta(w.m, w1.m, n) == w1.m
  {
    var b :| 0 <= b < |w.m.blocks| && !w.m.blocks[b].used && w1.m.blocks[b].used;
    assert w.m.blocks[b] != w1.m.blocks[b];
    var k := n - 1 - |w1.m.inodes|;
    assert Mixed(w1.m.blocks, w.m.blocks, k) == w1.m.blocks;
  }

  lemma NoneUntilWritten(w: World, w1: World, i: nat, n: nat, f: seq<byte>)
    requires Sound(w) && Core(w1) && TakesBlocks(w, w1, i) && |w1.m.inodes| == |w.m.inodes|
    requires w1.m.geo == w.m.geo && |w1.m.blocks| == |w.m.blocks|
    requires 0 < n <= 1 + |w1.m.inodes| + |w1.m.blocks| && !HeadersWritten(w.m, w1.m, n)
    requires Load(f) == Some(TornMeta(w.m, w1.m, n))
    ensures !OpensSound(f)
  {
    hide Core, AllGood, Committed, Load, OpensSound, TornMeta;
    if b :| 0 <= b < |w.m.blocks| && !w.m.blocks[b].used && w1.m.blocks[b].used && n <= 1 + |w1.m.inodes| + b {
      TooFewOnDisk(w, w1, i, n, b);
      NoneCounted(f);
    } else {
      OnlyTailOld(w, w1, i, n);
      OldTailUnsound(w, w1, i, n, f);
    }
  }

  /** A block newly used whose header is not written: the counter is too high. */
  lemma TooFewOnDisk(w: World, w1: World, i: nat, n: nat, b: nat)
    requires Core(w1) && TakesBlocks(w, w1, i) && |w1.m.inodes| == |w.m.inodes| && |w1.m.blocks| == |w.m.blocks|
    requires 0 < n <= 1 + |w1.m.inodes| + |w1.m.blocks|
    requires b < |w.m.blocks| && !w.m.blocks[b].used && w1.m.blocks[b].used && n <= 1 + |w1.m.inodes| + b
    ensures Miscounted(TornMeta(w.m, w1.m, n))
  {
    hide Linked, Filled, HasRoot, Tables;
    var mixed := TornMeta(w.m, w1.m, n).blocks;
    forall j | 0 <= j < |w.m.blocks| ensures UsedBit(mixed[j]) <= UsedBit(w1.m.blocks[j]) {
      assert mixed[j] == w.m.blocks[j] || mixed[j] == w1.m.blocks[j];
      assert w.m.blocks[j].used ==> w1.m.blocks[j].used;
    }
    assert mixed[b] == w.m.blocks[b];
    SumLess(UsedBit, mixed, w1.m.blocks, b);
  }

  /** Otherwise the one header that is missing is that of the block the chain ended in. */
  lemma OnlyTailOld(w: World, w1: World, i: nat, n: nat)
    requires Core(w) && Core(w1) && TakesBlocks(w, w1, i)
    requires |w1.m.inodes| == |w.m.inodes| && |w1.m.blocks| == |w.m.blocks|
    requires !HeadersWritten(w.m, w1.m, n)
    requires forall b | 0 <= b < |w.m.blocks| && !w.m.blocks[b].used && w1.m.blocks[b].used :: 1 + |w1.m.inodes| + b < n
    ensures 1 + |w1.m.inodes| < n <= 1 + |w1.m.inodes| + Tail(w, i)
  {
    hide Linked, Counted, HasRoot, Tables;
    var b :| 0 <= b < |w.m.blocks| && w.m.blocks[b] != w1.m.blocks[b] && n <= 1 + |w1.m.inodes| + b;
    assert FilledBlock(w, b) && FilledBlock(w1, b);
    assert b == Tail(w, i);
  }

  /** With that header old, the chain of `i` ends where it ended, and its size field says otherwise. */
  lemma OldTailUnsound(w: World, w1: World, i: nat, n: nat, f: seq<byte>)
    requires Sound(w) && TakesBlocks(w, w1, i) && |w1.m.inodes| == |w.m.inodes| && |w1.m.blocks| == |w.m.blocks|
    requires w1.m.geo == w.m.geo && n <= 1 + |w1.m.inodes| + |w1.m.blocks|
    requires 1 + |w1.m.inodes| < n <= 1 + |w1.m.inodes| + Tail(w, i)
    requires Load(f) == Some(TornMeta(w.m, w1.m, n))
    ensures !OpensSound(f)
  {
    hide Core, AllGood, Content, Load;
    forall v: World | v.image == f ensures !Sound(v) {
      if Sound(v) {
        OldChainStands(w, w1, i, n);
        SameChain(w, v, i);
        SizeByLength(w, v, i);
      }
    }
  }

  lemma OldChainStands(w: World, w1: World, i: nat, n: nat)
    requires Core(w) && TakesBlocks(w, w1, i) && |w1.m.inodes| == |w.m.inodes| && |w1.m.blocks| == |w.m.blocks|
    requires n <= 1 + |w1.m.inodes| + |w1.m.blocks|
    requires 1 + |w1.m.inodes| < n <= 1 + |w1.m.inodes| + Tail(w, i)
    ensures Ready(w, i) && i < |w.chains| && |TornMeta(w.m, w1.m, n).blocks| == |w.m.blocks|
    ensures forall p | 0 <= p < |w.chains[i]| ::
              w.chains[i][p] < |w.m.blocks| &&
              TornMeta(w.m, w1.m, n).blocks[w.chains[i][p]] == w.m.blocks[w.chains[i][p]]
  {
    hide Core;
    forall p | 0 <= p < |w.chains[i]|
      ensures w.chains[i][p] < |w.m.blocks| &&
              TornMeta(w.m, w1.m, n).blocks[w.chains[i][p]] == w.m.blocks[w.chains[i][p]]
    {
      ChainAt(w, i, p);
    }
  }

  /** Equal headers along a chain make it the chain of the other volume too, with as many bytes. */
  lemma SameChain(w: World, v: World, i: nat)
    requires Core(w) && Core(v) && Live(w, i) && Live(v, i) && v.m.geo == w.m.geo
    requires v.m.inodes[i].root == w.m.inodes[i].root && |v.m.blocks| == |w.m.blocks| && i < |w.chains|
    requires forall p | 0 <= p < |w.chains[i]| ::
               w.chains[i][p] < |w.m.blocks| && v.m.blocks[w.chains[i][p]] == w.m.blocks[w.chains[i][p]]
    ensures |Content(v, i)| == |Content(w, i)|
  {
    hide Core, Content;
    ChainStart(v, i);
    ChainsPartitionUsed(w);
    ChainsPartitionUsed(v);
    forall p | 0 <= p < |w.chains[i]| ensures LinkOk(v.m.blocks, w.chains[i], p) {
      assert LinkOk(w.m.blocks, w.chains[i], p);
    }
    FollowsUnique(v.m.blocks, w.chains[i], v.chains[i]);
    ContentLength(w, i);
    ContentLength(v, i);
  }

  lemma SizeByLength(w: World, v: World, i: nat)
    requires Sound(w) && Sound(v) && Live(w, i) && Live(v, i) && v.m.inodes[i].kind == w.m.inodes[i].kind
    requires |Content(v, i)| == |Content(w, i)|
    ensures v.m.inodes[i].size == w.m.inodes[i].size
  {
    hide Core, Content, SaneRecords;
    assert GoodAt(w, i) && GoodAt(v, i);
  }

  // ---- `write`, `mkdir` and `touch` are such commands ----

  lemma PutStays(w: World, i: nat, d: seq<byte>)
    requires Ready(w, i)
    ensures |Put(w, i, d).m.blocks| == |w.m.blocks| && OthersStay(w, Put(w, i, d), i)
    ensures forall b | 0 <= b < |w.m.blocks| :: Put(w, i, d).m.blocks[b].used == w.m.blocks[b].used
    ensures Put(w, i, d).chains == w.chains && Ready(Put(w, i, d), i)
  {
  }

  lemma GrowStays(w: World, i: nat, b: nat)
    requires Ready(w, i) && b < |w.m.blocks| && !w.m.blocks[b].used
    ensures |Grow(w, i, b).m.blocks| == |w.m.blocks| && OthersStay(w, Grow(w, i, b), i)
    ensures Grow(w, i, b).m.blocks[b].used && Ready(Grow(w, i, b), i) && Tail(Grow(w, i, b), i) == b
  {
  }

  lemma StaysStays(w: World, v: World, u: World, i: nat)
    requires Ready(w, i) && Ready(v, i) && |v.m.blocks| == |w.m.blocks| == |u.m.blocks|
    requires OthersStay(w, v, i) && OthersStay(v, u, i) && (Tail(v, i) == Tail(w, i) || !w.m.blocks[Tail(v, i)].used)
    ensures OthersStay(w, u, i)
  {
  }

  lemma {:induction false} PourOthers(w: World, i: nat, data: seq<byte>)
    requires Core(w) && Live(w, i) && Ready(w, i)
    ensures |Pour(w, i, data).w.m.blocks| == |w.m.blocks| && OthersStay(w, Pour(w, i, data).w, i)
    ensures |data| > Room(w, i) && Pour(w, i, data).Done? ==> NewlyUsed(w, Pour(w, i, data).w)
    decreases |data|, if Room(w, i) == 0 then 1 else 0
  {
    hide Core, Put, Grow, OthersStay, Tail;
    var room := Room(w, i);
    if |data| <= room {
      PutStays(w, i, data);
    } else {
      var full := Put(w, i, data[..room]);
      PutStep(w, i, data[..room]);
      PutStays(w, i, data[..room]);
      var b := FreeBlock(full);
      if b >= 0 {
        var next := Grow(full, i, b);
        GrowStep(full, i);
        GrowStays(full, i, b);
        PourOthers(next, i, data[room..]);
        var end := Pour(next, i, data[room..]).w;
        SameTail(w, full, i);
        StaysStays(w, full, next, i);
        StaysStays(w, next, end, i);
        StillUsed(next, end, i, b);
      }
    }
  }

  lemma SameTail(w: World, v: World, i: nat)
    requires Ready(w, i) && Ready(v, i) && v.chains == w.chains
    ensures Tail(v, i) == Tail(w, i)
  {
  }

  lemma StillUsed(w: World, v: World, i: nat, b: nat)
    requires Ready(w, i) && |v.m.blocks| == |w.m.blocks| && OthersStay(w, v, i)
    requires b < |w.m.blocks| && w.m.blocks[b].used
    ensures v.m.blocks[b].used
  {
  }

  /** What a `write` commits. */
  ghost function WrittenWorld(w: World, t: nat, data: seq<byte>): World
    requires Ready(w, t) && t < |w.m.inodes|
  {
    Resize(Pour(w, t, data).w, t, |data|)
  }

  lemma WriteTakes(w: World, t: nat, data: seq<byte>)
    requires Sound(w) && Live(w, t) && w.m.inodes[t].kind == File && Ready(w, t)
    requires |data| > Room(w, t) && Pour(w, t, data).Done?
    ensures var w1 := WrittenWorld(w, t, data);
            Core(w1) && AllGood(w1) && Extends(w, w1) && TakesBlocks(w, w1, t)
  {
    hide Linked, Filled, Counted, HasRoot, Content, Extends, Committed, Pour, OthersStay, NewlyUsed;
    var p := Pour(w, t, data).w;
    WriteDone(w, 0, t, data);
    ExtendsSelf(w);
    PourExtends(w, w, t, data);
    ResizeExtends(w, p, t, |data|);
    PourOthers(w, t, data);
    PourKeeps(w, t, data);
    ResizedTakes(w, p, t, |data|);
    ResizeKeeps(p, t, |data|);
    assert GoodAt(w, t) && GoodAt(WrittenWorld(w, t, data), t);
  }

  lemma ResizedTakes(w: World, p: World, t: nat, n: nat)
    requires Ready(w, t) && t < |p.m.inodes| && |p.m.blocks| == |w.m.blocks|
    requires OthersStay(w, p, t) && NewlyUsed(w, p)
    ensures |Resize(p, t, n).m.blocks| == |w.m.blocks| && OthersStay(w, Resize(p, t, n), t)
    ensures NewlyUsed(w, Resize(p, t, n))
  {
  }

  /** A `write` that links new blocks, cut off in its commit. */
  lemma TornGrowthIff(w: World, t: nat, data: seq<byte>, raw: seq<byte>, n: nat)
    requires Sound(w) && Live(w, t) && w.m.inodes[t].kind == File && |raw| == 20
    requires Ready(w, t) && |data| > Room(w, t) && Pour(w, t, data).Done?
    requires n <= 1 + |w.m.inodes| + |w.m.blocks|
    ensures |WrittenWorld(w, t, data).m.inodes| == |w.m.inodes| && |WrittenWorld(w, t, data).m.blocks| == |w.m.blocks|
    ensures var w1 := WrittenWorld(w, t, data);
            var f := Torn(w1.m, w1.image, raw, n);
            && (n == 0 ==> Recovers(w, f)) && (HeadersWritten(w.m, w1.m, n) ==> Recovers(w1, f))
            && (OpensSound(f) <==> n == 0 || HeadersWritten(w.m, w1.m, n))
  {
    hide Core, AllGood, Committed, Extends, Torn, Recovers, OpensSound, HeadersWritten, Pour, WrittenWorld;
    WriteTakes(w, t, data);
    SameSizes(w, WrittenWorld(w, t, data), t);
    TornAppendIff(w, WrittenWorld(w, t, data), t, raw, n);
  }

  lemma MakeTakes(w: World, cwd: nat, kind: Kind, parent: int, name: seq<byte>)
    requires Sound(w) && LiveDir(w, cwd) && Makeable(w, kind, parent) && Making(w, cwd, kind, parent, name).Done?
    ensures var w1 := Making(w, cwd, kind, parent, name).w;
            Core(w1) && AllGood(w1) && Extends(w, w1) && TakesBlocks(w, w1, cwd)
  {
    hide Linked, Filled, Counted, HasRoot, Content, Extends, Committed, Pour, OthersStay, NewlyUsed;
    hide EncodeRecord, WithNew;
    MakingGood(w, cwd, kind, parent, name);
    PreparedFacts(w, cwd, kind, parent);
    ReadyLive(w, cwd);
    var p, record := Prepared(w, cwd, kind, parent), EncodeRecord(NewRecord(w, name));
    MakeExtends(w, cwd, kind, parent, record);
    PourOthers(p, cwd, record);
    PreparedTakes(w, Pour(p, cwd, record).w, cwd, kind, parent);
    PreparedSlot(w, cwd, kind, parent);
  }

  lemma PreparedTakes(w: World, w1: World, cwd: nat, kind: Kind, parent: int)
    requires Core(w) && LiveDir(w, cwd) && Makeable(w, kind, parent) && |w.chains| == |w.m.inodes| && Ready(w, cwd)
    requires var p := Prepared(w, cwd, kind, parent);
             Ready(p, cwd) && |w1.m.blocks| == |p.m.blocks| && OthersStay(p, w1, cwd)
    ensures |w1.m.blocks| == |w.m.blocks| && OthersStay(w, w1, cwd) && NewlyUsed(w, w1)
  {
    hide Core;
    var p, b := Prepared(w, cwd, kind, parent), FreeBlock(w);
    assert FreeInode(w) != cwd;
    assert p.chains[cwd] == w.chains[cwd];
    assert p.m.blocks[b].used && !w.m.blocks[b].used;
  }

  lemma PreparedSlot(w: World, cwd: nat, kind: Kind, parent: int)
    requires Core(w) && LiveDir(w, cwd) && Makeable(w, kind, parent) && |w.chains| == |w.m.inodes|
    ensures var x, y := w.m.inodes[cwd], Prepared(w, cwd, kind, parent).m.inodes[cwd];
            y.kind == x.kind && y.root == x.root && y.size != x.size
    ensures |Prepared(w, cwd, kind, parent).m.inodes| == |w.m.inodes|
  {
    hide Core, Wrap;
    assert FreeInode(w) != cwd;
    RootedAt(w, cwd);
    WrapNext(w.m.inodes[cwd].size);
  }

  lemma RootedAt(w: World, i: nat)
    requires Core(w) && Live(w, i)
    ensures i < |w.chains| && Rooted(w, i)
  {
  }

  lemma WrapNext(x: nat)
    requires x < TWO32
    ensures Wrap(x + 1) != x
  {
  }

  /** `mkdir` and `touch`, cut off in their commit. */
  lemma TornMakeIff(w: World, cwd: nat, kind: Kind, parent: int, name: seq<byte>, raw: seq<byte>, n: nat)
    requires Sound(w) && LiveDir(w, cwd) && Makeable(w, kind, parent) && Making(w, cwd, kind, parent, name).Done?
    requires |raw| == 20 && n <= 1 + |w.m.inodes| + |w.m.blocks|
    ensures var w1 := Making(w, cwd, kind, parent, name).w;
            |w1.m.inodes| == |w.m.inodes| && |w1.m.blocks| == |w.m.blocks|
    ensures var w1 := Making(w, cwd, kind, parent, name).w;
            var f := Torn(w1.m, w1.image, raw, n);
            && (n == 0 ==> Recovers(w, f)) && (HeadersWritten(w.m, w1.m, n) ==> Recovers(w1, f))
            && (OpensSound(f) <==> n == 0 || HeadersWritten(w.m, w1.m, n))
  {
    hide Core, AllGood, Committed, Extends, Torn, Recovers, OpensSound, HeadersWritten, Making;
    MakeTakes(w, cwd, kind, parent, name);
    SameSizes(w, Making(w, cwd, kind, parent, name).w, cwd);
    TornAppendIff(w, Making(w, cwd, kind, parent, name).w, cwd, raw, n);
  }
}
