/** Blocks and chains implement the model. */
module Refinement {
  import opened Bytes
  import opened Sums
  import opened Layout
  import opened Metadata
  import opened Volume
  import opened Steps
  import opened Objects
  import opened Append
  import opened Directory
  import opened Model

  ghost function ObjectOf(w: World, i: nat): Object
    requires i < |w.m.inodes|
  {
    var x := w.m.inodes[i];
    if x.kind == File then FileObj(Content(w, i)) else DirObj(x.parent, Records(Content(w, i)))
  }

  /** The model a volume stands for. */
  ghost function Abs(w: World, cwd: nat): Model {
    Model(map i | 0 <= i < |w.m.inodes| && w.m.inodes[i].kind != Empty :: ObjectOf(w, i), cwd)
  }

  /** An inode whose size field, number of blocks and bytes `c` agree; a directory's bytes spell sane records. */
  ghost predicate Good(g: Geometry, i: nat, x: Inode, blocks: nat, c: seq<byte>) {
    && blocks == Foot(|c|, g.blockSize)
    && (x.kind == File ==> x.size == |c|)
    && (x.kind == Directory ==> |c| == RECORD * x.size && 0 <= x.parent < g.inodeCount && SaneRecords(g, i, Records(c)))
  }

  ghost predicate SaneRecords(g: Geometry, i: nat, rs: seq<Record>) {
    forall k | 0 <= k < |rs| :: SaneRecord(rs[k], i, g.inodeCount)
  }

  ghost predicate GoodAt(w: World, i: nat)
    requires i < |w.m.inodes| == |w.chains|
  {
    Good(w.m.geo, i, w.m.inodes[i], |w.chains[i]|, Content(w, i))
  }

  ghost predicate AllGood(w: World) {
    |w.m.inodes| == |w.chains| && forall i | Live(w, i) :: GoodAt(w, i)
  }

  /** What holds between commands. */
  ghost predicate Sound(w: World) {
    Core(w) && Committed(w) && AllGood(w)
  }

  ghost predicate LiveDir(w: World, i: int) {
    Live(w, i) && w.m.inodes[i].kind == Directory
  }

  lemma AbsDir(w: World, cwd: nat)
    requires LiveDir(w, cwd)
    ensures Abs(w, cwd).cwd == cwd && IsDir(Abs(w, cwd), cwd)
    ensures Here(Abs(w, cwd)) == Records(Content(w, cwd))
  {
  }

  /** Changing the current directory changes nothing else. */
  lemma AbsMoved(w: World, cwd: nat, cwd': nat)
    ensures Abs(w, cwd') == Abs(w, cwd).(cwd := cwd')
    ensures LiveDir(w, cwd') <==> IsDir(Abs(w, cwd'), cwd')
    ensures LiveDir(w, cwd) ==> Abs(w, cwd).objects[cwd].parent == w.m.inodes[cwd].parent
  {
  }

  /** The check the program makes on the inode table is the model's check. */
  lemma MatchesKind(w: World, cwd: nat, r: Record, dir: bool, name: seq<byte>)
    requires r.inode < |w.m.inodes|
    ensures Matches(Abs(w, cwd), r, dir, name) <==>
              w.m.inodes[r.inode].kind == (if dir then Directory else File) && Text(r.name) == name
  {
  }

  lemma DirGood(w: World, d: nat)
    requires Core(w) && AllGood(w) && LiveDir(w, d)
    ensures |Content(w, d)| == RECORD * w.m.inodes[d].size && SaneRecords(w.m.geo, d, Records(Content(w, d)))
    ensures 0 <= w.m.inodes[d].parent < |w.m.inodes|
  {
    assert GoodAt(w, d);
  }

  lemma FileGood(w: World, t: nat)
    requires Core(w) && AllGood(w) && Live(w, t) && w.m.inodes[t].kind == File
    ensures w.m.inodes[t].size == |Content(w, t)| && t != 0
  {
    assert GoodAt(w, t);
  }

  // ---- footprints ----

  lemma Quotient(x: nat, k: nat, bs: nat)
    requires bs * k <= x < bs * k + bs
    ensures x / bs == k
  {
    var q := x / bs;
    assert x == bs * q + x % bs;
    if q < k { Scaled(bs, q, k); } else if k < q { Scaled(bs, k, q); }
  }

  lemma FootUnique(n: nat, k: nat, bs: nat)
    requires 0 < bs && 0 < k && (k - 1) * bs <= n <= k * bs && (k > 1 ==> (k - 1) * bs < n)
    ensures Foot(n, bs) == k
  {
    assert k * bs == (k - 1) * bs + bs == bs * k;
    if n > 0 {
      assert k == 1 ==> (k - 1) * bs == 0;
      Quotient(n + bs - 1, k, bs);
    }
  }

  lemma FootMore(n: nat, k: nat, bs: nat)
    requires 0 < bs && n > k * bs
    ensures Foot(n, bs) > k
  {
    var q := (n + bs - 1) / bs;
    assert n + bs - 1 == bs * q + (n + bs - 1) % bs;
    if q <= k { Scaled(bs, q, k); }
    assert k * bs == bs * k;
  }

  /** A chain is as long as its bytes need. */
  lemma ChainFoot(w: World, i: nat)
    requires Core(w) && Live(w, i) && Tight(w, i)
    ensures |w.chains[i]| == Foot(|Content(w, i)|, w.m.geo.blockSize)
  {
    hide Linked, Filled, Counted, Content;
    ContentLength(w, i);
    var k, bs := |w.chains[i]|, w.m.geo.blockSize;
    assert k * bs == (k - 1) * bs + bs;
    FootUnique(|Content(w, i)|, k, bs);
  }

  lemma GoodTight(w: World, i: nat)
    requires Core(w) && Live(w, i) && GoodAt(w, i)
    ensures Tight(w, i)
  {
    hide Linked, Filled, Counted, Content;
    ContentLength(w, i);
    var k, bs := |w.chains[i]|, w.m.geo.blockSize;
    if k > 1 && w.m.blocks[Tail(w, i)].size == 0 {
      FootUnique(|Content(w, i)|, k - 1, bs) by {
        assert (k - 1) * bs == (k - 2) * bs + bs;
      }
    }
  }

  lemma {:induction false} UsageIsChains(w: World, cwd: nat, n: nat)
    requires Core(w) && AllGood(w) && n <= |w.chains|
    ensures Usage(Abs(w, cwd), w.m.geo.blockSize, n) == Sum(Len, w.chains[..n])
  {
    hide Core, AllGood, Abs, Foot, Length;
    if n > 0 {
      UsageIsChains(w, cwd, n - 1);
      assert w.chains[..n][..n - 1] == w.chains[..n - 1];
      ObjectFoot(w, cwd, n - 1);
    }
  }

  lemma EmptyChain(w: World, i: nat)
    requires Core(w) && i < |w.chains|
    ensures Live(w, i) || w.chains[i] == []
  {
    assert Rooted(w, i);
  }

  lemma ObjectLength(w: World, i: nat)
    requires |w.m.inodes| == |w.chains| && Live(w, i) && GoodAt(w, i)
    ensures Length(ObjectOf(w, i)) == |Content(w, i)|
  {
    hide Content, Foot;
  }

  lemma ObjectFoot(w: World, cwd: nat, i: nat)
    requires Core(w) && AllGood(w) && i < |w.chains|
    ensures |w.chains[i]| == if i in Abs(w, cwd).objects then Foot(Length(Abs(w, cwd).objects[i]), w.m.geo.blockSize) else 0
  {
    hide Linked, Filled, Counted, Content, Foot;
    assert Live(w, i) || w.chains[i] == [] by { EmptyChain(w, i); }
    if Live(w, i) {
      assert GoodAt(w, i);
      ObjectLength(w, i);
    }
  }

  /** The model's footprint is exactly the number of used blocks. */
  lemma TotalIsUsed(w: World, cwd: nat)
    requires Core(w) && AllGood(w)
    ensures Total(Abs(w, cwd), w.m.geo) == Sum(UsedBit, w.m.blocks) == w.m.usedBlocks + 1
  {
    UsageIsChains(w, cwd, |w.chains|);
    assert w.chains[..|w.chains|] == w.chains;
  }

  /** The model's fresh number is the inode the program finds. */
  lemma FreshIsFree(w: World, cwd: nat)
    requires Core(w)
    ensures Fresh(Abs(w, cwd), 0, w.m.geo.inodeCount) == FreeInode(w)
  {
    var m, n := Abs(w, cwd), w.m.geo.inodeCount;
    var a, b := Fresh(m, 0, n), FreeInode(w);
    forall k: nat | k < n ensures k in m.objects <==> w.m.inodes[k].kind != Empty {}
  }

  // ---- commit ----

  lemma CommitSound(w: World, cwd: nat, raw: seq<byte>)
    requires Core(w) && AllGood(w) && |raw| == 20
    ensures Sound(Committing(w, raw)) && Abs(Committing(w, raw), cwd) == Abs(w, cwd)
  {
    hide Linked, Filled, Counted, Tables, HasRoot, Content, Commit;
    var w' := Committing(w, raw);
    CommitKeeps(w, raw);
    forall i | Live(w', i) ensures GoodAt(w', i) {
      assert GoodAt(w, i);
    }
    assert Abs(w', cwd).objects == Abs(w, cwd).objects;
  }

  // ---- appending ----

  /** No inode's bytes reach 2^32, so its size field never wraps. */
  lemma ContentBound(w: World, i: nat)
    requires Core(w) && Live(w, i)
    ensures |Content(w, i)| < TWO32
  {
    hide Core, Content;
    assert Fits(w.m.geo) by { CoreFits(w); }
    ContentLength(w, i);
    ChainBound(w, i);
    var k, bs := |w.chains[i]|, w.m.geo.blockSize;
    Scaled(bs, k, w.m.geo.blockCount);
    assert k * bs == (k - 1) * bs + bs == bs * k;
  }

  lemma CoreFits(w: World)
    requires Core(w)
    ensures Fits(w.m.geo) && |w.m.inodes| == |w.chains| == w.m.geo.inodeCount
  {
  }

  lemma ChainBound(w: World, i: nat)
    requires Core(w) && i < |w.chains|
    ensures |w.chains[i]| <= w.m.geo.blockCount
  {
    CountersExact(w);
    SumAtLeast(Len, w.chains, i);
  }

  lemma {:induction false} UsageExceeds(m: Model, bs: nat, chains: seq<seq<nat>>, i: nat, n: nat)
    requires n <= |chains|
    requires forall j | 0 <= j < |chains| && j != i ::
               |chains[j]| == if j in m.objects then Foot(Length(m.objects[j]), bs) else 0
    requires i < |chains| && i in m.objects && Foot(Length(m.objects[i]), bs) > |chains[i]|
    ensures Usage(m, bs, n) >= Sum(Len, chains[..n]) + if i < n then 1 else 0
  {
    if n > 0 {
      UsageExceeds(m, bs, chains, i, n - 1);
      assert chains[..n][..n - 1] == chains[..n - 1];
    }
  }

  /** Stopping for lack of blocks happens only when the finished state would need more than there are. */
  lemma StoppedOverflows(w: World, i: nat, data: seq<byte>, m: Model)
    requires Core(w) && Live(w, i) && Ready(w, i) && Pour(w, i, data).Stopped?
    requires forall j | 0 <= j < |w.chains| && j != i ::
               |w.chains[j]| == if j in m.objects then Foot(Length(m.objects[j]), w.m.geo.blockSize) else 0
    requires i in m.objects && Length(m.objects[i]) == |Content(w, i)| + |data|
    ensures Total(m, w.m.geo) > w.m.geo.blockCount
  {
    hide Linked, Filled, Content, Pour, Foot, Length;
    var w' := Pour(w, i, data).w;
    PourKeeps(w, i, data);
    FootMore(Length(m.objects[i]), |w'.chains[i]|, w.m.geo.blockSize);
    UsageExceeds(m, w.m.geo.blockSize, w'.chains, i, |w'.chains|);
    assert w'.chains[..|w'.chains|] == w'.chains;
    CountersExact(w');
  }

  /** The current file or directory after its bytes grew by `data` and its size field by `n`. */
  lemma GrownGood(w: World, i: nat, data: seq<byte>, n: nat)
    requires Core(w) && Live(w, i) && Ready(w, i) && Pour(w, i, data).Done?
    requires data != [] || Tight(w, i)
    ensures var r := Resize(Pour(w, i, data).w, i, n);
            && Core(r) && Content(r, i) == Content(w, i) + data
            && |r.chains[i]| == Foot(|Content(r, i)|, w.m.geo.blockSize)
            && (forall j | Live(w, j) && j != i :: Content(r, j) == Content(w, j))
            && r.chains == Pour(w, i, data).w.chains
            && r.m.inodes == w.m.inodes[i := w.m.inodes[i].(size := Wrap(w.m.inodes[i].size + n))]
            && |r.chains| == |w.chains| && r.m.geo == w.m.geo
            && forall j | 0 <= j < |w.chains| && j != i :: r.chains[j] == w.chains[j]
  {
    hide Linked, Filled, Counted, Tables, HasRoot, Content, Pour, Foot;
    var p := Pour(w, i, data).w;
    PourKeeps(w, i, data);
    PourTight(w, i, data);
    ChainFoot(p, i);
    ResizeKeeps(p, i, n);
    assert Live(p, i);
  }

  lemma WriteDone(w: World, cwd: nat, t: nat, data: seq<byte>)
    requires Core(w) && AllGood(w) && Live(w, t) && w.m.inodes[t].kind == File && Ready(w, t)
    requires Pour(w, t, data).Done?
    ensures var r := Resize(Pour(w, t, data).w, t, |data|);
            && Core(r) && AllGood(r)
            && Abs(r, cwd) == Abs(w, cwd).(objects := Abs(w, cwd).objects[t := FileObj(Content(w, t) + data)])
  {
    hide Linked, Filled, Counted, HasRoot, Content, Foot;
    hide Pour, Records;
    assert GoodAt(w, t);
    GoodTight(w, t);
    GrownGood(w, t, data, |data|);
    var r := Resize(Pour(w, t, data).w, t, |data|);
    ContentBound(r, t);
    forall i | Live(r, i) ensures GoodAt(r, i) {
      assert GoodAt(w, i);
    }
    assert Abs(r, cwd).objects == Abs(w, cwd).objects[t := FileObj(Content(w, t) + data)];
  }

  lemma WriteStopped(w: World, cwd: nat, t: nat, data: seq<byte>)
    requires Core(w) && AllGood(w) && Live(w, t) && w.m.inodes[t].kind == File && Ready(w, t)
    requires Pour(w, t, data).Stopped?
    ensures Total(Abs(w, cwd).(objects := Abs(w, cwd).objects[t := FileObj(Content(w, t) + data)]), w.m.geo)
          > w.m.geo.blockCount
  {
    hide Linked, Filled, Counted, Content, Pour, Foot;
    var m := Abs(w, cwd).(objects := Abs(w, cwd).objects[t := FileObj(Content(w, t) + data)]);
    forall j | 0 <= j < |w.chains| && j != t
      ensures |w.chains[j]| == if j in m.objects then Foot(Length(m.objects[j]), w.m.geo.blockSize) else 0
    {
      ObjectFoot(w, cwd, j);
    }
    StoppedOverflows(w, t, data, m);
  }

  // ---- making an object ----

  function NewObject(kind: Kind, parent: int): Object {
    if kind == File then FileObj([]) else DirObj(parent, [])
  }

  /** The model with the new object and its record. */
  ghost function WithNew(w: World, cwd: nat, kind: Kind, parent: int, name: seq<byte>): Model
    requires LiveDir(w, cwd) && FreeInode(w) >= 0
  {
    Insert(Abs(w, cwd), FreeInode(w), NewObject(kind, parent), name)
  }

  /** The new object in place and the directory counted up, before the record is appended. */
  function Prepared(w: World, cwd: nat, kind: Kind, parent: int): World
    requires FreeInode(w) >= 0 && FreeBlock(w) >= 0 && |w.chains| == |w.m.inodes| && cwd < |w.m.inodes|
  {
    Resize(Create(w, kind, parent), cwd, 1)
  }

  predicate Makeable(w: World, kind: Kind, parent: int) {
    && FreeInode(w) >= 0 && FreeBlock(w) >= 0 && kind != Empty && Signed(parent)
    && (kind == Directory ==> 0 <= parent < w.m.geo.inodeCount)
  }

  lemma PreparedFacts(w: World, cwd: nat, kind: Kind, parent: int)
    requires Core(w) && LiveDir(w, cwd) && Makeable(w, kind, parent)
    ensures var id, p := FreeInode(w), Prepared(w, cwd, kind, parent);
            && Core(p) && Live(p, cwd) && Ready(p, cwd) && id != cwd && id != 0
            && (forall j | Live(w, j) :: Content(p, j) == Content(w, j))
            && Content(p, id) == []
  {
    hide Linked, Filled, Counted, Tables, Content;
    CoreFits(w);
    CreateCore(w, kind, parent);
    CreateContent(w, kind, parent);
    var c := Create(w, kind, parent);
    ResizeKeeps(c, cwd, 1);
    assert Live(c, FreeInode(w));
    ReadyLive(Prepared(w, cwd, kind, parent), cwd);
  }

  /** The record `mkdir` and `touch` write. */
  function NewRecord(w: World, name: seq<byte>): Record
    requires FreeInode(w) >= 0
  {
    Record(1, Field(name), FreeInode(w))
  }

  lemma DirectoryGood(g: Geometry, cwd: nat, x: Inode, blocks: nat, c: seq<byte>, r: Record)
    requires Good(g, cwd, x, Foot(|c|, g.blockSize), c) && x.kind == Directory && x.size + 1 < TWO32
    requires SaneRecord(r, cwd, g.inodeCount) && g.inodeCount < TWO32
    requires blocks == Foot(|c + EncodeRecord(r)|, g.blockSize)
    ensures Good(g, cwd, x.(size := Wrap(x.size + 1)), blocks, c + EncodeRecord(r))
    ensures Records(c + EncodeRecord(r)) == Records(c) + [r]
  {
    RecordsAppend(c, r);
  }

  lemma MakeGood(w: World, cwd: nat, kind: Kind, parent: int, name: seq<byte>)
    requires Core(w) && AllGood(w) && LiveDir(w, cwd) && Makeable(w, kind, parent)
    requires Ready(Prepared(w, cwd, kind, parent), cwd)
    requires Pour(Prepared(w, cwd, kind, parent), cwd, EncodeRecord(NewRecord(w, name))).Done?
    ensures var r := Pour(Prepared(w, cwd, kind, parent), cwd, EncodeRecord(NewRecord(w, name))).w;
            && Core(r) && AllGood(r)
            && Content(r, cwd) == Content(w, cwd) + EncodeRecord(NewRecord(w, name))
            && Records(Content(r, cwd)) == Records(Content(w, cwd)) + [NewRecord(w, name)]
            && Content(r, FreeInode(w)) == []
            && forall j | Live(w, j) && j != cwd :: Content(r, j) == Content(w, j)
  {
    hide Linked, Filled, Counted, HasRoot, Content, Foot;
    hide Pour, Records, SaneRecords, EncodeRecord;
    var id, p, rec := FreeInode(w), Prepared(w, cwd, kind, parent), NewRecord(w, name);
    var r := Pour(p, cwd, EncodeRecord(rec)).w;
    PreparedFacts(w, cwd, kind, parent);
    PourKeeps(p, cwd, EncodeRecord(rec));
    PourTight(p, cwd, EncodeRecord(rec));
    ChainFoot(r, cwd);
    assert GoodAt(w, cwd);
    ContentBound(r, cwd);
    CoreFits(w);
    Scaled(w.m.geo.blockSize, 0, w.m.geo.blockCount);
    assert Live(p, id);
    DirectoryGood(w.m.geo, cwd, w.m.inodes[cwd], |r.chains[cwd]|, Content(w, cwd), rec);
    forall j | Live(r, j) ensures GoodAt(r, j) {
      if j == id {
        EmptyGood(w.m.geo, id, r.m.inodes[id]);
      } else {
        assert GoodAt(w, j);
      }
    }
  }

  lemma EmptyGood(g: Geometry, i: nat, x: Inode)
    requires x.size == 0 && (x.kind == Directory ==> 0 <= x.parent < g.inodeCount)
    ensures Good(g, i, x, 1, [])
  {
  }

  /** Making an object inserts it, and its record at the end of the current directory, and nothing else. */
  lemma MakeDone(w: World, cwd: nat, kind: Kind, parent: int, name: seq<byte>)
    requires Core(w) && AllGood(w) && LiveDir(w, cwd) && Makeable(w, kind, parent)
    requires Ready(Prepared(w, cwd, kind, parent), cwd)
    requires Pour(Prepared(w, cwd, kind, parent), cwd, EncodeRecord(NewRecord(w, name))).Done?
    ensures var r := Pour(Prepared(w, cwd, kind, parent), cwd, EncodeRecord(NewRecord(w, name))).w;
            && Core(r) && AllGood(r)
            && Abs(r, cwd) == WithNew(w, cwd, kind, parent, name)
  {
    hide Linked, Filled, Counted, Tables, HasRoot, Content, Foot;
    hide Pour, EncodeRecord;
    MakeGood(w, cwd, kind, parent, name);
    var r := Pour(Prepared(w, cwd, kind, parent), cwd, EncodeRecord(NewRecord(w, name))).w;
    assert Abs(r, cwd).objects == WithNew(w, cwd, kind, parent, name).objects;
  }

  lemma MakeStopped(w: World, cwd: nat, kind: Kind, parent: int, name: seq<byte>)
    requires Core(w) && AllGood(w) && LiveDir(w, cwd) && Makeable(w, kind, parent)
    requires Ready(Prepared(w, cwd, kind, parent), cwd)
    requires Pour(Prepared(w, cwd, kind, parent), cwd, EncodeRecord(NewRecord(w, name))).Stopped?
    ensures Total(WithNew(w, cwd, kind, parent, name), w.m.geo) > w.m.geo.blockCount
  {
    hide Core, AllGood, Content, Foot, Total, Pour, Prepared;
    hide EncodeRecord, Length, WithNew;
    CoreFits(w);
    PreparedFacts(w, cwd, kind, parent);
    PreparedModel(w, cwd, kind, parent, name);
    StoppedOverflows(Prepared(w, cwd, kind, parent), cwd, EncodeRecord(NewRecord(w, name)),
                     WithNew(w, cwd, kind, parent, name));
  }

  /** The prepared chains are those of the wanted model, but for the record still to be written. */
  lemma PreparedModel(w: World, cwd: nat, kind: Kind, parent: int, name: seq<byte>)
    requires Core(w) && AllGood(w) && LiveDir(w, cwd) && Makeable(w, kind, parent)
    ensures var p, m := Prepared(w, cwd, kind, parent), WithNew(w, cwd, kind, parent, name);
            && p.m.geo == w.m.geo
            && (forall j | 0 <= j < |p.chains| && j != cwd ::
                  |p.chains[j]| == if j in m.objects then Foot(Length(m.objects[j]), w.m.geo.blockSize) else 0)
            && cwd in m.objects && Length(m.objects[cwd]) == |Content(w, cwd)| + RECORD
  {
    hide Core, Content, Foot, AllGood, Prepared, WithNew, Length;
    CoreFits(w);
    PreparedShape(w, cwd, kind, parent);
    WithNewShape(w, cwd, kind, parent, name);
    var p, m := Prepared(w, cwd, kind, parent), WithNew(w, cwd, kind, parent, name);
    forall j | 0 <= j < |p.chains| && j != cwd
      ensures |p.chains[j]| == if j in m.objects then Foot(Length(m.objects[j]), w.m.geo.blockSize) else 0
    {
      if j == FreeInode(w) { EmptyFoot(w.m.geo.blockSize); } else { ObjectFoot(w, cwd, j); }
    }
  }

  lemma PreparedShape(w: World, cwd: nat, kind: Kind, parent: int)
    requires FreeInode(w) >= 0 && FreeBlock(w) >= 0 && |w.chains| == |w.m.inodes| && cwd < |w.m.inodes|
    ensures Prepared(w, cwd, kind, parent).chains == w.chains[FreeInode(w) := [FreeBlock(w)]]
    ensures Prepared(w, cwd, kind, parent).m.geo == w.m.geo
  {
  }

  lemma WithNewShape(w: World, cwd: nat, kind: Kind, parent: int, name: seq<byte>)
    requires Core(w) && AllGood(w) && LiveDir(w, cwd) && FreeInode(w) >= 0
    ensures var m := WithNew(w, cwd, kind, parent, name);
            && m.objects.Keys == Abs(w, cwd).objects.Keys + {FreeInode(w)}
            && (forall j | j in Abs(w, cwd).objects && j != cwd :: m.objects[j] == Abs(w, cwd).objects[j])
            && Length(m.objects[FreeInode(w)]) == 0
            && cwd in m.objects && Length(m.objects[cwd]) == |Content(w, cwd)| + RECORD
  {
    hide Core, Content, Foot, AllGood, Field;
    DirGood(w, cwd);
    assert |Records(Content(w, cwd))| == w.m.inodes[cwd].size;
  }

  lemma EmptyFoot(bs: nat)
    ensures Foot(0, bs) == 1
  {
  }

  // ---- when an append fails ----

  /** An append fails exactly when the blocks it would add to the chain outnumber the EMPTY ones. */
  lemma AppendFailsIff(w: World, i: nat, data: seq<byte>)
    requires Core(w) && AllGood(w) && Live(w, i) && Ready(w, i) && i < |w.chains|
    ensures Pour(w, i, data).Stopped? <==>
              Foot(|Content(w, i)| + |data|, w.m.geo.blockSize) - Foot(|Content(w, i)|, w.m.geo.blockSize)
              > w.m.geo.blockCount - Sum(UsedBit, w.m.blocks)
  {
    hide Core, Content, Pour, Foot, AllGood, Tight, FreeBlock;
    GoodLength(w, i);
    var w' := Pour(w, i, data).w;
    PourKeeps(w, i, data);
    CoreFits(w);
    CoreFits(w');
    assert w'.chains == w.chains[i := w'.chains[i]];
    SumUpdate(Len, w.chains, i, w'.chains[i]);
    CountsOf(w);
    CountsOf(w');
    if Pour(w, i, data).Done? {
      PourTight(w, i, data);
      ChainFoot(w', i);
    } else {
      FootMore(|Content(w, i)| + |data|, |w'.chains[i]|, w.m.geo.blockSize);
    }
  }

  lemma GoodLength(w: World, i: nat)
    requires Core(w) && AllGood(w) && Live(w, i) && i < |w.chains|
    ensures |w.chains[i]| == Foot(|Content(w, i)|, w.m.geo.blockSize) && Tight(w, i)
  {
    hide Linked, Filled, Counted, Content, Foot;
    assert GoodAt(w, i);
    GoodTight(w, i);
  }

  lemma CountsOf(w: World)
    requires Core(w)
    ensures Sum(UsedBit, w.m.blocks) == Sum(Len, w.chains) <= w.m.geo.blockCount
    ensures FreeBlock(w) < 0 ==> Sum(UsedBit, w.m.blocks) == w.m.geo.blockCount
  {
    CountersExact(w);
  }
}
