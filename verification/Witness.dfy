/** A volume on which removing one file damages another: the state after `touch a`, `touch b`, `write a` with the text
    "x", where each block holds one record and the root directory lies in blocks 0 and 3. */
module Witness {
  import opened Bytes
  import opened Sums
  import opened Layout
  import opened Metadata
  import opened Volume
  import opened Objects
  import opened Directory
  import opened Model
  import opened Refinement
  import opened Removal
  import opened Places
  import opened Outcomes
  import opened Intended

  const GEO := Geometry(3, 4, 32)
  const A := [97]
  const B := [98]
  const X := [120]

  function RecordA(): Record { Record(1, Field(A), 1) }

  function RecordB(): Record { Record(1, Field(B), 2) }

  function Inodes(): seq<Inode> {
    [Inode(2, 0, 0, Directory), Inode(1, 1, -1, File), Inode(0, 2, -1, File)]
  }

  function Blocks(): seq<Block> {
    [Block(3, 32, true), Block(-1, 1, true), Block(-1, 0, true), Block(-1, 32, true)]
  }

  function Chains(): seq<seq<nat>> { [[0, 3], [1], [2]] }

  /** Block 0 starts at 136, each body is 32 bytes long. */
  function Stored(): seq<byte> {
    Patch(Patch(Patch(Zeros(264), 136, EncodeRecord(RecordA())), 168, X), 232, EncodeRecord(RecordB()))
  }

  function Uncommitted(): World {
    World(Meta(GEO, 2, 3, Inodes(), Blocks()), Stored(), Chains(),
          map[0 := Slot(0, 0), 3 := Slot(0, 1), 1 := Slot(1, 0), 2 := Slot(2, 0)])
  }

  function Volume2(raw: seq<byte>): World
    requires |raw| == 20
  {
    Committing(Uncommitted(), raw)
  }

  lemma Starts()
    ensures BodyStart(GEO, 0) == 136 && BodyStart(GEO, 1) == 168 && BodyStart(GEO, 2) == 200
    ensures BodyStart(GEO, 3) == 232 && BodyStart(GEO, 4) == 264 && MetaEnd(GEO) == 136
    ensures Fits(GEO) && PerBlock(GEO) == 1
  {
  }

  lemma StoredParts()
    ensures |Stored()| == 264
    ensures Slice(Stored(), 136, 32) == EncodeRecord(RecordA())
    ensures Slice(Stored(), 168, 1) == X
    ensures Slice(Stored(), 232, 32) == EncodeRecord(RecordB())
  {
    hide EncodeRecord, Slice;
    var f0 := Zeros(264);
    var f1 := Patch(f0, 136, EncodeRecord(RecordA()));
    var f2 := Patch(f1, 168, X);
    PatchSlice(f0, 136, EncodeRecord(RecordA()));
    PatchSlice(f1, 168, X);
    PatchSlice(f2, 232, EncodeRecord(RecordB()));
  }

  lemma Bodies()
    ensures var w := Uncommitted();
            && Body(w, 0) == EncodeRecord(RecordA()) && Body(w, 1) == X && Body(w, 2) == []
            && Body(w, 3) == EncodeRecord(RecordB())
  {
    hide Stored, EncodeRecord;
    Starts();
    StoredParts();
  }

  lemma Contents()
    ensures var w := Uncommitted();
            && Content(w, 0) == EncodeAll([RecordA(), RecordB()]) && Content(w, 1) == X && Content(w, 2) == []
  {
    hide Body, EncodeRecord, Field;
    var w := Uncommitted();
    Bodies();
    GatherOne(w, 0);
    GatherOne(w, 1);
    GatherOne(w, 2);
    assert [0, 3][..1] == [0];
    assert Gather(w, [0, 3]) == Gather(w, [0]) + Body(w, 3);
    assert [RecordA(), RecordB()][..1] == [RecordA()] && [RecordA()][..0] == [];
    assert EncodeAll([RecordA()]) == EncodeAll([]) + EncodeRecord(RecordA());
  }

  lemma GatherOne(w: World, b: nat)
    ensures Gather(w, [b]) == Body(w, b)
  {
    hide Body;
    assert [b][..0] == [];
  }

  lemma Counts()
    ensures Counted(Uncommitted())
  {
    var inodes, blocks, chains := Inodes(), Blocks(), Chains();
    SumOfFlags(LiveBit, inodes);
    SumOfFlags(UsedBit, blocks);
    var one, two := chains[..1], chains[..2];
    assert |one[..0]| == 0 && two[..1] == one;
    assert Sum(Len, one) == 2;
    assert Sum(Len, two) == 3;
  }

  lemma IsCore()
    ensures Core(Uncommitted())
  {
    hide Stored;
    var w := Uncommitted();
    Starts();
    StoredParts();
    Counts();
    forall i, p | 0 <= i < |w.chains| && 0 <= p < |w.chains[i]| ensures Placed(w, i, p) {}
    forall i | 0 <= i < |w.chains| ensures Rooted(w, i) {}
    forall b | b in w.owner ensures Owned(w, b) {}
    forall b | 0 <= b < |w.m.blocks| ensures FilledBlock(w, b) {}
  }

  lemma Recorded()
    ensures Records(Content(Uncommitted(), 0)) == [RecordA(), RecordB()]
    ensures |Content(Uncommitted(), 0)| == 64
  {
    hide Content, Records, EncodeAll;
    Contents();
    RecordsRoundTrip([RecordA(), RecordB()]);
  }

  lemma IsGood()
    ensures AllGood(Uncommitted())
  {
    hide Content, Records, Field, Stored, EncodeAll;
    var w := Uncommitted();
    Contents();
    Recorded();
    assert GoodAt(w, 0);
    assert GoodAt(w, 1);
    assert GoodAt(w, 2);
  }

  /** It is a sound volume. */
  lemma IsSound(raw: seq<byte>)
    requires |raw| == 20
    ensures Sound(Volume2(raw)) && LiveDir(Volume2(raw), 0)
    ensures Abs(Volume2(raw), 0) == Abs(Uncommitted(), 0)
  {
    hide Core, AllGood, Abs, Committed, Stored;
    IsCore();
    IsGood();
    CommitSound(Uncommitted(), 0, raw);
  }

  lemma Seen()
    ensures var m := Abs(Uncommitted(), 0);
            && m.cwd == 0 && m.objects.Keys == {0, 1, 2}
            && m.objects[0] == DirObj(0, [RecordA(), RecordB()])
            && m.objects[1] == FileObj(X) && m.objects[2] == FileObj([])
  {
    hide Content, Records, Field, Stored, EncodeAll;
    Contents();
    Recorded();
  }

  /** The name `b` leads to inode 2, by record 1. */
  predicate FoundIn(m: Model) {
    IsDir(m, m.cwd) && LastMatch(m, Here(m), false, B) == 2 && Picks(m, Here(m), false, B) == [1]
  }

  lemma Found()
    ensures FoundIn(Abs(Uncommitted(), 0))
  {
    hide Abs, Field;
    Seen();
    NameReadsBack(A);
    NameReadsBack(B);
    var m := Abs(Uncommitted(), 0);
    var rs := Here(m);
    assert rs[..2] == rs && rs[..1] == [RecordA()] && rs[..1][..0] == [];
    assert !Matches(m, RecordA(), false, B) && Matches(m, RecordB(), false, B);
    assert Picks(m, rs[..1], false, B) == [];
  }

  /** Any sound volume with these tables in which the user sees these objects. */
  ghost predicate Like(w: World) {
    && Sound(w) && LiveDir(w, 0) && w.m == Uncommitted().m && w.chains == Chains() && w.owner == Uncommitted().owner
    && Abs(w, 0) == Abs(Uncommitted(), 0)
  }

  /** Clearing record 1 hits the first byte of block 1, which is file `a`'s; the second clear, for inode 2, hits
      nothing. */
  lemma Hits(w: World)
    requires Like(w)
    ensures PlaceAt(w, 0, 1) == Byte(1, 0) && PlaceAt(w, 0, 2) == Nowhere && TargetOf(w, 0, 2) != Wild
  {
    hide Core, Stored, PlaceAt, ClearTarget, Abs;
    Starts();
    BoundaryPlace(w, 0, 1);
    BoundaryPlace(w, 0, 2);
    WildBound(w);
  }

  lemma WildBound(w: World)
    requires w.m.geo == GEO && |w.chains| == 3 && w.chains[0] == [0, 3]
    ensures TargetOf(w, 0, 2) != Wild
  {
    Starts();
    BeyondIsWild(GEO, [0, 3], 2);
    assert Hops(2, 1) == 1 + Hops(1, 1);
  }

  lemma SameTables(raw: seq<byte>)
    requires |raw| == 20
    ensures var w := Volume2(raw);
            w.m == Uncommitted().m && w.chains == Chains() && w.owner == Uncommitted().owner
  {
  }

  /** `rm b` leads to inode 2, drops it, and makes file 1 a zero byte. */
  ghost predicate EffectIs(w: World) {
    && LiveDir(w, 0) && TargetInode(w, 0, false, B) == 2
    && RmEffect(w, 0, B) == (Drop(Abs(w, 0).(objects := Abs(w, 0).objects[1 := FileObj([0])]), 2), Ok)
  }

  lemma Effect(w: World)
    requires Like(w)
    ensures EffectIs(w)
  {
    hide Sound, Abs, Field, PlaceAt, TargetOf, Stored, PlacesAt, ScribbleAll, LastMatch, Picks, LiveDir;
    Seen();
    Found();
    Hits(w);
    TwoPlaces(w);
    ScribbleAt(Abs(w, 0));
  }

  /** `rm b` succeeds; before it file `a` is "x", and after it file `a` is "\0" and the record of `b` is still marked
      used. */
  ghost predicate DamagedByRm(w: World) {
    && LiveDir(w, 0) && TargetInode(w, 0, false, B) == 2 && FilesAre(Abs(w, 0), X)
    && RmEffect(w, 0, B).1 == Ok && RmEffect(w, 0, B).0.objects.Keys == {0, 1}
    && FilesAre(RmEffect(w, 0, B).0, [0]) && RmEffect(w, 0, B).0 != Meant(w, 0, false, B)
  }

  predicate FilesAre(m: Model, data: seq<byte>) {
    && 0 in m.objects && m.objects[0] == DirObj(0, [RecordA(), RecordB()])
    && 1 in m.objects && m.objects[1] == FileObj(data)
  }

  lemma LikeIsDamaged(w: World)
    requires Like(w)
    ensures DamagedByRm(w)
  {
    hide Sound, Abs, Field, RmEffect, TargetInode, LiveDir, RecordA, RecordB, Meant;
    Seen();
    Effect(w);
    MeantKeeps(w);
  }

  /** `rm b` in this volume damages file `a`. */
  lemma RemovingOneFileDamagesAnother(raw: seq<byte>)
    requires |raw| == 20
    ensures Sound(Volume2(raw)) && DamagedByRm(Volume2(raw))
  {
    hide Sound, Abs, Volume2, LiveDir, DamagedByRm;
    IsSound(raw);
    SameTables(raw);
    LikeIsDamaged(Volume2(raw));
  }

  /** The intended state keeps file `a`. */
  lemma MeantKeeps(w: World)
    requires LiveDir(w, 0) && TargetInode(w, 0, false, B) == 2 && IsFile(Abs(w, 0), 1)
    ensures IsFile(Meant(w, 0, false, B), 1) && Meant(w, 0, false, B).objects[1] == Abs(w, 0).objects[1]
  {
    hide TargetInode, Picked, Abs, ClearFlags, Drop;
    AbsDir(w, 0);
    OtherStays(Abs(w, 0), Picked(w, 0, false, B), 2, 1);
  }

  lemma OtherStays(m: Model, ks: seq<nat>, t: nat, i: nat)
    requires i in m.objects && i != t && i != m.cwd
    ensures var v := Drop(ClearFlags(m, ks), t);
            i in v.objects && v.objects[i] == m.objects[i]
  {
  }

  lemma TwoPlaces(w: World)
    requires PlaceAt(w, 0, 1) == Byte(1, 0) && PlaceAt(w, 0, 2) == Nowhere
    ensures PlacesAt(w, 0, [1] + [2]) == [Byte(1, 0), Nowhere]
  {
    hide PlaceAt;
    assert ([1] + [2])[..1] == [1] && [1][..0] == [];
    assert PlacesAt(w, 0, [1]) == [Byte(1, 0)];
  }

  lemma ScribbleAt(m: Model)
    requires 1 in m.objects && m.objects[1] == FileObj(X)
    ensures ScribbleAll(m, [Byte(1, 0), Nowhere]) == m.(objects := m.objects[1 := FileObj([0])])
  {
    var none: seq<Place> := [];
    var one := none + [Byte(1, 0)];
    assert [Byte(1, 0), Nowhere] == one + [Nowhere];
    ScribbleSnoc(m, none, Byte(1, 0));
    ScribbleSnoc(m, one, Nowhere);
    assert X[0 := 0] == [0];
  }
}
