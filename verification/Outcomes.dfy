/** The effect of a whole command on a committed volume, as the model describes it. */
module Outcomes {
  import opened Bytes
  import opened Metadata
  import opened Volume
  import opened Steps
  import opened Objects
  import opened Append
  import opened Crash
  import opened Directory
  import opened Model
  import opened Refinement
  import opened Removal

  /** Opening `image` gives the committed tables of `w0` and, to the user, the same files and directories. */
  ghost predicate Recovers(w0: World, image: seq<byte>) {
    && Load(image) == Some(w0.m)
    && Sound(Reopened(w0, image))
    && Abs(Reopened(w0, image), 0) == Abs(w0, 0)
  }

  /** The bytes of all used blocks of `w` stand in the file. */
  ghost predicate Stores(w: World, f: seq<byte>) {
    |w.image| <= |f| && forall b | 0 <= b < |w.m.blocks| && w.m.blocks[b].used :: Body(Reopened(w, f), b) == Body(w, b)
  }

  /** Tables of `w` and bytes of `w` together are the state of `w`. */
  lemma StoredRecovers(w: World, f: seq<byte>)
    requires Core(w) && AllGood(w) && Stores(w, f) && Load(f) == Some(w.m)
    ensures Recovers(w, f)
  {
    hide Linked, Filled, Counted, Tables, HasRoot, Content;
    ImageFrame(w, f);
    BodiesFrame(w, Reopened(w, f));
    var w' := Reopened(w, f);
    forall i | Live(w', i) ensures GoodAt(w', i) {
      assert GoodAt(w, i);
    }
    assert Abs(w', 0).objects == Abs(w, 0).objects;
  }

  /** Before its commit a command leaves all committed bytes where they are. */
  lemma ExtendsStores(w0: World, w1: World)
    requires Sound(w0) && Extends(w0, w1)
    ensures Load(w1.image) == Some(w0.m) && Stores(w0, w1.image) && w1.m.geo == w0.m.geo
  {
    hide Linked, Filled, Counted, HasRoot, AllGood;
    ReopenRestores(w0, w1);
    forall b | 0 <= b < |w0.m.blocks| && w0.m.blocks[b].used ensures Body(Reopened(w0, w1.image), b) == Body(w0, b) {
      assert Survives(w0, w1, b);
    }
  }

  /** A command stopped before its commit leaves a file from which the last committed state is recovered. */
  lemma InterruptedRecovers(w0: World, w: World)
    requires Sound(w0) && Extends(w0, w)
    ensures Recovers(w0, w.image)
  {
    hide Core, AllGood, Stores, Extends, Load;
    ExtendsStores(w0, w);
    StoredRecovers(w0, w.image);
  }

  lemma SpaceLeft(w: World, cwd: nat)
    requires Core(w) && AllGood(w)
    ensures Total(Abs(w, cwd), w.m.geo) <= w.m.geo.blockCount
    ensures Total(Abs(w, cwd), w.m.geo) >= w.m.geo.blockCount <==> FreeBlock(w) < 0
  {
    hide Linked, Filled, Counted, Content, Total;
    TotalIsUsed(w, cwd);
    CountersExact(w);
  }

  ghost predicate CanMake(w: World, cwd: nat, kind: Kind, parent: int) {
    Core(w) && LiveDir(w, cwd) && Makeable(w, kind, parent)
  }

  /** The append `mkdir` and `touch` end with. */
  ghost function Making(w: World, cwd: nat, kind: Kind, parent: int, name: seq<byte>): Outcome {
    if CanMake(w, cwd, kind, parent) then
      PreparedFacts(w, cwd, kind, parent);
      Pour(Prepared(w, cwd, kind, parent), cwd, EncodeRecord(NewRecord(w, name)))
    else Stopped(w)
  }

  lemma MakingIs(w: World, cwd: nat, kind: Kind, parent: int, name: seq<byte>)
    requires CanMake(w, cwd, kind, parent)
    requires |w.chains| == |w.m.inodes| && Ready(Prepared(w, cwd, kind, parent), cwd)
    ensures Making(w, cwd, kind, parent, name)
         == Pour(Prepared(w, cwd, kind, parent), cwd, EncodeRecord(Record(1, Field(name), FreeInode(w))))
  {
  }

  lemma MakingGood(w: World, cwd: nat, kind: Kind, parent: int, name: seq<byte>)
    requires Core(w) && AllGood(w) && LiveDir(w, cwd) && Makeable(w, kind, parent)
    requires Making(w, cwd, kind, parent, name).Done?
    ensures var r := Making(w, cwd, kind, parent, name).w;
            && Core(r) && AllGood(r) && LiveDir(r, cwd) && r.m.geo == w.m.geo
            && Abs(r, cwd) == WithNew(w, cwd, kind, parent, name)
  {
    hide Core, Content, Pour, Total, WithNew, EncodeRecord, AllGood, Prepared;
    CoreFits(w);
    PreparedFacts(w, cwd, kind, parent);
    MakeDone(w, cwd, kind, parent, name);
    StillDir(w, cwd, kind, parent);
    PourGeometry(Prepared(w, cwd, kind, parent), cwd, EncodeRecord(NewRecord(w, name)));
  }

  lemma MakingDone(w: World, cwd: nat, kind: Kind, parent: int, name: seq<byte>, raw: seq<byte>)
    requires Sound(w) && LiveDir(w, cwd) && Makeable(w, kind, parent) && |raw| == 20
    requires Making(w, cwd, kind, parent, name).Done?
    ensures var w' := Committing(Making(w, cwd, kind, parent, name).w, raw);
            && Sound(w') && LiveDir(w', cwd)
            && Abs(w', cwd) == WithNew(w, cwd, kind, parent, name)
            && Total(Abs(w', cwd), w.m.geo) <= w.m.geo.blockCount
  {
    hide Core, Content, Making, Total, WithNew, AllGood, Committing, Abs;
    MakingGood(w, cwd, kind, parent, name);
    var r := Making(w, cwd, kind, parent, name).w;
    SpaceLeft(r, cwd);
    CommitSound(r, cwd, raw);
    CommitTables(r, raw);
  }

  lemma MakingStopped(w: World, cwd: nat, kind: Kind, parent: int, name: seq<byte>)
    requires Sound(w) && LiveDir(w, cwd) && Makeable(w, kind, parent)
    requires Making(w, cwd, kind, parent, name).Stopped?
    ensures Total(WithNew(w, cwd, kind, parent, name), w.m.geo) > w.m.geo.blockCount
    ensures Recovers(w, Making(w, cwd, kind, parent, name).w.image)
  {
    hide Core, Content, Pour, Total, WithNew, EncodeRecord, AllGood, Prepared;
    PreparedFacts(w, cwd, kind, parent);
    MakeStopped(w, cwd, kind, parent, name);
    MakeExtends(w, cwd, kind, parent, EncodeRecord(NewRecord(w, name)));
    InterruptedRecovers(w, Making(w, cwd, kind, parent, name).w);
  }

  /** The world `mkdir` and `touch` commit, and the model's verdict on the same command. */
  lemma MakeOutcome(w: World, cwd: nat, kind: Kind, parent: int, name: seq<byte>, raw: seq<byte>)
    requires Sound(w) && LiveDir(w, cwd) && Makeable(w, kind, parent) && |name| <= NAME && |raw| == 20
    ensures var r := Making(w, cwd, kind, parent, name);
            var made := Make(Abs(w, cwd), w.m.geo, NewObject(kind, parent), name);
            if r.Done? then
              var w' := Committing(r.w, raw);
              Sound(w') && LiveDir(w', cwd) && made == (Abs(w', cwd), Ok)
            else made == (Abs(w, cwd), OutOfSpace) && Recovers(w, r.w.image)
  {
    hide Core, Content, Making, Total, AllGood, Committing, Recovers;
    FreshIsFree(w, cwd);
    SpaceLeft(w, cwd);
    if Making(w, cwd, kind, parent, name).Done? {
      MakingDone(w, cwd, kind, parent, name, raw);
    } else {
      MakingStopped(w, cwd, kind, parent, name);
    }
  }

  /** The refusals of `mkdir` and `touch` are the model's. */
  lemma MakeRefused(w: World, cwd: nat, o: Object, name: seq<byte>)
    requires Sound(w) && LiveDir(w, cwd)
    requires |name| > NAME || FreeInode(w) < 0 || FreeBlock(w) < 0
    ensures Make(Abs(w, cwd), w.m.geo, o, name) ==
            (Abs(w, cwd), if |name| > NAME then NameTooLong else if FreeInode(w) < 0 then NoInodes else NoBlocks)
  {
    hide Core, Content, Total, WithNew, AllGood;
    FreshIsFree(w, cwd);
    SpaceLeft(w, cwd);
  }

  lemma StillDir(w: World, cwd: nat, kind: Kind, parent: int)
    requires Core(w) && LiveDir(w, cwd) && Makeable(w, kind, parent)
    ensures LiveDir(Prepared(w, cwd, kind, parent), cwd)
    ensures Prepared(w, cwd, kind, parent).m.geo == w.m.geo
  {
  }

  lemma CommitTables(w: World, raw: seq<byte>)
    requires |raw| == 20
    ensures Committing(w, raw).m == w.m
  {
  }

  lemma MakeExtends(w: World, cwd: nat, kind: Kind, parent: int, data: seq<byte>)
    requires Core(w) && LiveDir(w, cwd) && Makeable(w, kind, parent)
    requires Ready(Prepared(w, cwd, kind, parent), cwd)
    ensures Extends(w, Pour(Prepared(w, cwd, kind, parent), cwd, data).w)
  {
    hide Linked, Filled, Counted, Extends, Content, Pour;
    PreparedFacts(w, cwd, kind, parent);
    ExtendsSelf(w);
    CreateExtends(w, w, kind, parent);
    ResizeExtends(w, Create(w, kind, parent), cwd, 1);
    PourExtends(w, Prepared(w, cwd, kind, parent), cwd, data);
  }

  /** The same for `write`: the bytes are appended, then the size field, then the commit. */
  lemma WriteOutcome(w: World, cwd: nat, t: nat, data: seq<byte>, raw: seq<byte>)
    requires Sound(w) && LiveDir(w, cwd) && Live(w, t) && w.m.inodes[t].kind == File && |raw| == 20
    ensures Ready(w, t)
    ensures var r := Pour(w, t, data);
            var m' := Abs(w, cwd).(objects := Abs(w, cwd).objects[t := FileObj(Content(w, t) + data)]);
            if r.Done? then
              var w' := Committing(Resize(r.w, t, |data|), raw);
              Sound(w') && LiveDir(w', cwd) && m' == Abs(w', cwd) && Total(m', w.m.geo) <= w.m.geo.blockCount
            else Total(m', w.m.geo) > w.m.geo.blockCount && Recovers(w, r.w.image)
  {
    hide Core, Content, Pour, Total, AllGood, Committing;
    ReadyLive(w, t);
    var r := Pour(w, t, data);
    if r.Done? {
      WriteDone(w, cwd, t, data);
      var w1 := Resize(r.w, t, |data|);
      SpaceLeft(w1, cwd);
      CommitSound(w1, cwd, raw);
      CommitTables(w1, raw);
      PourGeometry(w, t, data);
    } else {
      WriteStopped(w, cwd, t, data);
      ExtendsSelf(w);
      PourExtends(w, w, t, data);
      InterruptedRecovers(w, r.w);
    }
  }

  lemma PourGeometry(w: World, i: nat, data: seq<byte>)
    requires Core(w) && Live(w, i) && Ready(w, i)
    ensures Pour(w, i, data).w.m.geo == w.m.geo
  {
    PourKeeps(w, i, data);
  }

  /** Killed after any number of bytes of a `write`, whether or not blocks would run out later, nothing is lost. */
  lemma KilledDuringWrite(w: World, t: nat, data: seq<byte>, k: nat)
    requires Sound(w) && Live(w, t) && k <= |data|
    ensures Ready(w, t) && Recovers(w, Pour(w, t, data[..k]).w.image)
  {
    hide Core, AllGood, Pour, Recovers;
    ReadyLive(w, t);
    ExtendsSelf(w);
    PourExtends(w, w, t, data[..k]);
    InterruptedRecovers(w, Pour(w, t, data[..k]).w);
  }

  /** The same for `mkdir` and `touch`, killed after any number of bytes of the record. */
  lemma KilledDuringMake(w: World, cwd: nat, kind: Kind, parent: int, record: seq<byte>, k: nat)
    requires Sound(w) && CanMake(w, cwd, kind, parent) && k <= |record| && |w.chains| == |w.m.inodes|
    ensures Ready(Prepared(w, cwd, kind, parent), cwd)
    ensures Recovers(w, Pour(Prepared(w, cwd, kind, parent), cwd, record[..k]).w.image)
  {
    hide Core, AllGood, Pour, Recovers, Prepared;
    PreparedFacts(w, cwd, kind, parent);
    MakeExtends(w, cwd, kind, parent, record[..k]);
    InterruptedRecovers(w, Pour(Prepared(w, cwd, kind, parent), cwd, record[..k]).w);
  }

  lemma FileFound(w: World, cwd: nat, t: nat, name: seq<byte>)
    requires LiveDir(w, cwd) && t == LastMatch(Abs(w, cwd), Here(Abs(w, cwd)), false, name)
    ensures Live(w, t) && w.m.inodes[t].kind == File && Abs(w, cwd).objects[t] == FileObj(Content(w, t))
  {
  }

  /** `write` on the file found by name: the world it commits and the model's verdict. */
  lemma WriteCommand(w: World, cwd: nat, name: seq<byte>, t: nat, data: seq<byte>, raw: seq<byte>)
    requires Sound(w) && LiveDir(w, cwd) && |raw| == 20
    requires t == LastMatch(Abs(w, cwd), Here(Abs(w, cwd)), false, name)
    ensures Live(w, t) && Ready(w, t)
    ensures var r := Pour(w, t, data);
            var written := Written(Abs(w, cwd), w.m.geo, name, data);
            if r.Done? then
              var w' := Committing(Resize(r.w, t, |data|), raw);
              Sound(w') && LiveDir(w', cwd) && written == (Abs(w', cwd), Ok)
            else written == (Abs(w, cwd), OutOfSpace) && Recovers(w, r.w.image)
  {
    hide Core, AllGood, Committed, Abs, Pour, Total, Committing, Recovers;
    FileFound(w, cwd, t, name);
    WriteOutcome(w, cwd, t, data, raw);
  }

  lemma WriteMissed(w: World, cwd: nat, name: seq<byte>, data: seq<byte>)
    requires LiveDir(w, cwd) && LastMatch(Abs(w, cwd), Here(Abs(w, cwd)), false, name) < 0
    ensures Written(Abs(w, cwd), w.m.geo, name, data) == (Abs(w, cwd), NotFound)
  {
  }

  // ---- removal ----

  /** Clearing records of the current directory keeps a committed volume committed. */
  lemma {:induction false} UnlinkOutcome(w: World, cwd: nat, ks: seq<nat>)
    requires Sound(w) && LiveDir(w, cwd)
    requires forall p | 0 <= p < |ks| :: ks[p] < |Records(Content(w, cwd))|
    ensures Sound(UnflagAll(w, cwd, ks))
    ensures Abs(UnflagAll(w, cwd, ks), cwd) == ScribbleAll(Abs(w, cwd), PlacesAt(w, cwd, ks))
  {
    hide Core, AllGood, Committed, Abs, Content, Records, Unflag;
    UnflagAllRefines(w, cwd, cwd, ks);
    if ks != [] {
      var n := |ks| - 1;
      UnlinkOutcome(w, cwd, ks[..n]);
      UnflagTables(w, cwd, ks[..n]);
      assert ks[n] < |Records(Content(w, cwd))|;
      RecordInChain(w, cwd, ks[n]);
      UnflagCommitted(UnflagAll(w, cwd, ks[..n]), cwd, ks[n]);
    }
  }

  /** Clearing, releasing and committing: the object is gone, and the bytes that were hit are zero. */
  lemma RemoveOutcome(w: World, cwd: nat, ks: seq<nat>, t: nat, raw: seq<byte>)
    requires Sound(w) && LiveDir(w, cwd) && Live(w, t) && t != 0 && t != cwd && |raw| == 20
    ensures var v := UnflagAll(w, cwd, ks);
            && Core(v) && Live(v, t) && t < |v.chains| == |v.m.inodes| && Core(Release(v, t))
    ensures var w' := Committing(Release(UnflagAll(w, cwd, ks), t), raw);
            && Sound(w') && LiveDir(w', cwd)
            && Abs(w', cwd) == Drop(ScribbleAll(Abs(w, cwd), PlacesAt(w, cwd, ks)), t)
  {
    hide Core, AllGood, Committed, Abs, Committing;
    UnflagAllRefines(w, cwd, cwd, ks);
    UnflagTables(w, cwd, ks);
    var v := UnflagAll(w, cwd, ks);
    CoreFits(v);
    ReleaseRefines(v, cwd, t);
    CommitSound(Release(v, t), cwd, raw);
    CommitTables(Release(v, t), raw);
  }

  /** The inode found by name is in use, not the root and not the current directory. */
  lemma TargetFound(w: World, cwd: nat, t: nat, dir: bool, name: seq<byte>)
    requires Sound(w) && LiveDir(w, cwd) && t == LastMatch(Abs(w, cwd), Here(Abs(w, cwd)), dir, name)
    ensures Live(w, t) && t != 0 && t != cwd
  {
    hide Core, Committed;
    DirGood(w, cwd);
    AbsDir(w, cwd);
    var rs := Here(Abs(w, cwd));
    var k :| 0 <= k < |rs| && Matches(Abs(w, cwd), rs[k], dir, name) && rs[k].inode == t;
    assert SaneRecord(rs[k], cwd, w.m.geo.inodeCount);
  }

  lemma {:induction false} NothingPicked(m: Model, rs: seq<Record>, dir: bool, name: seq<byte>)
    requires LastMatch(m, rs, dir, name) < 0
    ensures Picks(m, rs, dir, name) == []
  {
    if rs != [] {
      NothingPicked(m, rs[..|rs| - 1], dir, name);
    }
  }

  /** The inode a name in the current directory leads to, and the indices of the records that match. */
  ghost function TargetInode(w: World, cwd: nat, dir: bool, name: seq<byte>): int
    requires LiveDir(w, cwd)
  {
    LastMatch(Abs(w, cwd), Here(Abs(w, cwd)), dir, name)
  }

  ghost function Picked(w: World, cwd: nat, dir: bool, name: seq<byte>): seq<nat>
    requires LiveDir(w, cwd)
  {
    Picks(Abs(w, cwd), Here(Abs(w, cwd)), dir, name)
  }

  /** What `rmdir` does, byte for byte. */
  ghost function RmdirEffect(w: World, cwd: nat, name: seq<byte>): (Model, Reply)
    requires LiveDir(w, cwd)
  {
    var m, t, ks := Abs(w, cwd), TargetInode(w, cwd, true, name), Picked(w, cwd, true, name);
    if t < 0 then (m, NotFound)
    else (Drop(ScribbleAll(m, PlacesAt(w, cwd, ks)), t), Ok)
  }

  /** What `rm` does, byte for byte: behind the matching records it also clears the one numbered like the inode. */
  ghost function RmEffect(w: World, cwd: nat, name: seq<byte>): (Model, Reply)
    requires LiveDir(w, cwd)
  {
    var m, t, ks := Abs(w, cwd), TargetInode(w, cwd, false, name), Picked(w, cwd, false, name);
    if t < 0 then (m, NotFound)
    else if TargetOf(w, cwd, t) == Wild then (ScribbleAll(m, PlacesAt(w, cwd, ks)), OutOfBounds)
    else (Drop(ScribbleAll(m, PlacesAt(w, cwd, ks + [t])), t), Ok)
  }
}
