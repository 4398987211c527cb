/** Removal in the intended case, and exactly when that case applies. */
module Intended {
  import opened Bytes
  import opened Layout
  import opened Volume
  import opened Objects
  import opened Directory
  import opened Model
  import opened Scribbles
  import opened Refinement
  import opened Removal
  import opened Places
  import opened Outcomes

  /** The clear of record `k` lands on record `k`: 0, inside a block, or across two blocks adjacent on disk. */
  predicate OnTarget(w: World, d: nat, k: nat) {
    var R := PerBlock(w.m.geo);
    && 0 < R && d < |w.chains| && k / R < |w.chains[d]|
    && (k == 0 || k % R != 0 || w.chains[d][k / R] == w.chains[d][k / R - 1] + 1)
  }

  lemma ClearedPlace(w: World, cwd: nat, k: nat)
    requires Sound(w) && LiveDir(w, cwd) && k < |Records(Content(w, cwd))| && OnTarget(w, cwd, k)
    ensures PlaceAt(w, cwd, k) == Byte(cwd, RECORD * k)
  {
    hide Core, AllGood, Committed, Content, ClearTarget, FlagOffset, Records;
    DirGood(w, cwd);
    RecordInChain(w, cwd, k);
    ChainStart(w, cwd);
    forall p | 0 <= p < |w.chains[cwd]| ensures w.chains[cwd][p] < w.m.geo.blockCount { ChainAt(w, cwd, p); }
    ClearsItsRecord(w.m.geo, w.chains[cwd], k);
    OwnRecord(w, cwd, k);
  }

  lemma ScribbleFlag(m: Model, ks: seq<nat>, k: nat)
    requires IsDir(m, m.cwd) && k < |Here(m)|
    ensures Scribble(ClearFlags(m, ks), Byte(m.cwd, RECORD * k)) == ClearFlags(m, ks + [k])
  {
    var rs := Here(m);
    assert Unused(rs, ks)[k := Unused(rs, ks)[k].(used := 0)] == Unused(rs, ks + [k]);
  }

  lemma NoFlags(m: Model)
    requires IsDir(m, m.cwd)
    ensures ClearFlags(m, []) == m
  {
    assert Unused(Here(m), []) == Here(m);
  }

  /** Clears that are on target clear precisely the flags of their records and no other byte of any object. */
  lemma {:induction false} FlagsCleared(w: World, cwd: nat, ks: seq<nat>)
    requires Sound(w) && LiveDir(w, cwd)
    requires forall p | 0 <= p < |ks| :: ks[p] < |Records(Content(w, cwd))| && OnTarget(w, cwd, ks[p])
    ensures IsDir(Abs(w, cwd), cwd)
    ensures ScribbleAll(Abs(w, cwd), PlacesAt(w, cwd, ks)) == ClearFlags(Abs(w, cwd), ks)
  {
    hide Sound, Abs, PlaceAt, Scribble, ClearFlags, OnTarget, LiveDir, Content, Records;
    AbsDir(w, cwd);
    var m := Abs(w, cwd);
    if ks == [] {
      NoFlags(m);
    } else {
      var n := |ks| - 1;
      FlagsCleared(w, cwd, ks[..n]);
      ClearedPlace(w, cwd, ks[n]);
      ScribbleSnoc(m, PlacesAt(w, cwd, ks[..n]), PlaceAt(w, cwd, ks[n]));
      ScribbleFlag(m, ks[..n], ks[n]);
      assert ks == ks[..n] + [ks[n]];
    }
  }

  lemma PickedInRange(w: World, cwd: nat, dir: bool, name: seq<byte>)
    requires LiveDir(w, cwd)
    ensures forall p | 0 <= p < |Picked(w, cwd, dir, name)| ::
              Picked(w, cwd, dir, name)[p] < |Records(Content(w, cwd))|
  {
    hide Abs, LiveDir;
    AbsDir(w, cwd);
    AllPicked(Abs(w, cwd), Here(Abs(w, cwd)), dir, name);
  }

  lemma OnTargetReached(w: World, cwd: nat, t: nat)
    requires Sound(w) && LiveDir(w, cwd) && OnTarget(w, cwd, t)
    ensures TargetOf(w, cwd, t) != Wild
  {
    hide Core, AllGood, ClearTarget;
    RecordReached(w, cwd, t);
  }

  // ---- when a removal does what it is meant to do ----

  /** The intended state: the object is gone and the records that matched are marked unused. */
  ghost function Meant(w: World, cwd: nat, dir: bool, name: seq<byte>): Model
    requires LiveDir(w, cwd) && TargetInode(w, cwd, dir, name) >= 0
  {
    Drop(ClearFlags(Abs(w, cwd), Picked(w, cwd, dir, name)), TargetInode(w, cwd, dir, name))
  }

  /** The bytes a removal sets to zero; `rm` clears the record numbered like the inode too. */
  ghost function BytesHit(w: World, cwd: nat, dir: bool, name: seq<byte>): seq<Place>
    requires LiveDir(w, cwd) && TargetInode(w, cwd, dir, name) >= 0
  {
    PlacesAt(w, cwd, Indices(w, cwd, dir, name))
  }

  ghost function Indices(w: World, cwd: nat, dir: bool, name: seq<byte>): seq<nat>
    requires LiveDir(w, cwd) && TargetInode(w, cwd, dir, name) >= 0
  {
    var t: nat := TargetInode(w, cwd, dir, name);
    Picked(w, cwd, dir, name) + if dir then [] else [t]
  }

  /** Besides removing the object these bytes mark its records unused, and do nothing else. */
  ghost predicate NoMoreThanMeant(w: World, cwd: nat, dir: bool, name: seq<byte>)
    requires LiveDir(w, cwd) && TargetInode(w, cwd, dir, name) >= 0
  {
    ShowsAsMarks(Abs(w, cwd), Picked(w, cwd, dir, name), BytesHit(w, cwd, dir, name), TargetInode(w, cwd, dir, name))
  }

  lemma MeantIff(w: World, cwd: nat, dir: bool, name: seq<byte>)
    requires Sound(w) && LiveDir(w, cwd) && TargetInode(w, cwd, dir, name) >= 0
    ensures var left := Drop(ScribbleAll(Abs(w, cwd), BytesHit(w, cwd, dir, name)), TargetInode(w, cwd, dir, name));
            left == Meant(w, cwd, dir, name) <==> NoMoreThanMeant(w, cwd, dir, name)
  {
    hide Sound, Abs, LiveDir, PlacesAt, TargetInode, Picked, ShowsAsMarks, Drop, ScribbleAll, ClearFlags;
    AbsDir(w, cwd);
    TargetIs(w, cwd, dir, name);
    AsMeantIff(Abs(w, cwd), Picked(w, cwd, dir, name), BytesHit(w, cwd, dir, name), TargetInode(w, cwd, dir, name));
  }

  lemma TargetIs(w: World, cwd: nat, dir: bool, name: seq<byte>)
    requires Sound(w) && LiveDir(w, cwd) && TargetInode(w, cwd, dir, name) >= 0
    ensures TargetInode(w, cwd, dir, name) != cwd
  {
    hide Sound;
    TargetFound(w, cwd, TargetInode(w, cwd, dir, name), dir, name);
  }

  /** `rmdir` reaches the intended state exactly when every byte it hits is harmless and every record that matched was
      marked unused or is hit. */
  lemma RmdirAsMeantIff(w: World, cwd: nat, name: seq<byte>)
    requires Sound(w) && LiveDir(w, cwd) && TargetInode(w, cwd, true, name) >= 0
    ensures RmdirEffect(w, cwd, name) == (Meant(w, cwd, true, name), Ok) <==> NoMoreThanMeant(w, cwd, true, name)
  {
    hide Sound, Abs, LiveDir, PlacesAt, TargetInode, Picked, NoMoreThanMeant, Drop, ScribbleAll, Meant;
    MeantIff(w, cwd, true, name);
    assert Indices(w, cwd, true, name) == Picked(w, cwd, true, name);
  }

  /** The same for `rm`, whose second clear must also stay in the block table. */
  lemma RmAsMeantIff(w: World, cwd: nat, name: seq<byte>)
    requires Sound(w) && LiveDir(w, cwd) && TargetInode(w, cwd, false, name) >= 0
    ensures RmEffect(w, cwd, name) == (Meant(w, cwd, false, name), Ok) <==>
              TargetOf(w, cwd, TargetInode(w, cwd, false, name)) != Wild && NoMoreThanMeant(w, cwd, false, name)
  {
    hide Sound, Abs, LiveDir, PlacesAt, TargetInode, Picked, NoMoreThanMeant, Drop, ScribbleAll, Meant, TargetOf;
    MeantIff(w, cwd, false, name);
  }

  // ---- in terms a caller can look up before the call ----

  /** The bytes hit, each read off the index, the chain and the number of records. */
  ghost function Spots(w: World, d: nat, js: seq<nat>): seq<Place>
    requires d < |w.chains| && 0 < PerBlock(w.m.geo)
  {
    seq(|js|, n requires 0 <= n < |js| => ExtraPlace(w, d, js[n]))
  }

  lemma {:induction false} SpotsExact(w: World, d: nat, js: seq<nat>)
    requires Core(w) && LiveDir(w, d) && |Content(w, d)| % RECORD == 0
    requires d < |w.chains| && 0 < PerBlock(w.m.geo)
    requires forall n | 0 <= n < |js| :: TargetOf(w, d, js[n]) != Wild
    ensures PlacesAt(w, d, js) == Spots(w, d, js)
  {
    hide Core, LiveDir, Content, TargetOf, PlaceAt, ExtraPlace, PerBlock;
    if js != [] {
      var n := |js| - 1;
      SpotsExact(w, d, js[..n]);
      ExtraPlaceExact(w, d, js[n]);
      assert Spots(w, d, js) == Spots(w, d, js[..n]) + [ExtraPlace(w, d, js[n])];
    }
  }

  /** The last index `rm` can walk to without leaving the block table. */
  function LastIndex(w: World, d: nat): nat
    requires d < |w.chains|
  {
    (|w.chains[d]| + 1) * PerBlock(w.m.geo)
  }

  lemma IndicesInTable(w: World, cwd: nat, dir: bool, name: seq<byte>)
    requires Sound(w) && LiveDir(w, cwd) && TargetInode(w, cwd, dir, name) >= 0
    ensures cwd < |w.chains| && 0 < PerBlock(w.m.geo)
    ensures dir || TargetInode(w, cwd, dir, name) <= LastIndex(w, cwd) <==>
            forall n | 0 <= n < |Indices(w, cwd, dir, name)| :: TargetOf(w, cwd, Indices(w, cwd, dir, name)[n]) != Wild
  {
    hide Core, AllGood, Committed, Abs, Content, Records, TargetInode, Picked, ClearTarget, PerBlock;
    var js, ks := Indices(w, cwd, dir, name), Picked(w, cwd, dir, name);
    ChainInTable(w, cwd);
    PickedInRange(w, cwd, dir, name);
    forall n | 0 <= n < |ks| ensures TargetOf(w, cwd, js[n]) != Wild {
      assert js[n] == ks[n];
      RecordInChain(w, cwd, ks[n]);
      RecordReached(w, cwd, ks[n]);
    }
    if !dir {
      assert js[|ks|] == TargetInode(w, cwd, dir, name);
      WildIff(w.m.geo, w.chains[cwd], TargetInode(w, cwd, dir, name));
    }
  }

  lemma BytesAreSpots(w: World, cwd: nat, dir: bool, name: seq<byte>)
    requires Sound(w) && LiveDir(w, cwd) && TargetInode(w, cwd, dir, name) >= 0 && cwd < |w.chains|
    requires 0 < PerBlock(w.m.geo) && (dir || TargetInode(w, cwd, dir, name) <= LastIndex(w, cwd))
    ensures BytesHit(w, cwd, dir, name) == Spots(w, cwd, Indices(w, cwd, dir, name))
  {
    hide Core, AllGood, Committed, Abs, Content, Records, TargetInode, Picked, TargetOf, PerBlock, Indices, LastIndex;
    IndicesInTable(w, cwd, dir, name);
    DirGood(w, cwd);
    SpotsExact(w, cwd, Indices(w, cwd, dir, name));
  }

  /** The exact state `rmdir` leaves. */
  lemma RmdirExactly(w: World, cwd: nat, name: seq<byte>)
    requires Sound(w) && LiveDir(w, cwd) && TargetInode(w, cwd, true, name) >= 0
    ensures cwd < |w.chains| && 0 < PerBlock(w.m.geo)
    ensures RmdirEffect(w, cwd, name) ==
            (Drop(ScribbleAll(Abs(w, cwd), Spots(w, cwd, Picked(w, cwd, true, name))), TargetInode(w, cwd, true, name)), Ok)
  {
    hide Sound, Abs, LiveDir, PlacesAt, TargetInode, Picked, Drop, ScribbleAll, Spots, PerBlock;
    IndicesInTable(w, cwd, true, name);
    BytesAreSpots(w, cwd, true, name);
    assert Indices(w, cwd, true, name) == Picked(w, cwd, true, name);
  }

  /** The exact state `rm` leaves whenever it stays in the block table. */
  lemma RmExactly(w: World, cwd: nat, name: seq<byte>)
    requires Sound(w) && LiveDir(w, cwd) && cwd < |w.chains| && 0 < PerBlock(w.m.geo)
    requires 0 <= TargetInode(w, cwd, false, name) <= LastIndex(w, cwd)
    ensures RmEffect(w, cwd, name) ==
            var t: nat := TargetInode(w, cwd, false, name);
            (Drop(ScribbleAll(Abs(w, cwd), Spots(w, cwd, Picked(w, cwd, false, name) + [t])), t), Ok)
  {
    hide Sound, Abs, LiveDir, PlacesAt, TargetInode, Picked, Drop, ScribbleAll, Spots, PerBlock, LastIndex, TargetOf;
    IndicesInTable(w, cwd, false, name);
    BytesAreSpots(w, cwd, false, name);
    LastIsTarget(w, cwd, name);
  }

  lemma LastIsTarget(w: World, cwd: nat, name: seq<byte>)
    requires LiveDir(w, cwd) && TargetInode(w, cwd, false, name) >= 0
    ensures var js := Indices(w, cwd, false, name); js != [] && js[|js| - 1] == TargetInode(w, cwd, false, name)
  {
    hide TargetInode, Picked;
  }

  lemma RmdirAsMeantChecked(w: World, cwd: nat, name: seq<byte>)
    requires Sound(w) && LiveDir(w, cwd) && TargetInode(w, cwd, true, name) >= 0
    ensures cwd < |w.chains| && 0 < PerBlock(w.m.geo)
    ensures var t, ks := TargetInode(w, cwd, true, name), Picked(w, cwd, true, name);
            RmdirEffect(w, cwd, name) == (Meant(w, cwd, true, name), Ok) <==>
              ShowsAsMarks(Abs(w, cwd), ks, Spots(w, cwd, ks), t)
  {
    hide Sound, Abs, LiveDir, PlacesAt, TargetInode, Picked, Spots, PerBlock, ShowsAsMarks, RmdirEffect, Meant;
    RmdirAsMeantIff(w, cwd, name);
    IndicesInTable(w, cwd, true, name);
    BytesAreSpots(w, cwd, true, name);
    assert Indices(w, cwd, true, name) == Picked(w, cwd, true, name);
  }

  lemma RmAsMeantChecked(w: World, cwd: nat, name: seq<byte>)
    requires Sound(w) && LiveDir(w, cwd) && TargetInode(w, cwd, false, name) >= 0
    ensures cwd < |w.chains| && 0 < PerBlock(w.m.geo)
    ensures var t: nat, ks := TargetInode(w, cwd, false, name), Picked(w, cwd, false, name);
            RmEffect(w, cwd, name) == (Meant(w, cwd, false, name), Ok) <==>
              t <= LastIndex(w, cwd) && ShowsAsMarks(Abs(w, cwd), ks, Spots(w, cwd, ks + [t]), t)
  {
    hide Sound, Abs, LiveDir, PlacesAt, TargetInode, Picked, Spots, PerBlock, ShowsAsMarks, RmEffect, Meant;
    hide TargetOf, LastIndex;
    RmAsMeantIff(w, cwd, name);
    IndicesInTable(w, cwd, false, name);
    LastIsTarget(w, cwd, name);
    AllButLast(w, cwd, name);
    if TargetInode(w, cwd, false, name) <= LastIndex(w, cwd) { BytesAreSpots(w, cwd, false, name); }
  }

  /** Only the second clear of `rm` can leave the block table. */
  lemma AllButLast(w: World, cwd: nat, name: seq<byte>)
    requires Sound(w) && LiveDir(w, cwd) && TargetInode(w, cwd, false, name) >= 0 && cwd < |w.chains|
    ensures TargetOf(w, cwd, TargetInode(w, cwd, false, name)) != Wild <==>
            TargetInode(w, cwd, false, name) <= LastIndex(w, cwd)
  {
    hide Core, AllGood, Committed, Abs, TargetInode, ClearTarget, PerBlock;
    ChainInTable(w, cwd);
    WildIff(w.m.geo, w.chains[cwd], TargetInode(w, cwd, false, name));
  }

  // ---- what the second clear of `rm` adds ----

  /** The state `rm` would leave without its second clear. */
  ghost function RmOnce(w: World, cwd: nat, name: seq<byte>): Model
    requires LiveDir(w, cwd) && TargetInode(w, cwd, false, name) >= 0
  {
    Drop(ScribbleAll(Abs(w, cwd), PlacesAt(w, cwd, Picked(w, cwd, false, name))), TargetInode(w, cwd, false, name))
  }

  /** It makes no difference exactly when it stays in the block table and is harmless behind the others. */
  lemma SecondClearIff(w: World, cwd: nat, name: seq<byte>)
    requires LiveDir(w, cwd) && TargetInode(w, cwd, false, name) >= 0
    ensures var t := TargetInode(w, cwd, false, name);
            RmEffect(w, cwd, name) == (RmOnce(w, cwd, name), Ok) <==>
              TargetOf(w, cwd, t) != Wild &&
              Harmless(ScribbleAll(Abs(w, cwd), PlacesAt(w, cwd, Picked(w, cwd, false, name))), PlaceAt(w, cwd, t), t)
  {
    hide Abs, LiveDir, PlaceAt, Scribble, TargetOf, Drop, TargetInode, Picked, Harmless, ScribbleAll;
    var t: nat, ks := TargetInode(w, cwd, false, name), Picked(w, cwd, false, name);
    var m, ps := Abs(w, cwd), PlacesAt(w, cwd, ks);
    MorePlaces(w, cwd, ks, t);
    ScribbleSnoc(m, ps, PlaceAt(w, cwd, t));
    DropScribble(ScribbleAll(m, ps), PlaceAt(w, cwd, t), t);
  }

  lemma MorePlaces(w: World, d: nat, ks: seq<nat>, k: nat)
    ensures PlacesAt(w, d, ks + [k]) == PlacesAt(w, d, ks) + [PlaceAt(w, d, k)]
  {
    assert (ks + [k])[..|ks|] == ks;
  }

  /** A number at or behind the record count, inside the chain and off the boundaries, hits nothing. */
  lemma RmBehindRecords(w: World, cwd: nat, name: seq<byte>)
    requires Sound(w) && LiveDir(w, cwd) && cwd < |w.chains| && 0 < PerBlock(w.m.geo)
    requires var t := TargetInode(w, cwd, false, name);
             |Records(Content(w, cwd))| <= t < |w.chains[cwd]| * PerBlock(w.m.geo) && t % PerBlock(w.m.geo) != 0
    ensures RmEffect(w, cwd, name) == (RmOnce(w, cwd, name), Ok)
  {
    hide Core, AllGood, Committed, Abs, Content, Records, TargetInode, Picked, RmEffect, RmOnce, PerBlock;
    hide ScribbleAll, PlacesAt, PlaceAt, TargetOf;
    SecondClearIff(w, cwd, name);
    var t, R, n := TargetInode(w, cwd, false, name), PerBlock(w.m.geo), |w.chains[cwd]|;
    QuotientBelow(t, R, n);
    RecordReached(w, cwd, t);
    DirGood(w, cwd);
    OwnPlace(w, cwd, t);
  }

  /** A number below the record count whose clear is on target makes no difference exactly when the record of that
      number was marked unused, or is hit by a clear before it. */
  lemma RmAmongRecords(w: World, cwd: nat, name: seq<byte>)
    requires Sound(w) && LiveDir(w, cwd)
    requires var t := TargetInode(w, cwd, false, name); 0 <= t < |Records(Content(w, cwd))| && OnTarget(w, cwd, t)
    ensures var t := TargetInode(w, cwd, false, name);
            RmEffect(w, cwd, name) == (RmOnce(w, cwd, name), Ok) <==>
              Records(Content(w, cwd))[t].used == 0 ||
              HitBy(PlacesAt(w, cwd, Picked(w, cwd, false, name)), cwd, t)
  {
    hide Core, AllGood, Committed, Abs, OnTarget, Content, Records, PlaceAt, TargetOf;
    hide TargetInode, Picked, RmEffect, RmOnce, PlacesAt, ScribbleAll, Harmless, HitBy;
    SecondClearIff(w, cwd, name);
    var t := TargetInode(w, cwd, false, name);
    OnTargetReached(w, cwd, t);
    ClearedPlace(w, cwd, t);
    AbsDir(w, cwd);
    TargetIs(w, cwd, false, name);
    FlagHarmless(Abs(w, cwd), PlacesAt(w, cwd, Picked(w, cwd, false, name)), t, t);
  }

  // ---- the case in which every record that matched is cleared on target ----

  ghost predicate PicksOnTarget(w: World, cwd: nat, dir: bool, name: seq<byte>)
    requires LiveDir(w, cwd)
  {
    forall p | 0 <= p < |Picked(w, cwd, dir, name)| :: OnTarget(w, cwd, Picked(w, cwd, dir, name)[p])
  }

  lemma OnTargetMarks(w: World, cwd: nat, dir: bool, name: seq<byte>)
    requires Sound(w) && LiveDir(w, cwd) && PicksOnTarget(w, cwd, dir, name)
    ensures ScribbleAll(Abs(w, cwd), PlacesAt(w, cwd, Picked(w, cwd, dir, name)))
         == ClearFlags(Abs(w, cwd), Picked(w, cwd, dir, name))
  {
    hide Sound, Abs, PlacesAt, ScribbleAll, ClearFlags, OnTarget, LiveDir, Content, Records, Picked;
    PickedInRange(w, cwd, dir, name);
    FlagsCleared(w, cwd, Picked(w, cwd, dir, name));
  }

  /** Then `rmdir` is as meant. */
  lemma RmdirIntended(w: World, cwd: nat, name: seq<byte>)
    requires Sound(w) && LiveDir(w, cwd) && TargetInode(w, cwd, true, name) >= 0 && PicksOnTarget(w, cwd, true, name)
    ensures RmdirEffect(w, cwd, name) == (Meant(w, cwd, true, name), Ok)
  {
    hide Sound, Abs, PlacesAt, ScribbleAll, ClearFlags, LiveDir, Drop, TargetInode, Picked, PicksOnTarget;
    OnTargetMarks(w, cwd, true, name);
  }

  /** And `rm` is as meant exactly when its second clear stays in the block table and is harmless. */
  lemma RmIntendedIff(w: World, cwd: nat, name: seq<byte>)
    requires Sound(w) && LiveDir(w, cwd) && TargetInode(w, cwd, false, name) >= 0 && PicksOnTarget(w, cwd, false, name)
    ensures var t, v := TargetInode(w, cwd, false, name), ClearFlags(Abs(w, cwd), Picked(w, cwd, false, name));
            RmEffect(w, cwd, name) == (Meant(w, cwd, false, name), Ok) <==>
              TargetOf(w, cwd, t) != Wild && Harmless(v, PlaceAt(w, cwd, t), t)
  {
    hide Sound, Abs, PlacesAt, PlaceAt, ScribbleAll, ClearFlags, LiveDir, Drop, TargetInode, Picked, PicksOnTarget;
    hide Harmless, TargetOf, RmEffect;
    OnTargetMarks(w, cwd, false, name);
    SecondClearIff(w, cwd, name);
  }

  // ---- out of bounds ----

  /** `rm` looks up block number 2^32 - 1 exactly when the inode's number exceeds the records that the directory's
      blocks, and one block more, could hold. */
  lemma RmOutOfBounds(w: World, cwd: nat, name: seq<byte>)
    requires Sound(w) && LiveDir(w, cwd) && cwd < |w.chains| && TargetInode(w, cwd, false, name) >= 0
    ensures RmEffect(w, cwd, name).1 == OutOfBounds <==>
              TargetInode(w, cwd, false, name) > (|w.chains[cwd]| + 1) * PerBlock(w.m.geo)
    ensures RmEffect(w, cwd, name).1 == OutOfBounds ==>
              RmEffect(w, cwd, name).0 == ScribbleAll(Abs(w, cwd), PlacesAt(w, cwd, Picked(w, cwd, false, name)))
  {
    hide Core, AllGood, Committed, Abs, PlacesAt, ScribbleAll, TargetInode, Picked;
    ChainStart(w, cwd);
    PerBlockFits(w.m.geo);
    WildIff(w.m.geo, w.chains[cwd], TargetInode(w, cwd, false, name));
  }

  lemma WildIff(g: Geometry, c: seq<nat>, index: nat)
    requires 0 < PerBlock(g)
    ensures ClearTarget(g, c, index).Wild? <==> index > (|c| + 1) * PerBlock(g)
  {
    hide BodyOffset;
    var R, n, h := PerBlock(g), |c|, Hops(index, PerBlock(g));
    HopsExact(index, R);
    if h > n {
      Scaled(R, n + 1, h);
      assert R * (n + 1) == (n + 1) * R && R * h == h * R;
    } else {
      Scaled(R, h + 1, n + 1);
      assert R * (n + 1) == (n + 1) * R && R * (h + 1) == h * R + R;
    }
  }
}
