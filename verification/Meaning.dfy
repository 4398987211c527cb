/** What each command does to the files and directories, without the functions that compute it. */
module Meaning {
  import opened Bytes
  import opened Layout
  import opened Volume
  import opened Directory
  import opened Model
  import opened Refinement
  import opened Removal
  import opened Outcomes

  /** A record leads to an object of the wanted kind by its name; its flag plays no part. */
  lemma MatchesMeans(m: Model, r: Record, dir: bool, name: seq<byte>)
    ensures Matches(m, r, dir, name) <==>
              Text(r.name) == name && r.inode in m.objects && (m.objects[r.inode].DirObj? <==> dir)
    ensures forall u: byte :: Matches(m, r.(used := u), dir, name) == Matches(m, r, dir, name)
  {
  }

  /** `cd`: `.` stays, `..` climbs, any other name leads to the directory of the first record that matches. */
  lemma CdMeans(m: Model, name: seq<byte>)
    requires IsDir(m, m.cwd)
    ensures var rs := m.objects[m.cwd].records;
            && (name == [46] ==> Moved(m, name) == (m, Ok))
            && (name == [46, 46] && m.objects[m.cwd].parent >= 0 ==>
                  Moved(m, name) == (Model(m.objects, m.objects[m.cwd].parent), Ok))
            && (name != [46] && name != [46, 46] ==>
                  && ((forall j | 0 <= j < |rs| :: !Matches(m, rs[j], true, name)) ==> Moved(m, name) == (m, NotFound))
                  && (forall k | 0 <= k < |rs| && Matches(m, rs[k], true, name)
                                 && (forall j | 0 <= j < k :: !Matches(m, rs[j], true, name)) ::
                        Moved(m, name) == (Model(m.objects, rs[k].inode), Ok)))
  {
    hide Matches, FirstMatch;
    var rs := m.objects[m.cwd].records;
    forall k | 0 <= k < |rs| && Matches(m, rs[k], true, name) && (forall j | 0 <= j < k :: !Matches(m, rs[j], true, name))
      ensures FirstMatch(m, rs, true, name) == rs[k].inode
    {
      FirstMatchIs(m, rs, true, name, k);
    }
  }

  /** Which object a name leads to for `write`, `read`, `rm` and `rmdir`: that of the last record that matches. */
  lemma LastMeans(m: Model, dir: bool, name: seq<byte>)
    requires IsDir(m, m.cwd)
    ensures var rs, t := m.objects[m.cwd].records, LastMatch(m, Here(m), dir, name);
            && ((forall j | 0 <= j < |rs| :: !Matches(m, rs[j], dir, name)) <==> t < 0)
            && (t < 0 ==> t == -1)
            && (forall k | 0 <= k < |rs| && Matches(m, rs[k], dir, name)
                           && (forall j | k < j < |rs| :: !Matches(m, rs[j], dir, name)) :: t == rs[k].inode)
  {
    hide Matches, LastMatch;
    var rs := m.objects[m.cwd].records;
    forall k | 0 <= k < |rs| && Matches(m, rs[k], dir, name) && (forall j | k < j < |rs| :: !Matches(m, rs[j], dir, name))
      ensures LastMatch(m, rs, dir, name) == rs[k].inode
    {
      LastMatchIs(m, rs, dir, name, k);
    }
  }

  /** `read`: the bytes of the file the last matching record names, if there are fewer than 2^31. */
  lemma ReadMeans(m: Model, name: seq<byte>)
    requires IsDir(m, m.cwd)
    ensures var rs := m.objects[m.cwd].records;
            && ((forall j | 0 <= j < |rs| :: !Matches(m, rs[j], false, name)) ==> ReadReply(m, name) == NotFound)
            && (forall k | 0 <= k < |rs| && Matches(m, rs[k], false, name)
                           && (forall j | k < j < |rs| :: !Matches(m, rs[j], false, name)) ::
                  && rs[k].inode in m.objects && m.objects[rs[k].inode].FileObj?
                  && var data := m.objects[rs[k].inode].data;
                     ReadReply(m, name) == Data(if |data| < 0x8000_0000 then data else []))
  {
    LastMeans(m, false, name);
  }

  /** `write`: the text goes behind the bytes of that file, unless all objects together would then need more blocks than
      there are; nothing else changes. */
  lemma WriteMeans(m: Model, g: Geometry, name: seq<byte>, data: seq<byte>)
    requires IsDir(m, m.cwd)
    ensures var rs := m.objects[m.cwd].records;
            && ((forall j | 0 <= j < |rs| :: !Matches(m, rs[j], false, name)) ==> Written(m, g, name, data) == (m, NotFound))
            && (forall k | 0 <= k < |rs| && Matches(m, rs[k], false, name)
                           && (forall j | k < j < |rs| :: !Matches(m, rs[j], false, name)) ::
                  && rs[k].inode in m.objects && m.objects[rs[k].inode].FileObj?
                  && var m' := Model(m.objects[rs[k].inode := FileObj(m.objects[rs[k].inode].data + data)], m.cwd);
                     Written(m, g, name, data) == if Total(m', g) <= g.blockCount then (m', Ok) else (m, OutOfSpace))
  {
    hide Total;
    LastMeans(m, false, name);
  }

  /** `mkdir` and `touch`: the three refusals in their order; otherwise the object gets the least number that names none,
      and a record with flag 1 for it comes last in the current directory. */
  lemma MakeMeans(m: Model, g: Geometry, o: Object, name: seq<byte>)
    requires IsDir(m, m.cwd)
    ensures |name| > 27 ==> Make(m, g, o, name) == (m, NameTooLong)
    ensures |name| <= 27 && (forall i: nat | i < g.inodeCount :: i in m.objects) ==> Make(m, g, o, name) == (m, NoInodes)
    ensures |name| <= 27 ==>
              forall id: nat | id < g.inodeCount && id !in m.objects && (forall j: nat | j < id :: j in m.objects) ::
                var d := m.objects[m.cwd];
                var m' := Model(m.objects[id := o][m.cwd := DirObj(d.parent, d.records + [Record(1, Field(name), id)])], m.cwd);
                Make(m, g, o, name) ==
                  if Total(m, g) >= g.blockCount then (m, NoBlocks)
                  else if Total(m', g) > g.blockCount then (m, OutOfSpace) else (m', Ok)
  {
    hide Total, Field;
    forall id: nat | id < g.inodeCount && id !in m.objects && (forall j: nat | j < id :: j in m.objects)
      ensures Fresh(m, 0, g.inodeCount) == id
    {
      var r := Fresh(m, 0, g.inodeCount);
      assert r >= 0 && r <= id;
    }
  }

  /** The records `rmdir` and `rm` pick are all that match, once and in order. */
  lemma PicksMean(m: Model, rs: seq<Record>, dir: bool, name: seq<byte>)
    ensures var ks := Picks(m, rs, dir, name);
            && (forall k :: k in ks <==> 0 <= k < |rs| && Matches(m, rs[k], dir, name))
            && (forall p, q | 0 <= p < q < |ks| :: ks[p] < ks[q])
  {
    hide Matches, Picks;
    PicksAscend(m, rs, dir, name);
  }

  /** Their target is the inode of the last record that matches; without one nothing happens. */
  lemma RemovalMeans(w: World, cwd: nat, dir: bool, name: seq<byte>)
    requires LiveDir(w, cwd)
    ensures IsDir(Abs(w, cwd), cwd)
    ensures var m := Abs(w, cwd);
            var rs := m.objects[cwd].records;
            && Picked(w, cwd, dir, name) == Picks(m, rs, dir, name)
            && (forall k | 0 <= k < |rs| && Matches(m, rs[k], dir, name)
                           && (forall j | k < j < |rs| :: !Matches(m, rs[j], dir, name)) ::
                  TargetInode(w, cwd, dir, name) == rs[k].inode)
            && ((forall j | 0 <= j < |rs| :: !Matches(m, rs[j], dir, name)) ==>
                  if dir then RmdirEffect(w, cwd, name) == (m, NotFound) else RmEffect(w, cwd, name) == (m, NotFound))
  {
    hide Abs, Matches, LastMatch, Picks, LiveDir, PlacesAt, ScribbleAll, TargetOf;
    AbsDir(w, cwd);
    LastMeans(Abs(w, cwd), dir, name);
  }

  /** A removal that is not answered with NotFound or left out of bounds removes exactly its target. */
  lemma RemovalRemoves(w: World, cwd: nat, dir: bool, name: seq<byte>)
    requires LiveDir(w, cwd) && TargetInode(w, cwd, dir, name) >= 0
    ensures var t := TargetInode(w, cwd, dir, name);
            && (dir ==> RmdirEffect(w, cwd, name).1 == Ok
                        && RmdirEffect(w, cwd, name).0.objects.Keys == Abs(w, cwd).objects.Keys - {t})
            && (!dir && RmEffect(w, cwd, name).1 != OutOfBounds ==>
                  RmEffect(w, cwd, name).1 == Ok
                  && RmEffect(w, cwd, name).0.objects.Keys == Abs(w, cwd).objects.Keys - {t})
  {
    hide Abs, LastMatch, Picks, LiveDir, PlacesAt, TargetOf;
    var m, t, ks := Abs(w, cwd), TargetInode(w, cwd, dir, name), Picked(w, cwd, dir, name);
    KeysStay(m, PlacesAt(w, cwd, ks));
    if !dir { KeysStay(m, PlacesAt(w, cwd, ks + [t])); }
  }

  lemma {:induction false} KeysStay(m: Model, ps: seq<Place>)
    ensures ScribbleAll(m, ps).objects.Keys == m.objects.Keys
  {
    if ps != [] { KeysStay(m, ps[..|ps| - 1]); }
  }
}
