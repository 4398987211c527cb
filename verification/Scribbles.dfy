/** What a list of zeros does to the objects, and when a removal with such a list is as it is meant. */
module Scribbles {
  import opened Bytes
  import opened Layout
  import opened Directory
  import opened Model

  /** A zero at `p` is the flag of record `k` of directory `i`. */
  predicate Hits(p: Place, i: nat, k: nat) {
    p.Byte? && p.inode == i && p.pos / RECORD == k
  }

  predicate HitBy(ps: seq<Place>, i: nat, k: nat) {
    exists n :: 0 <= n < |ps| && Hits(ps[n], i, k)
  }

  /** Object number `i` after zeros at all of `ps`. */
  function Erased(o: Object, ps: seq<Place>, i: nat): Object {
    match o
    case FileObj(data) =>
      FileObj(seq(|data|, j requires 0 <= j < |data| => if Byte(i, j) in ps then 0 else data[j]))
    case DirObj(parent, rs) =>
      DirObj(parent, seq(|rs|, k requires 0 <= k < |rs| => if HitBy(ps, i, k) then rs[k].(used := 0) else rs[k]))
  }

  lemma ErasedNone(o: Object, i: nat)
    ensures Erased(o, [], i) == o
  {
    match o
    case FileObj(data) => assert Erased(o, [], i).data == data;
    case DirObj(_, rs) => assert Erased(o, [], i).records == rs;
  }

  lemma ErasedMore(o: Object, ps: seq<Place>, p: Place, i: nat)
    ensures Erased(o, ps + [p], i) ==
            match Erased(o, ps, i)
            case FileObj(data) => if p.Byte? && p.inode == i && p.pos < |data| then FileObj(data[p.pos := 0]) else FileObj(data)
            case DirObj(parent, rs) =>
              if p.Byte? && p.inode == i && p.pos / RECORD < |rs|
              then DirObj(parent, rs[p.pos / RECORD := rs[p.pos / RECORD].(used := 0)]) else DirObj(parent, rs)
  {
    match o
    case FileObj(data) =>
      var d := Erased(o, ps, i).data;
      var d' := if p.Byte? && p.inode == i && p.pos < |data| then d[p.pos := 0] else d;
      assert Erased(o, ps + [p], i).data == d';
    case DirObj(_, rs) =>
      HitMore(ps, p);
      var r := Erased(o, ps, i).records;
      var k := if p.Byte? then p.pos / RECORD else 0;
      var r' := if p.Byte? && p.inode == i && k < |rs| then r[k := r[k].(used := 0)] else r;
      assert Erased(o, ps + [p], i).records == r';
  }

  lemma HitMore(ps: seq<Place>, p: Place)
    ensures forall i: nat, k: nat :: HitBy(ps + [p], i, k) <==> HitBy(ps, i, k) || Hits(p, i, k)
  {
    forall i: nat, k: nat ensures HitBy(ps + [p], i, k) <==> HitBy(ps, i, k) || Hits(p, i, k) {
      if n :| 0 <= n < |ps| && Hits(ps[n], i, k) { assert Hits((ps + [p])[n], i, k); }
      if Hits(p, i, k) { assert Hits((ps + [p])[|ps|], i, k); }
    }
  }

  /** Object by object, whatever the order of the zeros. */
  lemma {:induction false} ScribbledObjects(m: Model, ps: seq<Place>)
    ensures var s := ScribbleAll(m, ps);
            && s.cwd == m.cwd && s.objects.Keys == m.objects.Keys
            && forall i | i in m.objects :: s.objects[i] == Erased(m.objects[i], ps, i)
  {
    hide Erased;
    var s := ScribbleAll(m, ps);
    if ps == [] {
      forall i | i in m.objects ensures s.objects[i] == Erased(m.objects[i], ps, i) { ErasedNone(m.objects[i], i); }
    } else {
      var n := |ps| - 1;
      ScribbledObjects(m, ps[..n]);
      assert ps == ps[..n] + [ps[n]];
      forall i | i in m.objects ensures s.objects[i] == Erased(m.objects[i], ps, i) {
        ErasedMore(m.objects[i], ps[..n], ps[n], i);
      }
    }
  }

  // ---- when a removal does what it is meant to do ----

  /** Once `t` is gone, a zero at `p` shows nowhere: it hits nothing, or a byte of `t`, or one that is zero. */
  predicate Harmless(m: Model, p: Place, t: nat) {
    p.Nowhere? || p.inode == t || p.inode !in m.objects ||
    match m.objects[p.inode]
    case FileObj(data) => p.pos < |data| ==> data[p.pos] == 0
    case DirObj(_, records) => p.pos / RECORD < |records| ==> records[p.pos / RECORD].used == 0
  }

  predicate AllHarmless(m: Model, ps: seq<Place>, t: nat) {
    forall n | 0 <= n < |ps| :: Harmless(m, ps[n], t)
  }

  /** Every record of `ks` was marked unused before, or is marked by one of the zeros. */
  predicate AllMarked(m: Model, ks: seq<nat>, ps: seq<Place>) {
    IsDir(m, m.cwd) ==>
      forall n | 0 <= n < |ks| && ks[n] < |Here(m)| :: Here(m)[ks[n]].used == 0 || HitBy(ps, m.cwd, ks[n])
  }

  /** Behind the removal of `t`, the zeros show as the marks on the records `ks` and as nothing else. */
  predicate ShowsAsMarks(m: Model, ks: seq<nat>, ps: seq<Place>, t: nat) {
    AllHarmless(ClearFlags(m, ks), ps, t) && AllMarked(m, ks, ps)
  }

  lemma FileKept(data: seq<byte>, ps: seq<Place>, i: nat)
    ensures Erased(FileObj(data), ps, i) == FileObj(data) <==>
            forall n | 0 <= n < |ps| && ps[n].Byte? && ps[n].inode == i && ps[n].pos < |data| :: data[ps[n].pos] == 0
  {
    var d := Erased(FileObj(data), ps, i).data;
    if d == data {
      forall n | 0 <= n < |ps| && ps[n].Byte? && ps[n].inode == i && ps[n].pos < |data|
        ensures data[ps[n].pos] == 0
      {
        assert Byte(i, ps[n].pos) in ps;
        assert d[ps[n].pos] == 0;
      }
    } else {
      var j :| 0 <= j < |data| && d[j] != data[j];
      var n :| 0 <= n < |ps| && ps[n] == Byte(i, j);
    }
  }

  /** The zeros make of the records exactly what marking `ks` makes of them. */
  lemma RecordsMarked(parent: int, rs: seq<Record>, ps: seq<Place>, i: nat, ks: seq<nat>)
    ensures Erased(DirObj(parent, rs), ps, i) == DirObj(parent, Unused(rs, ks)) <==>
            && (forall n | 0 <= n < |ps| && ps[n].Byte? && ps[n].inode == i && ps[n].pos / RECORD < |rs| ::
                  Unused(rs, ks)[ps[n].pos / RECORD].used == 0)
            && (forall n | 0 <= n < |ks| && ks[n] < |rs| :: rs[ks[n]].used == 0 || HitBy(ps, i, ks[n]))
  {
    var e, u := Erased(DirObj(parent, rs), ps, i).records, Unused(rs, ks);
    if e == u {
      forall n | 0 <= n < |ps| && ps[n].Byte? && ps[n].inode == i && ps[n].pos / RECORD < |rs|
        ensures u[ps[n].pos / RECORD].used == 0
      {
        assert Hits(ps[n], i, ps[n].pos / RECORD);
        assert e[ps[n].pos / RECORD].used == 0;
      }
      forall n | 0 <= n < |ks| && ks[n] < |rs| ensures rs[ks[n]].used == 0 || HitBy(ps, i, ks[n]) {
        assert e[ks[n]] == u[ks[n]];
      }
    } else {
      var k :| 0 <= k < |rs| && e[k] != u[k];
      if HitBy(ps, i, k) {
        var n :| 0 <= n < |ps| && Hits(ps[n], i, k);
      } else {
        assert k in ks;
      }
    }
  }

  lemma NoneUnused(rs: seq<Record>)
    ensures Unused(rs, []) == rs
  {
  }

  /** The objects other than `t` are the same after the zeros as after marking the records, one by one. */
  predicate SameObject(m: Model, v: Model, ps: seq<Place>, i: nat)
    requires i in m.objects && i in v.objects
  {
    Erased(m.objects[i], ps, i) == v.objects[i]
  }

  lemma DropSame(m: Model, v: Model, ps: seq<Place>, t: nat)
    requires v.cwd == m.cwd && v.objects.Keys == m.objects.Keys
    ensures Drop(ScribbleAll(m, ps), t) == Drop(v, t) <==>
            forall i | i in m.objects && i != t :: SameObject(m, v, ps, i)
  {
    hide ScribbleAll, Erased;
    ScribbledObjects(m, ps);
    var a, b := Drop(ScribbleAll(m, ps), t), Drop(v, t);
    if forall i | i in m.objects && i != t :: SameObject(m, v, ps, i) {
      forall i | i in a.objects ensures a.objects[i] == b.objects[i] { assert SameObject(m, v, ps, i); }
      assert a.objects == b.objects;
    } else {
      var i :| i in m.objects && i != t && !SameObject(m, v, ps, i);
      assert a.objects[i] != b.objects[i];
    }
  }

  /** For an object that is not the current directory: it stays as it was exactly when no zero shows in it. */
  lemma OtherKept(m: Model, ks: seq<nat>, ps: seq<Place>, t: nat, i: nat)
    requires IsDir(m, m.cwd) && i in m.objects && i != t && i != m.cwd
    ensures ClearFlags(m, ks).objects.Keys == m.objects.Keys
    ensures SameObject(m, ClearFlags(m, ks), ps, i) <==>
            forall n | 0 <= n < |ps| && ps[n].Byte? && ps[n].inode == i :: Harmless(ClearFlags(m, ks), ps[n], t)
  {
    hide Erased, Unused;
    match m.objects[i]
    case FileObj(data) => FileKept(data, ps, i);
    case DirObj(parent, rs) => RecordsMarked(parent, rs, ps, i, []); NoneUnused(rs);
  }

  lemma HereMarked(m: Model, ks: seq<nat>, ps: seq<Place>, t: nat)
    requires IsDir(m, m.cwd) && t != m.cwd
    ensures ClearFlags(m, ks).objects.Keys == m.objects.Keys
    ensures SameObject(m, ClearFlags(m, ks), ps, m.cwd) <==>
            && (forall n | 0 <= n < |ps| && ps[n].Byte? && ps[n].inode == m.cwd :: Harmless(ClearFlags(m, ks), ps[n], t))
            && AllMarked(m, ks, ps)
  {
    hide Erased, Unused;
    var o := m.objects[m.cwd];
    RecordsMarked(o.parent, o.records, ps, m.cwd, ks);
  }

  /** Zeros at `ps` before `t` is dropped amount to marking the records `ks` exactly when each is harmless and every
      record not marked before is hit. */
  lemma AsMeantIff(m: Model, ks: seq<nat>, ps: seq<Place>, t: nat)
    requires IsDir(m, m.cwd) && t != m.cwd
    ensures Drop(ScribbleAll(m, ps), t) == Drop(ClearFlags(m, ks), t) <==> ShowsAsMarks(m, ks, ps, t)
  {
    hide Erased, Harmless, ClearFlags, AllMarked, ScribbleAll, Drop, SameObject;
    var v := ClearFlags(m, ks);
    HereMarked(m, ks, ps, t);
    SameHome(m, ks);
    DropSame(m, v, ps, t);
    forall i | i in m.objects && i != t && i != m.cwd
      ensures SameObject(m, v, ps, i) <==>
              forall n | 0 <= n < |ps| && ps[n].Byte? && ps[n].inode == i :: Harmless(v, ps[n], t)
    {
      OtherKept(m, ks, ps, t, i);
    }
    forall n | 0 <= n < |ps| && (ps[n].Nowhere? || ps[n].inode == t || ps[n].inode !in m.objects)
      ensures Harmless(v, ps[n], t)
    {
      PlainlyHarmless(v, ps[n], t);
    }
  }

  lemma SameHome(m: Model, ks: seq<nat>)
    ensures ClearFlags(m, ks).cwd == m.cwd && ClearFlags(m, ks).objects.Keys == m.objects.Keys
  {
  }

  lemma PlainlyHarmless(m: Model, p: Place, t: nat)
    requires p.Nowhere? || p.inode == t || p.inode !in m.objects
    ensures Harmless(m, p, t)
  {
  }

  /** The same for one more zero at the end: it makes no difference exactly when it is harmless by then. */
  lemma DropScribble(m: Model, p: Place, t: nat)
    ensures Drop(Scribble(m, p), t) == Drop(m, t) <==> Harmless(m, p, t)
  {
    var v := Scribble(m, p);
    if Harmless(m, p, t) {
      if p.Byte? && p.inode in m.objects && p.inode != t {
        match m.objects[p.inode]
        case FileObj(data) => assert p.pos < |data| ==> data[p.pos := 0] == data;
        case DirObj(_, rs) => var k := p.pos / RECORD; assert k < |rs| ==> rs[k := rs[k].(used := 0)] == rs;
        assert v.objects == m.objects;
      }
      assert Drop(v, t).objects == Drop(m, t).objects;
    } else {
      var o := m.objects[p.inode];
      assert v.objects[p.inode] != o by {
        match o
        case FileObj(data) => assert data[p.pos := 0][p.pos] != data[p.pos];
        case DirObj(_, rs) => var k := p.pos / RECORD; assert rs[k := rs[k].(used := 0)][k] != rs[k];
      }
      assert Drop(v, t).objects[p.inode] == v.objects[p.inode] && Drop(m, t).objects[p.inode] == o;
    }
  }

  /** A zero on the flag of record `k` of the current directory, behind those at `ps`. */
  lemma FlagHarmless(m: Model, ps: seq<Place>, k: nat, t: nat)
    requires IsDir(m, m.cwd) && k < |Here(m)| && t != m.cwd
    ensures Harmless(ScribbleAll(m, ps), Byte(m.cwd, RECORD * k), t) <==> Here(m)[k].used == 0 || HitBy(ps, m.cwd, k)
  {
    hide ScribbleAll, HitBy;
    ScribbledObjects(m, ps);
  }
}
