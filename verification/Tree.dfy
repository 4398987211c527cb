/** Parent links: when they form a tree rooted at inode 0, and which commands keep it. */
module Tree {
  import opened Bytes
  import opened Directory
  import opened Model

  /** Directory `d` is `n` parent links away from the root, through directories only. */
  predicate Reaches(m: Model, d: int, n: nat)
    decreases n
  {
    && d >= 0 && IsDir(m, d)
    && if n == 0 then d == 0 else d != 0 && Reaches(m, m.objects[d].parent, n - 1)
  }

  /** Every directory climbs to the root, which is its own parent. */
  ghost predicate IsTree(m: Model) {
    && IsDir(m, 0) && m.objects[0].parent == 0
    && forall d: nat | IsDir(m, d) :: exists n: nat :: Reaches(m, d, n)
  }

  /** What the current directory and the records keep to. */
  ghost predicate Healthy(m: Model, inodeCount: nat) {
    && IsTree(m) && IsDir(m, m.cwd)
    && (forall i | i in m.objects :: i < inodeCount)
    && forall d: nat, k: nat | IsDir(m, d) && k < |m.objects[d].records| ::
         SaneRecord(m.objects[d].records[k], d, inodeCount)
  }

  /** `t` is the parent of a directory other than itself. */
  ghost predicate HasSubdirectory(m: Model, t: nat) {
    exists d: nat :: IsDir(m, d) && d != t && m.objects[d].parent == t
  }

  // ---- distance to the root ----

  lemma {:induction false} ReachesUnique(m: Model, d: int, n: nat, k: nat)
    requires Reaches(m, d, n) && Reaches(m, d, k)
    ensures n == k
    decreases n
  {
    if n > 0 && k > 0 {
      ReachesUnique(m, m.objects[d].parent, n - 1, k - 1);
    }
  }

  /** The directories visited on the way up. */
  ghost function Path(m: Model, d: int, n: nat): set<nat>
    requires Reaches(m, d, n)
    decreases n
  {
    if n == 0 then {0} else {d as nat} + Path(m, m.objects[d].parent, n - 1)
  }

  lemma {:induction false} PathMember(m: Model, d: int, n: nat, x: nat)
    requires Reaches(m, d, n) && x in Path(m, d, n)
    ensures exists k :: 0 <= k <= n && Reaches(m, x, k)
    decreases n
  {
    if n > 0 && x != d {
      PathMember(m, m.objects[d].parent, n - 1, x);
    } else {
      assert Reaches(m, x, n);
    }
  }

  lemma {:induction false} PathSize(m: Model, d: int, n: nat)
    requires Reaches(m, d, n)
    ensures |Path(m, d, n)| == n + 1
    ensures forall x | x in Path(m, d, n) :: x in m.objects
    decreases n
  {
    if n > 0 {
      var p := m.objects[d].parent;
      PathSize(m, p, n - 1);
      if d in Path(m, p, n - 1) {
        PathMember(m, p, n - 1, d);
        var k :| 0 <= k <= n - 1 && Reaches(m, d, k);
        ReachesUnique(m, d, n, k);
        assert false;
      }
    }
  }

  lemma {:induction false} Pigeonhole(s: set<nat>, n: nat)
    requires forall x | x in s :: x < n
    ensures |s| <= n
  {
    if n > 0 {
      Pigeonhole(s - {n - 1}, n - 1);
    } else {
      assert s == {};
    }
  }

  /** The root is never further away than there are inodes. */
  lemma DepthBound(m: Model, d: nat, n: nat, inodeCount: nat)
    requires Reaches(m, d, n) && forall i | i in m.objects :: i < inodeCount
    ensures n < inodeCount
  {
    PathSize(m, d, n);
    Pigeonhole(Path(m, d, n), inodeCount);
  }

  /** `n` times `cd ..`. */
  function Up(m: Model, n: nat): Model
    requires IsDir(m, m.cwd)
    decreases n
  {
    if n == 0 then m
    else
      var m' := Moved(m, [46, 46]).0;
      if IsDir(m', m'.cwd) then Up(m', n - 1) else m'
  }

  lemma {:induction false} UpReaches(m: Model, n: nat)
    requires Reaches(m, m.cwd, n)
    ensures Up(m, n) == m.(cwd := 0)
    decreases n
  {
    if n > 0 {
      var m' := Moved(m, [46, 46]).0;
      SameReaches(m, m', m'.cwd, n - 1);
      UpReaches(m', n - 1);
    }
  }

  lemma {:induction false} SameReaches(m: Model, m': Model, d: int, n: nat)
    requires Reaches(m, d, n) && m'.objects == m.objects
    ensures Reaches(m', d, n)
    decreases n
  {
    if n > 0 { SameReaches(m, m', m.objects[d].parent, n - 1); }
  }

  /** Going up leads to the root in fewer steps than there are inodes. */
  lemma ClimbToRoot(m: Model, inodeCount: nat)
    requires Healthy(m, inodeCount)
    ensures exists n :: 0 <= n < inodeCount && Up(m, n) == m.(cwd := 0)
  {
    var n: nat :| Reaches(m, m.cwd, n);
    DepthBound(m, m.cwd, n, inodeCount);
    UpReaches(m, n);
  }

  // ---- what commands do to it ----

  /** Directories of `m` stay, with their parents. */
  ghost predicate KeepsDirs(m: Model, m': Model) {
    forall d: nat | IsDir(m, d) :: IsDir(m', d) && m'.objects[d].parent == m.objects[d].parent
  }

  lemma {:induction false} ReachesKept(m: Model, m': Model, d: int, n: nat)
    requires Reaches(m, d, n) && KeepsDirs(m, m')
    ensures Reaches(m', d, n)
    decreases n
  {
    if n > 0 { ReachesKept(m, m', m.objects[d].parent, n - 1); }
  }

  /** A change that keeps all directories, and adds none, keeps the tree. */
  lemma TreeKept(m: Model, m': Model)
    requires IsTree(m) && KeepsDirs(m, m') && forall d: nat | IsDir(m', d) :: IsDir(m, d)
    ensures IsTree(m')
  {
    forall d: nat | IsDir(m', d) ensures exists n: nat :: Reaches(m', d, n) {
      var n: nat :| Reaches(m, d, n);
      ReachesKept(m, m', d, n);
    }
  }

  lemma InsertKeepsTree(m: Model, id: nat, o: Object, name: seq<byte>)
    requires IsTree(m) && IsDir(m, m.cwd) && id !in m.objects && (o.DirObj? ==> o.parent == m.cwd)
    ensures IsTree(Insert(m, id, o, name))
  {
    var m' := Insert(m, id, o, name);
    forall d: nat | IsDir(m', d) ensures exists n: nat :: Reaches(m', d, n) {
      if d == id {
        var n: nat :| Reaches(m, m.cwd, n);
        ReachesKept(m, m', m.cwd, n);
        assert Reaches(m', d, n + 1);
      } else {
        assert IsDir(m, d);
        var n: nat :| Reaches(m, d, n);
        ReachesKept(m, m', d, n);
      }
    }
  }

  lemma {:induction false} ReachesAround(m: Model, t: nat, d: int, n: nat)
    requires Reaches(m, d, n) && d != t && !HasSubdirectory(m, t)
    ensures Reaches(Drop(m, t), d, n)
    decreases n
  {
    if n > 0 {
      assert m.objects[d].parent != t;
      ReachesAround(m, t, m.objects[d].parent, n - 1);
    }
  }

  /** Removing a directory keeps the tree exactly when no other directory has it as its parent. */
  lemma DropKeepsTree(m: Model, t: nat)
    requires IsTree(m) && IsDir(m, t) && t != 0
    ensures IsTree(Drop(m, t)) <==> !HasSubdirectory(m, t)
  {
    var m' := Drop(m, t);
    if HasSubdirectory(m, t) {
      var d: nat :| IsDir(m, d) && d != t && m.objects[d].parent == t;
      assert IsDir(m', d);
      forall n: nat ensures !Reaches(m', d, n) {}
    } else {
      forall d: nat | IsDir(m', d) ensures exists n: nat :: Reaches(m', d, n) {
        assert IsDir(m, d);
        var n: nat :| Reaches(m, d, n);
        ReachesAround(m, t, d, n);
      }
    }
  }

  lemma DropFileKeepsTree(m: Model, t: nat)
    requires IsTree(m) && IsFile(m, t)
    ensures IsTree(Drop(m, t))
  {
    TreeKept(m, Drop(m, t));
  }

  lemma ScribbleKeepsDirs(m: Model, p: Place)
    ensures KeepsDirs(m, Scribble(m, p)) && Scribble(m, p).cwd == m.cwd
    ensures Scribble(m, p).objects.Keys == m.objects.Keys
    ensures forall d: nat | IsDir(m, d) :: SameNames(m.objects[d].records, Scribble(m, p).objects[d].records)
    ensures forall d: nat :: IsDir(Scribble(m, p), d) <==> IsDir(m, d)
    ensures forall d: nat :: IsFile(Scribble(m, p), d) <==> IsFile(m, d)
  {
  }

  /** The same records but for `used` flags. */
  ghost predicate SameNames(rs: seq<Record>, qs: seq<Record>) {
    |rs| == |qs| && forall k | 0 <= k < |rs| :: qs[k].name == rs[k].name && qs[k].inode == rs[k].inode
  }

  lemma {:induction false} ScribbleAllKeepsDirs(m: Model, ps: seq<Place>)
    ensures var m' := ScribbleAll(m, ps);
            && KeepsDirs(m, m') && m'.cwd == m.cwd && m'.objects.Keys == m.objects.Keys
            && (forall d: nat | IsDir(m, d) :: SameNames(m.objects[d].records, m'.objects[d].records))
            && (forall d: nat :: IsDir(m', d) <==> IsDir(m, d))
            && (forall d: nat :: IsFile(m', d) <==> IsFile(m, d))
  {
    if ps != [] {
      ScribbleAllKeepsDirs(m, ps[..|ps| - 1]);
      ScribbleKeepsDirs(ScribbleAll(m, ps[..|ps| - 1]), ps[|ps| - 1]);
    }
  }
}
