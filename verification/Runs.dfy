/** Sequences of commands: what every run keeps and what a file holds after it. */
module Runs {
  import opened Bytes
  import opened Layout
  import opened Model
  import opened Tree

  datatype Command =
    | Mkdir(name: seq<byte>) | Touch(name: seq<byte>) | Write(name: seq<byte>, data: seq<byte>)
    | Read(name: seq<byte>) | Cd(name: seq<byte>) | Rm(name: seq<byte>) | Rmdir(name: seq<byte>)

  /** `m` becomes `m'` by a command. Removals leave open which bytes were set to zero on the way. */
  ghost predicate Step(m: Model, g: Geometry, c: Command, m': Model)
    requires IsDir(m, m.cwd)
  {
    match c
    case Mkdir(name) => m' == Make(m, g, DirObj(m.cwd, []), name).0
    case Touch(name) => m' == Make(m, g, FileObj([]), name).0
    case Write(name, data) => m' == Written(m, g, name, data).0
    case Read(_) => m' == m
    case Cd(name) => m' == Moved(m, name).0
    case Rm(name) =>
      var t := LastMatch(m, Here(m), false, name);
      if t < 0 then m' == m else exists ps :: m' == ScribbleAll(m, ps) || m' == Drop(ScribbleAll(m, ps), t)
    case Rmdir(name) =>
      var t := LastMatch(m, Here(m), true, name);
      if t < 0 then m' == m else exists ps :: m' == Drop(ScribbleAll(m, ps), t)
  }

  /** A directory is removed only when it has no subdirectory. */
  ghost predicate Careful(m: Model, c: Command)
    requires IsDir(m, m.cwd)
  {
    c.Rmdir? ==> var t := LastMatch(m, Here(m), true, c.name); t < 0 || !HasSubdirectory(m, t)
  }

  // ---- one step ----

  lemma MakeKeepsHealthy(m: Model, g: Geometry, o: Object, name: seq<byte>)
    requires Healthy(m, g.inodeCount) && Length(o) == 0 && (o.DirObj? ==> o.parent == m.cwd)
    ensures Healthy(Make(m, g, o, name).0, g.inodeCount)
  {
    var id := Fresh(m, 0, g.inodeCount);
    if id >= 0 {
      InsertKeepsTree(m, id, o, name);
      var m' := Insert(m, id, o, name);
      forall d: nat, k: nat | IsDir(m', d) && k < |m'.objects[d].records|
        ensures SaneRecord(m'.objects[d].records[k], d, g.inodeCount)
      {
        if d != id && k < |m.objects[d].records| {
          assert SaneRecord(m.objects[d].records[k], d, g.inodeCount);
        }
      }
    }
  }

  lemma WriteKeepsHealthy(m: Model, g: Geometry, name: seq<byte>, data: seq<byte>)
    requires Healthy(m, g.inodeCount)
    ensures Healthy(Written(m, g, name, data).0, g.inodeCount)
  {
    TreeKept(m, Written(m, g, name, data).0);
  }

  lemma CdKeepsHealthy(m: Model, name: seq<byte>, inodeCount: nat)
    requires Healthy(m, inodeCount)
    ensures Healthy(Moved(m, name).0, inodeCount)
  {
    var m' := Moved(m, name).0;
    TreeKept(m, m');
    if name == [46, 46] {
      var n: nat :| Reaches(m, m.cwd, n);
      if n > 0 { assert Reaches(m, m.objects[m.cwd].parent, n - 1); }
    }
    assert IsDir(m, m'.cwd);
  }

  lemma ScribblesKeepHealthy(m: Model, ps: seq<Place>, inodeCount: nat)
    requires Healthy(m, inodeCount)
    ensures Healthy(ScribbleAll(m, ps), inodeCount)
  {
    var m' := ScribbleAll(m, ps);
    ScribbleAllKeepsDirs(m, ps);
    TreeKept(m, m');
    forall d: nat, k: nat | IsDir(m', d) && k < |m'.objects[d].records|
      ensures SaneRecord(m'.objects[d].records[k], d, inodeCount)
    {
      assert SameNames(m.objects[d].records, m'.objects[d].records);
      assert SaneRecord(m.objects[d].records[k], d, inodeCount);
    }
  }

  /** What a removal finds by name exists, and is neither the root nor the current directory. */
  lemma TargetElsewhere(m: Model, dir: bool, name: seq<byte>, inodeCount: nat)
    requires Healthy(m, inodeCount) && LastMatch(m, Here(m), dir, name) >= 0
    ensures var t := LastMatch(m, Here(m), dir, name);
            && t != 0 && t != m.cwd && (if dir then IsDir(m, t) else IsFile(m, t))
  {
    var rs, t := Here(m), LastMatch(m, Here(m), dir, name);
    var k :| 0 <= k < |rs| && Matches(m, rs[k], dir, name) && rs[k].inode == t;
    assert SaneRecord(m.objects[m.cwd].records[k], m.cwd, inodeCount);
  }

  lemma DropKeepsHealthy(m: Model, ps: seq<Place>, dir: bool, t: nat, inodeCount: nat)
    requires Healthy(m, inodeCount) && t != 0 && t != m.cwd && (if dir then IsDir(m, t) else IsFile(m, t))
    requires dir ==> !HasSubdirectory(m, t)
    ensures Healthy(Drop(ScribbleAll(m, ps), t), inodeCount)
  {
    var v := ScribbleAll(m, ps);
    var m' := Drop(v, t);
    ScribblesKeepHealthy(m, ps, inodeCount);
    ScribbleAllKeepsDirs(m, ps);
    if dir {
      assert !HasSubdirectory(v, t);
      DropKeepsTree(v, t);
    } else {
      DropFileKeepsTree(v, t);
    }
    forall d: nat, k: nat | IsDir(m', d) && k < |m'.objects[d].records|
      ensures SaneRecord(m'.objects[d].records[k], d, inodeCount)
    {
      assert IsDir(v, d);
    }
  }

  lemma StepKeepsHealthy(m: Model, g: Geometry, c: Command, m': Model)
    requires Healthy(m, g.inodeCount) && Step(m, g, c, m') && Careful(m, c)
    ensures Healthy(m', g.inodeCount)
  {
    hide Healthy, HasSubdirectory, ScribbleAll, Drop, Make, Written, Moved;
    assert IsDir(m, m.cwd) by { CwdIsDir(m, g.inodeCount); }
    match c
    case Mkdir(name) => MakeKeepsHealthy(m, g, DirObj(m.cwd, []), name);
    case Touch(name) => MakeKeepsHealthy(m, g, FileObj([]), name);
    case Write(name, data) => WriteKeepsHealthy(m, g, name, data);
    case Read(_) =>
    case Cd(name) => CdKeepsHealthy(m, name, g.inodeCount);
    case Rm(name) =>
      var t := LastMatch(m, Here(m), false, name);
      if t >= 0 {
        TargetElsewhere(m, false, name, g.inodeCount);
        var ps :| m' == ScribbleAll(m, ps) || m' == Drop(ScribbleAll(m, ps), t);
        ScribblesKeepHealthy(m, ps, g.inodeCount);
        DropKeepsHealthy(m, ps, false, t, g.inodeCount);
      }
    case Rmdir(name) =>
      var t := LastMatch(m, Here(m), true, name);
      if t >= 0 {
        TargetElsewhere(m, true, name, g.inodeCount);
        var ps :| m' == Drop(ScribbleAll(m, ps), t);
        DropKeepsHealthy(m, ps, true, t, g.inodeCount);
      }
  }

  lemma CwdIsDir(m: Model, inodeCount: nat)
    requires Healthy(m, inodeCount)
    ensures IsDir(m, m.cwd)
  {
  }

  /** Removing a directory that still has a subdirectory always breaks the tree. */
  lemma CarelessBreaksTree(m: Model, g: Geometry, c: Command, m': Model)
    requires Healthy(m, g.inodeCount) && Step(m, g, c, m') && !Careful(m, c)
    ensures !IsTree(m')
  {
    var t := LastMatch(m, Here(m), true, c.name);
    TargetElsewhere(m, true, c.name, g.inodeCount);
    var ps :| m' == Drop(ScribbleAll(m, ps), t);
    var v := ScribbleAll(m, ps);
    ScribblesKeepHealthy(m, ps, g.inodeCount);
    ScribbleAllKeepsDirs(m, ps);
    var d: nat :| IsDir(m, d) && d != t && m.objects[d].parent == t;
    assert HasSubdirectory(v, t);
    DropKeepsTree(v, t);
  }

  // ---- runs ----

  /** `ms` are the states of a run of `cs`, one more than there are commands. */
  ghost predicate Run(ms: seq<Model>, g: Geometry, cs: seq<Command>) {
    && |ms| == |cs| + 1
    && forall k | 0 <= k < |cs| :: IsDir(ms[k], ms[k].cwd) && Step(ms[k], g, cs[k], ms[k + 1])
  }

  /** Over every run whose directory removals are careful, through inode reuse and stale records, the parent links
      form a tree, the current directory is a live one, and going up reaches the root within `inodeCount` steps. */
  lemma {:induction false} RunKeepsTree(ms: seq<Model>, g: Geometry, cs: seq<Command>, n: nat)
    requires Run(ms, g, cs) && Healthy(ms[0], g.inodeCount) && n <= |cs|
    requires forall k | 0 <= k < |cs| :: IsDir(ms[k], ms[k].cwd) && Careful(ms[k], cs[k])
    ensures Healthy(ms[n], g.inodeCount)
    ensures exists k :: 0 <= k < g.inodeCount && Up(ms[n], k) == ms[n].(cwd := 0)
  {
    if n > 0 {
      RunKeepsTree(ms, g, cs, n - 1);
      StepKeepsHealthy(ms[n - 1], g, cs[n - 1], ms[n]);
    }
    ClimbToRoot(ms[n], g.inodeCount);
  }

  // ---- what a file holds ----

  /** The bytes a command appended to file `i`. */
  ghost function Appended(m: Model, g: Geometry, c: Command, i: nat): seq<byte>
    requires IsDir(m, m.cwd)
  {
    if c.Write? && LastMatch(m, Here(m), false, c.name) == i && Written(m, g, c.name, c.data).1 == Ok then c.data else []
  }

  ghost function Log(ms: seq<Model>, g: Geometry, cs: seq<Command>, i: nat, n: nat): seq<byte>
    requires Run(ms, g, cs) && n <= |cs|
  {
    if n == 0 then [] else Log(ms, g, cs, i, n - 1) + Appended(ms[n - 1], g, cs[n - 1], i)
  }

  ghost function FileData(m: Model, i: nat): seq<byte> {
    if IsFile(m, i) then m.objects[i].data else []
  }

  /** Over any interleaving of commands on any number of files, created before or during the run, as long as nothing
      is removed: a file holds what it held at the start, if it was there, and then everything written to it, in order.
      To what is not a file yet nothing was written. */
  lemma {:induction false} FileHoldsLog(ms: seq<Model>, g: Geometry, cs: seq<Command>, i: nat, n: nat)
    requires Run(ms, g, cs) && n <= |cs|
    requires forall k | 0 <= k < |cs| :: !cs[k].Rm? && !cs[k].Rmdir?
    ensures IsFile(ms[n], i) ==> ms[n].objects[i].data == FileData(ms[0], i) + Log(ms, g, cs, i, n)
    ensures !IsFile(ms[n], i) ==> !IsFile(ms[0], i) && Log(ms, g, cs, i, n) == []
  {
    hide Step, Appended;
    if n > 0 {
      FileHoldsLog(ms, g, cs, i, n - 1);
      StepOnFile(ms[n - 1], g, cs[n - 1], ms[n], i);
    }
  }

  lemma StepOnFile(m: Model, g: Geometry, c: Command, m': Model, i: nat)
    requires IsDir(m, m.cwd) && Step(m, g, c, m') && !c.Rm? && !c.Rmdir?
    ensures IsFile(m, i) ==> IsFile(m', i)
    ensures IsFile(m', i) ==> m'.objects[i].data == FileData(m, i) + Appended(m, g, c, i)
    ensures !IsFile(m, i) ==> Appended(m, g, c, i) == []
  {
  }

  /** Reading after such a run shows that. */
  lemma ReadReturnsLog(ms: seq<Model>, g: Geometry, cs: seq<Command>, i: nat, name: seq<byte>)
    requires Run(ms, g, cs)
    requires forall k | 0 <= k < |cs| :: !cs[k].Rm? && !cs[k].Rmdir?
    requires var m := ms[|cs|]; IsDir(m, m.cwd) && LastMatch(m, Here(m), false, name) == i
    ensures ReadReply(ms[|cs|], name) == Data(Shown(FileData(ms[0], i) + Log(ms, g, cs, i, |cs|)))
  {
    hide Run, Log;
    FileHoldsLog(ms, g, cs, i, |cs|);
  }

  // ---- with removals ----

  /** A step whose removals, if any, do to the objects what they are meant to do: the target goes, records of the
      current directory may be marked unused, and nothing else changes. */
  ghost predicate CleanStep(m: Model, g: Geometry, c: Command, m': Model)
    requires IsDir(m, m.cwd)
  {
    match c
    case Rm(name) =>
      var t := LastMatch(m, Here(m), false, name);
      if t < 0 then m' == m else exists ks :: m' == Drop(ClearFlags(m, ks), t)
    case Rmdir(name) =>
      var t := LastMatch(m, Here(m), true, name);
      if t < 0 then m' == m else exists ks :: m' == Drop(ClearFlags(m, ks), t)
    case _ => Step(m, g, c, m')
  }

  /** The command removes file `i`. */
  predicate Removes(m: Model, c: Command, i: nat)
    requires IsDir(m, m.cwd)
  {
    c.Rm? && LastMatch(m, Here(m), false, c.name) == i
  }

  ghost predicate CleanRun(ms: seq<Model>, g: Geometry, cs: seq<Command>) {
    && |ms| == |cs| + 1
    && forall k | 0 <= k < |cs| :: IsDir(ms[k], ms[k].cwd) && CleanStep(ms[k], g, cs[k], ms[k + 1])
  }

  /** What was written to file `i` since it was last removed, or since the start. */
  ghost function Held(ms: seq<Model>, g: Geometry, cs: seq<Command>, i: nat, n: nat): seq<byte>
    requires CleanRun(ms, g, cs) && n <= |cs|
  {
    if n == 0 then FileData(ms[0], i)
    else if Removes(ms[n - 1], cs[n - 1], i) then []
    else Held(ms, g, cs, i, n - 1) + Appended(ms[n - 1], g, cs[n - 1], i)
  }

  /** Over every run with clean removals, through removal and reuse of inode numbers, a file holds exactly what was
      written to it since its number was last freed, in order. */
  lemma {:induction false} FileHoldsItsOwn(ms: seq<Model>, g: Geometry, cs: seq<Command>, i: nat, n: nat)
    requires CleanRun(ms, g, cs) && n <= |cs|
    ensures FileData(ms[n], i) == Held(ms, g, cs, i, n)
  {
    hide CleanStep, Appended, Removes, FileData;
    if n > 0 {
      FileHoldsItsOwn(ms, g, cs, i, n - 1);
      CleanStepOnFile(ms[n - 1], g, cs[n - 1], ms[n], i);
    }
  }

  lemma CleanStepOnFile(m: Model, g: Geometry, c: Command, m': Model, i: nat)
    requires IsDir(m, m.cwd) && CleanStep(m, g, c, m')
    ensures FileData(m', i) == if Removes(m, c, i) then [] else FileData(m, i) + Appended(m, g, c, i)
  {
    hide Make, Written, Moved;
    if !c.Rm? && !c.Rmdir? {
      StepOnFile(m, g, c, m', i);
    }
  }
}
