/** The command loop: a script run on a mounted file system. */
module Session {
  import opened Bytes
  import opened Layout
  import opened Metadata
  import opened Objects
  import opened Format
  import opened Volume
  import opened Model
  import opened Refinement
  import opened Removal
  import opened Outcomes
  import opened Intended
  import opened Filesystem
  import opened Tree
  import opened Runs

  /** How a script ends: at its end, by the program's exit, by an access outside the block table, or with a `cd ..` out
      of a directory whose parent was removed, which leaves no current directory. */
  datatype End = Finished | Exited | Undefined | Stranded

  /** Command words are C strings; a line of text is shorter than 2^32. */
  predicate WellFormed(c: Command) {
    && (c.Mkdir? || c.Touch? ==> 0 !in c.name)
    && (c.Write? ==> |c.data| < TWO32)
  }

  /** What a command does, as the user sees it. */
  ghost function Effect(w: World, cwd: nat, c: Command): (Model, Reply)
    requires LiveDir(w, cwd)
  {
    var m, g := Abs(w, cwd), w.m.geo;
    match c
    case Mkdir(name) => Make(m, g, DirObj(cwd, []), name)
    case Touch(name) => Make(m, g, FileObj([]), name)
    case Write(name, data) => Written(m, g, name, data)
    case Read(name) => (m, ReadReply(m, name))
    case Cd(name) => Moved(m, name)
    case Rm(name) => RmEffect(w, cwd, name)
    case Rmdir(name) => RmdirEffect(w, cwd, name)
  }

  /** It is a step of the model. */
  lemma EffectSteps(w: World, cwd: nat, c: Command)
    requires LiveDir(w, cwd)
    ensures IsDir(Abs(w, cwd), cwd) && Step(Abs(w, cwd), w.m.geo, c, Effect(w, cwd, c).0)
  {
    hide Abs, Make, Written, Moved, LastMatch, Picks, PlacesAt;
    AbsDir(w, cwd);
  }

  lemma DirIff(w: World, cwd: nat)
    ensures LiveDir(w, cwd) <==> IsDir(Abs(w, cwd), cwd)
    ensures Abs(w, cwd).cwd == cwd
  {
  }

  /** One command on the mounted file system. */
  method Execute(fs: Filesystem, c: Command) returns (r: Reply)
    requires fs.Valid() && WellFormed(c)
    modifies fs`image, fs`usedInodes, fs`usedBlocks, fs`chains, fs`owner, fs`currentDir, fs.inodeMap, fs.blockMap
    ensures r == Effect(old(fs.W()), old(fs.currentDir), c).1
    ensures r != OutOfSpace ==> fs.View() == Effect(old(fs.W()), old(fs.currentDir), c).0
    ensures r != OutOfSpace ==> Sound(fs.W()) && (fs.Valid() <==> IsDir(fs.View(), fs.View().cwd))
    ensures r == OutOfSpace ==> Recovers(old(fs.W()), fs.image)
  {
    hide Sound, Abs, Recovers, Make, Written, LiveDir, LastMatch, Picks;
    AbsDir(fs.W(), fs.currentDir);
    match c {
      case Mkdir(name) => r := fs.Mkdir(name);
      case Touch(name) => r := fs.Touch(name);
      case Write(name, data) => r := fs.Write(name, data);
      case Read(name) => r := fs.Read(name);
      case Cd(name) => r := fs.Cd(name);
      case Rm(name) => r := fs.Rm(name);
      case Rmdir(name) => r := fs.Rmdir(name);
    }
    DirIff(fs.W(), fs.currentDir);
  }

  /** The check a caller makes before `rmdir`: does a directory name `t` as its parent? */
  method HasChild(fs: Filesystem, t: nat) returns (b: bool)
    requires fs.Valid()
    ensures b <==> HasSubdirectory(fs.View(), t)
  {
    hide Sound, Abs, LiveDir, IsDir;
    ParentFields(fs.W(), fs.currentDir);
    b := false;
    var index := 0;
    while index < fs.inodeMap.Length && !b
      invariant 0 <= index <= fs.inodeMap.Length
      invariant b <==> exists d :: 0 <= d < index && ChildOf(fs.W().m.inodes[d], d, t)
    {
      b := ChildOf(fs.inodeMap[index], index, t);
      assert fs.inodeMap[index] == fs.W().m.inodes[index];
      index := index + 1;
    }
  }

  predicate ChildOf(x: Inode, d: nat, t: nat) {
    x.kind == Directory && d != t && x.parent == t
  }

  lemma ParentFields(w: World, cwd: nat)
    ensures forall t: nat :: HasSubdirectory(Abs(w, cwd), t) <==>
              exists d :: 0 <= d < |w.m.inodes| && ChildOf(w.m.inodes[d], d, t)
  {
    forall t: nat ensures HasSubdirectory(Abs(w, cwd), t) <==>
                          exists d :: 0 <= d < |w.m.inodes| && ChildOf(w.m.inodes[d], d, t)
    {
      if d :| 0 <= d < |w.m.inodes| && ChildOf(w.m.inodes[d], d, t) {
        assert IsDir(Abs(w, cwd), d) && Abs(w, cwd).objects[d].parent == t;
      }
    }
  }

  /** `ms` are the states of a run of `cs`, and `replies` hold what each `read` found in its state. */
  ghost predicate Answered(ms: seq<Model>, g: Geometry, cs: seq<Command>, replies: seq<Reply>) {
    && Run(ms, g, cs) && |replies| == |cs|
    && forall k | 0 <= k < |cs| && cs[k].Read? :: replies[k] == ReadReply(ms[k], cs[k].name)
  }

  /** The command climbs to a parent that is no directory any more. */
  predicate Strands(m: Model, c: Command)
    requires IsDir(m, m.cwd)
  {
    c.Cd? && c.name == [46, 46] && m.objects[m.cwd].parent >= 0 && !IsDir(m, m.objects[m.cwd].parent)
  }

  /** A command leaves no current directory exactly when it is such a `cd ..`: no removal, no creation and no other
      `cd` ever does. */
  lemma StrandedIff(w: World, cwd: nat, c: Command)
    requires Sound(w) && LiveDir(w, cwd)
    ensures IsDir(Abs(w, cwd), Abs(w, cwd).cwd)
    ensures var m := Effect(w, cwd, c).0;
            !IsDir(m, m.cwd) <==> Strands(Abs(w, cwd), c)
  {
    hide Sound, Abs, LiveDir, Picks, PlacesAt;
    AbsDir(w, cwd);
    var m := Abs(w, cwd);
    match c
    case Mkdir(name) => MakeStays(m, w.m.geo, DirObj(cwd, []), name);
    case Touch(name) => MakeStays(m, w.m.geo, FileObj([]), name);
    case Write(name, data) =>
    case Read(_) =>
    case Cd(name) => MovedStays(m, name);
    case Rm(name) => RemovalStays(w, cwd, false, name);
    case Rmdir(name) => RemovalStays(w, cwd, true, name);
  }

  lemma MakeStays(m: Model, g: Geometry, o: Object, name: seq<byte>)
    requires IsDir(m, m.cwd)
    ensures var m' := Make(m, g, o, name).0;
            IsDir(m', m'.cwd)
  {
  }

  lemma MovedStays(m: Model, name: seq<byte>)
    requires IsDir(m, m.cwd)
    ensures var m' := Moved(m, name).0;
            IsDir(m', m'.cwd) <==> !Strands(m, Cd(name))
  {
  }

  lemma RemovalStays(w: World, cwd: nat, dir: bool, name: seq<byte>)
    requires Sound(w) && LiveDir(w, cwd)
    ensures forall ps :: StillHere(ScribbleAll(Abs(w, cwd), ps), cwd)
    ensures TargetInode(w, cwd, dir, name) >= 0 ==>
              forall ps :: StillHere(Drop(ScribbleAll(Abs(w, cwd), ps), TargetInode(w, cwd, dir, name)), cwd)
  {
    hide Sound, Abs, LiveDir, ScribbleAll;
    AbsDir(w, cwd);
    forall ps ensures StillHere(ScribbleAll(Abs(w, cwd), ps), cwd) { ScribbleAllKeepsDirs(Abs(w, cwd), ps); }
    if TargetInode(w, cwd, dir, name) >= 0 {
      TargetFound(w, cwd, TargetInode(w, cwd, dir, name), dir, name);
    }
  }

  predicate StillHere(m: Model, cwd: nat) {
    m.cwd == cwd && IsDir(m, cwd)
  }

  /** A mounted volume: the world and the current directory before a command. */
  datatype Mount = Mount(w: World, cwd: nat)

  /** `trace` holds the sound volumes behind the states `ms`; each state and each reply is the exact effect on the state
      before. */
  ghost predicate Traced(trace: seq<Mount>, ms: seq<Model>, g: Geometry, cs: seq<Command>, replies: seq<Reply>) {
    && |trace| == |cs| == |replies| && |ms| == |cs| + 1
    && forall k | 0 <= k < |cs| :: TracedAt(trace[k], g, cs[k], ms[k], ms[k + 1], replies[k])
  }

  ghost predicate TracedAt(at: Mount, g: Geometry, c: Command, m: Model, m': Model, r: Reply) {
    && Sound(at.w) && LiveDir(at.w, at.cwd) && at.w.m.geo == g
    && m == Abs(at.w, at.cwd) && (m', r) == Effect(at.w, at.cwd, c)
  }

  /** The next command needs more blocks than there are, and reopening the file shows the state before it. */
  ghost predicate ExitedAt(w: World, cwd: nat, g: Geometry, image: seq<byte>, m: Model, cs: seq<Command>, n: nat) {
    && n < |cs| && LiveDir(w, cwd) && w.m.geo == g && Abs(w, cwd) == m
    && Effect(w, cwd, cs[n]).1 == OutOfSpace && Recovers(w, image)
  }

  /** Run any script from the first command on. `ms` lists the states between commands. The volume is sound in every
      one of them; an exit for lack of space loses the interrupted command and nothing else; and the only way to be left
      without a current directory is to climb to a removed parent. */
  method RunScript(fs: Filesystem, cs: seq<Command>)
    returns (end: End, replies: seq<Reply>, ghost ms: seq<Model>, ghost trace: seq<Mount>)
    requires fs.Valid() && forall k | 0 <= k < |cs| :: WellFormed(cs[k])
    modifies fs`image, fs`usedInodes, fs`usedBlocks, fs`chains, fs`owner, fs`currentDir, fs.inodeMap, fs.blockMap
    ensures |replies| <= |cs| && Answered(ms, fs.geo, cs[..|replies|], replies) && ms[0] == old(fs.View())
    ensures Traced(trace, ms, fs.geo, cs[..|replies|], replies)
    ensures end.Finished? ==> |replies| == |cs| && OutOfBounds !in replies
    ensures end.Undefined? ==> replies != [] && replies[|replies| - 1] == OutOfBounds
    ensures end.Finished? || end.Undefined? ==> fs.Valid() && fs.View() == ms[|replies|]
    ensures end.Stranded? ==> Sound(fs.W()) && fs.View() == ms[|replies|] && LostAt(ms, cs, |replies|)
    ensures end.Exited? ==> exists w, cwd :: ExitedAt(w, cwd, fs.geo, fs.image, ms[|replies|], cs, |replies|)
  {
    hide Sound, Abs, LiveDir, Recovers, Answered, LostAt, Traced, TracedAt, Effect, ExitedAt;
    ms, replies, trace, end := [fs.View()], [], [], Finished;
    NothingTraced(fs.View(), fs.geo, cs);
    NothingRun(fs.View(), fs.geo, cs);
    var index := 0;
    while index < |cs| && end.Finished?
      invariant 0 <= index <= |cs| && |ms| == |replies| + 1 <= |cs| + 1
      invariant Answered(ms, fs.geo, cs[..|replies|], replies) && ms[0] == old(fs.View())
      invariant Traced(trace, ms, fs.geo, cs[..|replies|], replies)
      invariant end.Finished? ==> index == |replies| && OutOfBounds !in replies
      invariant end.Undefined? ==> replies != [] && replies[|replies| - 1] == OutOfBounds
      invariant end.Finished? || end.Undefined? ==> fs.Valid() && fs.View() == ms[|replies|]
      invariant end.Stranded? ==> Sound(fs.W()) && fs.View() == ms[|replies|] && LostAt(ms, cs, |replies|)
      invariant end.Exited? ==> exists w, cwd :: ExitedAt(w, cwd, fs.geo, fs.image, ms[|replies|], cs, |replies|)
      decreases |cs| - index
    {
      ghost var w, cwd := fs.W(), fs.currentDir;
      var r, here := Advance(fs, cs[index]);
      if r == OutOfSpace {
        NowExited(w, cwd, fs.image, cs, index);
        end := Exited;
      } else {
        OneMoreAnswer(ms, fs.geo, cs, index, replies, fs.View(), r);
        OneMoreTrace(trace, ms, fs.geo, cs, index, replies, Mount(w, cwd), fs.View(), r);
        if !here { NowLost(ms, fs.View(), cs, index); }
        ms, replies, trace := ms + [fs.View()], replies + [r], trace + [Mount(w, cwd)];
        if !here { end := Stranded; } else if r == OutOfBounds { end := Undefined; }
      }
      index := index + 1;
    }
  }

  /** After command number `n - 1` there is no current directory, and that command was the climb. */
  ghost predicate LostAt(ms: seq<Model>, cs: seq<Command>, n: nat) {
    && 0 < n < |ms| && n <= |cs| && !IsDir(ms[n], ms[n].cwd)
    && IsDir(ms[n - 1], ms[n - 1].cwd) && Strands(ms[n - 1], cs[n - 1])
  }

  lemma NowLost(ms: seq<Model>, m: Model, cs: seq<Command>, n: nat)
    requires n < |cs| && |ms| == n + 1 && !IsDir(m, m.cwd)
    requires IsDir(ms[n], ms[n].cwd) && Strands(ms[n], cs[n])
    ensures LostAt(ms + [m], cs, n + 1)
  {
  }

  /** A script whose directory removals are careful keeps the parent links a tree and never loses its place. */
  lemma CarefulScript(ms: seq<Model>, g: Geometry, cs: seq<Command>, replies: seq<Reply>, n: nat)
    requires Answered(ms, g, cs, replies) && Healthy(ms[0], g.inodeCount) && n <= |cs|
    requires forall k | 0 <= k < |cs| :: IsDir(ms[k], ms[k].cwd) && Careful(ms[k], cs[k])
    ensures Healthy(ms[n], g.inodeCount) && !LostAt(ms, cs, n)
  {
    RunKeepsTree(ms, g, cs, n);
  }

  /** The check a caller can make to be careful: the command removes no directory that a directory names as parent. */
  method IsCareful(fs: Filesystem, c: Command) returns (b: bool)
    requires fs.Valid()
    ensures IsDir(fs.View(), fs.View().cwd) && (b <==> Careful(fs.View(), c))
  {
    hide Sound, Abs, LiveDir, HasSubdirectory;
    DirIff(fs.W(), fs.currentDir);
    b := true;
    if c.Rmdir? {
      var t := fs.Lookup(true, c.name);
      if t >= 0 {
        var child := HasChild(fs, t);
        b := !child;
      }
    }
  }

  /** One command, and whether there still is a current directory. */
  method Advance(fs: Filesystem, c: Command) returns (r: Reply, here: bool)
    requires fs.Valid() && WellFormed(c)
    modifies fs`image, fs`usedInodes, fs`usedBlocks, fs`chains, fs`owner, fs`currentDir, fs.inodeMap, fs.blockMap
    ensures IsDir(old(fs.View()), old(fs.View()).cwd)
    ensures r != OutOfSpace ==> Step(old(fs.View()), fs.geo, c, fs.View()) && Sound(fs.W())
    ensures LiveDir(old(fs.W()), old(fs.currentDir)) && r == Effect(old(fs.W()), old(fs.currentDir), c).1
    ensures r != OutOfSpace ==>
              TracedAt(Mount(old(fs.W()), old(fs.currentDir)), fs.geo, c, old(fs.View()), fs.View(), r)
    ensures r != OutOfSpace ==> (here <==> fs.Valid()) && (here <==> IsDir(fs.View(), fs.View().cwd))
    ensures r != OutOfSpace ==> (here <==> !Strands(old(fs.View()), c))
    ensures r == OutOfBounds ==> here
    ensures r == OutOfSpace ==> Recovers(old(fs.W()), fs.image)
    ensures c.Read? ==> r == ReadReply(old(fs.View()), c.name)
  {
    hide Sound, Abs, LiveDir, Effect, Recovers, Step, Strands;
    ghost var w, cwd := fs.W(), fs.currentDir;
    EffectSteps(w, cwd, c);
    StrandedIff(w, cwd, c);
    if c.Read? { ReadEffect(w, cwd, c); }
    OutOfBoundsStays(w, cwd, c);
    r := Execute(fs, c);
    here := fs.currentDir < fs.inodeMap.Length && fs.inodeMap[fs.currentDir].kind == Directory;
    DirIff(fs.W(), fs.currentDir);
    LiveDirIs(fs.W(), fs.currentDir);
  }

  lemma LiveDirIs(w: World, cwd: nat)
    ensures LiveDir(w, cwd) <==> cwd < |w.m.inodes| && w.m.inodes[cwd].kind == Directory
  {
  }

  lemma OutOfBoundsStays(w: World, cwd: nat, c: Command)
    requires LiveDir(w, cwd)
    ensures IsDir(Abs(w, cwd), Abs(w, cwd).cwd)
    ensures Effect(w, cwd, c).1 == OutOfBounds ==> !Strands(Abs(w, cwd), c)
  {
    hide Abs, LastMatch, Picks;
    AbsDir(w, cwd);
  }

  lemma ReadEffect(w: World, cwd: nat, c: Command)
    requires LiveDir(w, cwd) && c.Read?
    ensures IsDir(Abs(w, cwd), Abs(w, cwd).cwd) && Effect(w, cwd, c).1 == ReadReply(Abs(w, cwd), c.name)
  {
  }

  lemma NothingRun(m: Model, g: Geometry, cs: seq<Command>)
    ensures Answered([m], g, cs[..0], [])
  {
  }

  lemma NothingTraced(m: Model, g: Geometry, cs: seq<Command>)
    ensures Traced([], [m], g, cs[..0], [])
  {
  }

  lemma OneMoreTrace(trace: seq<Mount>, ms: seq<Model>, g: Geometry, cs: seq<Command>, n: nat, replies: seq<Reply>,
                     at: Mount, m: Model, r: Reply)
    requires n < |cs| && |ms| == n + 1 && |replies| == n
    requires Traced(trace, ms, g, cs[..n], replies) && TracedAt(at, g, cs[n], ms[n], m, r)
    ensures Traced(trace + [at], ms + [m], g, cs[..n + 1], replies + [r])
  {
    hide TracedAt;
    var trace', ms', cs', replies' := trace + [at], ms + [m], cs[..n + 1], replies + [r];
    forall k | 0 <= k < n + 1 ensures TracedAt(trace'[k], g, cs'[k], ms'[k], ms'[k + 1], replies'[k]) {
      if k < n { assert cs[..n][k] == cs'[k]; }
    }
  }

  lemma NowExited(w: World, cwd: nat, image: seq<byte>, cs: seq<Command>, n: nat)
    requires n < |cs| && LiveDir(w, cwd) && Effect(w, cwd, cs[n]).1 == OutOfSpace && Recovers(w, image)
    ensures ExitedAt(w, cwd, w.m.geo, image, Abs(w, cwd), cs, n)
  {
  }

  // ---- what files hold when removals do what they are meant to ----

  /** The bytes a removal sets to zero show as the marks it is meant to make, and it stays in the block table. */
  ghost predicate CleanRemoval(w: World, cwd: nat, c: Command)
    requires LiveDir(w, cwd)
  {
    && (c.Rmdir? && TargetInode(w, cwd, true, c.name) >= 0 ==> NoMoreThanMeant(w, cwd, true, c.name))
    && (c.Rm? && TargetInode(w, cwd, false, c.name) >= 0 ==>
          TargetOf(w, cwd, TargetInode(w, cwd, false, c.name)) != Wild && NoMoreThanMeant(w, cwd, false, c.name))
  }

  lemma CleanEffect(w: World, cwd: nat, c: Command)
    requires Sound(w) && LiveDir(w, cwd) && CleanRemoval(w, cwd, c)
    ensures IsDir(Abs(w, cwd), Abs(w, cwd).cwd) && CleanStep(Abs(w, cwd), w.m.geo, c, Effect(w, cwd, c).0)
  {
    hide Sound, Abs, LiveDir, TargetOf, NoMoreThanMeant, Picks, LastMatch, Make, Written, Moved;
    AbsDir(w, cwd);
    match c {
      case Rm(name) =>
        if TargetInode(w, cwd, false, name) >= 0 { RmAsMeantIff(w, cwd, name); }
      case Rmdir(name) =>
        if TargetInode(w, cwd, true, name) >= 0 { RmdirAsMeantIff(w, cwd, name); }
      case _ => EffectSteps(w, cwd, c);
    }
  }

  /** Over every run whose removals are clean, through removal and reuse of inode numbers, a file holds exactly what was
      written to it since its number was last freed. */
  lemma FilesHoldTheirOwn(trace: seq<Mount>, ms: seq<Model>, g: Geometry, cs: seq<Command>, replies: seq<Reply>,
                          i: nat, n: nat)
    requires Traced(trace, ms, g, cs, replies) && n <= |cs|
    requires forall k | 0 <= k < |cs| :: LiveDir(trace[k].w, trace[k].cwd) && CleanRemoval(trace[k].w, trace[k].cwd, cs[k])
    ensures CleanRun(ms, g, cs) && FileData(ms[n], i) == Held(ms, g, cs, i, n)
  {
    hide Sound, Abs, LiveDir, Effect, CleanRemoval, CleanStep, Held;
    forall k | 0 <= k < |cs| ensures IsDir(ms[k], ms[k].cwd) && CleanStep(ms[k], g, cs[k], ms[k + 1]) {
      assert TracedAt(trace[k], g, cs[k], ms[k], ms[k + 1], replies[k]);
      CleanEffect(trace[k].w, trace[k].cwd, cs[k]);
    }
    FileHoldsItsOwn(ms, g, cs, i, n);
  }

  lemma OneMoreAnswer(ms: seq<Model>, g: Geometry, cs: seq<Command>, n: nat, replies: seq<Reply>, m: Model, r: Reply)
    requires n < |cs| && |ms| == n + 1 && |replies| == n && Answered(ms, g, cs[..n], replies)
    requires IsDir(ms[n], ms[n].cwd) && Step(ms[n], g, cs[n], m) && (cs[n].Read? ==> r == ReadReply(ms[n], cs[n].name))
    ensures Answered(ms + [m], g, cs[..n + 1], replies + [r])
  {
    hide Step, ReadReply;
    var ms', cs' := ms + [m], cs[..n + 1];
    forall k | 0 <= k < n + 1 ensures IsDir(ms'[k], ms'[k].cwd) && Step(ms'[k], g, cs'[k], ms'[k + 1]) {
      if k < n { assert cs[..n][k] == cs'[k]; }
    }
    forall k | 0 <= k < n + 1 && cs'[k].Read? ensures (replies + [r])[k] == ReadReply(ms'[k], cs'[k].name) {
      if k < n { assert cs[..n][k] == cs'[k]; }
    }
  }

  // ---- from an empty device on ----

  lemma NewHealthy(inodeCount: nat)
    requires 0 < inodeCount
    ensures Healthy(Model(map[0 := DirObj(0, [])], 0), inodeCount)
  {
    var m := Model(map[0 := DirObj(0, [])], 0);
    assert Reaches(m, 0, 0);
  }

  /** `main` on a file that holds no volume yet: initialise, open, run. Every state the script passes through is that
      of a sound volume, and comes from the empty root directory by the model's steps. */
  method FreshSession(g: Geometry, existing: seq<byte>, saved: seq<byte>, raw: seq<byte>, cs: seq<Command>)
    returns (fs: Filesystem, end: End, replies: seq<Reply>, ghost ms: seq<Model>, ghost trace: seq<Mount>)
    requires Fits(g) && g.blockSize == g.blockCount && |saved| == |raw| == 20
    requires forall k | 0 <= k < |cs| :: WellFormed(cs[k])
    ensures |replies| <= |cs| && Answered(ms, g, cs[..|replies|], replies)
    ensures Traced(trace, ms, g, cs[..|replies|], replies)
    ensures ms[0] == Model(map[0 := DirObj(0, [])], 0) && Healthy(ms[0], g.inodeCount)
    ensures end.Finished? ==> |replies| == |cs| && OutOfBounds !in replies
    ensures end.Undefined? ==> replies != [] && replies[|replies| - 1] == OutOfBounds
    ensures end.Finished? || end.Undefined? ==> fs.Valid() && fs.View() == ms[|replies|]
    ensures end.Stranded? ==> Sound(fs.W()) && fs.View() == ms[|replies|] && LostAt(ms, cs, |replies|)
    ensures end.Exited? ==> exists w, cwd :: ExitedAt(w, cwd, g, fs.image, ms[|replies|], cs, |replies|)
  {
    hide Sound, Abs, Healthy, Recovers, NewWorld, NewMeta, Load, Answered, LostAt, Traced, ExitedAt;
    var file := Init(g, existing, saved);
    ghost var w := NewWorld(g, file);
    NewParts(g, file);
    fs := new Filesystem.Open(file, raw, w);
    NewHealthy(g.inodeCount);
    end, replies, ms, trace := RunScript(fs, cs);
  }

  lemma NewParts(g: Geometry, file: seq<byte>)
    requires Fits(g) && Sound(NewWorld(g, file))
    ensures var w := NewWorld(g, file);
            Core(w) && Committed(w) && w.image == file && w.m.geo == g
  {
  }
}
