/** Two short scripts that reach the two ways a session can break off, on a volume of 4 inodes and 32 blocks. */
module Scripts {
  import opened Bytes
  import opened Layout
  import opened Volume
  import opened Directory
  import opened Model
  import opened Refinement
  import opened Outcomes
  import opened Tree
  import opened Runs
  import opened Filesystem
  import opened Intended
  import opened Session

  const G := Geometry(4, 32, 32)

  // ---- a table without flags and file contents ----

  datatype Entry = Entry(name: seq<byte>, inode: nat)

  /** An empty file, or a directory with its parent and the entries of its records. */
  datatype Thing = Plain | Folder(parent: nat, entries: seq<Entry>)

  datatype Sketch = Sketch(cwd: nat, things: map<nat, Thing>)

  predicate LooksAt(o: Object, x: Thing) {
    match x
    case Plain => o.FileObj? && |o.data| == 0
    case Folder(parent, es) =>
      && o.DirObj? && o.parent == parent && |o.records| == |es| <= 2
      && forall k | 0 <= k < |es| :: Text(o.records[k].name) == es[k].name && o.records[k].inode == es[k].inode
  }

  ghost predicate Looks(m: Model, s: Sketch) {
    && m.cwd == s.cwd && m.objects.Keys == s.things.Keys && s.cwd in s.things && s.things[s.cwd].Folder?
    && forall i | i in s.things :: LooksAt(m.objects[i], s.things[i])
  }

  /** Every entry of the current directory with this name and kind names `t`, and one does. */
  predicate Finds(s: Sketch, folder: bool, name: seq<byte>, t: nat) {
    && s.cwd in s.things && s.things[s.cwd].Folder?
    && var es := s.things[s.cwd].entries;
       && (exists k :: 0 <= k < |es| && Fitting(s, es[k], folder, name))
       && (forall k | 0 <= k < |es| && Fitting(s, es[k], folder, name) :: es[k].inode == t)
  }

  predicate Fitting(s: Sketch, e: Entry, folder: bool, name: seq<byte>) {
    e.name == name && e.inode in s.things && s.things[e.inode].Folder? == folder
  }

  lemma MatchesFit(m: Model, s: Sketch, folder: bool, name: seq<byte>, k: nat)
    requires Looks(m, s) && k < |Here(m)|
    ensures k < |s.things[s.cwd].entries|
    ensures Matches(m, Here(m)[k], folder, name) <==> Fitting(s, s.things[s.cwd].entries[k], folder, name)
    ensures Here(m)[k].inode == s.things[s.cwd].entries[k].inode
  {
    var r := Here(m)[k];
    assert LooksAt(m.objects[m.cwd], s.things[s.cwd]);
    if r.inode in s.things { assert LooksAt(m.objects[r.inode], s.things[r.inode]); }
  }

  lemma Found(m: Model, s: Sketch, folder: bool, name: seq<byte>, t: nat)
    requires Looks(m, s) && Finds(s, folder, name, t)
    ensures IsDir(m, m.cwd) && |Here(m)| == |s.things[s.cwd].entries|
    ensures LastMatch(m, Here(m), folder, name) == t && FirstMatch(m, Here(m), folder, name) == t
  {
    hide Matches, Fitting, LastMatch, FirstMatch;
    assert LooksAt(m.objects[m.cwd], s.things[s.cwd]);
    forall k | 0 <= k < |Here(m)|
      ensures Matches(m, Here(m)[k], folder, name) <==> Fitting(s, s.things[s.cwd].entries[k], folder, name)
      ensures Here(m)[k].inode == s.things[s.cwd].entries[k].inode
    {
      MatchesFit(m, s, folder, name, k);
    }
  }

  // ---- steps ----

  /** The sketch after `x` was created under the least free number `id`. */
  function Created(s: Sketch, id: nat, x: Thing, name: seq<byte>): Sketch
    requires s.cwd in s.things && s.things[s.cwd].Folder?
  {
    var d := s.things[s.cwd];
    s.(things := s.things[id := x][s.cwd := d.(entries := d.entries + [Entry(name, id)])])
  }

  lemma LittleUsage(m: Model, n: nat)
    requires n <= 4 && forall i | i in m.objects :: Length(m.objects[i]) <= 64
    ensures Usage(m, 32, n) <= 2 * n
  {
    if n > 0 {
      LittleUsage(m, n - 1);
      if n - 1 in m.objects { assert Length(m.objects[n - 1]) <= 64; }
    }
  }

  lemma LooksLittle(m: Model, s: Sketch)
    requires Looks(m, s)
    ensures Total(m, G) <= 8
  {
    forall i | i in m.objects ensures Length(m.objects[i]) <= 64 { assert LooksAt(m.objects[i], s.things[i]); }
    LittleUsage(m, 4);
  }

  lemma FreshIs(m: Model, from: nat, id: nat)
    requires from <= id < 4 && id !in m.objects && forall k | from <= k < id :: k in m.objects
    ensures Fresh(m, from, 4) == id
  {
    hide Fresh;
  }

  /** `mkdir` and `touch` succeed. */
  lemma MakeLooks(m: Model, s: Sketch, id: nat, o: Object, x: Thing, name: seq<byte>)
    requires Looks(m, s) && |s.things[s.cwd].entries| <= 1 && LooksAt(o, x)
    requires id < 4 && id !in s.things && forall k | 0 <= k < id :: k in s.things
    requires 0 !in name && |name| < NAME
    ensures IsDir(m, m.cwd) && Make(m, G, o, name).1 == Ok && Looks(Make(m, G, o, name).0, Created(s, id, x, name))
  {
    hide Total, Fresh, Field, Text;
    assert LooksAt(m.objects[m.cwd], s.things[s.cwd]);
    FreshIs(m, 0, id);
    LooksLittle(m, s);
    NameReadsBack(name);
    InsertLooks(m, s, id, o, x, name);
    LooksLittle(Insert(m, id, o, name), Created(s, id, x, name));
  }

  lemma InsertLooks(m: Model, s: Sketch, id: nat, o: Object, x: Thing, name: seq<byte>)
    requires Looks(m, s) && |s.things[s.cwd].entries| <= 1 && LooksAt(o, x) && id !in s.things
    requires Text(Field(name)) == name
    ensures IsDir(m, m.cwd) && Looks(Insert(m, id, o, name), Created(s, id, x, name))
  {
    hide Field, Text;
    assert LooksAt(m.objects[m.cwd], s.things[s.cwd]);
    var m', s' := Insert(m, id, o, name), Created(s, id, x, name);
    forall i | i in s'.things ensures LooksAt(m'.objects[i], s'.things[i]) {
      if i != id && i != s.cwd { assert LooksAt(m.objects[i], s.things[i]); }
    }
  }

  lemma RmdirLooks(m: Model, s: Sketch, name: seq<byte>, t: nat, m': Model)
    requires Looks(m, s) && Finds(s, true, name, t) && t != s.cwd && forall i | i in s.things :: s.things[i].Folder?
    requires IsDir(m, m.cwd) && Step(m, G, Rmdir(name), m')
    ensures Looks(m', s.(things := s.things - {t}))
  {
    hide LastMatch, FirstMatch, ScribbleAll, Finds, Looks, Drop;
    Found(m, s, true, name, t);
    var ps :| m' == Drop(ScribbleAll(m, ps), t);
    ScribbledLooks(m, s, ps);
    DropLooks(ScribbleAll(m, ps), s, t);
  }

  /** Zeros show in flags only. */
  lemma ScribbledLooks(m: Model, s: Sketch, ps: seq<Place>)
    requires Looks(m, s) && forall i | i in s.things :: s.things[i].Folder?
    ensures Looks(ScribbleAll(m, ps), s)
  {
    hide ScribbleAll, Text;
    ScribbleAllKeepsDirs(m, ps);
    var v := ScribbleAll(m, ps);
    forall i | i in s.things ensures LooksAt(v.objects[i], s.things[i]) {
      assert LooksAt(m.objects[i], s.things[i]);
      assert IsDir(m, i) && IsDir(v, i);
      assert SameNames(m.objects[i].records, v.objects[i].records);
    }
  }

  lemma DropLooks(m: Model, s: Sketch, t: nat)
    requires Looks(m, s) && t != s.cwd
    ensures Looks(Drop(m, t), s.(things := s.things - {t}))
  {
    hide LooksAt;
  }

  lemma CdLooks(m: Model, s: Sketch, name: seq<byte>, t: nat)
    requires Looks(m, s) && Finds(s, true, name, t) && name != [46] && name != [46, 46]
    ensures IsDir(m, m.cwd) && Looks(Moved(m, name).0, s.(cwd := t))
  {
    hide LastMatch, FirstMatch;
    Found(m, s, true, name, t);
  }

  lemma UpLooks(m: Model, s: Sketch)
    requires Looks(m, s)
    ensures IsDir(m, m.cwd) && m.objects[m.cwd].parent == s.things[s.cwd].parent
    ensures Moved(m, [46, 46]).0 == m.(cwd := s.things[s.cwd].parent)
    ensures var p := s.things[s.cwd].parent;
            p in s.things && s.things[p].Folder? ==> Looks(Moved(m, [46, 46]).0, s.(cwd := p))
  {
    assert LooksAt(m.objects[m.cwd], s.things[s.cwd]);
  }

  // ---- a session that ends without a current directory ----

  const X := [120]
  const Y := [121]
  const Z := [122]
  const UP := [46, 46]

  /** A record of `x` outlives its directory and comes to name a directory inside `y`; `y` is removed; the way through
      the old record leads inside, and `cd ..` leads nowhere. */
  function StrandingScript(): seq<Command> {
    [Mkdir(X), Mkdir(Y), Rmdir(X), Cd(Y), Mkdir(Z), Cd(UP), Rmdir(Y), Cd(X), Cd(UP)]
  }

  /** The state before command number `k`. */
  function StrandingState(k: nat): Sketch {
    var x, y, z := Entry(X, 1), Entry(Y, 2), Entry(Z, 1);
    match k
    case 0 => Sketch(0, map[0 := Folder(0, [])])
    case 1 => Sketch(0, map[0 := Folder(0, [x]), 1 := Folder(0, [])])
    case 2 => Sketch(0, map[0 := Folder(0, [x, y]), 1 := Folder(0, []), 2 := Folder(0, [])])
    case 3 => Sketch(0, map[0 := Folder(0, [x, y]), 2 := Folder(0, [])])
    case 4 => Sketch(2, map[0 := Folder(0, [x, y]), 2 := Folder(0, [])])
    case 5 => Sketch(2, map[0 := Folder(0, [x, y]), 2 := Folder(0, [z]), 1 := Folder(2, [])])
    case 6 => Sketch(0, map[0 := Folder(0, [x, y]), 2 := Folder(0, [z]), 1 := Folder(2, [])])
    case 7 => Sketch(0, map[0 := Folder(0, [x, y]), 1 := Folder(2, [])])
    case _ => Sketch(1, map[0 := Folder(0, [x, y]), 1 := Folder(2, [])])
  }

  lemma MakeStep(m: Model, m': Model, s: Sketch, id: nat, name: seq<byte>, s': Sketch)
    requires Looks(m, s) && |s.things[s.cwd].entries| <= 1 && s' == Created(s, id, Folder(s.cwd, []), name)
    requires id < 4 && id !in s.things && forall k | 0 <= k < id :: k in s.things
    requires 0 !in name && |name| < NAME
    ensures IsDir(m, m.cwd) && Make(m, G, DirObj(m.cwd, []), name).1 == Ok
    ensures Step(m, G, Mkdir(name), m') ==> Looks(m', s')
  {
    hide Make, Looks, Created;
    LooksHere(m, s);
    MakeLooks(m, s, id, DirObj(m.cwd, []), Folder(s.cwd, []), name);
  }

  lemma RmdirStep(m: Model, m': Model, s: Sketch, name: seq<byte>, t: nat, s': Sketch)
    requires Looks(m, s) && Finds(s, true, name, t) && t != s.cwd && forall i | i in s.things :: s.things[i].Folder?
    requires s' == s.(things := s.things - {t})
    ensures IsDir(m, m.cwd) && (Step(m, G, Rmdir(name), m') ==> Looks(m', s'))
  {
    hide Looks, Finds, Step;
    LooksHere(m, s);
    if Step(m, G, Rmdir(name), m') { RmdirLooks(m, s, name, t, m'); }
  }

  lemma LooksHere(m: Model, s: Sketch)
    requires Looks(m, s)
    ensures IsDir(m, m.cwd) && m.cwd == s.cwd && s.cwd in s.things && s.things[s.cwd].Folder?
    ensures m.objects.Keys == s.things.Keys && m.objects[m.cwd].parent == s.things[s.cwd].parent
    ensures forall i: nat :: IsDir(m, i) <==> i in s.things && s.things[i].Folder?
  {
    assert LooksAt(m.objects[m.cwd], s.things[s.cwd]);
    forall i: nat ensures IsDir(m, i) <==> i in s.things && s.things[i].Folder? {
      if i in s.things { assert LooksAt(m.objects[i], s.things[i]); }
    }
  }

  lemma FindsAt(s: Sketch, folder: bool, name: seq<byte>, t: nat, k: nat)
    requires s.cwd in s.things && s.things[s.cwd].Folder? && k < |s.things[s.cwd].entries|
    requires Fitting(s, s.things[s.cwd].entries[k], folder, name)
    requires forall j | 0 <= j < |s.things[s.cwd].entries| && s.things[s.cwd].entries[j].name == name ::
               s.things[s.cwd].entries[j].inode == t
    ensures Finds(s, folder, name, t)
  {
  }

  /** Command number `k` leads from its state to the next, and is answered without an exit. */
  ghost predicate Advances(m: Model, m': Model, c: Command, s': Sketch) {
    && IsDir(m, m.cwd) && (Step(m, G, c, m') ==> Looks(m', s')) && !Strands(m, c)
    && (c.Mkdir? ==> Make(m, G, DirObj(m.cwd, []), c.name).1 == Ok)
    && (c.Touch? ==> Make(m, G, FileObj([]), c.name).1 == Ok)
  }

  /** No exit for lack of blocks then. */
  lemma NoExit(w: World, cwd: nat, m': Model, c: Command, s': Sketch)
    requires LiveDir(w, cwd) && w.m.geo == G && Advances(Abs(w, cwd), m', c, s') && !c.Write?
    ensures Effect(w, cwd, c).1 != OutOfSpace
  {
    hide Make, LastMatch, Picks, Step, Strands;
  }

  lemma OnlyRm(w: World, cwd: nat, c: Command)
    requires LiveDir(w, cwd) && Effect(w, cwd, c).1 == OutOfBounds
    ensures c.Rm?
  {
    hide LastMatch, Picks, Total;
  }

  lemma Touches(m: Model, m': Model, s: Sketch, id: nat, name: seq<byte>, es: seq<Entry>, s': Sketch)
    requires Looks(m, s) && es == s.things[s.cwd].entries + [Entry(name, id)] && |es| <= 2
    requires s' == s.(things := s.things[id := Plain][s.cwd := s.things[s.cwd].(entries := es)])
    requires id < 4 && id !in s.things && forall k | 0 <= k < id :: k in s.things
    requires 0 !in name && |name| < NAME
    ensures Advances(m, m', Touch(name), s')
  {
    hide Looks, Make;
    LooksHere(m, s);
    MakeLooks(m, s, id, FileObj([]), Plain, name);
  }

  lemma Makes(m: Model, m': Model, s: Sketch, id: nat, name: seq<byte>, es: seq<Entry>, s': Sketch)
    requires Looks(m, s) && es == s.things[s.cwd].entries + [Entry(name, id)] && |es| <= 2
    requires s' == s.(things := s.things[id := Folder(s.cwd, [])][s.cwd := s.things[s.cwd].(entries := es)])
    requires id < 4 && id !in s.things && forall k | 0 <= k < id :: k in s.things
    requires 0 !in name && |name| < NAME
    ensures Advances(m, m', Mkdir(name), s')
  {
    hide Looks, Make, Step;
    LooksHere(m, s);
    MakeStep(m, m', s, id, name, s');
  }

  lemma Rmdirs(m: Model, m': Model, s: Sketch, name: seq<byte>, t: nat, s': Sketch)
    requires Looks(m, s) && Finds(s, true, name, t) && t != s.cwd && forall i | i in s.things :: s.things[i].Folder?
    requires s' == s.(things := s.things - {t})
    ensures Advances(m, m', Rmdir(name), s')
  {
    hide Looks, Finds, Step;
    RmdirStep(m, m', s, name, t, s');
  }

  lemma Cds(m: Model, m': Model, s: Sketch, name: seq<byte>, t: nat, s': Sketch)
    requires Looks(m, s) && Finds(s, true, name, t) && name != [46] && name != UP && s' == s.(cwd := t)
    ensures Advances(m, m', Cd(name), s')
  {
    hide Looks, Finds, Moved;
    CdLooks(m, s, name, t);
  }

  lemma Ups(m: Model, m': Model, s: Sketch, p: nat, s': Sketch)
    requires Looks(m, s) && p == s.things[s.cwd].parent && p in s.things && s.things[p].Folder? && s' == s.(cwd := p)
    ensures Advances(m, m', Cd(UP), s')
  {
    hide Looks, Moved;
    LooksHere(m, s);
    UpLooks(m, s);
  }

  lemma StrandingStep(m: Model, m': Model, k: nat)
    requires k < 8 && Looks(m, StrandingState(k))
    ensures Advances(m, m', StrandingScript()[k], StrandingState(k + 1))
  {
    hide Looks, Advances, StrandingState, StrandingScript;
    ScriptLength();
    if k < 4 { FirstHalf(m, m', k); } else { SecondHalf(m, m', k); }
  }

  lemma ScriptLength()
    ensures |StrandingScript()| == 9
  {
  }

  lemma FirstHalf(m: Model, m': Model, k: nat)
    requires k < 4 && Looks(m, StrandingState(k))
    ensures Advances(m, m', StrandingScript()[k], StrandingState(k + 1))
  {
    hide Looks, Advances, Finds;
    var s, s' := StrandingState(k), StrandingState(k + 1);
    match k {
      case 0 => Makes(m, m', s, 1, X, [Entry(X, 1)], s');
      case 1 => Makes(m, m', s, 2, Y, [Entry(X, 1), Entry(Y, 2)], s');
      case 2 => FindsAt(s, true, X, 1, 0); DropOne(s, 1, s'); Rmdirs(m, m', s, X, 1, s');
      case _ => FindsAt(s, true, Y, 2, 1); Cds(m, m', s, Y, 2, s');
    }
  }

  lemma SecondHalf(m: Model, m': Model, k: nat)
    requires 4 <= k < 8 && Looks(m, StrandingState(k))
    ensures Advances(m, m', StrandingScript()[k], StrandingState(k + 1))
  {
    hide Looks, Advances, Finds;
    var s, s' := StrandingState(k), StrandingState(k + 1);
    match k {
      case 4 => Makes(m, m', s, 1, Z, [Entry(Z, 1)], s');
      case 5 => Ups(m, m', s, 0, s');
      case 6 => FindsAt(s, true, Y, 2, 1); DropOne(s, 2, s'); Rmdirs(m, m', s, Y, 2, s');
      case _ => FindsAt(s, true, X, 1, 0); Cds(m, m', s, X, 1, s');
    }
  }

  lemma DropOne(s: Sketch, t: nat, s': Sketch)
    requires s'.cwd == s.cwd && s'.things.Keys == s.things.Keys - {t}
    requires forall i | i in s'.things :: s'.things[i] == s.things[i]
    ensures s' == s.(things := s.things - {t})
  {
    assert s'.things == s.things - {t};
  }

  const EMPTY_VOLUME := Model(map[0 := DirObj(0, [])], 0)

  lemma EmptyLooks()
    ensures Looks(EMPTY_VOLUME, Sketch(0, map[0 := Folder(0, [])]))
  {
  }

  lemma {:induction false} StrandingRun(ms: seq<Model>, n: nat, k: nat)
    requires n <= 9 && k <= n && k <= 8 && Run(ms, G, StrandingScript()[..n]) && ms[0] == EMPTY_VOLUME
    ensures Looks(ms[k], StrandingState(k))
  {
    hide Looks, Advances, Step, StrandingScript, StrandingState;
    if k == 0 {
      EmptyLooks();
      FirstState();
    } else {
      StrandingRun(ms, n, k - 1);
      ScriptAt(n, k - 1);
      StrandingAdvances(ms[k - 1], ms[k], k - 1);
    }
  }

  lemma FirstState()
    ensures StrandingState(0) == Sketch(0, map[0 := Folder(0, [])]) && |StrandingScript()| == 9
  {
  }

  lemma ScriptAt(n: nat, k: nat)
    requires k < n <= 9
    ensures |StrandingScript()| == 9 && StrandingScript()[..n][k] == StrandingScript()[k]
  {
  }

  lemma StrandingAdvances(m: Model, m': Model, k: nat)
    requires k < 8 && |StrandingScript()| == 9 && Looks(m, StrandingState(k))
    requires IsDir(m, m.cwd) ==> Step(m, G, StrandingScript()[k], m')
    ensures Looks(m', StrandingState(k + 1))
  {
    hide Looks, Step, StrandingState;
    StrandingStep(m, m', k);
  }

  /** The last command finds no directory above. */
  lemma LastClimb(m: Model, m': Model)
    requires Looks(m, StrandingState(8)) && IsDir(m, m.cwd) && Step(m, G, Cd(UP), m')
    ensures !IsDir(m', m'.cwd)
  {
    hide Looks, Moved;
    LooksHere(m, StrandingState(8));
    UpLooks(m, StrandingState(8));
  }

  /** What a session that ran `n` commands of a script says about command number `k`. */
  ghost predicate Ran(trace: seq<Mount>, ms: seq<Model>, cs: seq<Command>, replies: seq<Reply>, k: nat) {
    && k < |cs| && k < |trace| && k + 1 < |ms| && k < |replies|
    && TracedAt(trace[k], G, cs[k], ms[k], ms[k + 1], replies[k])
  }

  lemma RanAt(trace: seq<Mount>, ms: seq<Model>, cs: seq<Command>, replies: seq<Reply>, n: nat, k: nat)
    requires k < n == |replies| <= |cs| && Traced(trace, ms, G, cs[..n], replies)
    ensures Ran(trace, ms, cs, replies, k)
  {
    hide TracedAt;
    assert cs[..n][k] == cs[k];
  }

  /** The session does not end before the last command. */
  lemma StrandingGoesOn(image: seq<byte>, trace: seq<Mount>, ms: seq<Model>, replies: seq<Reply>)
    requires |replies| <= 9 && Answered(ms, G, StrandingScript()[..|replies|], replies) && ms[0] == EMPTY_VOLUME
    requires Traced(trace, ms, G, StrandingScript()[..|replies|], replies)
    ensures !exists w, cwd :: ExitedAt(w, cwd, G, image, ms[|replies|], StrandingScript(), |replies|)
    ensures replies != [] ==> replies[|replies| - 1] != OutOfBounds
    ensures |replies| == 9 ==> !IsDir(ms[9], ms[9].cwd)
  {
    hide Looks, Advances, Step, StrandingState, Effect, TracedAt, Recovers;
    var n, cs := |replies|, StrandingScript();
    StrandingRun(ms, n, if n < 8 then n else 8);
    forall w, cwd | ExitedAt(w, cwd, G, image, ms[n], cs, n) ensures false {
      if n < 8 {
        StrandingStep(ms[n], ms[n], n);
        NoExit(w, cwd, ms[n], cs[n], StrandingState(n + 1));
      } else {
        CdNeverExits(w, cwd, UP);
      }
    }
    if n > 0 {
      RanAt(trace, ms, cs, replies, n, n - 1);
      NotRm(trace, ms, cs, replies, n - 1);
    }
    if n == 9 {
      assert cs[..9] == cs && IsDir(ms[8], ms[8].cwd) && Step(ms[8], G, cs[8], ms[9]);
      LastClimb(ms[8], ms[9]);
    }
  }

  lemma CdNeverExits(w: World, cwd: nat, name: seq<byte>)
    requires LiveDir(w, cwd)
    ensures Effect(w, cwd, Cd(name)).1 != OutOfSpace
  {
    hide Abs, FirstMatch;
    AbsDir(w, cwd);
  }

  lemma NotRm(trace: seq<Mount>, ms: seq<Model>, cs: seq<Command>, replies: seq<Reply>, k: nat)
    requires Ran(trace, ms, cs, replies, k) && !cs[k].Rm?
    ensures replies[k] != OutOfBounds
  {
    hide Effect, Abs;
    if replies[k] == OutOfBounds { OnlyRm(trace[k].w, trace[k].cwd, cs[k]); }
  }

  /** Initialise, open, and run that script: it leaves a sound volume and no current directory. */
  method StrandedSession(existing: seq<byte>, saved: seq<byte>, raw: seq<byte>) returns (fs: Filesystem, end: End)
    requires |saved| == |raw| == 20
    ensures end.Stranded? && Sound(fs.W()) && !LiveDir(fs.W(), fs.currentDir)
  {
    hide Sound, Abs, LiveDir, Answered, Traced, ExitedAt, LostAt, IsDir;
    var replies;
    ghost var ms, trace;
    GFits();
    fs, end, replies, ms, trace := FreshSession(G, existing, saved, raw, StrandingScript());
    StrandingGoesOn(fs.image, trace, ms, replies);
    DirIff(fs.W(), fs.currentDir);
    if end.Stranded? { LostIs(ms, StrandingScript(), |replies|); }
  }

  lemma GFits()
    ensures Fits(G) && |StrandingScript()| == 9
    ensures forall k | 0 <= k < 9 :: WellFormed(StrandingScript()[k])
  {
  }

  lemma LostIs(ms: seq<Model>, cs: seq<Command>, n: nat)
    requires LostAt(ms, cs, n)
    ensures n < |ms| && !IsDir(ms[n], ms[n].cwd)
  {
  }

  // ---- a session that leaves the block table ----

  const A := [97]
  const P := [112]
  const Q := [113]

  /** `q` is inode 3 in a directory whose one block holds one record, so `rm q` clears "record 3" of it. */
  function StrayScript(): seq<Command> {
    [Mkdir(A), Touch(P), Cd(A), Touch(Q), Rm(Q)]
  }

  /** The state before command number `k`. */
  function StrayState(k: nat): Sketch {
    var a, p, q := Entry(A, 1), Entry(P, 2), Entry(Q, 3);
    match k
    case 0 => Sketch(0, map[0 := Folder(0, [])])
    case 1 => Sketch(0, map[0 := Folder(0, [a]), 1 := Folder(0, [])])
    case 2 => Sketch(0, map[0 := Folder(0, [a, p]), 1 := Folder(0, []), 2 := Plain])
    case 3 => Sketch(1, map[0 := Folder(0, [a, p]), 1 := Folder(0, []), 2 := Plain])
    case _ => Sketch(1, map[0 := Folder(0, [a, p]), 1 := Folder(0, [q]), 2 := Plain, 3 := Plain])
  }

  lemma StrayStep(m: Model, m': Model, k: nat)
    requires k < 4 && Looks(m, StrayState(k))
    ensures Advances(m, m', StrayScript()[k], StrayState(k + 1))
  {
    hide Looks, Advances, Finds;
    var s, s' := StrayState(k), StrayState(k + 1);
    match k {
      case 0 => Makes(m, m', s, 1, A, [Entry(A, 1)], s');
      case 1 => Touches(m, m', s, 2, P, [Entry(A, 1), Entry(P, 2)], s');
      case 2 => FindsAt(s, true, A, 1, 0); Cds(m, m', s, A, 1, s');
      case _ => Touches(m, m', s, 3, Q, [Entry(Q, 3)], s');
    }
  }

  lemma {:induction false} StrayRun(ms: seq<Model>, n: nat, k: nat)
    requires n <= 5 && k <= n && k <= 4 && |StrayScript()| == 5
    requires Run(ms, G, StrayScript()[..n]) && ms[0] == EMPTY_VOLUME
    ensures Looks(ms[k], StrayState(k))
  {
    hide Looks, Step, StrayScript;
    if k == 0 {
      EmptyLooks();
    } else {
      StrayRun(ms, n, k - 1);
      assert StrayScript()[..n][k - 1] == StrayScript()[k - 1];
      StrayAdvances(ms[k - 1], ms[k], k - 1);
    }
  }

  lemma StrayAdvances(m: Model, m': Model, k: nat)
    requires k < 4 && |StrayScript()| == 5 && Looks(m, StrayState(k))
    requires IsDir(m, m.cwd) ==> Step(m, G, StrayScript()[k], m')
    ensures Looks(m', StrayState(k + 1))
  {
    hide Looks, Step, StrayState;
    StrayStep(m, m', k);
  }

  /** There the walk leaves the table. */
  lemma RmStrays(w: World, cwd: nat)
    requires Sound(w) && LiveDir(w, cwd) && w.m.geo == G && Looks(Abs(w, cwd), StrayState(4))
    ensures Effect(w, cwd, Rm(Q)).1 == OutOfBounds
  {
    hide Sound, LiveDir, Abs, LastMatch, Picks, FirstMatch, Looks, Content;
    var m, s := Abs(w, cwd), StrayState(4);
    FindsAt(s, false, Q, 3, 0);
    Found(m, s, false, Q, 3);
    AbsDir(w, cwd);
    OneBlock(w, cwd);
    RmOutOfBounds(w, cwd, Q);
  }

  /** A directory with one record owns one block, which holds no more. */
  lemma OneBlock(w: World, cwd: nat)
    requires Sound(w) && LiveDir(w, cwd) && w.m.geo == G && IsDir(Abs(w, cwd), cwd) && Abs(w, cwd).cwd == cwd
    requires |Here(Abs(w, cwd))| == 1
    ensures cwd < |w.chains| && |w.chains[cwd]| == 1 && PerBlock(w.m.geo) == 1
  {
    hide Core, Content, SaneRecords;
    AbsDir(w, cwd);
    assert GoodAt(w, cwd);
    assert |Content(w, cwd)| == 32;
  }

  lemma StrayGoesOn(image: seq<byte>, trace: seq<Mount>, ms: seq<Model>, replies: seq<Reply>)
    requires |replies| <= 5 == |StrayScript()|
    requires Answered(ms, G, StrayScript()[..|replies|], replies) && ms[0] == EMPTY_VOLUME
    requires Traced(trace, ms, G, StrayScript()[..|replies|], replies)
    ensures !exists w, cwd :: ExitedAt(w, cwd, G, image, ms[|replies|], StrayScript(), |replies|)
    ensures |replies| == 5 ==> OutOfBounds in replies
    ensures !LostAt(ms, StrayScript(), |replies|)
  {
    hide Looks, Advances, Step, StrayState, Effect, TracedAt, Recovers;
    var n, cs := |replies|, StrayScript();
    StrayRun(ms, n, if n < 4 then n else 4);
    forall w, cwd | ExitedAt(w, cwd, G, image, ms[n], cs, n) ensures false {
      if n < 4 {
        StrayStep(ms[n], ms[n], n);
        NoExit(w, cwd, ms[n], cs[n], StrayState(n + 1));
      } else {
        RmNeverExits(w, cwd, Q);
      }
    }
    if n == 5 {
      RanAt(trace, ms, cs, replies, n, 4);
      LastStrays(trace, ms, cs, replies);
      assert replies[4] in replies;
    }
  }

  lemma RmNeverExits(w: World, cwd: nat, name: seq<byte>)
    requires LiveDir(w, cwd)
    ensures Effect(w, cwd, Rm(name)).1 != OutOfSpace
  {
    hide Abs, LastMatch, Picks;
  }

  lemma LastStrays(trace: seq<Mount>, ms: seq<Model>, cs: seq<Command>, replies: seq<Reply>)
    requires Ran(trace, ms, cs, replies, 4) && cs[4] == Rm(Q) && Looks(ms[4], StrayState(4))
    ensures replies[4] == OutOfBounds
  {
    hide Effect, Abs, Looks, Sound, LiveDir;
    RmStrays(trace[4].w, trace[4].cwd);
  }

  /** Initialise, open, and run that script: it ends with a look-up of block number 2^32 - 1. */
  method StraySession(existing: seq<byte>, saved: seq<byte>, raw: seq<byte>) returns (fs: Filesystem, end: End)
    requires |saved| == |raw| == 20
    ensures end.Undefined? && fs.Valid()
  {
    hide Sound, Abs, LiveDir, Answered, Traced, ExitedAt, LostAt, IsDir;
    var replies;
    ghost var ms, trace;
    GFits();
    StrayFits();
    fs, end, replies, ms, trace := FreshSession(G, existing, saved, raw, StrayScript());
    StrayGoesOn(fs.image, trace, ms, replies);
  }

  lemma StrayFits()
    ensures |StrayScript()| == 5 && forall k | 0 <= k < 5 :: WellFormed(StrayScript()[k])
  {
  }
}
