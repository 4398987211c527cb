/** What a user of the file system sees: a table of files and directories, and a current directory.
    There are no blocks here; space appears only as a footprint that must not exceed the block count. */
module Model {
  import opened Bytes
  import opened Layout
  import opened Directory

  datatype Object = FileObj(data: seq<byte>) | DirObj(parent: int, records: seq<Record>)

  datatype Model = Model(objects: map<nat, Object>, cwd: nat)

  datatype Reply =
    | Ok | NameTooLong | NoInodes | NoBlocks | NotFound
    | OutOfSpace      // the program exits; the disk keeps the state of the last commit
    | OutOfBounds     // a block number beyond the block table is used as an index
    | Data(bytes: seq<byte>)

  // ---- space ----

  /** Blocks an inode with `n` bytes owns: at least one, and no more than its bytes need. */
  function Foot(n: nat, blockSize: nat): nat {
    if n == 0 || blockSize == 0 then 1 else (n + blockSize - 1) / blockSize
  }

  function Length(o: Object): nat {
    match o
    case FileObj(data) => |data|
    case DirObj(_, records) => RECORD * |records|
  }

  /** Blocks owned by the objects numbered below `n`. */
  function Usage(m: Model, blockSize: nat, n: nat): nat {
    if n == 0 then 0
    else Usage(m, blockSize, n - 1) + if n - 1 in m.objects then Foot(Length(m.objects[n - 1]), blockSize) else 0
  }

  function Total(m: Model, g: Geometry): nat {
    Usage(m, g.blockSize, g.inodeCount)
  }

  /** The least number below `n`, from `from` on, that names no object; -1 if all do. */
  function Fresh(m: Model, from: nat, n: nat): (r: int)
    ensures -1 <= r < n
    ensures r >= 0 ==> from <= r && r !in m.objects && forall k | from <= k < r :: k in m.objects
    ensures r == -1 <==> forall k: nat | from <= k < n :: k in m.objects
    decreases if from < n then n - from else 0
  {
    if from >= n then -1 else if from !in m.objects then from else Fresh(m, from + 1, n)
  }

  // ---- lookup by name ----

  predicate IsDir(m: Model, i: nat) { i in m.objects && m.objects[i].DirObj? }

  predicate IsFile(m: Model, i: nat) { i in m.objects && m.objects[i].FileObj? }

  /** The record names an object of the wanted kind by `name`; its `used` flag plays no part. */
  predicate Matches(m: Model, r: Record, dir: bool, name: seq<byte>) {
    (if dir then IsDir(m, r.inode) else IsFile(m, r.inode)) && Text(r.name) == name
  }

  /** Record `k` matches, and none behind it does. */
  predicate LastAt(m: Model, rs: seq<Record>, dir: bool, name: seq<byte>, k: nat) {
    k < |rs| && Matches(m, rs[k], dir, name) && forall j | k < j < |rs| :: !Matches(m, rs[j], dir, name)
  }

  /** Record `k` matches, and none before it does. */
  predicate FirstAt(m: Model, rs: seq<Record>, dir: bool, name: seq<byte>, k: nat) {
    k < |rs| && Matches(m, rs[k], dir, name) && forall j | 0 <= j < k :: !Matches(m, rs[j], dir, name)
  }

  /** The inode of the last matching record, or -1. */
  function LastMatch(m: Model, rs: seq<Record>, dir: bool, name: seq<byte>): (t: int)
    ensures t >= 0 ==> exists k :: 0 <= k < |rs| && Matches(m, rs[k], dir, name) && rs[k].inode == t
    ensures t < 0 <==> forall k | 0 <= k < |rs| :: !Matches(m, rs[k], dir, name)
    ensures t >= -1
  {
    if rs == [] then -1
    else if Matches(m, rs[|rs| - 1], dir, name) then rs[|rs| - 1].inode
    else LastMatch(m, rs[..|rs| - 1], dir, name)
  }

  lemma {:induction false} LastMatchIs(m: Model, rs: seq<Record>, dir: bool, name: seq<byte>, k: nat)
    requires LastAt(m, rs, dir, name, k)
    ensures LastMatch(m, rs, dir, name) == rs[k].inode
  {
    hide Matches;
    var n := |rs| - 1;
    if k < n {
      assert forall j | k < j < n :: rs[..n][j] == rs[j];
      LastMatchIs(m, rs[..n], dir, name, k);
    }
  }

  /** The indices of all matching records, in order. */
  function Picks(m: Model, rs: seq<Record>, dir: bool, name: seq<byte>): (ks: seq<nat>)
    ensures forall k :: k in ks <==> 0 <= k < |rs| && Matches(m, rs[k], dir, name)
  {
    if rs == [] then []
    else
      var n := |rs| - 1;
      assert forall k | 0 <= k < n :: rs[k] == rs[..n][k];
      Picks(m, rs[..n], dir, name) + if Matches(m, rs[n], dir, name) then [n] else []
  }

  predicate Ascending(ks: seq<nat>) {
    forall p, q | 0 <= p < q < |ks| :: ks[p] < ks[q]
  }

  lemma {:induction false} PicksAscend(m: Model, rs: seq<Record>, dir: bool, name: seq<byte>)
    ensures Ascending(Picks(m, rs, dir, name))
  {
    hide Matches;
    if rs != [] {
      var n := |rs| - 1;
      var ks := Picks(m, rs[..n], dir, name);
      PicksAscend(m, rs[..n], dir, name);
      forall p | 0 <= p < |ks| ensures ks[p] < n { assert ks[p] in ks; }
      assert Ascending(ks + [n]);
    }
  }

  /** The inode of the first matching record, or -1. */
  function FirstMatch(m: Model, rs: seq<Record>, dir: bool, name: seq<byte>): (t: int)
    ensures t >= 0 ==> exists k :: 0 <= k < |rs| && Matches(m, rs[k], dir, name) && rs[k].inode == t
    ensures t < 0 <==> forall k | 0 <= k < |rs| :: !Matches(m, rs[k], dir, name)
    ensures t >= -1
  {
    if rs == [] then -1
    else if Matches(m, rs[0], dir, name) then rs[0].inode
    else
      var t := FirstMatch(m, rs[1..], dir, name);
      assert forall k | 0 < k < |rs| :: rs[k] == rs[1..][k - 1];
      assert t >= 0 ==> exists k :: 0 <= k < |rs[1..]| && Matches(m, rs[1..][k], dir, name) && rs[1..][k].inode == t;
      t
  }

  lemma {:induction false} FirstMatchIs(m: Model, rs: seq<Record>, dir: bool, name: seq<byte>, k: nat)
    requires FirstAt(m, rs, dir, name, k)
    ensures FirstMatch(m, rs, dir, name) == rs[k].inode
  {
    hide Matches;
    if k > 0 {
      assert forall j | 0 <= j < |rs| - 1 :: rs[1..][j] == rs[j + 1];
      assert !Matches(m, rs[0], dir, name);
      FirstMatchIs(m, rs[1..], dir, name, k - 1);
    }
  }

  lemma {:induction false} LastExists(m: Model, rs: seq<Record>, dir: bool, name: seq<byte>, n: nat) returns (k: nat)
    requires n < |rs| && Matches(m, rs[n], dir, name)
    ensures LastAt(m, rs, dir, name, k)
    decreases |rs| - n
  {
    if j :| n < j < |rs| && Matches(m, rs[j], dir, name) { k := LastExists(m, rs, dir, name, j); } else { k := n; }
  }

  lemma {:induction false} FirstExists(m: Model, rs: seq<Record>, dir: bool, name: seq<byte>, n: nat) returns (k: nat)
    requires n < |rs| && Matches(m, rs[n], dir, name)
    ensures FirstAt(m, rs, dir, name, k)
    decreases n
  {
    if j :| 0 <= j < n && Matches(m, rs[j], dir, name) { k := FirstExists(m, rs, dir, name, j); } else { k := n; }
  }

  function Here(m: Model): seq<Record>
    requires IsDir(m, m.cwd)
  {
    m.objects[m.cwd].records
  }

  // ---- commands ----

  /** `o` under number `id`, with a record for it in the current directory. */
  function Insert(m: Model, id: nat, o: Object, name: seq<byte>): Model
    requires IsDir(m, m.cwd)
  {
    var d := m.objects[m.cwd];
    m.(objects := m.objects[id := o][m.cwd := d.(records := d.records + [Record(1, Field(name), id)])])
  }

  /** `mkdir` and `touch`: `o` is the new, empty object. */
  function Make(m: Model, g: Geometry, o: Object, name: seq<byte>): (Model, Reply)
    requires IsDir(m, m.cwd)
  {
    if |name| > NAME then (m, NameTooLong)
    else if Fresh(m, 0, g.inodeCount) < 0 then (m, NoInodes)
    else if Total(m, g) >= g.blockCount then (m, NoBlocks)
    else
      var m' := Insert(m, Fresh(m, 0, g.inodeCount), o, name);
      if Total(m', g) > g.blockCount then (m, OutOfSpace) else (m', Ok)
  }

  function Written(m: Model, g: Geometry, name: seq<byte>, data: seq<byte>): (Model, Reply)
    requires IsDir(m, m.cwd)
  {
    var t := LastMatch(m, Here(m), false, name);
    if t < 0 then (m, NotFound)
    else
      var m' := m.(objects := m.objects[t := FileObj(m.objects[t].data + data)]);
      if Total(m', g) > g.blockCount then (m, OutOfSpace) else (m', Ok)
  }

  /** What `read` prints of a file: its length is held in a signed word, so from 2^31 bytes on the loop that prints
      never starts. */
  function Shown(data: seq<byte>): seq<byte> {
    if |data| < TWO31 then data else []
  }

  function ReadReply(m: Model, name: seq<byte>): Reply
    requires IsDir(m, m.cwd)
  {
    var t := LastMatch(m, Here(m), false, name);
    if t < 0 then NotFound else Data(Shown(m.objects[t].data))
  }

  /** The reply holds the file's bytes exactly when there are fewer than 2^31 of them. */
  lemma ReadExactly(m: Model, name: seq<byte>)
    requires IsDir(m, m.cwd) && LastMatch(m, Here(m), false, name) >= 0
    ensures var data := m.objects[LastMatch(m, Here(m), false, name)].data;
            && (ReadReply(m, name) == Data(data) <==> |data| < TWO31)
            && (|data| >= TWO31 ==> ReadReply(m, name) == Data([]))
  {
  }

  function Moved(m: Model, name: seq<byte>): (Model, Reply)
    requires IsDir(m, m.cwd)
  {
    if name == [46] then (m, Ok)
    else if name == [46, 46] then
      (if m.objects[m.cwd].parent >= 0 then m.(cwd := m.objects[m.cwd].parent) else m, Ok)
    else
      var t := FirstMatch(m, Here(m), true, name);
      if t < 0 then (m, NotFound) else (m.(cwd := t), Ok)
  }

  // ---- removal ----

  /** A byte of an object, or a part of the file that belongs to none. */
  datatype Place = Nowhere | Byte(inode: nat, pos: nat)

  /** One byte of one object set to zero; in a directory it is the `used` flag of a record. */
  function Scribble(m: Model, p: Place): Model {
    if p.Nowhere? || p.inode !in m.objects then m
    else
      match m.objects[p.inode]
      case FileObj(data) =>
        if p.pos < |data| then m.(objects := m.objects[p.inode := FileObj(data[p.pos := 0])]) else m
      case DirObj(parent, records) =>
        var k := p.pos / RECORD;
        if k < |records| then m.(objects := m.objects[p.inode := DirObj(parent, records[k := records[k].(used := 0)])])
        else m
  }

  function ScribbleAll(m: Model, ps: seq<Place>): Model {
    if ps == [] then m else Scribble(ScribbleAll(m, ps[..|ps| - 1]), ps[|ps| - 1])
  }

  /** Records `ks` with their flags cleared. */
  function Unused(rs: seq<Record>, ks: seq<nat>): (r: seq<Record>)
    ensures |r| == |rs|
  {
    seq(|rs|, k requires 0 <= k < |rs| => if k in ks then rs[k].(used := 0) else rs[k])
  }

  /** The current directory with the flags of records `ks` cleared. */
  function ClearFlags(m: Model, ks: seq<nat>): Model {
    if IsDir(m, m.cwd)
    then m.(objects := m.objects[m.cwd := m.objects[m.cwd].(records := Unused(Here(m), ks))])
    else m
  }

  function Drop(m: Model, t: nat): Model {
    m.(objects := m.objects - {t})
  }

  // ---- sanity ----

  /** Records name inodes that exist in the table, never the root and never their own directory. */
  predicate SaneRecord(r: Record, owner: nat, inodeCount: nat) {
    0 < r.inode < inodeCount && r.inode != owner && |r.name| == NAME && 0 in r.name
  }
}
