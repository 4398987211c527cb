/** Directory records, and where the bytes of an inode lie on disk. */
module Directory {
  import opened Bytes
  import opened Layout
  import opened Metadata
  import opened Volume
  import opened Append

  const NAME := 27  // MAX_FILENAME_SIZE

  /** One record: the flag, the name field with its padding, and the inode it names. */
  datatype Record = Record(used: byte, name: seq<byte>, inode: nat)

  predicate Valid(r: Record) {
    |r.name| == NAME && 0 in r.name && r.inode < TWO32
  }

  function EncodeRecord(r: Record): (s: seq<byte>)
    requires |r.name| == NAME
    ensures |s| == RECORD
  {
    [r.used] + r.name + Encode32(r.inode)
  }

  function RecordAt(c: seq<byte>, off: nat): Record {
    Record(At(c, off), Slice(c, off + 1, NAME), DecodeU32(Slice(c, off + 1 + NAME, 4)))
  }

  /** The records a directory's bytes spell. */
  function Records(c: seq<byte>): (s: seq<Record>)
    ensures |s| == |c| / RECORD
  {
    seq(|c| / RECORD, k requires 0 <= k => RecordAt(c, RECORD * k))
  }

  lemma RecordBack(c: seq<byte>, off: nat, r: Record)
    requires |r.name| == NAME && r.inode < TWO32 && Holds(c, off, EncodeRecord(r))
    ensures RecordAt(c, off) == r
  {
    var u, n, d := [r.used], r.name, Encode32(r.inode);
    HoldsParts(c, off, u + n, d);
    HoldsParts(c, off, u, n);
    HoldsSlice(c, off + 1, n);
    HoldsSlice(c, off + 1 + NAME, d);
    assert At(c, off + 0) == u[0];
    U32RoundTrip(r.inode);
  }

  lemma RecordFrame(c: seq<byte>, d: seq<byte>, off: nat)
    requires forall j: nat | off <= j < off + RECORD :: At(c, j) == At(d, j)
    ensures RecordAt(c, off) == RecordAt(d, off)
  {
    SameSlice(c, off + 1, d, off + 1, NAME);
    SameSlice(c, off + 1 + NAME, d, off + 1 + NAME, 4);
  }

  /** Appending an encoded record to a directory adds exactly that record at the end. */
  lemma RecordsAppend(c: seq<byte>, r: Record)
    requires |c| % RECORD == 0 && |r.name| == NAME && r.inode < TWO32
    ensures Records(c + EncodeRecord(r)) == Records(c) + [r]
  {
    hide RecordAt;
    var d := c + EncodeRecord(r);
    forall k | 0 <= k < |c| / RECORD ensures Records(d)[k] == Records(c)[k] {
      RecordFrame(d, c, RECORD * k);
    }
    RecordBack(d, |c|, r);
    assert Records(d)[|c| / RECORD] == r;
  }

  function EncodeAll(rs: seq<Record>): (s: seq<byte>)
    requires forall k | 0 <= k < |rs| :: Valid(rs[k])
    ensures |s| == RECORD * |rs|
  {
    if rs == [] then []
    else
      assert Valid(rs[|rs| - 1]);
      EncodeAll(rs[..|rs| - 1]) + EncodeRecord(rs[|rs| - 1])
  }

  /** Reading a directory undoes writing it: all records, in order. */
  lemma {:induction false} RecordsRoundTrip(rs: seq<Record>)
    requires forall k | 0 <= k < |rs| :: Valid(rs[k])
    ensures Records(EncodeAll(rs)) == rs
  {
    hide EncodeRecord, RecordAt;
    if rs != [] {
      var n := |rs| - 1;
      RecordsRoundTrip(rs[..n]);
      assert Valid(rs[n]);
      RecordsAppend(EncodeAll(rs[..n]), rs[n]);
    }
  }

  /** A zero written at a multiple of the record size clears one used flag and nothing else. */
  lemma RecordsCleared(c: seq<byte>, p: nat)
    requires p < |c| && p % RECORD == 0 && |c| % RECORD == 0
    ensures p / RECORD < |Records(c)|
    ensures Records(c[p := 0]) == Records(c)[p / RECORD := Records(c)[p / RECORD].(used := 0)]
  {
    var d, n := c[p := 0], p / RECORD;
    forall k | 0 <= k < |c| / RECORD && k != n ensures Records(d)[k] == Records(c)[k] {
      RecordFrame(d, c, RECORD * k);
    }
    SameSlice(d, p + 1, c, p + 1, NAME);
    SameSlice(d, p + 1 + NAME, c, p + 1 + NAME, 4);
    assert RECORD * n == p;
    assert Records(d)[n] == Records(c)[n].(used := 0);
  }

  // ---- names ----

  /** The C string in a name field. */
  function Text(field: seq<byte>): (s: seq<byte>)
    ensures 0 !in s && |s| <= |field| && s == field[..|s|]
    ensures |s| < |field| ==> field[|s|] == 0
  {
    if field == [] || field[0] == 0 then [] else [field[0]] + Text(field[1..])
  }

  /** The field that stores a name: cut to 26 bytes and padded with zeros. */
  function Field(name: seq<byte>): (f: seq<byte>)
    ensures |f| == NAME
    ensures 0 in f
  {
    var n := if |name| < NAME then |name| else NAME - 1;
    var f := name[..n] + Zeros(NAME - n);
    assert f[n] == 0;
    f
  }

  lemma {:induction false} TextUnique(field: seq<byte>, s: seq<byte>)
    requires 0 !in s && |s| < |field| && field[..|s|] == s && field[|s|] == 0
    ensures Text(field) == s
  {
    if s != [] {
      assert field[0] == s[0];
      assert field[1..][..|s| - 1] == s[1..];
      TextUnique(field[1..], s[1..]);
    }
  }

  /** A stored name reads back whole up to 26 bytes; a 27-byte name loses its last byte and never matches itself. */
  lemma NameReadsBack(name: seq<byte>)
    requires 0 !in name && |name| <= NAME
    ensures Text(Field(name)) == name[..if |name| < NAME then |name| else NAME - 1]
    ensures Text(Field(name)) == name <==> |name| < NAME
  {
    TextUnique(Field(name), name[..if |name| < NAME then |name| else NAME - 1]);
  }

  // ---- where the bytes of an inode are ----

  lemma {:induction false} GatherPrefix(w: World, c: seq<nat>, n: nat)
    requires n <= |c|
    ensures Gather(w, c[..n]) <= Gather(w, c)
  {
    if n == |c| {
      assert c[..n] == c;
    } else {
      assert c[..|c| - 1][..n] == c[..n];
      GatherPrefix(w, c[..|c| - 1], n);
    }
  }

  /** The bytes at `o` of block `p` of the chain are those at `p * blockSize + o` of the inode. */
  lemma ContentOnDisk(w: World, i: nat, p: nat, o: nat, n: nat)
    requires Core(w) && Live(w, i) && p < |w.chains[i]|
    requires w.chains[i][p] < |w.m.blocks| && o + n <= w.m.blocks[w.chains[i][p]].size
    ensures p * w.m.geo.blockSize + o + n <= |Content(w, i)|
    ensures 0 <= p * w.m.geo.blockSize
    ensures Slice(Content(w, i), p * w.m.geo.blockSize + o, n)
         == Slice(w.image, BodyStart(w.m.geo, w.chains[i][p]) + o, n)
  {
    var b := w.chains[i][p];
    var before := BlocksBefore(w, i, p);
    PrefixSlice(before, Body(w, b), Content(w, i), o, n);
    InnerSlice(w.image, BodyStart(w.m.geo, b), w.m.blocks[b].size, o, n);
  }

  /** What the blocks before number `p` hold: `p` full blocks, followed by the bytes of block `p`. */
  ghost function BlocksBefore(w: World, i: nat, p: nat): (s: seq<byte>)
    requires Core(w) && Live(w, i) && p < |w.chains[i]|
    ensures |s| == p * w.m.geo.blockSize
    ensures s + Body(w, w.chains[i][p]) <= Content(w, i)
  {
    var c := w.chains[i];
    FullPrefix(w, i, p);
    GatherPrefix(w, c, p + 1);
    assert c[..p + 1][..p] == c[..p];
    Gather(w, c[..p])
  }

  lemma PrefixSlice(a: seq<byte>, b: seq<byte>, all: seq<byte>, o: nat, n: nat)
    requires a + b <= all && o + n <= |b|
    ensures Slice(all, |a| + o, n) == Slice(b, o, n)
  {
    forall j: nat | |a| + o <= j < |a| + o + n ensures At(all, j) == At(b, j - (|a| + o) + o) {
      assert all[j] == (a + b)[j];
    }
    SameSlice(all, |a| + o, b, o, n);
  }

  lemma InnerSlice(f: seq<byte>, start: nat, size: nat, o: nat, n: nat)
    requires o + n <= size
    ensures Slice(Slice(f, start, size), o, n) == Slice(f, start + o, n)
  {
    SameSlice(Slice(f, start, size), o, f, start + o, n);
  }

  lemma RecordSame(c: seq<byte>, a: nat, f: seq<byte>, b: nat)
    requires Slice(c, a, RECORD) == Slice(f, b, RECORD)
    ensures RecordAt(c, a) == RecordAt(f, b)
  {
    assert Slice(c, a, RECORD)[0] == At(c, a) && Slice(f, b, RECORD)[0] == At(f, b);
    SubSlice(c, a, RECORD, 1, NAME);
    SubSlice(f, b, RECORD, 1, NAME);
    SubSlice(c, a, RECORD, 1 + NAME, 4);
    SubSlice(f, b, RECORD, 1 + NAME, 4);
  }

  /** Record `n` of a directory stands on disk in one piece: no record straddles two blocks. */
  lemma RecordOnDisk(w: World, i: nat, p: nat, k: nat, n: nat)
    requires Core(w) && Live(w, i) && p < |w.chains[i]| && |Content(w, i)| % RECORD == 0
    requires w.chains[i][p] < |w.m.blocks| && RECORD * k < w.m.blocks[w.chains[i][p]].size
    requires RECORD * n == p * w.m.geo.blockSize + RECORD * k
    ensures n < |Records(Content(w, i))|
    ensures Records(Content(w, i))[n] == RecordAt(w.image, BodyStart(w.m.geo, w.chains[i][p]) + RECORD * k)
    ensures RECORD * k + RECORD <= w.m.blocks[w.chains[i][p]].size
  {
    hide Linked, Filled, Counted, HasRoot, Content;
    WholeBlock(w, i, p);
    ContentOnDisk(w, i, p, RECORD * k, RECORD);
    RecordSame(Content(w, i), RECORD * n, w.image, BodyStart(w.m.geo, w.chains[i][p]) + RECORD * k);
  }

  /** In a directory every block holds a whole number of records. */
  lemma WholeBlock(w: World, i: nat, p: nat)
    requires Core(w) && Live(w, i) && p < |w.chains[i]| && |Content(w, i)| % RECORD == 0
    ensures w.chains[i][p] < |w.m.blocks| && w.m.blocks[w.chains[i][p]].size % RECORD == 0
  {
    hide Core, Content;
    ChainStart(w, i);
    ChainAt(w, i, p);
    ContentLength(w, i);
    assert w.m.geo.blockSize % RECORD == 0 by { ChainStart(w, i); }
    if p + 1 == |w.chains[i]| {
      LastWhole(p, w.m.geo.blockSize, w.m.blocks[w.chains[i][p]].size);
    }
  }

  lemma LastWhole(p: nat, bs: nat, size: nat)
    requires bs % RECORD == 0 && (p * bs + size) % RECORD == 0
    ensures size % RECORD == 0
  {
    assert p * bs == RECORD * (p * (bs / RECORD));
  }
}
