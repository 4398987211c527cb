/** A single zero byte in committed metadata: what the file opens to, and when a sound volume still opens. */
module Struck {
  import opened Bytes
  import opened Sums
  import opened Layout
  import opened Metadata
  import opened Volume
  import opened Steps
  import opened Objects
  import opened Append
  import opened Crash
  import opened Directory
  import opened Model
  import opened Refinement
  import opened Removal
  import opened Outcomes
  import opened Intended
  import opened TornCommit
  import opened TornAppend

  // ---- which field is hit ----

  /** A four-byte field of an inode slot or of a block header. */
  datatype Field =
    | SizeOf(k: nat) | RootOf(k: nat) | ParentOf(k: nat) | KindOf(k: nat)
    | NextOf(b: nat) | FillOf(b: nat) | UsedOf(b: nat)

  predicate InTables(g: Geometry, x: Field) {
    if x.SizeOf? || x.RootOf? || x.ParentOf? || x.KindOf? then x.k < g.inodeCount else x.b < g.blockCount
  }

  function FieldStart(g: Geometry, x: Field): nat {
    match x
    case SizeOf(k) => SUPER + SLOT * k
    case RootOf(k) => SUPER + SLOT * k + 4
    case ParentOf(k) => SUPER + SLOT * k + 8
    case KindOf(k) => SUPER + SLOT * k + 12
    case NextOf(b) => SUPER + SLOT * g.inodeCount + HEAD * b
    case FillOf(b) => SUPER + SLOT * g.inodeCount + HEAD * b + 4
    case UsedOf(b) => SUPER + SLOT * g.inodeCount + HEAD * b + 8
  }

  /** The field that begins at an offset behind the superblock. */
  function FieldAt(g: Geometry, off: nat): Field
    requires SUPER <= off
  {
    var x := off - SUPER;
    var y := x - SLOT * g.inodeCount;
    if y < 0 then
      var k, j := x / SLOT, x % SLOT;
      if j < 4 then SizeOf(k) else if j < 8 then RootOf(k) else if j < 12 then ParentOf(k) else KindOf(k)
    else
      var b, j := y / HEAD, y % HEAD;
      if j < 4 then NextOf(b) else if j < 8 then FillOf(b) else UsedOf(b)
  }

  lemma FieldAtStart(g: Geometry, off: nat)
    requires SUPER <= off < MetaEnd(g) && off % 4 == 0
    ensures InTables(g, FieldAt(g, off)) && FieldStart(g, FieldAt(g, off)) == off
  {
    hide FieldAt, FieldStart, InTables;
    var x := off - SUPER;
    if x < SLOT * g.inodeCount {
      var k, j := Parts(x, SLOT);
      FourthOf(x, k, j, SLOT);
      InodeField(g, k, j);
    } else {
      var b, j := Parts(x - SLOT * g.inodeCount, HEAD);
      FourthOf(x - SLOT * g.inodeCount, b, j, HEAD);
      HeadField(g, b, j);
    }
  }

  lemma Parts(n: nat, d: nat) returns (q: nat, r: nat)
    requires 0 < d
    ensures n == d * q + r && r < d
  {
    q, r := n / d, n % d;
    DivMod(n, d);
  }

  lemma FourthOf(x: nat, q: nat, r: nat, d: nat)
    requires x % 4 == 0 && x == d * q + r && r < d && (d == SLOT || d == HEAD)
    ensures r == 0 || r == 4 || r == 8 || (r == 12 && d == SLOT)
  {
    DivMod(x, 4);
    if d == SLOT { Multiple4(x / 4 - 4 * q, r); } else { Multiple4(x / 4 - 3 * q, r); }
  }

  lemma Multiple4(y: int, r: nat)
    requires r == 4 * y && r < SLOT
    ensures r == 0 || r == 4 || r == 8 || r == 12
  {
  }

  lemma InodeField(g: Geometry, k: nat, j: nat)
    requires k < g.inodeCount && (j == 0 || j == 4 || j == 8 || j == 12)
    ensures var off := SUPER + SLOT * k + j;
            InTables(g, FieldAt(g, off)) && FieldStart(g, FieldAt(g, off)) == off
  {
    Quotient(SLOT * k + j, k, SLOT);
    DivMod(SLOT * k + j, SLOT);
  }

  lemma HeadField(g: Geometry, b: nat, j: nat)
    requires b < g.blockCount && (j == 0 || j == 4 || j == 8)
    ensures var off := SUPER + SLOT * g.inodeCount + HEAD * b + j;
            InTables(g, FieldAt(g, off)) && FieldStart(g, FieldAt(g, off)) == off
  {
    Quotient(HEAD * b + j, b, HEAD);
    DivMod(HEAD * b + j, HEAD);
  }

  // ---- what the file opens to ----

  /** A number whose low byte is set to zero. */
  function Low(x: int): (r: int)
    ensures r == x <==> x % 256 == 0
    ensures r <= x && (x >= 0 ==> r >= 0)
  {
    x - x % 256
  }

  /** The tables after the first byte of field `x` is set to zero. */
  function Hit(m: Meta, x: Field): Meta
    requires |m.inodes| == m.geo.inodeCount && |m.blocks| == m.geo.blockCount && InTables(m.geo, x)
  {
    match x
    case SizeOf(k) => m.(inodes := m.inodes[k := m.inodes[k].(size := Low(m.inodes[k].size))])
    case RootOf(k) => m.(inodes := m.inodes[k := m.inodes[k].(root := Low(m.inodes[k].root))])
    case ParentOf(k) => m.(inodes := m.inodes[k := m.inodes[k].(parent := Low(m.inodes[k].parent))])
    case KindOf(k) => m.(inodes := m.inodes[k := m.inodes[k].(kind := Empty)])
    case NextOf(b) => m.(blocks := m.blocks[b := m.blocks[b].(next := Low(m.blocks[b].next))])
    case FillOf(b) => m.(blocks := m.blocks[b := m.blocks[b].(size := Low(m.blocks[b].size))])
    case UsedOf(b) => m.(blocks := m.blocks[b := m.blocks[b].(used := false)])
  }

  /** Type codes fit in one byte, as the program writes them. */
  ghost predicate Typed(g: Geometry, f: seq<byte>) {
    && (forall k: nat | k < g.inodeCount :: DecodeU32(WordAt(f, FieldStart(g, KindOf(k)))) < 256)
    && (forall b: nat | b < g.blockCount :: DecodeU32(WordAt(f, FieldStart(g, UsedOf(b)))) < 256)
  }

  lemma WordHit(f: seq<byte>, off: nat)
    ensures var f' := Patch(f, off, [0]);
            && DecodeU32(WordAt(f', off)) == Low(DecodeU32(WordAt(f, off)))
            && DecodeI32(WordAt(f', off)) == Low(DecodeI32(WordAt(f, off)))
  {
    var f' := Patch(f, off, [0]);
    var s, s' := WordAt(f, off), WordAt(f', off);
    assert s'[0] == 0 && s'[1] == s[1] && s'[2] == s[2] && s'[3] == s[3];
    LowByte(s, s');
  }

  lemma LowByte(s: seq<byte>, s': seq<byte>)
    requires |s| == |s'| == 4 && s'[0] == 0 && s'[1] == s[1] && s'[2] == s[2] && s'[3] == s[3]
    ensures DecodeU32(s') == Low(DecodeU32(s)) && DecodeI32(s') == Low(DecodeI32(s))
  {
    hide Low, AsSigned;
    var b1: int, b2: int, b3: int := s[1], s[2], s[3];
    var rest := b1 + 0x100 * b2 + 0x1_0000 * b3;
    assert DecodeU32(s) == 256 * rest + s[0] && DecodeU32(s') == 256 * rest;
    LowOf(rest, s[0]);
    SignedLow(DecodeU32(s));
  }

  lemma LowOf(q: nat, r: nat)
    requires r < 256
    ensures Low(256 * q + r) == 256 * q
  {
  }

  lemma SignedLow(u: nat)
    requires u < TWO32
    ensures Low(u) < TWO32 && AsSigned(Low(u)) == Low(AsSigned(u))
  {
  }

  lemma WordApart(f: seq<byte>, off: nat, o: nat)
    requires o + 4 <= off || off < o
    ensures WordAt(Patch(f, off, [0]), o) == WordAt(f, o)
  {
    SameSlice(Patch(f, off, [0]), o, f, o, 4);
  }

  lemma InodeApart(f: seq<byte>, off: nat, o: nat)
    requires o + SLOT <= off || off < o
    ensures DecodeInode(Patch(f, off, [0]), o) == DecodeInode(f, o)
  {
    WordApart(f, off, o); WordApart(f, off, o + 4); WordApart(f, off, o + 8); WordApart(f, off, o + 12);
  }

  lemma BlockApart(f: seq<byte>, off: nat, o: nat)
    requires o + HEAD <= off || off < o
    ensures DecodeBlock(Patch(f, off, [0]), o) == DecodeBlock(f, o)
  {
    WordApart(f, off, o); WordApart(f, off, o + 4); WordApart(f, off, o + 8);
  }

  lemma InodeHit(f: seq<byte>, o: nat)
    ensures var x := DecodeInode(f, o);
            && DecodeInode(Patch(f, o, [0]), o) == x.(size := Low(x.size))
            && DecodeInode(Patch(f, o + 4, [0]), o) == x.(root := Low(x.root))
            && DecodeInode(Patch(f, o + 8, [0]), o) == x.(parent := Low(x.parent))
            && (DecodeU32(WordAt(f, o + 12)) < 256 ==> DecodeInode(Patch(f, o + 12, [0]), o) == x.(kind := Empty))
  {
    hide WordAt, Patch, DecodeU32, DecodeI32;
    WordHit(f, o); WordApart(f, o, o + 4); WordApart(f, o, o + 8); WordApart(f, o, o + 12);
    WordHit(f, o + 4); WordApart(f, o + 4, o); WordApart(f, o + 4, o + 8); WordApart(f, o + 4, o + 12);
    WordHit(f, o + 8); WordApart(f, o + 8, o); WordApart(f, o + 8, o + 4); WordApart(f, o + 8, o + 12);
    WordHit(f, o + 12); WordApart(f, o + 12, o); WordApart(f, o + 12, o + 4); WordApart(f, o + 12, o + 8);
  }

  lemma BlockHit(f: seq<byte>, o: nat)
    ensures var x := DecodeBlock(f, o);
            && DecodeBlock(Patch(f, o, [0]), o) == x.(next := Low(x.next))
            && DecodeBlock(Patch(f, o + 4, [0]), o) == x.(size := Low(x.size))
            && (DecodeU32(WordAt(f, o + 8)) < 256 ==> DecodeBlock(Patch(f, o + 8, [0]), o) == x.(used := false))
  {
    hide WordAt, Patch, DecodeU32, DecodeI32;
    WordHit(f, o); WordApart(f, o, o + 4); WordApart(f, o, o + 8);
    WordHit(f, o + 4); WordApart(f, o + 4, o); WordApart(f, o + 4, o + 8);
    WordHit(f, o + 8); WordApart(f, o + 8, o); WordApart(f, o + 8, o + 4);
  }

  predicate OfInode(x: Field) { x.SizeOf? || x.RootOf? || x.ParentOf? || x.KindOf? }

  lemma InodesHit(m: Meta, f: seq<byte>, x: Field)
    requires Load(f) == Some(m) && InTables(m.geo, x) && Typed(m.geo, f)
    ensures |m.inodes| == m.geo.inodeCount && |m.blocks| == m.geo.blockCount
    ensures LoadInodes(Patch(f, FieldStart(m.geo, x), [0]), m.geo.inodeCount) == Hit(m, x).inodes
  {
    hide Patch, DecodeInode, DecodeBlock, Low, DecodeU32, LoadBlocks, LoadGeometry;
    LoadedSize(f, m);
    var f', n := Patch(f, FieldStart(m.geo, x), [0]), m.geo.inodeCount;
    forall i | 0 <= i < n ensures LoadInodes(f', n)[i] == Hit(m, x).inodes[i] {
      var o := SUPER + SLOT * i;
      assert m.inodes[i] == DecodeInode(f, o);
      if OfInode(x) && x.k == i {
        InodeHit(f, o);
        assert x.KindOf? ==> DecodeU32(WordAt(f, FieldStart(m.geo, KindOf(i)))) < 256;
      } else {
        InodeApart(f, FieldStart(m.geo, x), o);
      }
    }
  }

  lemma BlocksHit(m: Meta, f: seq<byte>, x: Field)
    requires Load(f) == Some(m) && InTables(m.geo, x) && Typed(m.geo, f)
    ensures |m.inodes| == m.geo.inodeCount && |m.blocks| == m.geo.blockCount
    ensures LoadBlocks(Patch(f, FieldStart(m.geo, x), [0]), SUPER + SLOT * m.geo.inodeCount, m.geo.blockCount)
         == Hit(m, x).blocks
  {
    hide Patch, DecodeInode, DecodeBlock, Low, DecodeU32, LoadInodes, LoadGeometry;
    LoadedSize(f, m);
    var back, n := SUPER + SLOT * m.geo.inodeCount, m.geo.blockCount;
    var f' := Patch(f, FieldStart(m.geo, x), [0]);
    forall b | 0 <= b < n ensures LoadBlocks(f', back, n)[b] == Hit(m, x).blocks[b] {
      var o := back + HEAD * b;
      assert m.blocks[b] == DecodeBlock(f, o);
      if !OfInode(x) && x.b == b {
        BlockHit(f, o);
        assert x.UsedOf? ==> DecodeU32(WordAt(f, FieldStart(m.geo, UsedOf(b)))) < 256;
      } else {
        BlockApart(f, FieldStart(m.geo, x), o);
      }
    }
  }

  /** The file opens to the tables with that field's low byte gone. */
  lemma LoadHit(m: Meta, f: seq<byte>, x: Field)
    requires Load(f) == Some(m) && InTables(m.geo, x) && Typed(m.geo, f)
    ensures |m.inodes| == m.geo.inodeCount && |m.blocks| == m.geo.blockCount
    ensures Load(Patch(f, FieldStart(m.geo, x), [0])) == Some(Hit(m, x))
  {
    hide Patch, DecodeInode, DecodeBlock, Low, DecodeU32, WordAt, LoadInodes, LoadBlocks, Typed;
    var off := FieldStart(m.geo, x);
    var f' := Patch(f, off, [0]);
    LoadedSize(f, m);
    InodesHit(m, f, x);
    BlocksHit(m, f, x);
    WordApart(f, off, 0); WordApart(f, off, 4); WordApart(f, off, 8); WordApart(f, off, 12); WordApart(f, off, 16);
    Longer(f, off);
    LoadIs(f', Hit(m, x));
  }

  lemma Longer(f: seq<byte>, off: nat)
    ensures |f| <= |Patch(f, off, [0])|
  {
  }

  // ---- no other sound volume opens ----

  ghost predicate HeadOf(w: World, i: nat, b: nat) {
    Live(w, i) && w.m.inodes[i].root == b
  }

  predicate LinksTo(w: World, a: nat, b: nat) {
    a < |w.m.blocks| && w.m.blocks[a].used && w.m.blocks[a].next == b
  }

  /** A used block is the first of some inode's, or some used block links to it. */
  lemma SourceOf(w: World, b: nat)
    requires Core(w) && b < |w.m.blocks| && w.m.blocks[b].used
    ensures (exists i :: HeadOf(w, i, b)) || (exists a :: LinksTo(w, a, b))
  {
    hide Tables, Filled, Counted, HasRoot;
    assert Owned(w, b);
    var s := w.owner[b];
    assert Rooted(w, s.inode);
    if s.pos == 0 {
      assert HeadOf(w, s.inode, b);
    } else {
      assert Placed(w, s.inode, s.pos - 1);
      assert LinksTo(w, w.chains[s.inode][s.pos - 1], b);
    }
  }

  lemma HeadPlace(w: World, i: nat, b: nat)
    requires Core(w) && HeadOf(w, i, b)
    ensures b < |w.m.blocks| && w.m.blocks[b].used && b in w.owner && w.owner[b] == Slot(i, 0)
  {
    hide Tables, Filled, Counted, HasRoot;
    assert Rooted(w, i);
    assert Placed(w, i, 0);
  }

  lemma LinkPlace(w: World, a: nat, b: nat)
    requires Core(w) && LinksTo(w, a, b)
    ensures b < |w.m.blocks| && w.m.blocks[b].used && b in w.owner && w.owner[b].pos > 0
    ensures w.owner[b].inode < |w.chains| && w.owner[b].pos - 1 < |w.chains[w.owner[b].inode]|
    ensures w.chains[w.owner[b].inode][w.owner[b].pos - 1] == a
  {
    hide Tables, Filled, Counted, HasRoot;
    assert Owned(w, a);
    var s := w.owner[a];
    assert Placed(w, s.inode, s.pos);
    assert Placed(w, s.inode, s.pos + 1);
  }

  /** A used block ends its chain with -1. */
  lemma LastLink(w: World, b: nat)
    requires Core(w) && b < |w.m.blocks| && w.m.blocks[b].used
    ensures w.m.blocks[b].next >= -1
  {
    hide Tables, Filled, Counted, HasRoot;
    assert Owned(w, b);
    assert Placed(w, w.owner[b].inode, w.owner[b].pos);
  }

  lemma RootKept(w: World, v: World, k: nat)
    requires Core(w) && Core(v) && k < w.m.geo.inodeCount == |w.m.inodes| && w.m.geo.blockCount == |w.m.blocks|
    requires v.m == Hit(w.m, RootOf(k))
    ensures v.m == w.m
  {
    hide Core, Low;
    assert w.m.inodes[k := w.m.inodes[k]] == w.m.inodes;
    if v.m != w.m {
      var r := w.m.inodes[k].root;
      LiveOrBlank(w, k);
      HeadPlace(w, k, r);
      SourceOf(v, r);
      if i :| HeadOf(v, i, r) {
        assert HeadOf(w, i, r);
        HeadPlace(w, i, r);
      } else {
        var a :| LinksTo(v, a, r);
        assert LinksTo(w, a, r);
        LinkPlace(w, a, r);
      }
    }
  }

  lemma LiveOrBlank(w: World, k: nat)
    requires Core(w) && k < |w.m.inodes|
    ensures if w.m.inodes[k].kind == Empty then w.m.inodes[k] == EMPTY_INODE else w.m.inodes[k].root >= 0 && Live(w, k)
  {
    assert Rooted(w, k);
  }

  lemma UsedOrBlank(w: World, b: nat)
    requires Core(w) && b < |w.m.blocks|
    ensures !w.m.blocks[b].used ==> w.m.blocks[b] == EMPTY_BLOCK
    ensures w.m.blocks[b].next >= 0 && w.m.blocks[b].used ==> w.m.blocks[b].size == w.m.geo.blockSize
  {
    assert FilledBlock(w, b);
  }

  lemma NextKept(w: World, v: World, h: nat)
    requires Core(w) && Core(v) && h < w.m.geo.blockCount == |w.m.blocks| && w.m.geo.inodeCount == |w.m.inodes|
    requires v.m == Hit(w.m, NextOf(h))
    ensures v.m == w.m
  {
    hide Core;
    assert w.m.blocks[h := w.m.blocks[h]] == w.m.blocks;
    if v.m != w.m {
      var x := w.m.blocks[h].next;
      UsedOrBlank(w, h);
      LastLink(w, h);
      LastLink(v, h);
      LinkPlace(w, h, x);
      SourceOf(v, x);
      if i :| HeadOf(v, i, x) {
        assert HeadOf(w, i, x);
        HeadPlace(w, i, x);
      } else {
        var a :| LinksTo(v, a, x);
        assert LinksTo(w, a, x);
        LinkPlace(w, a, x);
      }
    }
  }

  lemma FillKept(w: World, v: World, h: nat)
    requires Sound(w) && Sound(v) && h < w.m.geo.blockCount == |w.m.blocks| && w.m.geo.inodeCount == |w.m.inodes|
    requires v.m == Hit(w.m, FillOf(h))
    ensures v.m == w.m
  {
    hide Core, AllGood, Committed, Low, Content;
    assert w.m.blocks[h := w.m.blocks[h]] == w.m.blocks;
    if v.m != w.m {
      UsedOrBlank(w, h);
      UsedOrBlank(v, h);
      LastLink(w, h);
      var i := EndsChain(w, h);
      SameLinks(w, v, i);
      ContentLength(w, i);
      ContentLength(v, i);
      LengthBySize(w, v, i);
    }
  }

  /** A used block with link -1 is the last of some chain. */
  lemma EndsChain(w: World, h: nat) returns (i: nat)
    requires Core(w) && h < |w.m.blocks| && w.m.blocks[h].used && w.m.blocks[h].next == -1
    ensures Live(w, i) && i < |w.chains| && w.chains[i] != [] && w.chains[i][|w.chains[i]| - 1] == h
  {
    hide Tables, Filled, Counted, HasRoot;
    assert Owned(w, h);
    i := w.owner[h].inode;
    assert Rooted(w, i);
    assert Placed(w, i, w.owner[h].pos);
  }

  lemma SameLinks(w: World, v: World, i: nat)
    requires Core(w) && Core(v) && Live(w, i) && Live(v, i) && |v.m.blocks| == |w.m.blocks|
    requires v.m.inodes[i].root == w.m.inodes[i].root
    requires forall b | 0 <= b < |w.m.blocks| :: v.m.blocks[b].next == w.m.blocks[b].next
    ensures i < |w.chains| && i < |v.chains| && v.chains[i] == w.chains[i]
  {
    hide Core;
    ChainStart(w, i);
    ChainStart(v, i);
    ChainsPartitionUsed(w);
    ChainsPartitionUsed(v);
    forall p | 0 <= p < |w.chains[i]| ensures LinkOk(v.m.blocks, w.chains[i], p) {
      assert LinkOk(w.m.blocks, w.chains[i], p);
    }
    FollowsUnique(v.m.blocks, w.chains[i], v.chains[i]);
  }

  lemma LengthBySize(w: World, v: World, i: nat)
    requires Sound(w) && Sound(v) && Live(w, i) && i < |v.m.inodes| && v.m.inodes[i] == w.m.inodes[i]
    ensures |Content(v, i)| == |Content(w, i)|
  {
    hide Core, Content, SaneRecords;
    assert GoodAt(w, i) && GoodAt(v, i);
  }

  lemma SizeKept(w: World, v: World, k: nat)
    requires Sound(w) && Sound(v) && k < w.m.geo.inodeCount == |w.m.inodes| && w.m.geo.blockCount == |w.m.blocks|
    requires v.m == Hit(w.m, SizeOf(k))
    ensures v.m == w.m
  {
    hide Core, AllGood, Committed, Low, Content;
    assert w.m.inodes[k := w.m.inodes[k]] == w.m.inodes;
    if v.m != w.m {
      LiveOrBlank(w, k);
      SameLinks(w, v, k);
      ContentLength(w, k);
      ContentLength(v, k);
      SizeByLength(w, v, k);
    }
  }

  lemma KindKept(w: World, v: World, k: nat)
    requires Core(w) && Core(v) && k < w.m.geo.inodeCount == |w.m.inodes| && w.m.geo.blockCount == |w.m.blocks|
    requires v.m == Hit(w.m, KindOf(k))
    ensures v.m == w.m
  {
    hide Tables, Linked, Filled, HasRoot;
    assert w.m.inodes[k := w.m.inodes[k]] == w.m.inodes;
    if v.m != w.m {
      SumUpdate(LiveBit, w.m.inodes, k, v.m.inodes[k]);
    }
  }

  lemma UsedKept(w: World, v: World, h: nat)
    requires Core(w) && Core(v) && h < w.m.geo.blockCount == |w.m.blocks| && w.m.geo.inodeCount == |w.m.inodes|
    requires v.m == Hit(w.m, UsedOf(h))
    ensures v.m == w.m
  {
    hide Tables, Linked, Filled, HasRoot;
    assert w.m.blocks[h := w.m.blocks[h]] == w.m.blocks;
    if v.m != w.m {
      SumUpdate(UsedBit, w.m.blocks, h, v.m.blocks[h]);
    }
  }

  lemma HitKept(w: World, v: World, x: Field)
    requires Sound(w) && Sound(v) && |w.m.inodes| == w.m.geo.inodeCount && |w.m.blocks| == w.m.geo.blockCount
    requires InTables(w.m.geo, x) && !x.ParentOf? && v.m == Hit(w.m, x)
    ensures v.m == w.m
  {
    hide Core, AllGood, Committed, Hit;
    match x
    case SizeOf(k) => SizeKept(w, v, k);
    case RootOf(k) => RootKept(w, v, k);
    case KindOf(k) => KindKept(w, v, k);
    case NextOf(b) => NextKept(w, v, b);
    case FillOf(b) => FillKept(w, v, b);
    case UsedOf(b) => UsedKept(w, v, b);
    case ParentOf(_) =>
  }

  // ---- a parent field may change ----

  /** `w` with another parent number in inode `k`. */
  function Reparented(w: World, k: nat, p: int): World
    requires k < |w.m.inodes|
  {
    w.(m := w.m.(inodes := w.m.inodes[k := w.m.inodes[k].(parent := p)]))
  }

  lemma ReparentedCore(w: World, k: nat, p: int)
    requires Core(w) && Live(w, k) && Signed(p)
    ensures Core(Reparented(w, k, p))
    ensures forall j | Live(w, j) :: Content(Reparented(w, k, p), j) == Content(w, j)
  {
    var w' := Reparented(w, k, p);
    SumUpdate(LiveBit, w.m.inodes, k, w'.m.inodes[k]);
    forall j, p | 0 <= j < |w'.chains| && 0 <= p < |w'.chains[j]| ensures Placed(w', j, p) { assert Placed(w, j, p); }
    forall j | 0 <= j < |w'.chains| ensures Rooted(w', j) { assert Rooted(w, j); }
    forall b | b in w'.owner ensures Owned(w', b) { assert Owned(w, b); }
    forall b | 0 <= b < |w'.m.blocks| ensures FilledBlock(w', b) { assert FilledBlock(w, b); }
    forall j | Live(w, j) ensures Content(w', j) == Content(w, j) {
      forall p | 0 <= p < |w.chains[j]| ensures Body(w', w.chains[j][p]) == Body(w, w.chains[j][p]) {}
      GatherFrame(w, w', w.chains[j]);
    }
  }

  lemma ReparentedGood(w: World, k: nat, p: int)
    requires Core(w) && AllGood(w) && Live(w, k) && Signed(p)
    requires w.m.inodes[k].kind == Directory ==> 0 <= p < w.m.geo.inodeCount
    ensures Core(Reparented(w, k, p)) && AllGood(Reparented(w, k, p))
  {
    hide Core, Content, Records;
    ReparentedCore(w, k, p);
    var w' := Reparented(w, k, p);
    forall i | Live(w', i) ensures GoodAt(w', i) { assert GoodAt(w, i); }
  }

  /** A sound volume opens all the same; a directory may have another parent in it. */
  lemma ParentHitSound(w: World, f: seq<byte>, k: nat)
    requires Sound(w) && Stores(w, f) && k < w.m.geo.inodeCount == |w.m.inodes| && w.m.geo.blockCount == |w.m.blocks|
    requires Load(f) == Some(Hit(w.m, ParentOf(k)))
    ensures Recovers(Reparented(w, k, Low(w.m.inodes[k].parent)), f)
  {
    hide Core, AllGood, Load, Stores, Low, Recovers, Signed, Hit;
    var p := Low(w.m.inodes[k].parent);
    HitParent(w, k);
    LiveOrBlank(w, k);
    if Live(w, k) {
      ParentInRange(w, k);
      ReparentedGood(w, k, p);
      StoresBoth(w, k, p, f);
      StoredRecovers(Reparented(w, k, p), f);
    } else {
      BlankParent(w, k);
      StoredRecovers(w, f);
    }
  }

  lemma HitParent(w: World, k: nat)
    requires k < w.m.geo.inodeCount == |w.m.inodes| && w.m.geo.blockCount == |w.m.blocks|
    ensures Hit(w.m, ParentOf(k)) == Reparented(w, k, Low(w.m.inodes[k].parent)).m
  {
  }

  lemma BlankParent(w: World, k: nat)
    requires k < |w.m.inodes| && w.m.inodes[k] == EMPTY_INODE
    ensures Reparented(w, k, Low(w.m.inodes[k].parent)) == w
  {
    assert w.m.inodes[k := EMPTY_INODE] == w.m.inodes;
  }

  lemma ParentInRange(w: World, k: nat)
    requires Sound(w) && Live(w, k)
    ensures var p := Low(w.m.inodes[k].parent);
            Signed(p) && (w.m.inodes[k].kind == Directory ==> 0 <= p < w.m.geo.inodeCount)
  {
    hide Core, Content, SaneRecords, Low, Signed;
    ParentField(w, k);
    LowSigned(w.m.inodes[k].parent);
  }

  lemma ParentField(w: World, k: nat)
    requires Core(w) && Live(w, k)
    ensures Signed(w.m.inodes[k].parent)
    ensures AllGood(w) && w.m.inodes[k].kind == Directory ==> 0 <= w.m.inodes[k].parent < w.m.geo.inodeCount
  {
    hide Tables, Filled, Counted, HasRoot, Content, SaneRecords;
    assert Rooted(w, k);
    if AllGood(w) { assert GoodAt(w, k); }
  }

  lemma LowSigned(x: int)
    requires Signed(x)
    ensures Signed(Low(x))
  {
  }

  lemma StoresBoth(w: World, k: nat, p: int, f: seq<byte>)
    requires Stores(w, f) && k < |w.m.inodes|
    ensures Stores(Reparented(w, k, p), f)
  {
    forall b | 0 <= b < |w.m.blocks| && w.m.blocks[b].used
      ensures Body(Reopened(Reparented(w, k, p), f), b) == Body(Reparented(w, k, p), b)
    {
      assert Body(Reopened(w, f), b) == Body(w, b);
    }
  }

  // ---- the exact condition ----

  lemma StillStores(w: World, off: nat)
    requires off < MetaEnd(w.m.geo)
    ensures Stores(w, Patch(w.image, off, [0]))
  {
    PatchSlice(w.image, off, [0]);
    forall b | 0 <= b < |w.m.blocks| && w.m.blocks[b].used
      ensures Body(Reopened(w, Patch(w.image, off, [0])), b) == Body(w, b)
    {
      BodiesApart(w.m.geo, b, b);
    }
  }

  /** With the first byte of field `x` set to zero a sound volume opens exactly when that changes nothing or `x` is a
      parent field. In the first case it is the committed one, in the second one with another parent number. */
  lemma HitOpensIff(w: World, x: Field)
    requires Sound(w) && Typed(w.m.geo, w.image) && InTables(w.m.geo, x)
    ensures |w.m.inodes| == w.m.geo.inodeCount && |w.m.blocks| == w.m.geo.blockCount
    ensures var f := Patch(w.image, FieldStart(w.m.geo, x), [0]);
            && (Hit(w.m, x) == w.m ==> Recovers(w, f))
            && (x.ParentOf? ==> Recovers(Reparented(w, x.k, Low(w.m.inodes[x.k].parent)), f))
            && (OpensSound(f) <==> Hit(w.m, x) == w.m || x.ParentOf?)
  {
    hide Core, AllGood, Load, Stores, Recovers, Typed, Hit, Patch;
    var f := Patch(w.image, FieldStart(w.m.geo, x), [0]);
    LoadHit(w.m, w.image, x);
    FieldInside(w.m.geo, x);
    StillStores(w, FieldStart(w.m.geo, x));
    if Hit(w.m, x) == w.m {
      StoredRecovers(w, f);
      RecoversOpens(w, f);
    }
    if x.ParentOf? {
      ParentHitSound(w, f, x.k);
      RecoversOpens(Reparented(w, x.k, Low(w.m.inodes[x.k].parent)), f);
    }
    if Hit(w.m, x) != w.m && !x.ParentOf? {
      forall v: World | v.image == f ensures !Sound(v) {
        if Sound(v) { HitKept(w, v, x); }
      }
    }
  }

  lemma FieldInside(g: Geometry, x: Field)
    requires InTables(g, x)
    ensures SUPER <= FieldStart(g, x) < MetaEnd(g)
  {
  }

  // ---- a removal killed before its commit ----

  /** Killed while it clears the records that matched, a removal leaves a sound volume with the tables of the last commit,
      in which some of those clears show. */
  lemma KilledWhileClearing(w: World, cwd: nat, dir: bool, name: seq<byte>, k: nat)
    requires Sound(w) && LiveDir(w, cwd) && k <= |Picked(w, cwd, dir, name)|
    ensures var ks := Picked(w, cwd, dir, name)[..k];
            var v := UnflagAll(w, cwd, ks);
            Sound(v) && v.m == w.m && Abs(v, cwd) == ScribbleAll(Abs(w, cwd), PlacesAt(w, cwd, ks))
  {
    hide Sound, Abs, LiveDir, Picked, UnflagAll, ScribbleAll, PlacesAt, Content, Records;
    var ks := Picked(w, cwd, dir, name);
    PickedInRange(w, cwd, dir, name);
    assert forall p | 0 <= p < k :: ks[..k][p] == ks[p];
    UnlinkOutcome(w, cwd, ks[..k]);
    UnflagTables(w, cwd, ks[..k]);
  }

  lemma TypedFrame(g: Geometry, f: seq<byte>, f': seq<byte>)
    requires Typed(g, f) && Slice(f', 0, MetaEnd(g)) == Slice(f, 0, MetaEnd(g))
    ensures Typed(g, f')
  {
    hide Slice, WordAt, DecodeU32;
    forall k: nat | k < g.inodeCount ensures DecodeU32(WordAt(f', FieldStart(g, KindOf(k)))) < 256 {
      WordFrame(f, f', MetaEnd(g), FieldStart(g, KindOf(k)));
      assert DecodeU32(WordAt(f, FieldStart(g, KindOf(k)))) < 256;
    }
    forall b: nat | b < g.blockCount ensures DecodeU32(WordAt(f', FieldStart(g, UsedOf(b)))) < 256 {
      WordFrame(f, f', MetaEnd(g), FieldStart(g, UsedOf(b)));
      assert DecodeU32(WordAt(f, FieldStart(g, UsedOf(b)))) < 256;
    }
  }

  lemma {:induction false} ClearingKeepsTypes(w: World, cwd: nat, ks: seq<nat>)
    requires Sound(w) && LiveDir(w, cwd) && Typed(w.m.geo, w.image)
    requires forall p | 0 <= p < |ks| :: ks[p] < |Records(Content(w, cwd))|
    ensures Typed(w.m.geo, UnflagAll(w, cwd, ks).image)
  {
    hide Core, AllGood, Committed, Content, Records, Unflag, Typed;
    if ks != [] {
      var n := |ks| - 1;
      var v := UnflagAll(w, cwd, ks[..n]);
      ClearingKeepsTypes(w, cwd, ks[..n]);
      UnlinkOutcome(w, cwd, ks[..n]);
      UnflagTables(w, cwd, ks[..n]);
      RecordInChain(w, cwd, ks[n]);
      ClearBehindTables(v, cwd, ks[n]);
    }
  }

  lemma ClearBehindTables(v: World, d: nat, index: nat)
    requires Sound(v) && Live(v, d) && Typed(v.m.geo, v.image) && InChain(v, d, index)
    ensures Typed(v.m.geo, Unflag(v, d, index).image)
  {
    hide Core, AllGood, Committed, Typed, ClearTarget, PerBlock, Patch;
    UnflagCommitted(v, d, index);
    var off := ClearTarget(v.m.geo, v.chains[d], index).off;
    PatchSlice(v.image, off, [0]);
    TypedFrame(v.m.geo, v.image, Patch(v.image, off, [0]));
  }

  lemma Fourfold(x: int)
    ensures Wrap(x) % 4 == x % 4
  {
  }

  lemma Sum4(a: int, b: int)
    requires a % 4 == 0 && b % 4 == 0
    ensures Wrap(a + b) % 4 == 0
  {
    Fourfold(a + b);
  }

  /** Offsets of clears are multiples of four. */
  lemma TargetWord(g: Geometry, c: seq<nat>, index: nat)
    requires Fits(g) && 0 < PerBlock(g) && ClearTarget(g, c, index).Offset?
    ensures ClearTarget(g, c, index).off % 4 == 0
  {
    hide PerBlock, Hops, Wrap, BodyOffset, Fits, ClearTarget;
    var h := Hops(index, PerBlock(g));
    HopsExact(index, PerBlock(g));
    BeyondIsWild(g, c, index);
    var r := index - h * PerBlock(g);
    TargetUnfold(g, c, index, h, r);
    BodyWord(g, BlockReached(c, h));
    Records4(r);
    Sum4(BodyOffset(g, BlockReached(c, h)), RECORD * r);
  }

  lemma Records4(r: nat)
    ensures RECORD * r % 4 == 0
  {
  }

  lemma BodyWord(g: Geometry, b: nat)
    requires Fits(g)
    ensures BodyOffset(g, b) % 4 == 0
  {
    hide Wrap, Fits, PerBlock;
    PerBlockFits(g);
    WholeRecords(g.blockSize, PerBlock(g), b, 0);
    var bodies := g.blockSize * b;
    Fourfold(bodies);
    Sum4(SUPER, g.inodeCount * SLOT);
    Sum4(Wrap(SUPER + g.inodeCount * SLOT), g.blockCount * HEAD);
    Sum4(Wrap(Wrap(SUPER + g.inodeCount * SLOT) + g.blockCount * HEAD), Wrap(bodies));
  }

  /** The file `rm` leaves when it is killed behind its second clear, which goes to offset `off`. */
  function AfterSecondClear(w: World, cwd: nat, ks: seq<nat>, t: nat): seq<byte> {
    Unflag(UnflagAll(w, cwd, ks), cwd, t).image
  }

  /** Behind the tables the second clear leaves a sound volume too. In the tables, a sound volume opens exactly when the
      field hit has a zero low byte already, or is a parent field. */
  lemma KilledBeforeCommit(w: World, cwd: nat, name: seq<byte>, off: nat)
    requires Sound(w) && LiveDir(w, cwd) && Typed(w.m.geo, w.image) && TargetInode(w, cwd, false, name) >= 0
    requires TargetOf(w, cwd, TargetInode(w, cwd, false, name)) == Offset(off) && SUPER <= off
    ensures off < MetaEnd(w.m.geo) ==>
              |w.m.inodes| == w.m.geo.inodeCount && |w.m.blocks| == w.m.geo.blockCount &&
              InTables(w.m.geo, FieldAt(w.m.geo, off))
    ensures var f := AfterSecondClear(w, cwd, Picked(w, cwd, false, name), TargetInode(w, cwd, false, name));
            OpensSound(f) <==>
              off >= MetaEnd(w.m.geo) || Hit(w.m, FieldAt(w.m.geo, off)) == w.m || FieldAt(w.m.geo, off).ParentOf?
  {
    hide Core, AllGood, Committed, Abs, Content, Records, TargetInode, Picked, Typed, ClearTarget, PerBlock;
    hide OpensSound, Hit, FieldAt;
    var t: nat, ks, g := TargetInode(w, cwd, false, name), Picked(w, cwd, false, name), w.m.geo;
    PickedInRange(w, cwd, false, name);
    UnlinkOutcome(w, cwd, ks);
    ClearingKeepsTypes(w, cwd, ks);
    UnflagTables(w, cwd, ks);
    var v := UnflagAll(w, cwd, ks);
    CoreFits(w);
    SecondClearIs(v, cwd, t, off);
    if off < MetaEnd(g) {
      TargetWord(g, w.chains[cwd], t);
      FieldAtStart(g, off);
      HitOpensIff(v, FieldAt(g, off));
    } else {
      UnflagRefines(v, cwd, cwd, t);
      BehindTables(v, off);
      SoundOpens(Unflag(v, cwd, t));
    }
  }

  lemma SecondClearIs(v: World, cwd: nat, t: nat, off: nat)
    requires TargetOf(v, cwd, t) == Offset(off)
    ensures Unflag(v, cwd, t) == Clear(v, off)
    ensures cwd < |v.chains| && 0 < PerBlock(v.m.geo) && ClearTarget(v.m.geo, v.chains[cwd], t) == Offset(off)
  {
    hide ClearTarget, PerBlock;
  }

  lemma BehindTables(v: World, off: nat)
    requires Committed(v) && MetaEnd(v.m.geo) <= off
    ensures Committed(Clear(v, off))
  {
    hide Load, Patch;
    PatchSlice(v.image, off, [0]);
    LoadFrame(v.image, Patch(v.image, off, [0]), v.m);
  }

  lemma SoundOpens(w: World)
    requires Sound(w)
    ensures OpensSound(w.image)
  {
  }

  /** In the program's own geometry, with the current directory in one block, removing inode 35 hits the type field of
      block header 946. */
  lemma Inode35(b: nat)
    ensures ClearTarget(Geometry(1024, 1024, 1024), [b], 35)
         == Offset(FieldStart(Geometry(1024, 1024, 1024), UsedOf(946)))
  {
    var g := Geometry(1024, 1024, 1024);
    assert Fits(g) && PerBlock(g) == 32 && MetaEnd(g) == 28712;
    assert Hops(35, 32) == 1 + Hops(3, 32) == 1;
    TargetBehind(g, [b], 35, 3);
  }

  /** What the superblock, inodes and headers of a commit look like. */
  lemma CommitTyped(w: World, raw: seq<byte>)
    requires Core(w) && |raw| == 20
    ensures Typed(w.m.geo, Commit(w.m, w.image, raw))
  {
    hide Core, EncodeInodes, EncodeBlocks, EncodeSuper, Holds, Patch, WordAt, DecodeU32;
    TableSizes(w);
    var f, m := Commit(w.m, w.image, raw), w.m;
    Patched(w.image, EncodeMeta(m, raw));
    HoldsParts(f, 0, EncodeSuper(m, raw) + EncodeInodes(m.inodes), EncodeBlocks(m.blocks));
    HoldsParts(f, 0, EncodeSuper(m, raw), EncodeInodes(m.inodes));
    InodesTyped(m.inodes, f, SUPER);
    BlocksTyped(m.blocks, f, SUPER + SLOT * |m.inodes|);
  }

  lemma TableSizes(w: World)
    requires Core(w)
    ensures |w.m.inodes| == w.m.geo.inodeCount && |w.m.blocks| == w.m.geo.blockCount
  {
  }

  lemma {:induction false} InodesTyped(xs: seq<Inode>, f: seq<byte>, off: nat)
    requires Holds(f, off, EncodeInodes(xs))
    ensures forall k | 0 <= k < |xs| :: DecodeU32(WordAt(f, off + SLOT * k + 12)) < 256
  {
    hide EncodeInode, Holds, WordAt;
    if xs != [] {
      var n := |xs| - 1;
      HoldsParts(f, off, EncodeInodes(xs[..n]), EncodeInode(xs[n]));
      InodesTyped(xs[..n], f, off);
      InodeTyped(xs[n], f, off + SLOT * n);
    }
  }

  lemma InodeTyped(x: Inode, f: seq<byte>, off: nat)
    requires Holds(f, off, EncodeInode(x))
    ensures DecodeU32(WordAt(f, off + 12)) < 256
  {
    var code := match x.kind case Empty => 0 case File => 1 case Directory => 2;
    HoldsParts(f, off, Encode32(x.size) + Encode32(x.root) + Encode32(x.parent), Encode32(code));
    HoldsSlice(f, off + 12, Encode32(code));
    U32RoundTrip(code);
  }

  lemma {:induction false} BlocksTyped(xs: seq<Block>, f: seq<byte>, off: nat)
    requires Holds(f, off, EncodeBlocks(xs))
    ensures forall k | 0 <= k < |xs| :: DecodeU32(WordAt(f, off + HEAD * k + 8)) < 256
  {
    hide EncodeBlock, Holds, WordAt;
    if xs != [] {
      var n := |xs| - 1;
      HoldsParts(f, off, EncodeBlocks(xs[..n]), EncodeBlock(xs[n]));
      BlocksTyped(xs[..n], f, off);
      BlockTyped(xs[n], f, off + HEAD * n);
    }
  }

  lemma BlockTyped(x: Block, f: seq<byte>, off: nat)
    requires Holds(f, off, EncodeBlock(x))
    ensures DecodeU32(WordAt(f, off + 8)) < 256
  {
    var code := if x.used then 1 else 0;
    HoldsParts(f, off, Encode32(x.next) + Encode32(x.size), Encode32(code));
    HoldsSlice(f, off + 8, Encode32(code));
    U32RoundTrip(code);
  }
}
