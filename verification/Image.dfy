/** What stands in the file, byte by byte and in plain numbers: the words of the metadata and of a directory record. */
module Image {
  import opened Bytes
  import opened Layout
  import opened Metadata
  import opened Directory
  import opened Format

  /** The number in four consecutive bytes, the lowest first. */
  function Word(f: seq<byte>, off: nat): (u: nat)
    ensures u < 0x1_0000_0000
  {
    var b0: int, b1: int, b2: int, b3: int := At(f, off), At(f, off + 1), At(f, off + 2), At(f, off + 3);
    b0 + 0x100 * b1 + 0x1_0000 * b2 + 0x100_0000 * b3
  }

  /** A signed number as the word that stores it. */
  function Stored(x: int): int {
    if x < 0 then x + 0x1_0000_0000 else x
  }

  function Signed32(u: nat): int {
    if u < 0x8000_0000 then u else u - 0x1_0000_0000
  }

  /** The byte order: whatever the four bytes are, the number made of them, the first one lowest, is stored as them. */
  lemma LittleEndian(b0: byte, b1: byte, b2: byte, b3: byte)
    ensures Encode32(b0 as int + 0x100 * b1 + 0x1_0000 * b2 + 0x100_0000 * b3) == [b0, b1, b2, b3]
    ensures Word([b0, b1, b2, b3], 0) == b0 as int + 0x100 * b1 + 0x1_0000 * b2 + 0x100_0000 * b3
  {
    var u: int := b0 as int + 0x100 * b1 + 0x1_0000 * b2 + 0x100_0000 * b3;
    WordInRange(b0, b1, b2, b3);
    Digits(b0, b1, b2, b3);
    var s: seq<byte> := [b0, b1, b2, b3];
    assert At(s, 0) == b0 && At(s, 1) == b1 && At(s, 2) == b2 && At(s, 3) == b3;
  }

  lemma WordInRange(b0: byte, b1: byte, b2: byte, b3: byte)
    ensures 0 <= b0 as int + 0x100 * b1 + 0x1_0000 * b2 + 0x100_0000 * b3 < TWO32
  {
  }

  lemma Digits(b0: int, b1: int, b2: int, b3: int)
    requires 0 <= b0 < 256 && 0 <= b1 < 256 && 0 <= b2 < 256 && 0 <= b3 < 256
    ensures var u := b0 + 0x100 * b1 + 0x1_0000 * b2 + 0x100_0000 * b3;
            && u % 256 == b0 && u / 0x100 % 256 == b1 && u / 0x1_0000 % 256 == b2 && u / 0x100_0000 == b3
  {
    var u := b0 + 0x100 * b1 + 0x1_0000 * b2 + 0x100_0000 * b3;
    assert u / 0x100 == b1 + 0x100 * b2 + 0x1_0000 * b3;
    assert u / 0x1_0000 == b2 + 0x100 * b3;
  }

  lemma WordIs(f: seq<byte>, off: nat)
    ensures DecodeU32(WordAt(f, off)) == Word(f, off)
    ensures DecodeI32(WordAt(f, off)) == Signed32(Word(f, off))
  {
    var s := WordAt(f, off);
    assert s[0] == At(f, off + 0) && s[1] == At(f, off + 1) && s[2] == At(f, off + 2) && s[3] == At(f, off + 3);
  }

  lemma WordHeld(f: seq<byte>, off: nat, x: int)
    requires -0x8000_0000 <= x < 0x1_0000_0000 && Holds(f, off, Encode32(x))
    ensures Word(f, off) == Stored(x)
  {
    HoldsSlice(f, off, Encode32(x));
    WordIs(f, off);
    U32RoundTrip(Stored(x));
    EncodeStored(x);
  }

  lemma EncodeStored(x: int)
    requires -0x8000_0000 <= x < 0x1_0000_0000
    ensures Encode32(x) == Encode32(Stored(x)) && 0 <= Stored(x) < 0x1_0000_0000
  {
    if x < 0 { WrapTurn(x); }
  }

  // ---- the tables ----

  /** The slot at `off` holds these four words: size, root block, parent, and 0, 1 or 2 for EMPTY, FILE or DIRECTORY. */
  predicate InodeWords(f: seq<byte>, off: nat, x: Inode) {
    && Word(f, off) == x.size && Word(f, off + 4) == Stored(x.root) && Word(f, off + 8) == Stored(x.parent)
    && Word(f, off + 12) == match x.kind case Empty => 0 case File => 1 case Directory => 2
  }

  /** The header at `off` holds these three words: next block, size, and 0 or 1 for EMPTY or USED. */
  predicate HeadWords(f: seq<byte>, off: nat, x: Block) {
    && Word(f, off) == Stored(x.next) && Word(f, off + 4) == x.size && Word(f, off + 8) == if x.used then 1 else 0
  }

  lemma InodeHeld(f: seq<byte>, off: nat, x: Inode)
    requires EncodableInode(x) && Holds(f, off, EncodeInode(x))
    ensures InodeWords(f, off, x)
  {
    hide Word, Stored, Holds, Encode32;
    var code := match x.kind case Empty => 0 case File => 1 case Directory => 2;
    var a, b, c, d := Encode32(x.size), Encode32(x.root), Encode32(x.parent), Encode32(code);
    HoldsParts(f, off, a + b + c, d);
    HoldsParts(f, off, a + b, c);
    HoldsParts(f, off, a, b);
    WordHeld(f, off, x.size); WordHeld(f, off + 4, x.root); WordHeld(f, off + 8, x.parent); WordHeld(f, off + 12, code);
    StoredSame(x.size); StoredSame(code);
  }

  lemma StoredSame(x: nat)
    ensures Stored(x) == x
  {
  }

  lemma HeadHeld(f: seq<byte>, off: nat, x: Block)
    requires EncodableBlock(x) && Holds(f, off, EncodeBlock(x))
    ensures HeadWords(f, off, x)
  {
    hide Word, Stored, Holds, Encode32;
    var code := if x.used then 1 else 0;
    var a, b, c := Encode32(x.next), Encode32(x.size), Encode32(code);
    HoldsParts(f, off, a + b, c);
    HoldsParts(f, off, a, b);
    WordHeld(f, off, x.next); WordHeld(f, off + 4, x.size); WordHeld(f, off + 8, code);
    StoredSame(x.size); StoredSame(code);
  }

  lemma {:induction false} InodesHeldWords(xs: seq<Inode>, f: seq<byte>, off: nat)
    requires forall k | 0 <= k < |xs| :: EncodableInode(xs[k])
    requires Holds(f, off, EncodeInodes(xs))
    ensures forall k | 0 <= k < |xs| :: InodeWords(f, off + 16 * k, xs[k])
  {
    hide Holds, InodeWords, EncodeInode;
    if xs != [] {
      var n := |xs| - 1;
      HoldsParts(f, off, EncodeInodes(xs[..n]), EncodeInode(xs[n]));
      InodesHeldWords(xs[..n], f, off);
      InodeHeld(f, off + 16 * n, xs[n]);
      forall k | 0 <= k < n ensures InodeWords(f, off + 16 * k, xs[k]) { assert xs[k] == xs[..n][k]; }
    }
  }

  lemma {:induction false} HeadsHeldWords(xs: seq<Block>, f: seq<byte>, off: nat)
    requires forall k | 0 <= k < |xs| :: EncodableBlock(xs[k])
    requires Holds(f, off, EncodeBlocks(xs))
    ensures forall k | 0 <= k < |xs| :: HeadWords(f, off + 12 * k, xs[k])
  {
    hide Holds, HeadWords, EncodeBlock;
    if xs != [] {
      var n := |xs| - 1;
      HoldsParts(f, off, EncodeBlocks(xs[..n]), EncodeBlock(xs[n]));
      HeadsHeldWords(xs[..n], f, off);
      HeadHeld(f, off + 12 * n, xs[n]);
      forall k | 0 <= k < n ensures HeadWords(f, off + 12 * k, xs[k]) { assert xs[k] == xs[..n][k]; }
    }
  }

  lemma SuperHeld(m: Meta, raw: seq<byte>, f: seq<byte>)
    requires Encodable(m) && |raw| == 20 && Holds(f, 0, EncodeSuper(m, raw))
    ensures Word(f, 0) == m.geo.inodeCount && Word(f, 4) == m.geo.blockCount && Word(f, 8) == m.usedInodes
    ensures Word(f, 12) == m.usedBlocks && Word(f, 16) == m.geo.blockSize
    ensures forall j | 0 <= j < 20 :: At(f, 20 + j) == raw[j]
  {
    hide Word;
    SuperWords(m, raw, f);
    HoldsParts(f, 0, Encode32(m.geo.inodeCount) + Encode32(m.geo.blockCount) + Encode32(m.usedInodes)
                     + Encode32(m.usedBlocks) + Encode32(m.geo.blockSize), raw);
  }

  lemma SuperWords(m: Meta, raw: seq<byte>, f: seq<byte>)
    requires Encodable(m) && |raw| == 20 && Holds(f, 0, EncodeSuper(m, raw))
    ensures Word(f, 0) == m.geo.inodeCount && Word(f, 4) == m.geo.blockCount && Word(f, 8) == m.usedInodes
    ensures Word(f, 12) == m.usedBlocks && Word(f, 16) == m.geo.blockSize
  {
    hide Word, Stored, Holds, Encode32;
    var a, b, c := Encode32(m.geo.inodeCount), Encode32(m.geo.blockCount), Encode32(m.usedInodes);
    var d, e := Encode32(m.usedBlocks), Encode32(m.geo.blockSize);
    HoldsParts(f, 0, a + b + c + d + e, raw);
    HoldsParts(f, 0, a + b + c + d, e);
    HoldsParts(f, 0, a + b + c, d);
    HoldsParts(f, 0, a + b, c);
    HoldsParts(f, 0, a, b);
    WordHeld(f, 0, m.geo.inodeCount); WordHeld(f, 4, m.geo.blockCount); WordHeld(f, 8, m.usedInodes);
    WordHeld(f, 12, m.usedBlocks); WordHeld(f, 16, m.geo.blockSize);
    StoredSame(m.geo.inodeCount); StoredSame(m.geo.blockCount); StoredSame(m.usedInodes);
    StoredSame(m.usedBlocks); StoredSame(m.geo.blockSize);
  }

  /** What a commit puts into the file, in plain numbers, and that it touches nothing behind. The type words are 0, 1
      and 2 for EMPTY, FILE and DIRECTORY, and 0 and 1 for EMPTY and USED. */
  lemma CommitWords(m: Meta, f: seq<byte>, raw: seq<byte>)
    requires Encodable(m) && |raw| == 20
    ensures var c := Commit(m, f, raw);
            && Word(c, 0) == m.geo.inodeCount && Word(c, 4) == m.geo.blockCount
            && Word(c, 8) == m.usedInodes && Word(c, 12) == m.usedBlocks && Word(c, 16) == m.geo.blockSize
            && (forall k | 0 <= k < |m.inodes| ::
                  var o, x := 40 + 16 * k, m.inodes[k];
                  && Word(c, o) == x.size && Word(c, o + 4) == Stored(x.root) && Word(c, o + 8) == Stored(x.parent)
                  && Word(c, o + 12) == match x.kind case Empty => 0 case File => 1 case Directory => 2)
            && (forall b | 0 <= b < |m.blocks| ::
                  var o, x := 40 + 16 * m.geo.inodeCount + 12 * b, m.blocks[b];
                  && Word(c, o) == Stored(x.next) && Word(c, o + 4) == x.size
                  && Word(c, o + 8) == if x.used then 1 else 0)
            && forall j: nat | 40 + 16 * m.geo.inodeCount + 12 * m.geo.blockCount <= j :: At(c, j) == At(f, j)
  {
    hide EncodeSuper, EncodeInodes, EncodeBlocks, Holds, Patch, Word, Stored;
    var c := Commit(m, f, raw);
    CommitHolds(m, f, raw);
    SuperHeld(m, raw, c);
    InodesHeldWords(m.inodes, c, 40);
    HeadsHeldWords(m.blocks, c, 40 + 16 * m.geo.inodeCount);
    forall k | 0 <= k < |m.inodes| ensures InodeWords(c, 40 + 16 * k, m.inodes[k]) {}
    forall b | 0 <= b < |m.blocks| ensures HeadWords(c, 40 + 16 * m.geo.inodeCount + 12 * b, m.blocks[b]) {}
  }

  lemma CommitHolds(m: Meta, f: seq<byte>, raw: seq<byte>)
    requires Encodable(m) && |raw| == 20
    ensures var c := Commit(m, f, raw);
            && Holds(c, 0, EncodeSuper(m, raw)) && Holds(c, 40, EncodeInodes(m.inodes))
            && Holds(c, 40 + 16 * m.geo.inodeCount, EncodeBlocks(m.blocks))
            && forall j: nat | 40 + 16 * m.geo.inodeCount + 12 * m.geo.blockCount <= j :: At(c, j) == At(f, j)
  {
    hide EncodeSuper, EncodeInodes, EncodeBlocks, Holds, Patch;
    var c := Commit(m, f, raw);
    Patched(f, EncodeMeta(m, raw));
    HoldsParts(c, 0, EncodeSuper(m, raw) + EncodeInodes(m.inodes), EncodeBlocks(m.blocks));
    HoldsParts(c, 0, EncodeSuper(m, raw), EncodeInodes(m.inodes));
  }

  /** What opening makes of any file: it fails exactly when the file is shorter than the tables it announces. */
  lemma LoadWords(f: seq<byte>)
    ensures Load(f).None? <==> |f| < 40 || |f| < 40 + 16 * Word(f, 0) + 12 * Word(f, 4)
    ensures Load(f).Some? ==>
              var m := Load(f).value;
              && m.geo == Geometry(Word(f, 0), Word(f, 4), Word(f, 16))
              && m.usedInodes == Word(f, 8) && m.usedBlocks == Word(f, 12)
              && |m.inodes| == Word(f, 0) && |m.blocks| == Word(f, 4)
              && (forall k | 0 <= k < |m.inodes| ::
                    var o := 40 + 16 * k;
                    m.inodes[k] == Inode(Word(f, o), Signed32(Word(f, o + 4)), Signed32(Word(f, o + 8)),
                                         if Word(f, o + 12) == 0 then Empty
                                         else if Word(f, o + 12) == 1 then File else Directory))
              && (forall b | 0 <= b < |m.blocks| ::
                    var o := 40 + 16 * Word(f, 0) + 12 * b;
                    m.blocks[b] == Block(Signed32(Word(f, o)), Word(f, o + 4), Word(f, o + 8) != 0))
  {
    hide Word, DecodeU32, DecodeI32, WordAt;
    WordIs(f, 0); WordIs(f, 4); WordIs(f, 8); WordIs(f, 12); WordIs(f, 16);
    if Load(f).Some? {
      var m := Load(f).value;
      forall k | 0 <= k < |m.inodes| ensures m.inodes[k] == InodeFrom(f, 40 + 16 * k) { InodeRead(f, 40 + 16 * k); }
      forall b | 0 <= b < |m.blocks| ensures m.blocks[b] == HeadFrom(f, 40 + 16 * Word(f, 0) + 12 * b) {
        HeadRead(f, 40 + 16 * Word(f, 0) + 12 * b);
      }
    }
  }

  function InodeFrom(f: seq<byte>, off: nat): Inode {
    var code := Word(f, off + 12);
    Inode(Word(f, off), Signed32(Word(f, off + 4)), Signed32(Word(f, off + 8)),
          if code == 0 then Empty else if code == 1 then File else Directory)
  }

  function HeadFrom(f: seq<byte>, off: nat): Block {
    Block(Signed32(Word(f, off)), Word(f, off + 4), Word(f, off + 8) != 0)
  }

  lemma InodeRead(f: seq<byte>, off: nat)
    ensures DecodeInode(f, off) == InodeFrom(f, off)
  {
    hide Word, DecodeU32, DecodeI32, WordAt;
    WordIs(f, off); WordIs(f, off + 4); WordIs(f, off + 8); WordIs(f, off + 12);
  }

  lemma HeadRead(f: seq<byte>, off: nat)
    ensures DecodeBlock(f, off) == HeadFrom(f, off)
  {
    hide Word, DecodeU32, DecodeI32, WordAt;
    WordIs(f, off); WordIs(f, off + 4); WordIs(f, off + 8);
  }

  lemma NewMetaWords(g: Geometry, f: seq<byte>, raw: seq<byte>)
    requires 0 < g.inodeCount && 0 < g.blockCount && Encodable(NewMeta(g)) && |raw| == 20
    ensures var c, m := Commit(NewMeta(g), f, raw), NewMeta(g);
            && Word(c, 0) == g.inodeCount && Word(c, 4) == g.blockCount && Word(c, 8) == 0 && Word(c, 12) == 0
            && Word(c, 16) == g.blockSize
            && (forall k | 0 <= k < |m.inodes| :: InodeWords(c, 40 + 16 * k, m.inodes[k]))
            && (forall b | 0 <= b < |m.blocks| :: HeadWords(c, 40 + 16 * g.inodeCount + 12 * b, m.blocks[b]))
  {
    hide EncodeSuper, EncodeInodes, EncodeBlocks, Holds, Word, InodeWords, HeadWords, Commit;
    var m := NewMeta(g);
    var c := Commit(m, f, raw);
    CommitHolds(m, f, raw);
    SuperHeld(m, raw, c);
    InodesHeldWords(m.inodes, c, 40);
    HeadsHeldWords(m.blocks, c, 40 + 16 * g.inodeCount);
  }

  /** A new volume on disk: counters 0, the root directory in slot 0 with type 2, its block USED and ending with -1,
      all other slots and headers zero. */
  lemma NewWords(g: Geometry, f: seq<byte>, raw: seq<byte>)
    requires Fits(g) && |raw| == 20 && 0 < g.inodeCount && 0 < g.blockCount
    ensures var c, heads := Commit(NewMeta(g), f, raw), 40 + 16 * g.inodeCount;
            && Word(c, 0) == g.inodeCount && Word(c, 4) == g.blockCount && Word(c, 8) == 0 && Word(c, 12) == 0
            && Word(c, 16) == g.blockSize
            && Word(c, 40) == 0 && Word(c, 44) == 0 && Word(c, 48) == 0 && Word(c, 52) == 2
            && Word(c, heads) == 0xFFFF_FFFF && Word(c, heads + 4) == 0 && Word(c, heads + 8) == 1
            && (forall k | 0 < k < g.inodeCount ::
                  var o := 40 + 16 * k; Word(c, o) == Word(c, o + 4) == Word(c, o + 8) == Word(c, o + 12) == 0)
            && (forall b | 0 < b < g.blockCount ::
                  var o := heads + 12 * b; Word(c, o) == Word(c, o + 4) == Word(c, o + 8) == 0)
  {
    hide Word, Fits, Commit;
    NewSizes(g);
    NewMetaWords(g, f, raw);
    var c, m := Commit(NewMeta(g), f, raw), NewMeta(g);
    assert InodeWords(c, 40 + 16 * 0, m.inodes[0]) && HeadWords(c, 40 + 16 * g.inodeCount + 12 * 0, m.blocks[0]);
    forall k | 0 < k < g.inodeCount
      ensures var o := 40 + 16 * k; Word(c, o) == Word(c, o + 4) == Word(c, o + 8) == Word(c, o + 12) == 0
    {
      assert InodeWords(c, 40 + 16 * k, m.inodes[k]);
    }
    forall b | 0 < b < g.blockCount
      ensures var o := 40 + 16 * g.inodeCount + 12 * b; Word(c, o) == Word(c, o + 4) == Word(c, o + 8) == 0
    {
      assert HeadWords(c, 40 + 16 * g.inodeCount + 12 * b, m.blocks[b]);
    }
  }

  // ---- bodies and records ----

  /** Blocks lie one behind the other, behind the tables. */
  lemma BodyPlaces(g: Geometry, b: nat)
    ensures BodyStart(g, b) == 40 + 16 * g.inodeCount + 12 * g.blockCount + g.blockSize * b
  {
  }

  /** The 32 bytes of a record: the flag, 27 bytes of name, the inode number. */
  lemma RecordBytes(r: Record)
    requires |r.name| == NAME && r.inode < TWO32
    ensures NAME == 27
    ensures var s := EncodeRecord(r);
            && |s| == 32 && s[0] == r.used && s[1..28] == r.name && Word(s, 28) == r.inode
  {
    var s := EncodeRecord(r);
    forall k | 0 <= k < 4 ensures At(s, 28 + k) == Encode32(r.inode)[k] { assert s[28 + k] == Encode32(r.inode)[k]; }
    assert Holds(s, 28, Encode32(r.inode));
    WordHeld(s, 28, r.inode);
  }

  /** What reading makes of the bytes of a directory. */
  lemma RecordsRead(c: seq<byte>, k: nat)
    requires 32 * k + 32 <= |c|
    ensures |Records(c)| == |c| / 32 && k < |Records(c)|
    ensures var r := Records(c)[k];
            r.used == c[32 * k] && r.name == c[32 * k + 1..32 * k + 28] && r.inode == Word(c, 32 * k + 28)
  {
    hide Word;
    WordIs(c, 32 * k + 28);
    var o := 32 * k + 1;
    forall j | 0 <= j < 27 ensures Slice(c, o, 27)[j] == c[o..o + 27][j] { assert Slice(c, o, 27)[j] == At(c, o + j); }
  }

  /** The name field: up to 26 bytes of the name, and zeros. */
  lemma FieldBytes(name: seq<byte>, j: nat)
    requires j < 27
    ensures |Field(name)| == 27
    ensures Field(name)[j] == if j < |name| && j < 26 then name[j] else 0
  {
  }
}
