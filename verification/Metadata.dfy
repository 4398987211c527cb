/** Inodes, block headers, and their image on disk. */
module Metadata {
  import opened Bytes
  import opened Layout

  datatype Kind = Empty | File | Directory

  datatype Inode = Inode(size: nat, root: int, parent: int, kind: Kind)

  datatype Block = Block(next: int, size: nat, used: bool)

  /** What the program keeps in memory: the superblock counters and the two tables. */
  datatype Meta = Meta(geo: Geometry, usedInodes: nat, usedBlocks: nat, inodes: seq<Inode>, blocks: seq<Block>)

  datatype Option<+T> = None | Some(value: T)

  const EMPTY_INODE := Inode(0, 0, 0, Empty)
  const EMPTY_BLOCK := Block(0, 0, false)

  predicate Signed(x: int) { -TWO31 <= x < TWO31 }

  /** Every field fits the width the program gives it. */
  ghost predicate Encodable(m: Meta) {
    && |m.inodes| == m.geo.inodeCount < TWO32 && |m.blocks| == m.geo.blockCount < TWO32
    && m.geo.blockSize < TWO32 && m.usedInodes < TWO32 && m.usedBlocks < TWO32
    && (forall k | 0 <= k < |m.inodes| :: EncodableInode(m.inodes[k]))
    && (forall k | 0 <= k < |m.blocks| :: EncodableBlock(m.blocks[k]))
  }

  predicate EncodableInode(x: Inode) { x.size < TWO32 && Signed(x.root) && Signed(x.parent) }

  predicate EncodableBlock(x: Block) { x.size < TWO32 && Signed(x.next) }

  // ---- encoding ----

  /** `raw` stands for the padding and the two memory addresses the program saves with the superblock. */
  function EncodeSuper(m: Meta, raw: seq<byte>): (s: seq<byte>)
    requires |raw| == 20
    ensures |s| == SUPER
  {
    Encode32(m.geo.inodeCount) + Encode32(m.geo.blockCount) + Encode32(m.usedInodes)
    + Encode32(m.usedBlocks) + Encode32(m.geo.blockSize) + raw
  }

  function EncodeInode(x: Inode): (s: seq<byte>)
    ensures |s| == SLOT
  {
    Encode32(x.size) + Encode32(x.root) + Encode32(x.parent)
    + Encode32(match x.kind case Empty => 0 case File => 1 case Directory => 2)
  }

  function EncodeBlock(x: Block): (s: seq<byte>)
    ensures |s| == HEAD
  {
    Encode32(x.next) + Encode32(x.size) + Encode32(if x.used then 1 else 0)
  }

  function EncodeInodes(xs: seq<Inode>): (s: seq<byte>)
    ensures |s| == SLOT * |xs|
  {
    if xs == [] then [] else EncodeInodes(xs[..|xs| - 1]) + EncodeInode(xs[|xs| - 1])
  }

  function EncodeBlocks(xs: seq<Block>): (s: seq<byte>)
    ensures |s| == HEAD * |xs|
  {
    if xs == [] then [] else EncodeBlocks(xs[..|xs| - 1]) + EncodeBlock(xs[|xs| - 1])
  }

  function EncodeMeta(m: Meta, raw: seq<byte>): (s: seq<byte>)
    requires |raw| == 20
    ensures |s| == SUPER + SLOT * |m.inodes| + HEAD * |m.blocks|
  {
    EncodeSuper(m, raw) + EncodeInodes(m.inodes) + EncodeBlocks(m.blocks)
  }

  // ---- decoding ----

  function WordAt(f: seq<byte>, off: nat): (s: seq<byte>)
    ensures |s| == 4
  {
    Slice(f, off, 4)
  }

  function DecodeInode(f: seq<byte>, off: nat): Inode {
    var code := DecodeU32(WordAt(f, off + 12));
    Inode(DecodeU32(WordAt(f, off)), DecodeI32(WordAt(f, off + 4)), DecodeI32(WordAt(f, off + 8)),
          if code == 0 then Empty else if code == 1 then File else Directory)
  }

  function DecodeBlock(f: seq<byte>, off: nat): Block {
    Block(DecodeI32(WordAt(f, off)), DecodeU32(WordAt(f, off + 4)), DecodeU32(WordAt(f, off + 8)) != 0)
  }

  function LoadGeometry(f: seq<byte>): Geometry {
    Geometry(DecodeU32(WordAt(f, 0)), DecodeU32(WordAt(f, 4)), DecodeU32(WordAt(f, 16)))
  }

  function LoadInodes(f: seq<byte>, n: nat): (s: seq<Inode>)
    ensures |s| == n
  {
    seq(n, k requires 0 <= k => DecodeInode(f, SUPER + SLOT * k))
  }

  function LoadBlocks(f: seq<byte>, off: nat, n: nat): (s: seq<Block>)
    ensures |s| == n
  {
    seq(n, k requires 0 <= k => DecodeBlock(f, off + HEAD * k))
  }

  /** The tables read from a file; `None` when the file ends too early, where the program exits. */
  function Load(f: seq<byte>): Option<Meta> {
    var g := LoadGeometry(f);
    if |f| < SUPER || |f| < MetaEnd(g) then None
    else Some(Meta(g, DecodeU32(WordAt(f, 8)), DecodeU32(WordAt(f, 12)),
                   LoadInodes(f, g.inodeCount),
                   LoadBlocks(f, SUPER + SLOT * g.inodeCount, g.blockCount)))
  }

  lemma LoadParts(f: seq<byte>, m: Meta)
    requires Load(f) == Some(m)
    ensures m == Meta(LoadGeometry(f), DecodeU32(WordAt(f, 8)), DecodeU32(WordAt(f, 12)),
                      LoadInodes(f, LoadGeometry(f).inodeCount),
                      LoadBlocks(f, SUPER + SLOT * LoadGeometry(f).inodeCount, LoadGeometry(f).blockCount))
  {
  }

  // ---- commit, then load ----

  /** The file after all metadata was rewritten. */
  function Commit(m: Meta, f: seq<byte>, raw: seq<byte>): seq<byte>
    requires |raw| == 20
  {
    Patch(f, 0, EncodeMeta(m, raw))
  }

  /** Bytes `w` stand in the file at `off`. */
  ghost predicate Holds(f: seq<byte>, off: nat, w: seq<byte>) {
    forall k | 0 <= k < |w| :: At(f, off + k) == w[k]
  }

  lemma HoldsSlice(f: seq<byte>, off: nat, w: seq<byte>)
    requires Holds(f, off, w)
    ensures Slice(f, off, |w|) == w
  {
  }

  lemma HoldsParts(f: seq<byte>, off: nat, a: seq<byte>, b: seq<byte>)
    requires Holds(f, off, a + b)
    ensures Holds(f, off, a) && Holds(f, off + |a|, b)
  {
    forall k | 0 <= k < |a| ensures At(f, off + k) == a[k] { assert (a + b)[k] == a[k]; }
    forall k | 0 <= k < |b| ensures At(f, off + |a| + k) == b[k] { assert (a + b)[|a| + k] == b[k]; }
  }

  lemma InodeBack(x: Inode, f: seq<byte>, off: nat)
    requires EncodableInode(x) && Holds(f, off, EncodeInode(x))
    ensures DecodeInode(f, off) == x
  {
    var code := match x.kind case Empty => 0 case File => 1 case Directory => 2;
    var a, b, c, d := Encode32(x.size), Encode32(x.root), Encode32(x.parent), Encode32(code);
    HoldsParts(f, off, a + b + c, d);
    HoldsParts(f, off, a + b, c);
    HoldsParts(f, off, a, b);
    HoldsSlice(f, off, a); HoldsSlice(f, off + 4, b); HoldsSlice(f, off + 8, c); HoldsSlice(f, off + 12, d);
    U32RoundTrip(x.size); I32RoundTrip(x.root); I32RoundTrip(x.parent); U32RoundTrip(code);
  }

  lemma BlockBack(x: Block, f: seq<byte>, off: nat)
    requires EncodableBlock(x) && Holds(f, off, EncodeBlock(x))
    ensures DecodeBlock(f, off) == x
  {
    var code := if x.used then 1 else 0;
    var a, b, c := Encode32(x.next), Encode32(x.size), Encode32(code);
    HoldsParts(f, off, a + b, c);
    HoldsParts(f, off, a, b);
    HoldsSlice(f, off, a); HoldsSlice(f, off + 4, b); HoldsSlice(f, off + 8, c);
    I32RoundTrip(x.next); U32RoundTrip(x.size); U32RoundTrip(code);
  }

  lemma {:induction false} InodesBack(xs: seq<Inode>, f: seq<byte>, off: nat)
    requires forall k | 0 <= k < |xs| :: EncodableInode(xs[k])
    requires Holds(f, off, EncodeInodes(xs))
    ensures forall k | 0 <= k < |xs| :: DecodeInode(f, off + SLOT * k) == xs[k]
  {
    if xs != [] {
      var n := |xs| - 1;
      HoldsParts(f, off, EncodeInodes(xs[..n]), EncodeInode(xs[n]));
      InodesBack(xs[..n], f, off);
      InodeBack(xs[n], f, off + SLOT * n);
      forall k | 0 <= k < n ensures DecodeInode(f, off + SLOT * k) == xs[k] { assert xs[k] == xs[..n][k]; }
    }
  }

  lemma {:induction false} BlocksBack(xs: seq<Block>, f: seq<byte>, off: nat)
    requires forall k | 0 <= k < |xs| :: EncodableBlock(xs[k])
    requires Holds(f, off, EncodeBlocks(xs))
    ensures forall k | 0 <= k < |xs| :: DecodeBlock(f, off + HEAD * k) == xs[k]
  {
    if xs != [] {
      var n := |xs| - 1;
      HoldsParts(f, off, EncodeBlocks(xs[..n]), EncodeBlock(xs[n]));
      BlocksBack(xs[..n], f, off);
      BlockBack(xs[n], f, off + HEAD * n);
      forall k | 0 <= k < n ensures DecodeBlock(f, off + HEAD * k) == xs[k] { assert xs[k] == xs[..n][k]; }
    }
  }

  lemma TablesBack(m: Meta, f: seq<byte>)
    requires Encodable(m)
    requires Holds(f, SUPER, EncodeInodes(m.inodes))
    requires Holds(f, SUPER + SLOT * m.geo.inodeCount, EncodeBlocks(m.blocks))
    ensures LoadInodes(f, m.geo.inodeCount) == m.inodes
    ensures LoadBlocks(f, SUPER + SLOT * m.geo.inodeCount, m.geo.blockCount) == m.blocks
  {
    hide DecodeInode, DecodeBlock, EncodeInodes, EncodeBlocks, Holds;
    InodesBack(m.inodes, f, SUPER);
    BlocksBack(m.blocks, f, SUPER + SLOT * m.geo.inodeCount);
  }

  lemma SuperBack(m: Meta, raw: seq<byte>, f: seq<byte>)
    requires Encodable(m) && |raw| == 20 && Holds(f, 0, EncodeSuper(m, raw))
    ensures LoadGeometry(f) == m.geo
    ensures DecodeU32(WordAt(f, 8)) == m.usedInodes && DecodeU32(WordAt(f, 12)) == m.usedBlocks
  {
    var a, b, c := Encode32(m.geo.inodeCount), Encode32(m.geo.blockCount), Encode32(m.usedInodes);
    var d, e := Encode32(m.usedBlocks), Encode32(m.geo.blockSize);
    HoldsParts(f, 0, a + b + c + d + e, raw);
    HoldsParts(f, 0, a + b + c + d, e);
    HoldsParts(f, 0, a + b + c, d);
    HoldsParts(f, 0, a + b, c);
    HoldsParts(f, 0, a, b);
    HoldsSlice(f, 0, a); HoldsSlice(f, 4, b); HoldsSlice(f, 8, c); HoldsSlice(f, 12, d); HoldsSlice(f, 16, e);
    U32RoundTrip(m.geo.inodeCount); U32RoundTrip(m.geo.blockCount); U32RoundTrip(m.usedInodes);
    U32RoundTrip(m.usedBlocks); U32RoundTrip(m.geo.blockSize);
  }

  /** Any file that starts with the encoded metadata loads back to it. */
  lemma LoadEncoded(m: Meta, raw: seq<byte>, f: seq<byte>)
    requires Encodable(m) && |raw| == 20
    requires MetaEnd(m.geo) <= |f| && Holds(f, 0, EncodeMeta(m, raw))
    ensures Load(f) == Some(m)
  {
    HoldsParts(f, 0, EncodeSuper(m, raw) + EncodeInodes(m.inodes), EncodeBlocks(m.blocks));
    HoldsParts(f, 0, EncodeSuper(m, raw), EncodeInodes(m.inodes));
    SuperBack(m, raw, f);
    TablesBack(m, f);
  }

  /** Committing and opening again gives back exactly the tables and counters in memory. */
  lemma CommitLoad(m: Meta, f: seq<byte>, raw: seq<byte>)
    requires Encodable(m) && |raw| == 20
    ensures Load(Commit(m, f, raw)) == Some(m)
  {
    LoadEncoded(m, raw, Commit(m, f, raw));
  }

  lemma WordFrame(f: seq<byte>, f': seq<byte>, n: nat, o: nat)
    requires Slice(f', 0, n) == Slice(f, 0, n) && o + 4 <= n
    ensures WordAt(f', o) == WordAt(f, o)
  {
    SubSlice(f, 0, n, o, 4);
    SubSlice(f', 0, n, o, 4);
  }

  lemma InodeFrame(f: seq<byte>, f': seq<byte>, n: nat, o: nat)
    requires Slice(f', 0, n) == Slice(f, 0, n) && o + SLOT <= n
    ensures DecodeInode(f', o) == DecodeInode(f, o)
  {
    WordFrame(f, f', n, o); WordFrame(f, f', n, o + 4); WordFrame(f, f', n, o + 8); WordFrame(f, f', n, o + 12);
  }

  lemma BlockFrame(f: seq<byte>, f': seq<byte>, n: nat, o: nat)
    requires Slice(f', 0, n) == Slice(f, 0, n) && o + HEAD <= n
    ensures DecodeBlock(f', o) == DecodeBlock(f, o)
  {
    WordFrame(f, f', n, o); WordFrame(f, f', n, o + 4); WordFrame(f, f', n, o + 8);
  }

  lemma InodesFrame(f: seq<byte>, f': seq<byte>, n: nat, count: nat)
    requires Slice(f', 0, n) == Slice(f, 0, n) && SUPER + SLOT * count <= n
    ensures LoadInodes(f', count) == LoadInodes(f, count)
  {
    forall k | 0 <= k < count ensures LoadInodes(f', count)[k] == LoadInodes(f, count)[k] {
      InodeFrame(f, f', n, SUPER + SLOT * k);
    }
  }

  lemma BlocksFrame(f: seq<byte>, f': seq<byte>, n: nat, off: nat, count: nat)
    requires Slice(f', 0, n) == Slice(f, 0, n) && off + HEAD * count <= n
    ensures LoadBlocks(f', off, count) == LoadBlocks(f, off, count)
  {
    forall k | 0 <= k < count ensures LoadBlocks(f', off, count)[k] == LoadBlocks(f, off, count)[k] {
      BlockFrame(f, f', n, off + HEAD * k);
    }
  }

  /** What `Load` returns depends on the metadata range only. */
  lemma LoadFrame(f: seq<byte>, f': seq<byte>, m: Meta)
    requires Load(f) == Some(m) && |f| <= |f'|
    requires Slice(f', 0, MetaEnd(m.geo)) == Slice(f, 0, MetaEnd(m.geo))
    ensures Load(f') == Some(m)
  {
    var n := MetaEnd(m.geo);
    WordFrame(f, f', n, 0); WordFrame(f, f', n, 4); WordFrame(f, f', n, 8);
    WordFrame(f, f', n, 12); WordFrame(f, f', n, 16);
    InodesFrame(f, f', n, m.geo.inodeCount);
    BlocksFrame(f, f', n, SUPER + SLOT * m.geo.inodeCount, m.geo.blockCount);
  }

  // ---- writing slot by slot ----

  /** What the first `n` writes of a commit put down: the superblock, then the inodes, then the block headers. */
  function Slots(m: Meta, raw: seq<byte>, n: nat): (s: seq<byte>)
    requires |raw| == 20 && n <= 1 + |m.inodes| + |m.blocks|
  {
    if n == 0 then []
    else if n <= 1 + |m.inodes| then EncodeSuper(m, raw) + EncodeInodes(m.inodes[..n - 1])
    else EncodeSuper(m, raw) + EncodeInodes(m.inodes) + EncodeBlocks(m.blocks[..n - 1 - |m.inodes|])
  }

  /** The file after `n` writes of a commit. */
  function Torn(m: Meta, f: seq<byte>, raw: seq<byte>, n: nat): seq<byte>
    requires |raw| == 20 && n <= 1 + |m.inodes| + |m.blocks|
  {
    Patch(f, 0, Slots(m, raw, n))
  }

  lemma TornEnds(m: Meta, f: seq<byte>, raw: seq<byte>)
    requires |raw| == 20
    ensures Torn(m, f, raw, 0) == f && Torn(m, f, raw, 1) == Patch(f, 0, EncodeSuper(m, raw))
    ensures Torn(m, f, raw, 1 + |m.inodes| + |m.blocks|) == Commit(m, f, raw)
  {
    hide Patch, EncodeSuper;
    assert m.inodes[..|m.inodes|] == m.inodes && m.blocks[..|m.blocks|] == m.blocks;
    assert EncodeSuper(m, raw) + [] == EncodeSuper(m, raw);
    if m.blocks == [] {
      assert EncodeSuper(m, raw) + EncodeInodes(m.inodes) + [] == EncodeSuper(m, raw) + EncodeInodes(m.inodes);
    }
  }

  lemma NextInodeSlot(m: Meta, f: seq<byte>, raw: seq<byte>, n: nat)
    requires |raw| == 20 && n < |m.inodes|
    ensures Patch(Torn(m, f, raw, 1 + n), SUPER + SLOT * n, EncodeInode(m.inodes[n])) == Torn(m, f, raw, 2 + n)
  {
    hide Patch, EncodeInode, EncodeSuper;
    var front, xs := EncodeSuper(m, raw), m.inodes;
    assert xs[..n + 1][..n] == xs[..n];
    assert front + EncodeInodes(xs[..n + 1]) == front + EncodeInodes(xs[..n]) + EncodeInode(xs[n]);
    PatchConcat(f, 0, front + EncodeInodes(xs[..n]), EncodeInode(xs[n]));
  }

  lemma NextBlockSlot(m: Meta, f: seq<byte>, raw: seq<byte>, n: nat)
    requires |raw| == 20 && n < |m.blocks|
    ensures Patch(Torn(m, f, raw, 1 + |m.inodes| + n), SUPER + SLOT * |m.inodes| + HEAD * n, EncodeBlock(m.blocks[n]))
         == Torn(m, f, raw, 2 + |m.inodes| + n)
  {
    hide Patch, EncodeBlock, EncodeSuper;
    var front, xs := EncodeSuper(m, raw) + EncodeInodes(m.inodes), m.blocks;
    assert xs[..n + 1][..n] == xs[..n];
    if n == 0 {
      assert m.inodes[..|m.inodes|] == m.inodes && front + EncodeBlocks(xs[..0]) == front;
    }
    assert front + EncodeBlocks(xs[..n + 1]) == front + EncodeBlocks(xs[..n]) + EncodeBlock(xs[n]);
    PatchConcat(f, 0, front + EncodeBlocks(xs[..n]), EncodeBlock(xs[n]));
  }

  /** The first `k` elements of `xs`, then those of `ys`. */
  function Mixed<T>(xs: seq<T>, ys: seq<T>, k: nat): (zs: seq<T>)
    requires k <= |xs| == |ys|
    ensures |zs| == |xs|
  {
    xs[..k] + ys[k..]
  }

  /** Counters and tables that are `m` in what `n` writes of a commit put down, and `m0` in the rest. */
  function TornMeta(m0: Meta, m: Meta, n: nat): Meta
    requires |m0.inodes| == |m.inodes| && |m0.blocks| == |m.blocks| && n <= 1 + |m.inodes| + |m.blocks|
  {
    if n == 0 then m0
    else if n <= 1 + |m.inodes| then m.(inodes := Mixed(m.inodes, m0.inodes, n - 1), blocks := m0.blocks)
    else m.(blocks := Mixed(m.blocks, m0.blocks, n - 1 - |m.inodes|))
  }

  lemma WordBehind(f: seq<byte>, f': seq<byte>, n: nat, o: nat)
    requires n <= o && forall j: nat | n <= j :: At(f', j) == At(f, j)
    ensures WordAt(f', o) == WordAt(f, o)
  {
    SameSlice(f', o, f, o, 4);
  }

  lemma InodeBehind(f: seq<byte>, f': seq<byte>, n: nat, o: nat)
    requires n <= o && forall j: nat | n <= j :: At(f', j) == At(f, j)
    ensures DecodeInode(f', o) == DecodeInode(f, o)
  {
    hide WordAt;
    WordBehind(f, f', n, o); WordBehind(f, f', n, o + 4); WordBehind(f, f', n, o + 8); WordBehind(f, f', n, o + 12);
  }

  lemma BlockBehind(f: seq<byte>, f': seq<byte>, n: nat, o: nat)
    requires n <= o && forall j: nat | n <= j :: At(f', j) == At(f, j)
    ensures DecodeBlock(f', o) == DecodeBlock(f, o)
  {
    hide WordAt;
    WordBehind(f, f', n, o); WordBehind(f, f', n, o + 4); WordBehind(f, f', n, o + 8);
  }

  lemma InodesMixed(xs: seq<Inode>, f: seq<byte>, f': seq<byte>, k: nat)
    requires k <= |xs| && forall i | 0 <= i < |xs| :: EncodableInode(xs[i])
    requires Holds(f', SUPER, EncodeInodes(xs[..k])) && forall j: nat | SUPER + SLOT * k <= j :: At(f', j) == At(f, j)
    ensures LoadInodes(f', |xs|) == Mixed(xs, LoadInodes(f, |xs|), k)
  {
    hide Holds, EncodeInodes, DecodeInode;
    InodesBack(xs[..k], f', SUPER);
    forall i | 0 <= i < |xs| ensures LoadInodes(f', |xs|)[i] == Mixed(xs, LoadInodes(f, |xs|), k)[i] {
      if i < k {
        assert xs[..k][i] == xs[i];
      } else {
        InodeBehind(f, f', SUPER + SLOT * k, SUPER + SLOT * i);
      }
    }
  }

  lemma BlocksMixed(xs: seq<Block>, f: seq<byte>, f': seq<byte>, off: nat, k: nat)
    requires k <= |xs| && forall i | 0 <= i < |xs| :: EncodableBlock(xs[i])
    requires Holds(f', off, EncodeBlocks(xs[..k])) && forall j: nat | off + HEAD * k <= j :: At(f', j) == At(f, j)
    ensures LoadBlocks(f', off, |xs|) == Mixed(xs, LoadBlocks(f, off, |xs|), k)
  {
    hide Holds, EncodeBlocks, DecodeBlock;
    BlocksBack(xs[..k], f', off);
    forall i | 0 <= i < |xs| ensures LoadBlocks(f', off, |xs|)[i] == Mixed(xs, LoadBlocks(f, off, |xs|), k)[i] {
      if i < k {
        assert xs[..k][i] == xs[i];
      } else {
        BlockBehind(f, f', off + HEAD * k, off + HEAD * i);
      }
    }
  }

  lemma Patched(f: seq<byte>, d: seq<byte>)
    ensures Holds(Patch(f, 0, d), 0, d) && |f| <= |Patch(f, 0, d)|
    ensures forall j: nat | |d| <= j :: At(Patch(f, 0, d), j) == At(f, j)
  {
  }

  lemma LoadIs(f: seq<byte>, m: Meta)
    requires SUPER <= MetaEnd(m.geo) <= |f| && LoadGeometry(f) == m.geo
    requires DecodeU32(WordAt(f, 8)) == m.usedInodes && DecodeU32(WordAt(f, 12)) == m.usedBlocks
    requires LoadInodes(f, m.geo.inodeCount) == m.inodes
    requires LoadBlocks(f, SUPER + SLOT * m.geo.inodeCount, m.geo.blockCount) == m.blocks
    ensures Load(f) == Some(m)
  {
    hide LoadGeometry, LoadInodes, LoadBlocks;
  }

  lemma LoadedSize(f: seq<byte>, m: Meta)
    requires Load(f) == Some(m)
    ensures SUPER <= MetaEnd(m.geo) <= |f|
    ensures m.inodes == LoadInodes(f, m.geo.inodeCount)
    ensures m.blocks == LoadBlocks(f, SUPER + SLOT * m.geo.inodeCount, m.geo.blockCount)
  {
    hide LoadInodes, LoadBlocks;
  }

  lemma InodesHeld(m: Meta, f: seq<byte>, raw: seq<byte>, n: nat)
    requires |raw| == 20 && 0 < n <= 1 + |m.inodes|
    ensures var f' := Torn(m, f, raw, n);
            && |f| <= |f'| && Holds(f', 0, EncodeSuper(m, raw)) && Holds(f', SUPER, EncodeInodes(m.inodes[..n - 1]))
            && forall j: nat | SUPER + SLOT * (n - 1) <= j :: At(f', j) == At(f, j)
  {
    hide EncodeSuper, EncodeInodes, Holds, Patch;
    Patched(f, Slots(m, raw, n));
    HoldsParts(Torn(m, f, raw, n), 0, EncodeSuper(m, raw), EncodeInodes(m.inodes[..n - 1]));
  }

  lemma BlocksHeld(m: Meta, f: seq<byte>, raw: seq<byte>, n: nat)
    requires |raw| == 20 && 1 + |m.inodes| < n <= 1 + |m.inodes| + |m.blocks|
    ensures var f', back, k := Torn(m, f, raw, n), SUPER + SLOT * |m.inodes|, n - 1 - |m.inodes|;
            && |f| <= |f'| && Holds(f', 0, EncodeSuper(m, raw)) && Holds(f', SUPER, EncodeInodes(m.inodes))
            && Holds(f', back, EncodeBlocks(m.blocks[..k]))
            && forall j: nat | back + HEAD * k <= j :: At(f', j) == At(f, j)
  {
    hide EncodeSuper, EncodeInodes, EncodeBlocks, Holds, Patch;
    var f', k := Torn(m, f, raw, n), n - 1 - |m.inodes|;
    Patched(f, Slots(m, raw, n));
    HoldsParts(f', 0, EncodeSuper(m, raw) + EncodeInodes(m.inodes), EncodeBlocks(m.blocks[..k]));
    HoldsParts(f', 0, EncodeSuper(m, raw), EncodeInodes(m.inodes));
  }

  lemma TornInodes(m0: Meta, m: Meta, f: seq<byte>, raw: seq<byte>, n: nat)
    requires Encodable(m) && |raw| == 20 && Load(f) == Some(m0) && m0.geo == m.geo && 0 < n <= 1 + |m.inodes|
    ensures Load(Torn(m, f, raw, n)) == Some(TornMeta(m0, m, n))
  {
    hide EncodeSuper, EncodeInodes, EncodeBlocks, Holds, Torn, Load, LoadGeometry, LoadInodes, LoadBlocks, WordAt;
    var f', back := Torn(m, f, raw, n), SUPER + SLOT * m.geo.inodeCount;
    LoadedSize(f, m0);
    InodesHeld(m, f, raw, n);
    SuperBack(m, raw, f');
    InodesMixed(m.inodes, f, f', n - 1);
    NoneHeld(f', back);
    BlocksMixed(m.blocks, f, f', back, 0);
    assert Mixed(m.blocks, m0.blocks, 0) == m0.blocks;
    LoadIs(f', TornMeta(m0, m, n));
  }

  lemma NoneHeld(f: seq<byte>, off: nat)
    ensures forall xs: seq<Block> :: Holds(f, off, EncodeBlocks(xs[..0]))
  {
  }

  lemma TornBlocks(m0: Meta, m: Meta, f: seq<byte>, raw: seq<byte>, n: nat)
    requires Encodable(m) && |raw| == 20 && Load(f) == Some(m0) && m0.geo == m.geo
    requires 1 + |m.inodes| < n <= 1 + |m.inodes| + |m.blocks|
    ensures Load(Torn(m, f, raw, n)) == Some(TornMeta(m0, m, n))
  {
    hide EncodeSuper, EncodeInodes, EncodeBlocks, Holds, Torn, Load, LoadGeometry, LoadInodes, LoadBlocks, WordAt;
    var f', back := Torn(m, f, raw, n), SUPER + SLOT * m.geo.inodeCount;
    LoadedSize(f, m0);
    BlocksHeld(m, f, raw, n);
    SuperBack(m, raw, f');
    AllInodesBack(m.inodes, f');
    BlocksMixed(m.blocks, f, f', back, n - 1 - |m.inodes|);
    LoadIs(f', TornMeta(m0, m, n));
  }

  lemma AllInodesBack(xs: seq<Inode>, f: seq<byte>)
    requires forall k | 0 <= k < |xs| :: EncodableInode(xs[k])
    requires Holds(f, SUPER, EncodeInodes(xs))
    ensures LoadInodes(f, |xs|) == xs
  {
    hide DecodeInode, EncodeInodes, Holds;
    InodesBack(xs, f, SUPER);
  }

  /** A commit cut off after any number of its writes opens to the new entries as far as they were written and to the
      old ones from there on. */
  lemma TornLoad(m0: Meta, m: Meta, f: seq<byte>, raw: seq<byte>, n: nat)
    requires Encodable(m) && |raw| == 20 && Load(f) == Some(m0) && m0.geo == m.geo && n <= 1 + |m.inodes| + |m.blocks|
    ensures Load(Torn(m, f, raw, n)) == Some(TornMeta(m0, m, n))
  {
    if n == 0 {
      TornEnds(m, f, raw);
    } else if n <= 1 + |m.inodes| {
      TornInodes(m0, m, f, raw, n);
    } else {
      TornBlocks(m0, m, f, raw, n);
    }
  }
}
