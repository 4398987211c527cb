/** Where the superblock, the inode slots, the block headers and the block bodies lie in the file. */
module Layout {
  import opened Bytes

  const SUPER := 40   // sizeof(SuperBlock)
  const SLOT := 16    // sizeof(Inode)
  const HEAD := 12    // sizeof(Block)
  const RECORD := 32  // sizeof(char) + MAX_FILENAME_SIZE + sizeof(uint32_t)

  datatype Geometry = Geometry(inodeCount: nat, blockCount: nat, blockSize: nat)

  function MetaEnd(g: Geometry): nat {
    SUPER + SLOT * g.inodeCount + HEAD * g.blockCount
  }

  function BodyStart(g: Geometry, b: nat): nat {
    MetaEnd(g) + g.blockSize * b
  }

  /** The volume is addressable with 32-bit offsets, and blocks hold a whole number of directory records. */
  predicate Fits(g: Geometry) {
    && 0 < g.inodeCount && 0 < g.blockCount && 0 < g.blockSize && g.blockSize % RECORD == 0
    && BodyStart(g, g.blockCount) < TWO32
  }

  /** Records per block. */
  function PerBlock(g: Geometry): nat {
    g.blockSize / RECORD
  }

  // The offset functions of the program: every addition is cut to 32 bits.

  function InodeOffset(g: Geometry, k: nat): nat {
    Wrap(SUPER + k * SLOT)
  }

  function HeadOffset(g: Geometry, k: nat): nat {
    Wrap(Wrap(SUPER + g.inodeCount * SLOT) + k * HEAD)
  }

  function BodyOffset(g: Geometry, k: nat): nat {
    Wrap(Wrap(Wrap(SUPER + g.inodeCount * SLOT) + g.blockCount * HEAD) + Wrap(g.blockSize * k))
  }

  lemma Scaled(n: nat, a: nat, b: nat)
    requires a <= b
    ensures n * a <= n * b
    ensures n * b == n * a + n * (b - a)
    ensures a < b ==> n * a + n <= n * b
  {
    var d := b - a;
    assert n * (a + d) == n * a + n * d;
    if a < b {
      assert n * d == n * (d - 1) + n;
    }
  }

  /** No offset the program computes is cut: each is the exact sum. */
  lemma OffsetsExact(g: Geometry, k: nat)
    requires Fits(g)
    ensures k < g.inodeCount ==> InodeOffset(g, k) == SUPER + SLOT * k
    ensures k < g.blockCount ==> HeadOffset(g, k) == SUPER + SLOT * g.inodeCount + HEAD * k
    ensures k <= g.blockCount ==> BodyOffset(g, k) == BodyStart(g, k)
  {
    var p: nat := if k <= g.blockCount then ScaledBody(g, k) else 0;
    assert k <= g.blockCount ==> Wrap(p) == p;
  }

  function ScaledBody(g: Geometry, k: nat): (p: nat)
    requires Fits(g) && k <= g.blockCount
    ensures p == g.blockSize * k
    ensures MetaEnd(g) + p < TWO32
  {
    Scaled(g.blockSize, k, g.blockCount);
    Scaled(g.blockSize, 0, k);
    g.blockSize * k
  }

  /** The pieces of a volume. */
  datatype Region = Super | InodeSlot(k: nat) | BlockHead(k: nat) | BlockBody(k: nat)

  predicate Exists(g: Geometry, r: Region) {
    match r
    case Super => true
    case InodeSlot(k) => k < g.inodeCount
    case BlockHead(k) => k < g.blockCount
    case BlockBody(k) => k < g.blockCount
  }

  function Start(g: Geometry, r: Region): nat {
    match r
    case Super => 0
    case InodeSlot(k) => InodeOffset(g, k)
    case BlockHead(k) => HeadOffset(g, k)
    case BlockBody(k) => BodyOffset(g, k)
  }

  function Size(g: Geometry, r: Region): nat {
    match r
    case Super => SUPER
    case InodeSlot(_) => SLOT
    case BlockHead(_) => HEAD
    case BlockBody(_) => g.blockSize
  }

  lemma RegionExact(g: Geometry, r: Region)
    requires Fits(g) && Exists(g, r)
    ensures Start(g, r) ==
            match r
            case Super => 0
            case InodeSlot(k) => SUPER + SLOT * k
            case BlockHead(k) => SUPER + SLOT * g.inodeCount + HEAD * k
            case BlockBody(k) => BodyStart(g, k)
    ensures r.BlockBody? ==> MetaEnd(g) <= Start(g, r)
    ensures Start(g, r) + Size(g, r) < TWO32
  {
    if r.Super? {
      Scaled(g.blockSize, 0, g.blockCount);
    } else {
      OffsetsExact(g, r.k);
      if r.BlockBody? { Scaled(g.blockSize, r.k, g.blockCount); }
      Scaled(g.blockSize, 0, g.blockCount);
      Scaled(g.blockSize, 0, r.k);
    }
  }

  /** Any two different pieces occupy disjoint byte ranges below 2^32. */
  lemma RegionsDisjoint(g: Geometry, r: Region, s: Region)
    requires Fits(g) && Exists(g, r) && Exists(g, s) && r != s
    ensures Start(g, r) + Size(g, r) <= Start(g, s) || Start(g, s) + Size(g, s) <= Start(g, r)
    ensures Start(g, r) + Size(g, r) < TWO32
  {
    RegionExact(g, r);
    RegionExact(g, s);
    if r.BlockBody? && s.BlockBody? {
      if r.k < s.k { Scaled(g.blockSize, r.k, s.k); } else { Scaled(g.blockSize, s.k, r.k); }
    }
  }
}
