/** The blocks of a Simple File System volume: what maps to what, and what is free. */
module SfsVolume {

  type Byte = x: int | 0 <= x < 256

  type Block = b: seq<Byte> | |b| == 4096 witness seq(4096, _ => 0)

  function ZeroBlock(): Block { seq(4096, _ => 0) }

  // ----- the 1024 block numbers kept in an indirect block -----

  function Number(a: Byte, b: Byte, c: Byte, d: Byte): nat {
    a + 0x100 * b + 0x1_0000 * c + 0x100_0000 * d
  }

  function Entry(b: Block, k: nat): nat
    requires k < 1024
  {
    Number(b[4 * k], b[4 * k + 1], b[4 * k + 2], b[4 * k + 3])
  }

  function Spliced<T>(s: seq<T>, p: nat, d: seq<T>): (r: seq<T>)
    requires p + |d| <= |s|
    ensures |r| == |s|
  {
    s[..p] + d + s[p + |d|..]
  }

  lemma SplicedAt<T>(s: seq<T>, p: nat, d: seq<T>, i: nat)
    requires p + |d| <= |s| && i < |s|
    ensures Spliced(s, p, d)[i] == if p <= i < p + |d| then d[i - p] else s[i]
  {}

  function EntryBytes(v: nat): (d: seq<Byte>)
    requires v < 0x1_0000_0000
    ensures |d| == 4
  {
    [v % 0x100, v / 0x100 % 0x100, v / 0x1_0000 % 0x100, v / 0x100_0000]
  }

  function PutEntry(b: Block, k: nat, v: nat): Block
    requires k < 1024 && v < 0x1_0000_0000
  {
    Spliced(b, 4 * k, EntryBytes(v))
  }

  lemma NumberOfBytes(v: nat)
    requires v < 0x1_0000_0000
    ensures var d := EntryBytes(v); Number(d[0], d[1], d[2], d[3]) == v
  {
    var a, b := v / 0x100, v / 0x1_0000;
    assert v == 0x100 * a + v % 0x100;
    assert a / 0x100 == b && a == 0x100 * b + a % 0x100;
    assert b / 0x100 == v / 0x100_0000 && b == 0x100 * (v / 0x100_0000) + b % 0x100;
  }

  /** An entry reads back what was last put there, and putting it does not disturb the others. */
  lemma EntryPut(b: Block, k: nat, v: nat, j: nat)
    requires k < 1024 && j < 1024 && v < 0x1_0000_0000
    ensures Entry(PutEntry(b, k, v), j) == if j == k then v else Entry(b, j)
  {
    NumberOfBytes(v);
    forall i | 0 <= i < 4
      ensures PutEntry(b, k, v)[4 * j + i] == if j == k then EntryBytes(v)[i] else b[4 * j + i]
    {
      SplicedAt(b, 4 * k, EntryBytes(v), 4 * j + i);
    }
  }

  lemma EntryZero(k: nat)
    requires k < 1024
    ensures Entry(ZeroBlock(), k) == 0
  {}

  // ----- files and their blocks -----

  datatype Inode = Inode(size: nat, blocks: nat, direct: seq<nat>, indirect: nat)

  function BlockAt(disk: seq<Block>, b: nat): Block {
    if b < |disk| then disk[b] else ZeroBlock()
  }

  /** The number of the k-th block of a file, zero if there is none. */
  function BlockOf(disk: seq<Block>, ino: Inode, k: nat): nat
    requires |ino.direct| == 12 && k < 1036
  {
    if k < 12 then ino.direct[k]
    else if ino.indirect == 0 then 0
    else Entry(BlockAt(disk, ino.indirect), k - 12)
  }

  /** Who uses a block. */
  datatype Owner = Data(f: nat, k: nat) | Indirect(f: nat)

  ghost predicate Owned(own: map<nat, Owner>, b: nat, o: Owner) { b in own && own[b] == o }

  ghost predicate Shape(ino: Inode) { |ino.direct| == 12 && ino.blocks <= 1036 }

  ghost predicate DataAt(disk: seq<Block>, own: map<nat, Owner>, ino: Inode, f: nat, k: nat)
    requires Shape(ino) && k < 1036
  {
    if k < ino.blocks then Owned(own, BlockOf(disk, ino, k), Data(f, k)) else BlockOf(disk, ino, k) == 0
  }

  /** Everything the file maps is its own. */
  ghost predicate FileFits(disk: seq<Block>, own: map<nat, Owner>, ino: Inode, f: nat) {
    Shape(ino) && (ino.blocks > 12 ==> ino.indirect != 0) &&
    (ino.indirect != 0 ==> Owned(own, ino.indirect, Indirect(f))) &&
    forall k {:trigger DataAt(disk, own, ino, f, k)} :: 0 <= k < 1036 ==> DataAt(disk, own, ino, f, k)
  }

  /** Everything that has an owner is mapped by it, and is a block in use. */
  ghost predicate OwnFits(disk: seq<Block>, own: map<nat, Owner>, files: seq<Inode>, b: nat)
    requires b in own
  {
    0 < b < |disk| && own[b].f < |files| && Shape(files[own[b].f]) &&
    match own[b]
    case Data(f, k) => k < files[f].blocks && BlockOf(disk, files[f], k) == b
    case Indirect(f) => files[f].indirect == b
  }

  /** A block is free exactly when it is neither reserved nor owned by a file. */
  ghost predicate FreeFits(free: seq<bool>, own: map<nat, Owner>, reserved: set<nat>, b: nat)
    requires b < |free|
  {
    (free[b] <==> b !in reserved && b !in own) && !(b in reserved && b in own)
  }

  /** A volume, with a record of who uses what; the reserved blocks hold everything but file data. */
  datatype Vol = Vol(disk: seq<Block>, free: seq<bool>, files: seq<Inode>, own: map<nat, Owner>, reserved: set<nat>)

  ghost predicate Sound(v: Vol) {
    0 < |v.free| == |v.disk| <= 0x1_0000_0000 && 0 in v.reserved &&
    (forall f {:trigger FileFits(v.disk, v.own, v.files[f], f)} :: 0 <= f < |v.files| ==>
       FileFits(v.disk, v.own, v.files[f], f)) &&
    (forall b {:trigger OwnFits(v.disk, v.own, v.files, b)} :: b in v.own ==> OwnFits(v.disk, v.own, v.files, b)) &&
    (forall b {:trigger FreeFits(v.free, v.own, v.reserved, b)} :: 0 <= b < |v.free| ==>
       FreeFits(v.free, v.own, v.reserved, b))
  }

  /** No block is used twice: distinct places of distinct files have distinct blocks, none of them
      free and none an indirect block. */
  lemma NoSharing(v: Vol, f: nat, k: nat, g: nat, j: nat)
    requires Sound(v) && f < |v.files| && g < |v.files| && k < v.files[f].blocks && j < v.files[g].blocks
    ensures Shape(v.files[f]) && Shape(v.files[g])
    ensures var b := BlockOf(v.disk, v.files[f], k);
            0 < b < |v.free| && !v.free[b] && b != v.files[g].indirect &&
            (BlockOf(v.disk, v.files[g], j) == b <==> f == g && k == j)
  {
    assert FileFits(v.disk, v.own, v.files[f], f) && FileFits(v.disk, v.own, v.files[g], g);
    assert DataAt(v.disk, v.own, v.files[f], f, k) && DataAt(v.disk, v.own, v.files[g], g, j);
    assert OwnFits(v.disk, v.own, v.files, BlockOf(v.disk, v.files[f], k));
    assert FreeFits(v.free, v.own, v.reserved, BlockOf(v.disk, v.files[f], k));
  }

  // ----- the bytes of a file -----

  function Bytes(disk: seq<Block>, ino: Inode, n: nat): (s: seq<Byte>)
    requires |ino.direct| == 12 && n <= 1036
    ensures |s| == 4096 * n
  {
    if n == 0 then [] else Bytes(disk, ino, n - 1) + BlockAt(disk, BlockOf(disk, ino, n - 1))
  }

  /** All bytes in the blocks of file f. */
  function BytesOf(v: Vol, f: nat): (s: seq<Byte>)
    requires f < |v.files| && |v.files[f].direct| == 12 && v.files[f].blocks <= 1036
    ensures |s| == 4096 * v.files[f].blocks
  {
    Bytes(v.disk, v.files[f], v.files[f].blocks)
  }

  lemma {:induction false} SameBytes(disk: seq<Block>, ino: Inode, disk': seq<Block>, ino': Inode, n: nat)
    requires |ino.direct| == |ino'.direct| == 12 && n <= 1036
    requires forall k :: 0 <= k < n ==>
               BlockAt(disk', BlockOf(disk', ino', k)) == BlockAt(disk, BlockOf(disk, ino, k))
    ensures Bytes(disk', ino', n) == Bytes(disk, ino, n)
  {
    if n > 0 { SameBytes(disk, ino, disk', ino', n - 1); }
  }

  lemma {:induction false} BytesSlice(disk: seq<Block>, ino: Inode, n: nat, k: nat)
    requires |ino.direct| == 12 && k < n <= 1036
    ensures Bytes(disk, ino, n)[4096 * k..4096 * k + 4096] == BlockAt(disk, BlockOf(disk, ino, k))
  {
    if k < n - 1 {
      BytesSlice(disk, ino, n - 1, k);
      SliceOfPrefix(Bytes(disk, ino, n - 1), BlockAt(disk, BlockOf(disk, ino, n - 1)), 4096 * k, 4096 * k + 4096);
    }
  }

  lemma SliceOfPrefix<T>(a: seq<T>, b: seq<T>, lo: nat, hi: nat)
    requires lo <= hi <= |a|
    ensures (a + b)[lo..hi] == a[lo..hi]
  {}

  /** Splicing data into one block splices it into the bytes of the file. */
  lemma {:induction false} SplicedBytes(disk: seq<Block>, ino: Inode, disk': seq<Block>, n: nat, k: nat, o: nat, d: seq<Byte>)
    requires |ino.direct| == 12 && k < n <= 1036 && o + |d| <= 4096
    requires forall j :: 0 <= j < n ==> BlockOf(disk', ino, j) == BlockOf(disk, ino, j)
    requires forall j :: 0 <= j < n && j != k ==>
               BlockAt(disk', BlockOf(disk, ino, j)) == BlockAt(disk, BlockOf(disk, ino, j))
    requires BlockAt(disk', BlockOf(disk, ino, k)) == Spliced(BlockAt(disk, BlockOf(disk, ino, k)), o, d)
    ensures 4096 * k + o + |d| <= 4096 * n
    ensures Bytes(disk', ino, n) == Spliced(Bytes(disk, ino, n), 4096 * k + o, d)
  {
    if k == n - 1 {
      SameBytes(disk, ino, disk', ino, n - 1);
      SpliceLast(Bytes(disk, ino, n - 1), BlockAt(disk, BlockOf(disk, ino, k)), o, d);
    } else {
      SplicedBytes(disk, ino, disk', n - 1, k, o, d);
      SpliceFirst(Bytes(disk, ino, n - 1), BlockAt(disk, BlockOf(disk, ino, n - 1)), 4096 * k + o, d);
    }
  }

  lemma SpliceLast<T>(a: seq<T>, b: seq<T>, o: nat, d: seq<T>)
    requires o + |d| <= |b|
    ensures a + Spliced(b, o, d) == Spliced(a + b, |a| + o, d)
  {}

  lemma SpliceFirst<T>(a: seq<T>, b: seq<T>, o: nat, d: seq<T>)
    requires o + |d| <= |a|
    ensures Spliced(a, o, d) + b == Spliced(a + b, o, d)
  {}

  // ----- frames -----

  /** File g reads the same in both volumes. */
  ghost predicate Kept(v: Vol, v': Vol, g: nat)
    requires g < |v.files|
  {
    |v'.files| == |v.files| && v'.files[g] == v.files[g] && Shape(v.files[g]) && BytesOf(v', g) == BytesOf(v, g)
  }

  ghost predicate OthersKept(v: Vol, v': Vol, f: nat) {
    forall g {:trigger Kept(v, v', g)} :: 0 <= g < |v.files| && g != f ==> Kept(v, v', g)
  }

  /** A block of g keeps its owner and its contents. */
  ghost predicate Spared(v: Vol, v': Vol, g: nat, b: nat)
    requires b in v.own && |v'.disk| == |v.disk|
  {
    v.own[b].f == g ==> b in v'.own && v'.own[b] == v.own[b] && BlockAt(v'.disk, b) == BlockAt(v.disk, b)
  }

  lemma FileKept(v: Vol, v': Vol, g: nat)
    requires g < |v.files| && |v'.files| == |v.files| && v'.files[g] == v.files[g] && |v'.disk| == |v.disk|
    requires FileFits(v.disk, v.own, v.files[g], g)
    requires forall b :: b in v.own ==> Spared(v, v', g, b)
    ensures FileFits(v'.disk, v'.own, v'.files[g], g) && Kept(v, v', g)
    ensures forall k :: 0 <= k < 1036 ==> BlockOf(v'.disk, v'.files[g], k) == BlockOf(v.disk, v.files[g], k)
  {
    var ino := v.files[g];
    assert ino.indirect != 0 ==> Spared(v, v', g, ino.indirect);
    forall k | 0 <= k < 1036
      ensures BlockOf(v'.disk, ino, k) == BlockOf(v.disk, ino, k)
      ensures DataAt(v'.disk, v'.own, ino, g, k)
      ensures k < ino.blocks ==> BlockAt(v'.disk, BlockOf(v.disk, ino, k)) == BlockAt(v.disk, BlockOf(v.disk, ino, k))
    {
      assert DataAt(v.disk, v.own, ino, g, k);
      assert k < ino.blocks ==> Spared(v, v', g, BlockOf(v.disk, ino, k));
    }
    SameBytes(v.disk, ino, v'.disk, ino, ino.blocks);
  }

  /** Blocks of other files than f keep owner and contents, and no block becomes another file's. */
  ghost predicate OnlyTouches(v: Vol, v': Vol, f: nat) {
    |v'.files| == |v.files| && |v'.disk| == |v.disk| && v'.reserved == v.reserved &&
    (forall g :: 0 <= g < |v.files| && g != f ==> v'.files[g] == v.files[g]) &&
    (forall b :: b in v.own && v.own[b].f != f ==> Spared(v, v', v.own[b].f, b)) &&
    (forall b :: b in v'.own && v'.own[b].f != f ==> b in v.own && v.own[b] == v'.own[b])
  }

  /** For a change that only touches f, soundness is a matter of f's own blocks. */
  lemma SoundIfOwn(v: Vol, v': Vol, f: nat)
    requires Sound(v) && f < |v.files| && OnlyTouches(v, v', f) && |v'.free| == |v.free|
    requires FileFits(v'.disk, v'.own, v'.files[f], f)
    requires forall b :: b in v'.own && v'.own[b].f == f ==> OwnFits(v'.disk, v'.own, v'.files, b)
    requires forall b :: 0 <= b < |v'.free| ==> FreeFits(v'.free, v'.own, v'.reserved, b)
    ensures Sound(v') && OthersKept(v, v', f)
  {
    forall g | 0 <= g < |v.files| && g != f
      ensures FileFits(v'.disk, v'.own, v'.files[g], g) && Kept(v, v', g)
      ensures forall k :: 0 <= k < 1036 ==> BlockOf(v'.disk, v'.files[g], k) == BlockOf(v.disk, v.files[g], k)
    {
      assert FileFits(v.disk, v.own, v.files[g], g);
      forall b | b in v.own ensures Spared(v, v', g, b) {
        assert v.own[b].f == g ==> Spared(v, v', v.own[b].f, b);
      }
      FileKept(v, v', g);
    }
    forall b | b in v'.own && v'.own[b].f != f ensures OwnFits(v'.disk, v'.own, v'.files, b) {
      assert OwnFits(v.disk, v.own, v.files, b);
    }
  }

  // ----- writing -----

  function Rewritten(v: Vol, b: nat, blk: Block): Vol
    requires b < |v.disk|
  {
    v.(disk := v.disk[b := blk])
  }

  /** Writing to a data block moves no block of any file. */
  lemma BlocksStay(v: Vol, f: nat, b: nat, blk: Block)
    requires Sound(v) && f < |v.files| && b < |v.disk| && (b in v.own ==> v.own[b].Data?)
    ensures Shape(v.files[f])
    ensures forall k :: 0 <= k < 1036 ==>
              BlockOf(Rewritten(v, b, blk).disk, v.files[f], k) == BlockOf(v.disk, v.files[f], k)
  {
    assert FileFits(v.disk, v.own, v.files[f], f);
  }

  /** Writing into the k-th block of f changes the bytes of f there and nothing else. */
  lemma DataWritten(v: Vol, f: nat, k: nat, o: nat, d: seq<Byte>)
    requires Sound(v) && f < |v.files| && k < v.files[f].blocks && o + |d| <= 4096
    ensures Shape(v.files[f])
    ensures var b := BlockOf(v.disk, v.files[f], k);
            b < |v.disk| &&
            var v' := Rewritten(v, b, Spliced(v.disk[b], o, d));
            Sound(v') && OthersKept(v, v', f) && BytesOf(v', f) == Spliced(BytesOf(v, f), 4096 * k + o, d)
  {
    var ino := v.files[f];
    assert FileFits(v.disk, v.own, ino, f);
    var b := BlockOf(v.disk, ino, k);
    assert DataAt(v.disk, v.own, ino, f, k) && OwnFits(v.disk, v.own, v.files, b);
    var v' := Rewritten(v, b, Spliced(v.disk[b], o, d));
    BlocksStay(v, f, b, Spliced(v.disk[b], o, d));
    forall j | 0 <= j < 1036 ensures DataAt(v'.disk, v'.own, ino, f, j) { assert DataAt(v.disk, v.own, ino, f, j); }
    forall c | c in v'.own && v'.own[c].f == f ensures OwnFits(v'.disk, v'.own, v'.files, c) {
      assert OwnFits(v.disk, v.own, v.files, c);
    }
    forall c | 0 <= c < |v'.free| ensures FreeFits(v'.free, v'.own, v'.reserved, c) {
      assert FreeFits(v.free, v.own, v.reserved, c);
    }
    SoundIfOwn(v, v', f);
    forall j | 0 <= j < ino.blocks && j != k
      ensures BlockAt(v'.disk, BlockOf(v.disk, ino, j)) == BlockAt(v.disk, BlockOf(v.disk, ino, j))
    {
      NoSharing(v, f, k, f, j);
    }
    SplicedBytes(v.disk, ino, v'.disk, ino.blocks, k, o, d);
  }

  /** A block that belongs to no file may hold anything. */
  lemma SpareWritten(v: Vol, b: nat, blk: Block)
    requires Sound(v) && b < |v.disk| && b !in v.own
    ensures var v' := Rewritten(v, b, blk);
            Sound(v') && forall g :: 0 <= g < |v.files| ==> Kept(v, v', g)
  {
    var v' := Rewritten(v, b, blk);
    forall g | 0 <= g < |v.files|
      ensures FileFits(v'.disk, v'.own, v'.files[g], g) && Kept(v, v', g)
      ensures forall k :: 0 <= k < 1036 ==> BlockOf(v'.disk, v'.files[g], k) == BlockOf(v.disk, v.files[g], k)
    {
      assert FileFits(v.disk, v.own, v.files[g], g);
      forall c | c in v.own ensures Spared(v, v', g, c) {}
      FileKept(v, v', g);
    }
    forall c | c in v'.own ensures OwnFits(v'.disk, v'.own, v'.files, c) {
      assert OwnFits(v.disk, v.own, v.files, c);
    }
    forall c | 0 <= c < |v'.free| ensures FreeFits(v'.free, v'.own, v'.reserved, c) {
      assert FreeFits(v.free, v.own, v.reserved, c);
    }
  }

  // ----- mapping one block more -----

  /** Block b has just been allocated: no longer free, and cleared. */
  function Taken(v: Vol, b: nat): Vol
    requires b < |v.disk| && |v.free| == |v.disk|
  {
    v.(disk := v.disk[b := ZeroBlock()], free := v.free[b := false])
  }

  /** Block b becomes the next data block of file f, by a direct pointer. */
  function DirectAdded(v: Vol, f: nat, b: nat): Vol
    requires b < |v.disk| && |v.free| == |v.disk| && f < |v.files| && v.files[f].blocks < 12 == |v.files[f].direct|
  {
    var ino := v.files[f];
    Taken(v, b).(files := v.files[f := ino.(direct := ino.direct[ino.blocks := b], blocks := ino.blocks + 1)],
                 own := v.own[b := Data(f, ino.blocks)])
  }

  /** Block e becomes the indirect block of file f. */
  function IndirectAdded(v: Vol, f: nat, e: nat): Vol
    requires e < |v.disk| && |v.free| == |v.disk| && f < |v.files|
  {
    Taken(v, e).(files := v.files[f := v.files[f].(indirect := e)], own := v.own[e := Indirect(f)])
  }

  /** Block b becomes the next data block of file f, by an entry in its indirect block. */
  function EntryAdded(v: Vol, f: nat, b: nat): Vol
    requires b < |v.disk| <= 0x1_0000_0000 && |v.free| == |v.disk| && f < |v.files|
    requires 12 <= v.files[f].blocks < 1036 && v.files[f].indirect < |v.disk|
  {
    var ino := v.files[f];
    var t := Taken(v, b);
    t.(disk := t.disk[ino.indirect := PutEntry(t.disk[ino.indirect], ino.blocks - 12, b)],
       files := v.files[f := ino.(blocks := ino.blocks + 1)], own := v.own[b := Data(f, ino.blocks)])
  }

  lemma FreeIsSpare(v: Vol, b: nat)
    requires Sound(v) && b < |v.free| && v.free[b]
    ensures b !in v.own && b !in v.reserved && 0 < b < |v.disk|
  {
    assert FreeFits(v.free, v.own, v.reserved, b);
    assert FreeFits(v.free, v.own, v.reserved, 0);
  }

  /** The file f of v', one block longer, has the old bytes and then a cleared block. */
  lemma BytesAppended(v: Vol, v': Vol, f: nat, b: nat)
    requires f < |v.files| && |v'.files| == |v.files| && Shape(v.files[f]) && Shape(v'.files[f])
    requires v'.files[f].blocks == v.files[f].blocks + 1
    requires forall k :: 0 <= k < v.files[f].blocks ==>
               BlockAt(v'.disk, BlockOf(v'.disk, v'.files[f], k)) == BlockAt(v.disk, BlockOf(v.disk, v.files[f], k))
    requires BlockAt(v'.disk, BlockOf(v'.disk, v'.files[f], v.files[f].blocks)) == ZeroBlock()
    ensures BytesOf(v', f) == BytesOf(v, f) + ZeroBlock()
  {
    SameBytes(v.disk, v.files[f], v'.disk, v'.files[f], v.files[f].blocks);
  }

  lemma AddDirect(v: Vol, f: nat, b: nat)
    requires Sound(v) && f < |v.files| && b < |v.free| && v.free[b] && v.files[f].blocks < 12 == |v.files[f].direct|
    ensures var v' := DirectAdded(v, f, b);
            Sound(v') && OthersKept(v, v', f) && BytesOf(v', f) == BytesOf(v, f) + ZeroBlock() &&
            BlockOf(v'.disk, v'.files[f], v.files[f].blocks) == b
  {
    FreeIsSpare(v, b);
    var v', ino := DirectAdded(v, f, b), v.files[f];
    assert FileFits(v.disk, v.own, ino, f);
    forall k | 0 <= k < 1036
      ensures DataAt(v'.disk, v'.own, v'.files[f], f, k)
      ensures k < ino.blocks ==> BlockOf(v'.disk, v'.files[f], k) == BlockOf(v.disk, ino, k) != b
    {
      assert DataAt(v.disk, v.own, ino, f, k);
    }
    forall c | c in v'.own && v'.own[c].f == f ensures OwnFits(v'.disk, v'.own, v'.files, c) {
      assert c != b ==> OwnFits(v.disk, v.own, v.files, c);
    }
    FreeTaken(v, v', b);
    SoundIfOwn(v, v', f);
    BytesAppended(v, v', f, b);
  }

  /** Marking b in use and giving it an owner keeps the free map right. */
  lemma FreeTaken(v: Vol, v': Vol, b: nat)
    requires Sound(v) && b < |v.free| && v.free[b] && v'.free == v.free[b := false] && v'.reserved == v.reserved
    requires v'.own.Keys == v.own.Keys + {b}
    ensures forall c :: 0 <= c < |v'.free| ==> FreeFits(v'.free, v'.own, v'.reserved, c)
  {
    forall c | 0 <= c < |v'.free| ensures FreeFits(v'.free, v'.own, v'.reserved, c) {
      assert FreeFits(v.free, v.own, v.reserved, c);
    }
  }

  lemma AddIndirect(v: Vol, f: nat, e: nat)
    requires Sound(v) && f < |v.files| && e < |v.free| && v.free[e] && v.files[f].indirect == 0
    ensures var v' := IndirectAdded(v, f, e);
            Sound(v') && OthersKept(v, v', f) && Shape(v.files[f]) && BytesOf(v', f) == BytesOf(v, f)
  {
    FreeIsSpare(v, e);
    var v', ino := IndirectAdded(v, f, e), v.files[f];
    assert FileFits(v.disk, v.own, ino, f);
    forall k | 0 <= k < 1036 ensures BlockOf(v'.disk, v'.files[f], k) == BlockOf(v.disk, ino, k) {
      if k >= 12 { EntryZero(k - 12); }
    }
    IndirectAddedSound(v, v', f, e);
  }

  lemma IndirectAddedSound(v: Vol, v': Vol, f: nat, e: nat)
    requires Sound(v) && f < |v.files| && 0 < e < |v.free| && v.free[e] && e !in v.own && v.files[f].indirect == 0
    requires v' == v.(disk := v.disk[e := ZeroBlock()], free := v.free[e := false], own := v.own[e := Indirect(f)],
                      files := v.files[f := v.files[f].(indirect := e)])
    requires Shape(v.files[f])
    requires forall k :: 0 <= k < 1036 ==> BlockOf(v'.disk, v'.files[f], k) == BlockOf(v.disk, v.files[f], k)
    ensures Sound(v') && OthersKept(v, v', f) && BytesOf(v', f) == BytesOf(v, f)
  {
    var ino := v.files[f];
    assert FileFits(v.disk, v.own, ino, f);
    forall k | 0 <= k < 1036
      ensures DataAt(v'.disk, v'.own, v'.files[f], f, k)
      ensures k < ino.blocks ==> BlockOf(v.disk, ino, k) != e
    {
      assert DataAt(v.disk, v.own, ino, f, k);
    }
    forall c | c in v'.own && v'.own[c].f == f ensures OwnFits(v'.disk, v'.own, v'.files, c) {
      assert c != e ==> OwnFits(v.disk, v.own, v.files, c);
    }
    FreeTaken(v, v', e);
    SoundIfOwn(v, v', f);
    SameBytes(v.disk, ino, v'.disk, v'.files[f], ino.blocks);
  }

  lemma EntryAddedBlock(disk: seq<Block>, ino: Inode, disk': seq<Block>, ino': Inode, b: nat, k: nat)
    requires |ino.direct| == 12 <= ino.blocks < 1036 && 0 < ino.indirect < |disk| && k < 1036 && b < 0x1_0000_0000
    requires ino' == ino.(blocks := ino.blocks + 1) && |disk'| == |disk|
    requires disk'[ino.indirect] == PutEntry(disk[ino.indirect], ino.blocks - 12, b)
    ensures BlockOf(disk', ino', k) == if k == ino.blocks then b else BlockOf(disk, ino, k)
  {
    if k >= 12 { EntryPut(disk[ino.indirect], ino.blocks - 12, b, k - 12); }
  }

  lemma AddEntry(v: Vol, f: nat, b: nat)
    requires Sound(v) && f < |v.files| && b < |v.free| && v.free[b]
    requires 12 <= v.files[f].blocks < 1036 && v.files[f].indirect != 0
    ensures v.files[f].indirect < |v.disk| && Shape(v.files[f])
    ensures var v' := EntryAdded(v, f, b);
            Sound(v') && OthersKept(v, v', f) && BytesOf(v', f) == BytesOf(v, f) + ZeroBlock() &&
            BlockOf(v'.disk, v'.files[f], v.files[f].blocks) == b
  {
    FreeIsSpare(v, b);
    var ino := v.files[f];
    assert FileFits(v.disk, v.own, ino, f) && OwnFits(v.disk, v.own, v.files, ino.indirect);
    var v' := EntryAdded(v, f, b);
    forall k | 0 <= k < 1036
      ensures BlockOf(v'.disk, v'.files[f], k) == if k == ino.blocks then b else BlockOf(v.disk, ino, k)
    {
      EntryAddedBlock(v.disk, ino, v'.disk, v'.files[f], b, k);
    }
    EntryAddedSound(v, v', f, b);
  }

  lemma EntryAddedSound(v: Vol, v': Vol, f: nat, b: nat)
    requires Sound(v) && f < |v.files| && b < |v.free| && v.free[b] && b !in v.own && 0 < b && Shape(v.files[f])
    requires 12 <= v.files[f].blocks < 1036 && Owned(v.own, v.files[f].indirect, Indirect(f)) && |v'.disk| == |v.disk|
    requires v' == v.(disk := v'.disk, free := v.free[b := false], own := v.own[b := Data(f, v.files[f].blocks)],
                      files := v.files[f := v.files[f].(blocks := v.files[f].blocks + 1)])
    requires forall c :: 0 <= c < |v.disk| && c != b && c != v.files[f].indirect ==> v'.disk[c] == v.disk[c]
    requires v'.disk[b] == ZeroBlock()
    requires forall k :: 0 <= k < 1036 ==>
               BlockOf(v'.disk, v'.files[f], k) == if k == v.files[f].blocks then b else BlockOf(v.disk, v.files[f], k)
    ensures Sound(v') && OthersKept(v, v', f) && BytesOf(v', f) == BytesOf(v, f) + ZeroBlock()
  {
    var ino := v.files[f];
    assert FileFits(v.disk, v.own, ino, f);
    forall k | 0 <= k < 1036
      ensures DataAt(v'.disk, v'.own, v'.files[f], f, k)
      ensures k < ino.blocks ==> BlockOf(v.disk, ino, k) != b && BlockOf(v.disk, ino, k) != ino.indirect
    {
      assert DataAt(v.disk, v.own, ino, f, k);
    }
    forall c | c in v'.own && v'.own[c].f == f ensures OwnFits(v'.disk, v'.own, v'.files, c) {
      assert c != b ==> OwnFits(v.disk, v.own, v.files, c);
    }
    FreeTaken(v, v', b);
    SoundIfOwn(v, v', f);
    BytesAppended(v, v', f, b);
  }

  // ----- unmapping the last block -----

  function DirectDropped(v: Vol, f: nat): Vol
    requires f < |v.files| && 0 < v.files[f].blocks <= 12 == |v.files[f].direct|
    requires v.files[f].direct[v.files[f].blocks - 1] < |v.free|
  {
    var ino := v.files[f];
    var b := ino.direct[ino.blocks - 1];
    v.(free := v.free[b := true], own := v.own - {b},
       files := v.files[f := ino.(direct := ino.direct[ino.blocks - 1 := 0], blocks := ino.blocks - 1)])
  }

  function EntryDropped(v: Vol, f: nat): Vol
    requires f < |v.files| && 12 < v.files[f].blocks <= 1036 && v.files[f].indirect < |v.disk|
    requires Entry(v.disk[v.files[f].indirect], v.files[f].blocks - 13) < |v.free|
  {
    var ino := v.files[f];
    var blk := v.disk[ino.indirect];
    var b := Entry(blk, ino.blocks - 13);
    v.(disk := v.disk[ino.indirect := PutEntry(blk, ino.blocks - 13, 0)], free := v.free[b := true],
       own := v.own - {b}, files := v.files[f := ino.(blocks := ino.blocks - 1)])
  }

  /** Marking b free and taking it from its owner keeps the free map right. */
  lemma FreeGiven(v: Vol, v': Vol, b: nat)
    requires Sound(v) && b < |v.free| && b in v.own && v'.free == v.free[b := true] && v'.reserved == v.reserved
    requires v'.own.Keys == v.own.Keys - {b}
    ensures !v.free[b]
    ensures forall c :: 0 <= c < |v'.free| ==> FreeFits(v'.free, v'.own, v'.reserved, c)
  {
    assert FreeFits(v.free, v.own, v.reserved, b);
    forall c | 0 <= c < |v'.free| ensures FreeFits(v'.free, v'.own, v'.reserved, c) {
      assert FreeFits(v.free, v.own, v.reserved, c);
    }
  }

  lemma {:induction false} BytesPrefix(disk: seq<Block>, ino: Inode, m: nat, n: nat)
    requires |ino.direct| == 12 && m <= n <= 1036
    ensures Bytes(disk, ino, m) == Bytes(disk, ino, n)[..4096 * m]
  {
    if m < n { BytesPrefix(disk, ino, m, n - 1); }
  }

  /** In v' the file f has lost its last block, b, and nothing else. */
  ghost predicate LastDropped(v: Vol, v': Vol, f: nat, b: nat) {
    f < |v.files| && OnlyTouches(v, v', f) && Shape(v.files[f]) && Shape(v'.files[f]) && 0 < v.files[f].blocks &&
    v'.files[f].blocks == v.files[f].blocks - 1 && v'.files[f].indirect == v.files[f].indirect &&
    b < |v.free| && v'.free == v.free[b := true] && v'.own == v.own - {b} &&
    b == BlockOf(v.disk, v.files[f], v.files[f].blocks - 1) &&
    (forall k :: 0 <= k < 1036 ==>
       BlockOf(v'.disk, v'.files[f], k) == if k == v.files[f].blocks - 1 then 0 else BlockOf(v.disk, v.files[f], k)) &&
    (forall c :: c in v.own && v.own[c].Data? ==> BlockAt(v'.disk, c) == BlockAt(v.disk, c))
  }

  lemma DropSound(v: Vol, v': Vol, f: nat, b: nat)
    requires Sound(v) && LastDropped(v, v', f, b) && b in v.own
    ensures !v.free[b] && Sound(v') && OthersKept(v, v', f)
  {
    var ino := v.files[f];
    assert FileFits(v.disk, v.own, ino, f) && DataAt(v.disk, v.own, ino, f, ino.blocks - 1);
    forall k | 0 <= k < 1036 ensures DataAt(v'.disk, v'.own, v'.files[f], f, k) {
      assert DataAt(v.disk, v.own, ino, f, k);
    }
    forall c | c in v'.own && v'.own[c].f == f ensures OwnFits(v'.disk, v'.own, v'.files, c) {
      assert OwnFits(v.disk, v.own, v.files, c);
    }
    FreeGiven(v, v', b);
    SoundIfOwn(v, v', f);
  }

  lemma DropBytes(v: Vol, v': Vol, f: nat, b: nat)
    requires Sound(v) && LastDropped(v, v', f, b)
    ensures BytesOf(v', f) == BytesOf(v, f)[..4096 * (v.files[f].blocks - 1)]
  {
    var ino := v.files[f];
    assert FileFits(v.disk, v.own, ino, f);
    forall k | 0 <= k < ino.blocks - 1
      ensures BlockAt(v'.disk, BlockOf(v'.disk, v'.files[f], k)) == BlockAt(v.disk, BlockOf(v.disk, ino, k))
    {
      assert DataAt(v.disk, v.own, ino, f, k);
    }
    SameBytes(v.disk, ino, v'.disk, v'.files[f], ino.blocks - 1);
    BytesPrefix(v.disk, ino, ino.blocks - 1, ino.blocks);
  }

  lemma DropDirect(v: Vol, f: nat)
    requires Sound(v) && f < |v.files| && 0 < v.files[f].blocks <= 12
    ensures Shape(v.files[f]) && v.files[f].direct[v.files[f].blocks - 1] < |v.free|
    ensures !v.free[v.files[f].direct[v.files[f].blocks - 1]]
    ensures var v' := DirectDropped(v, f);
            Sound(v') && OthersKept(v, v', f) && BytesOf(v', f) == BytesOf(v, f)[..4096 * (v.files[f].blocks - 1)]
  {
    var ino := v.files[f];
    assert FileFits(v.disk, v.own, ino, f) && DataAt(v.disk, v.own, ino, f, ino.blocks - 1);
    var b := ino.direct[ino.blocks - 1];
    assert OwnFits(v.disk, v.own, v.files, b);
    var v' := DirectDropped(v, f);
    assert LastDropped(v, v', f, b);
    DropSound(v, v', f, b);
    DropBytes(v, v', f, b);
  }

  lemma DropEntry(v: Vol, f: nat)
    requires Sound(v) && f < |v.files| && 12 < v.files[f].blocks
    ensures Shape(v.files[f]) && 0 < v.files[f].indirect < |v.disk|
    ensures var b := Entry(v.disk[v.files[f].indirect], v.files[f].blocks - 13); 0 < b < |v.free| && !v.free[b]
    ensures var v' := EntryDropped(v, f);
            Sound(v') && OthersKept(v, v', f) && BytesOf(v', f) == BytesOf(v, f)[..4096 * (v.files[f].blocks - 1)]
  {
    var ino := v.files[f];
    assert FileFits(v.disk, v.own, ino, f) && OwnFits(v.disk, v.own, v.files, ino.indirect);
    var b := Entry(v.disk[ino.indirect], ino.blocks - 13);
    assert DataAt(v.disk, v.own, ino, f, ino.blocks - 1) && OwnFits(v.disk, v.own, v.files, b);
    var v' := EntryDropped(v, f);
    EntryDroppedBlocks(v.disk, ino, v'.files[f], v'.disk);
    LastDroppedBy(v, v', f, b, PutEntry(v.disk[ino.indirect], ino.blocks - 13, 0));
    DropSound(v, v', f, b);
    DropBytes(v, v', f, b);
  }

  lemma EntryDroppedBlocks(disk: seq<Block>, ino: Inode, ino': Inode, disk': seq<Block>)
    requires |ino.direct| == 12 < ino.blocks <= 1036 && 0 < ino.indirect < |disk|
    requires ino' == ino.(blocks := ino.blocks - 1)
    requires disk' == disk[ino.indirect := PutEntry(disk[ino.indirect], ino.blocks - 13, 0)]
    ensures forall k :: 0 <= k < 1036 ==>
              BlockOf(disk', ino', k) == if k == ino.blocks - 1 then 0 else BlockOf(disk, ino, k)
  {
    forall k | 0 <= k < 1036
      ensures BlockOf(disk', ino', k) == if k == ino.blocks - 1 then 0 else BlockOf(disk, ino, k)
    {
      EntryCleared(disk, ino, ino', k);
    }
  }

  lemma LastDroppedBy(v: Vol, v': Vol, f: nat, b: nat, blk: Block)
    requires f < |v.files| && Shape(v.files[f]) && 12 < v.files[f].blocks && v.files[f].indirect < |v.disk| && b < |v.free|
    requires Owned(v.own, v.files[f].indirect, Indirect(f)) && Owned(v.own, b, Data(f, v.files[f].blocks - 1))
    requires b == BlockOf(v.disk, v.files[f], v.files[f].blocks - 1)
    requires v' == v.(disk := v.disk[v.files[f].indirect := blk], free := v.free[b := true], own := v.own - {b},
                      files := v.files[f := v.files[f].(blocks := v.files[f].blocks - 1)])
    requires forall k :: 0 <= k < 1036 ==>
               BlockOf(v'.disk, v'.files[f], k) == if k == v.files[f].blocks - 1 then 0 else BlockOf(v.disk, v.files[f], k)
    ensures LastDropped(v, v', f, b)
  {
    assert OnlyTouches(v, v', f);
  }

  lemma EntryCleared(disk: seq<Block>, ino: Inode, ino': Inode, k: nat)
    requires |ino.direct| == 12 < ino.blocks <= 1036 && 0 < ino.indirect < |disk| && k < 1036
    requires ino' == ino.(blocks := ino.blocks - 1)
    ensures BlockOf(disk[ino.indirect := PutEntry(disk[ino.indirect], ino.blocks - 13, 0)], ino', k) ==
            if k == ino.blocks - 1 then 0 else BlockOf(disk, ino, k)
  {
    if k >= 12 { EntryPut(disk[ino.indirect], ino.blocks - 13, 0, k - 12); }
  }

  // ----- counting -----

  ghost function Count(free: seq<bool>): nat {
    if free == [] then 0 else (if free[0] then 1 else 0) + Count(free[1..])
  }

  lemma {:induction false} CountChanged(free: seq<bool>, b: nat, value: bool)
    requires b < |free|
    ensures Count(free[b := value]) == Count(free) + (if value then 1 else 0) - (if free[b] then 1 else 0)
  {
    if b > 0 {
      CountChanged(free[1..], b - 1, value);
      assert free[b := value][1..] == free[1..][b - 1 := value];
    }
  }

  lemma {:induction false} CountNone(free: seq<bool>)
    requires forall b :: 0 <= b < |free| ==> !free[b]
    ensures Count(free) == 0
  {
    if free != [] { CountNone(free[1..]); }
  }
}
