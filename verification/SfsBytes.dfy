/** Files as byte sequences: what partial transfers add up to. */
module SfsBytes {
  import opened SfsVolume

  function Max(a: nat, b: nat): nat { if a < b then b else a }

  function Blocks(bytes: nat): nat { (bytes + 4095) / 4096 }

  function Zeros(n: nat): (s: seq<Byte>)
    ensures |s| == n
  {
    seq(n, _ => 0)
  }

  /** The bytes, followed by cleared blocks up to n blocks. */
  function Grown(s: seq<Byte>, n: nat): (r: seq<Byte>)
    ensures |r| == Max(|s|, 4096 * n)
  {
    if |s| < 4096 * n then s + Zeros(4096 * n - |s|) else s
  }

  /** The bytes of a file of n blocks after d has been written at p. */
  function PutAt(s: seq<Byte>, n: nat, p: nat, d: seq<Byte>): (r: seq<Byte>)
    requires d != [] ==> p + |d| <= 4096 * n
    ensures |r| == if d == [] then |s| else Max(|s|, 4096 * n)
  {
    if d == [] then s else Spliced(Grown(s, n), p, d)
  }

  lemma GrownAt(s: seq<Byte>, n: nat, i: nat)
    requires i < Max(|s|, 4096 * n)
    ensures Grown(s, n)[i] == if i < |s| then s[i] else 0
  {}

  lemma PutAtAt(s: seq<Byte>, n: nat, p: nat, d: seq<Byte>, i: nat)
    requires (d != [] ==> p + |d| <= 4096 * n) && i < |PutAt(s, n, p, d)|
    ensures PutAt(s, n, p, d)[i] == if p <= i < p + |d| then d[i - p] else if i < |s| then s[i] else 0
  {
    if d != [] {
      SplicedAt(Grown(s, n), p, d, i);
      GrownAt(s, n, i);
    }
  }

  /** The content of a file: its bytes up to its size. */
  function Content(v: Vol, f: nat): (s: seq<Byte>)
    requires f < |v.files| && |v.files[f].direct| == 12 && v.files[f].blocks <= 1036
    requires v.files[f].size <= 4096 * v.files[f].blocks
    ensures |s| == v.files[f].size
  {
    BytesOf(v, f)[..v.files[f].size]
  }

  /** A byte sequence overwritten, and if need be extended, from p on. */
  function Overwritten(s: seq<Byte>, p: nat, d: seq<Byte>): seq<Byte>
    requires p <= |s|
  {
    s[..p] + d + if p + |d| < |s| then s[p + |d|..] else []
  }

  /** Seen through the size, writing is overwriting. */
  lemma PutIsOverwrite(s: seq<Byte>, n: nat, p: nat, d: seq<Byte>, size: nat)
    requires p <= size <= |s| && (d != [] ==> p + |d| <= 4096 * n)
    ensures Max(size, p + |d|) <= |PutAt(s, n, p, d)|
    ensures PutAt(s, n, p, d)[..Max(size, p + |d|)] == Overwritten(s[..size], p, d)
  {
    var a, b := PutAt(s, n, p, d)[..Max(size, p + |d|)], Overwritten(s[..size], p, d);
    assert |a| == |b|;
    forall i | 0 <= i < |a| ensures a[i] == b[i] {
      PutAtAt(s, n, p, d, i);
    }
  }

  // ----- a write in parts -----

  /** The number of blocks after alen bytes have been written at p. */
  function BlocksAfter(blocks: nat, p: nat, alen: nat): nat {
    if alen == 0 then blocks else Max(blocks, Blocks(p + alen))
  }

  lemma BlocksCover(bytes: nat)
    ensures bytes <= 4096 * Blocks(bytes) < bytes + 4096
  {}

  /** The byte at i is the one written there, or else the old one, or else zero. */
  ghost predicate WroteAt(v0: Vol, v: Vol, f: nat, p: nat, data: seq<Byte>, alen: nat, i: nat)
    requires f < |v0.files| && |v.files| == |v0.files| && Shape(v0.files[f]) && Shape(v.files[f]) && alen <= |data|
    requires i < |BytesOf(v, f)|
  {
    BytesOf(v, f)[i] ==
    if p <= i < p + alen then data[i - p] else if i < |BytesOf(v0, f)| then BytesOf(v0, f)[i] else 0
  }

  /** The first alen bytes of data have reached file f, at offset p. */
  ghost predicate Wrote(v0: Vol, v: Vol, f: nat, p: nat, data: seq<Byte>, alen: nat) {
    f < |v0.files| && |v.files| == |v0.files| && Shape(v0.files[f]) && Shape(v.files[f]) && OthersKept(v0, v, f) &&
    v.files[f].size == v0.files[f].size && alen <= |data| &&
    v.files[f].blocks == BlocksAfter(v0.files[f].blocks, p, alen) &&
    forall i {:trigger WroteAt(v0, v, f, p, data, alen, i)} :: 0 <= i < 4096 * v.files[f].blocks ==>
      WroteAt(v0, v, f, p, data, alen, i)
  }

  lemma WroteIsPut(v0: Vol, v: Vol, f: nat, p: nat, data: seq<Byte>, alen: nat)
    requires Wrote(v0, v, f, p, data, alen)
    ensures alen != 0 ==> p + alen <= 4096 * v.files[f].blocks
    ensures BytesOf(v, f) == PutAt(BytesOf(v0, f), v.files[f].blocks, p, data[..alen])
  {
    BlocksCover(p + alen);
    var a, b := BytesOf(v, f), PutAt(BytesOf(v0, f), v.files[f].blocks, p, data[..alen]);
    forall i | 0 <= i < |a| ensures a[i] == b[i] {
      assert WroteAt(v0, v, f, p, data, alen, i);
      PutAtAt(BytesOf(v0, f), v.files[f].blocks, p, data[..alen], i);
    }
  }

  /** Block k of f, perhaps newly added, now holds d at offset o. */
  ghost predicate PartWritten(v: Vol, v': Vol, f: nat, k: nat, o: nat, d: seq<Byte>) {
    f < |v.files| && |v'.files| == |v.files| && Shape(v.files[f]) && Shape(v'.files[f]) && OthersKept(v, v', f) &&
    v'.files[f].size == v.files[f].size && v'.files[f].blocks == Max(v.files[f].blocks, k + 1) &&
    o + |d| <= 4096 && BytesOf(v', f) == Spliced(Grown(BytesOf(v, f), v'.files[f].blocks), 4096 * k + o, d)
  }

  lemma OthersKeptTwice(v0: Vol, v: Vol, v': Vol, f: nat)
    requires |v.files| == |v0.files| && OthersKept(v0, v, f) && OthersKept(v, v', f)
    ensures OthersKept(v0, v', f)
  {
    forall g | 0 <= g < |v0.files| && g != f ensures Kept(v0, v', g) { assert Kept(v0, v, g) && Kept(v, v', g); }
  }

  lemma BlocksAfterPart(blocks: nat, p: nat, alen: nat, size: nat, k: nat, o: nat)
    requires p + alen == 4096 * k + o && 0 < size && o + size <= 4096
    ensures BlocksAfter(blocks, p, alen + size) == Max(BlocksAfter(blocks, p, alen), k + 1)
    ensures p + alen + size <= 4096 * BlocksAfter(blocks, p, alen + size)
  {
    BlocksCover(p + alen);
    BlocksCover(p + alen + size);
    assert Blocks(p + alen + size) == k + 1;
  }

  lemma WroteMore(v0: Vol, v: Vol, v': Vol, f: nat, p: nat, data: seq<Byte>, alen: nat, size: nat, k: nat, o: nat)
    requires Wrote(v0, v, f, p, data, alen) && 0 < size && alen + size <= |data| && o + size <= 4096
    requires p + alen == 4096 * k + o && PartWritten(v, v', f, k, o, data[alen..alen + size])
    ensures Wrote(v0, v', f, p, data, alen + size)
  {
    OthersKeptTwice(v0, v, v', f);
    BlocksAfterPart(v0.files[f].blocks, p, alen, size, k, o);
    var later := alen + size;
    forall i | 0 <= i < 4096 * v'.files[f].blocks ensures WroteAt(v0, v', f, p, data, later, i) {
      PartWrittenAt(v, v', f, k, o, data[alen..alen + size], i);
      assert i < 4096 * v.files[f].blocks ==> WroteAt(v0, v, f, p, data, alen, i);
    }
  }

  lemma PartWrittenAt(v: Vol, v': Vol, f: nat, k: nat, o: nat, d: seq<Byte>, i: nat)
    requires PartWritten(v, v', f, k, o, d) && i < 4096 * v'.files[f].blocks
    ensures BytesOf(v', f)[i] ==
            if 4096 * k + o <= i < 4096 * k + o + |d| then d[i - 4096 * k - o]
            else if i < |BytesOf(v, f)| then BytesOf(v, f)[i] else 0
  {
    SplicedAt(Grown(BytesOf(v, f), v'.files[f].blocks), 4096 * k + o, d, i);
    GrownAt(BytesOf(v, f), v'.files[f].blocks, i);
  }
}
