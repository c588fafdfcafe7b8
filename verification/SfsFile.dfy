/** Files of a Simple File System volume: allocation, mapping, truncation, and reading and writing. */
module SfsFile {
  import opened Options
  import opened SfsVolume
  import opened SfsBytes
  import opened SfsBudget
  import opened Words
  import Bitmap

  class FileSystem {
    var disk: seq<Block>
    const freemap: Bitmap.Map
    var unused: nat
    var files: seq<Inode>
    ghost var own: map<nat, Owner>
    ghost const reserved: set<nat>

    ghost function Volume(): (v: Vol)
      requires freemap.Valid()
      reads this, freemap.words
    {
      Vol(disk, freemap.Contents(), files, own, reserved)
    }

    /** The free map covers the disk and unused counts its set bits. */
    ghost predicate Counted()
      reads this, freemap.words
    {
      freemap.Valid() && |freemap.Contents()| == |disk| && unused == Count(freemap.Contents())
    }

    ghost predicate Valid()
      reads this, freemap.words
    {
      Counted() && Sound(Volume())
    }

    /** Mounts a volume whose superblock counts its free blocks right. */
    constructor (image: seq<Block>, bits: Bitmap.Map, count: nat, inodes: seq<Inode>,
                 ghost owners: map<nat, Owner>, ghost taken: set<nat>)
      requires bits.Valid() && |bits.Contents()| == |image| && count == Count(bits.Contents())
      requires Sound(Vol(image, bits.Contents(), inodes, owners, taken))
      ensures Valid() && Volume() == Vol(image, bits.Contents(), inodes, owners, taken) && freemap == bits
    {
      disk, freemap, unused, files, own, reserved := image, bits, count, inodes, owners, taken;
    }

    // ----- single blocks -----

    /** Allocates and clears the lowest free block. */
    method BlockAlloc() returns (r: Option<nat>)
      requires Counted()
      modifies this`disk, this`unused, freemap.words
      ensures Counted()
      ensures r.None? ==> Volume() == old(Volume()) && unused == 0
      ensures r.Some? ==>
                r.value < |old(disk)| && old(Volume()).free[r.value] && Volume() == Taken(old(Volume()), r.value) &&
                unused == old(unused) - 1
    {
      ghost var was := freemap.Contents();
      r := freemap.Alloc();
      if r == None {
        CountNone(was);
      } else {
        CountChanged(was, r.value, false);
        unused := unused - 1;
        disk := disk[r.value := ZeroBlock()];
      }
    }

    method BlockFree(b: nat)
      requires Counted() && b < |disk| && !freemap.Contents()[b]
      modifies this`unused, freemap.words
      ensures Counted() && Volume() == old(Volume()).(free := old(Volume()).free[b := true])
      ensures unused == old(unused) + 1
    {
      CountChanged(freemap.Contents(), b, true);
      freemap.Free(b);
      unused := unused + 1;
    }

    // ----- mapping -----

    method ExtendDirect(f: nat) returns (r: Option<nat>)
      requires Valid() && f < |files| && files[f].blocks < 12
      modifies this, freemap.words
      ensures Valid() && Extended(old(Volume()), Volume(), f, r)
      ensures Grew(old(files)[f], old(unused), files[f], unused)
      ensures r == None <==> old(unused) < Needed(old(files)[f])
    {
      ghost var v := Volume();
      assert FileFits(v.disk, v.own, v.files[f], f);
      r := BlockAlloc();
      if r != None { WriteDirect(f, r.value, v); } else { KeptItself(v); }
    }

    method WriteDirect(f: nat, b: nat, ghost v: Vol)
      requires Counted() && Sound(v) && f < |v.files| && |v.files[f].direct| == 12 && v.files[f].blocks < 12
      requires b < |v.free| == |v.disk| && v.free[b] && Volume() == Taken(v, b)
      modifies this`files, this`own
      ensures Valid() && Extended(v, Volume(), f, Some(b)) && files[f].indirect == v.files[f].indirect
    {
      DirectExtends(v, f, b);
      var ino := files[f];
      files := files[f := ino.(direct := ino.direct[ino.blocks := b], blocks := ino.blocks + 1)];
      own := own[b := Data(f, ino.blocks)];
      assert Volume() == DirectAdded(v, f, b);
    }

    /** The indirect block of f, newly allocated if it has none. */
    method FindIndirect(f: nat) returns (r: Option<nat>)
      requires Valid() && f < |files|
      modifies this`disk, this`unused, freemap.words
      ensures Counted()
      ensures r == None ==> Volume() == old(Volume()) && unused == 0 && files[f].indirect == 0
      ensures r != None ==> Found(old(Volume()), Volume(), f, r.value)
      ensures r != None ==> unused == old(unused) - if files[f].indirect == 0 then 1 else 0
    {
      IndirectInUse(Volume(), f);
      if files[f].indirect != 0 { return Some(files[f].indirect); }
      ghost var v := Volume();
      r := BlockAlloc();
      if r != None { FreeIsSpare(v, r.value); }
    }

    /** Enters a new block in the indirect block; if there is none, an indirect block that was only just
        allocated is given back. */
    method EnterBlock(f: nat, ent: nat, ghost v: Vol) returns (r: Option<nat>)
      requires Counted() && Sound(v) && f < |v.files| && 12 <= v.files[f].blocks < 1036 && Found(v, Volume(), f, ent)
      modifies this, freemap.words
      ensures Valid() && Extended(v, Volume(), f, r)
      ensures r == None <==> old(unused) == 0
      ensures r != None ==> unused == old(unused) - 1 && files[f].indirect == ent
    {
      r := BlockAlloc();
      if r == None {
        GiveBack(f, ent, v);
      } else {
        WriteEntry(f, ent, r.value, v);
      }
    }

    method WriteEntry(f: nat, ent: nat, b: nat, ghost v: Vol)
      requires Counted() && f < |files| && 12 <= files[f].blocks < 1036 && ent < |disk| && b < 0x1_0000_0000
      requires Sound(v) && EntryReady(v, Volume(), f, ent, b)
      modifies this`disk, this`files, this`own
      ensures Valid() && Extended(v, Volume(), f, Some(b)) && files[f].indirect == ent
    {
      ghost var w := Volume();
      EntryExtends(v, w, f, ent, b);
      disk := disk[ent := PutEntry(disk[ent], files[f].blocks - 12, b)];
      files := files[f := files[f].(indirect := ent, blocks := files[f].blocks + 1)];
      own := WithIndirect(v, f, ent).own[b := Data(f, v.files[f].blocks)];
      assert Volume() == Entered(w, f, ent, b, own);
    }

    method GiveBack(f: nat, ent: nat, ghost v: Vol)
      requires Counted() && Sound(v) && Found(v, Volume(), f, ent)
      modifies this`unused, freemap.words
      ensures Valid() && Extended(v, Volume(), f, None)
    {
      KeptItself(v);
      Shaped(v, f);
      if ent != files[f].indirect {
        TakenBack(v, ent);
        BlockFree(ent);
      }
    }

    method ExtendIndirect(f: nat) returns (r: Option<nat>)
      requires Valid() && f < |files| && 12 <= files[f].blocks < 1036
      modifies this, freemap.words
      ensures Valid() && Extended(old(Volume()), Volume(), f, r)
      ensures Grew(old(files)[f], old(unused), files[f], unused)
      ensures r == None <==> old(unused) < Needed(old(files)[f])
    {
      ghost var v := Volume();
      KeptItself(v);
      IndirectInUse(v, f);
      var ent := FindIndirect(f);
      if ent == None { return None; }
      r := EnterBlock(f, ent.value, v);
    }

    /** The number of the k-th block of f. */
    method Find(f: nat, k: nat) returns (b: nat)
      requires Valid() && f < |files| && k < files[f].blocks
      ensures Located(Volume(), f, k, b)
    {
      Locates(Volume(), f, k);
      if k < 12 { b := files[f].direct[k]; } else { b := Entry(disk[files[f].indirect], k - 12); }
    }

    /** The k-th block of f; asking for the one after the last makes the file a block longer. */
    method Load(f: nat, k: nat) returns (r: Option<nat>)
      requires Valid() && f < |files| && k <= files[f].blocks && k < 1036
      modifies this, freemap.words
      ensures Valid()
      ensures k < old(files)[f].blocks ==> r != None && Located(Volume(), f, k, r.value) && Volume() == old(Volume())
      ensures k == old(files)[f].blocks ==> Extended(old(Volume()), Volume(), f, r)
      ensures Grew(old(files)[f], old(unused), files[f], unused)
      ensures r == None <==> k == old(files)[f].blocks && old(unused) < Needed(old(files)[f])
    {
      if k == files[f].blocks {
        if k < 12 { r := ExtendDirect(f); } else { r := ExtendIndirect(f); }
      } else {
        var b := Find(f, k);
        r := Some(b);
      }
    }

    /** Writes d into the k-th block of f, at offset o. */
    method StoreAt(f: nat, k: nat, b: nat, o: nat, d: seq<Byte>)
      requires Valid() && f < |files| && k < files[f].blocks && Located(Volume(), f, k, b) && o + |d| <= 4096
      modifies this`disk
      ensures Valid() && OthersKept(old(Volume()), Volume(), f)
      ensures BytesOf(Volume(), f) == Spliced(old(BytesOf(Volume(), f)), 4096 * k + o, d)
    {
      DataWritten(Volume(), f, k, o, d);
      disk := disk[b := Spliced(disk[b], o, d)];
    }

    /** Frees the last block of f. */
    method DropLast(f: nat)
      requires Valid() && f < |files| && files[f].blocks > 0
      modifies this, freemap.words
      ensures Valid() && Shortened(old(Volume()), Volume(), f) && unused == old(unused) + 1
    {
      ghost var v := Volume();
      var ino := files[f];
      if ino.blocks <= 12 {
        DropDirect(v, f);
        var b := ino.direct[ino.blocks - 1];
        BlockFree(b);
        files := files[f := ino.(direct := ino.direct[ino.blocks - 1 := 0], blocks := ino.blocks - 1)];
        own := own - {b};
        assert Volume() == DirectDropped(v, f);
      } else {
        DropLastEntry(f);
      }
    }

    method DropLastEntry(f: nat)
      requires Valid() && f < |files| && files[f].blocks > 12
      modifies this, freemap.words
      ensures Valid() && Shortened(old(Volume()), Volume(), f) && unused == old(unused) + 1
    {
      ghost var v := Volume();
      DropEntry(v, f);
      var ino := files[f];
      var b := Entry(disk[ino.indirect], ino.blocks - 13);
      disk := disk[ino.indirect := PutEntry(disk[ino.indirect], ino.blocks - 13, 0)];
      BlockFree(b);
      files := files[f := ino.(blocks := ino.blocks - 1)];
      own := own - {b};
      assert Volume() == EntryDropped(v, f);
    }

    // ----- reading and writing -----

    /** Transfers one part of a write, inside one block. */
    method WritePart(f: nat, k: nat, o: nat, d: seq<Byte>) returns (ok: bool)
      requires Valid() && f < |files| && k <= files[f].blocks && k < 1036 && o + |d| <= 4096
      modifies this, freemap.words
      ensures Valid()
      ensures ok ==> PartWritten(old(Volume()), Volume(), f, k, o, d)
      ensures f < |files| && Grew(old(files)[f], old(unused), files[f], unused)
      ensures !ok ==> Extended(old(Volume()), Volume(), f, None) && unused < Needed(files[f]) && k == files[f].blocks
    {
      ghost var v := Volume();
      KeptItself(v);
      var r := Load(f, k);
      ok := r != None;
      if ok {
        ghost var v1 := Volume();
        LoadGrows(v, v1, f, k, r);
        StoreAt(f, k, r.value, o, d);
        OthersKeptTwice(v, v1, Volume(), f);
      }
    }

    /** The next byte would go to a new block, and there are not enough blocks for that. */
    ghost predicate OutOfBlocks(f: nat, pos: nat)
      reads this
    {
      f < |files| && unused < Needed(files[f]) && 4096 * files[f].blocks <= pos < 4096 * files[f].blocks + 4096
    }

    /** Since the volume was v0, with u0 blocks unused, the first alen bytes of data have been written,
        and only the blocks that this took are gone. */
    ghost predicate Writing(v0: Vol, u0: nat, f: nat, offset: nat, data: seq<Byte>, alen: nat)
      reads this, freemap.words
    {
      Valid() && Wrote(v0, Volume(), f, offset, data, alen) && Paid(v0.files[f], u0, files[f], unused)
    }

    /** Writes the next size bytes of data, which go to block k from offset o on. */
    method WriteNext(f: nat, offset: nat, data: seq<Byte>, alen: nat, size: nat, k: nat, o: nat,
                     ghost v0: Vol, ghost u0: nat)
        returns (ok: bool)
      requires Writing(v0, u0, f, offset, data, alen)
      requires 0 < size && alen + size <= |data| && offset + alen == 4096 * k + o && o + size <= 4096
      requires offset < 4096 * v0.files[f].blocks + 4096 && k < 1036
      modifies this, freemap.words
      ensures Writing(v0, u0, f, offset, data, if ok then alen + size else alen)
      ensures !ok ==> OutOfBlocks(f, offset + alen)
    {
      ghost var v, u := Volume(), unused;
      WithinReach(v0.files[f].blocks, offset, alen, k, o);
      ok := WritePart(f, k, o, data[alen..alen + size]);
      PaidMore(v0.files[f], u0, v.files[f], u, files[f], unused);
      if ok {
        WroteMore(v0, v, Volume(), f, offset, data, alen, size, k, o);
      } else {
        WroteSame(v0, v, Volume(), f, offset, data, alen);
      }
    }

    /** Whole blocks, from block k on. */
    method WriteWhole(f: nat, offset: nat, data: seq<Byte>, start: nat, k: nat, count: nat,
                      ghost v0: Vol, ghost u0: nat)
        returns (alen: nat, ok: bool)
      requires Writing(v0, u0, f, offset, data, start) && start + 4096 * count <= |data|
      requires offset + start == 4096 * k && k + count <= 1036 && offset < 4096 * v0.files[f].blocks + 4096
      modifies this, freemap.words
      ensures Writing(v0, u0, f, offset, data, alen)
      ensures if ok then alen == start + 4096 * count else alen < |data| && OutOfBlocks(f, offset + alen)
    {
      alen, ok := start, true;
      var blkno, nblks := k, count;
      while nblks != 0
        invariant 0 <= nblks <= count && blkno + nblks == k + count && alen + 4096 * nblks == start + 4096 * count
        invariant Writing(v0, u0, f, offset, data, alen)
        decreases nblks
      {
        ok := WriteNext(f, offset, data, alen, 4096, blkno, 0, v0, u0);
        if !ok { return; }
        alen, blkno, nblks := alen + 4096, blkno + 1, nblks - 1;
      }
    }

    /** From block k on: whole blocks, then the rest. */
    method WriteAligned(f: nat, offset: nat, data: seq<Byte>, start: nat, k: nat, nblks: nat, rest: nat,
                        ghost v0: Vol, ghost u0: nat)
        returns (alen: nat)
      requires Writing(v0, u0, f, offset, data, start) && |data| == start + 4096 * nblks + rest
      requires offset + start == 4096 * k && rest < 4096 && offset + |data| <= 4096 * 1036
      requires offset < 4096 * v0.files[f].blocks + 4096
      modifies this, freemap.words
      ensures Writing(v0, u0, f, offset, data, alen)
      ensures alen < |data| ==> OutOfBlocks(f, offset + alen)
    {
      var ok;
      alen, ok := WriteWhole(f, offset, data, start, k, nblks, v0, u0);
      if ok && rest != 0 {
        ok := WriteNext(f, offset, data, alen, rest, k + nblks, 0, v0, u0);
        if ok { alen := alen + rest; }
      }
    }

    /** Up to the first block boundary. */
    method WriteHead(f: nat, offset: nat, data: seq<Byte>, k: nat, o: nat, size: nat, ghost v0: Vol, ghost u0: nat)
        returns (ok: bool)
      requires Valid() && f < |files| && v0 == Volume() && u0 == unused && 0 < size <= |data| && offset == 4096 * k + o && o + size <= 4096
      requires offset < 4096 * files[f].blocks + 4096 && k < 1036
      modifies this, freemap.words
      ensures Writing(v0, u0, f, offset, data, if ok then size else 0)
      ensures !ok ==> OutOfBlocks(f, offset)
    {
      WroteNothing(v0, f, offset, data);
      PaidNothing(v0, f, u0);
      ok := WriteNext(f, offset, data, 0, size, k, o, v0, u0);
    }

    /** The three phases of a write: up to the first block boundary, whole blocks, the rest. */
    method WriteBlocks(f: nat, offset: nat, data: seq<Byte>) returns (alen: nat)
      requires Valid() && f < |files| && 0 < |data| && offset < 4096 * files[f].blocks + 4096
      requires offset + |data| <= 4096 * 1036
      modifies this, freemap.words
      ensures Writing(old(Volume()), old(unused), f, offset, data, alen)
      ensures alen < |data| ==> OutOfBlocks(f, offset + alen)
    {
      ghost var v0, u0 := Volume(), unused;
      var blkno, blkoff, size, nblks, rest := Phases(offset, offset + |data|);
      if blkoff == 0 {
        WroteNothing(v0, f, offset, data);
        PaidNothing(v0, f, u0);
        alen := WriteAligned(f, offset, data, 0, blkno, nblks, rest, v0, u0);
      } else {
        var ok := WriteHead(f, offset, data, blkno, blkoff, size, v0, u0);
        alen := if ok then size else 0;
        if ok && size != |data| { alen := WriteAligned(f, offset, data, size, blkno + 1, nblks, rest, v0, u0); }
      }
    }

    method SetSize(f: nat, size: nat)
      requires Valid() && f < |files|
      modifies this`files
      ensures Valid() && Volume() == Resized(old(Volume()), f, size)
    {
      ResizedSound(Volume(), f, size);
      files := files[f := files[f].(size := size)];
    }

    /** Writes data at offset. When blocks run out, alen is the length of the prefix that was stored. */
    method Write(f: nat, offset: int, data: seq<Byte>) returns (alen: nat, ret: Status)
      requires Valid() && f < |files| && |data| < 0x1_0000_0000
      requires Accepts(offset, |data|) ==>
                 offset / 4096 <= files[f].blocks && EndPos(offset, |data|) <= 4096 * 1036
      modifies this, freemap.words
      ensures Valid() && alen <= |data|
      ensures !Accepts(offset, |data|) ==> ret == Invalid && alen == 0 && Volume() == old(Volume())
      ensures Accepts(offset, |data|) ==>
                var n := EndPos(offset, |data|) - offset;
                alen <= n && ret == (if alen == n then Done else NoSpace) &&
                if n == 0 then Volume() == old(Volume()) else Written(old(Volume()), Volume(), f, offset, data[..alen])
      ensures Accepts(offset, |data|) && offset < EndPos(offset, |data|) ==>
                WriteCost(old(files)[f], old(unused), files[f], unused, offset, alen, EndPos(offset, |data|) - offset)
    {
      var endpos := Range(offset, |data|);
      if endpos == None { return 0, Invalid; }
      if offset == endpos.value { return 0, Done; }
      var n := endpos.value - offset;
      alen := WriteSome(f, offset, data[..n]);
      ret := if alen == n then Done else NoSpace;
      PrefixOfPrefix(data, alen, n);
    }

    method WriteSome(f: nat, offset: nat, data: seq<Byte>) returns (alen: nat)
      requires Valid() && f < |files| && 0 < |data| && offset < 4096 * files[f].blocks + 4096
      requires offset + |data| <= 4096 * 1036
      modifies this, freemap.words
      ensures Valid() && alen <= |data| && Written(old(Volume()), Volume(), f, offset, data[..alen])
      ensures WriteCost(old(files)[f], old(unused), files[f], unused, offset, alen, |data|)
    {
      ghost var v, u := Volume(), unused;
      alen := WriteBlocks(f, offset, data);
      ghost var v1 := Volume();
      WroteStored(v, v1, f, offset, data, alen);
      WriteCosts(v.files[f], u, files[f], unused, offset, alen, |data|);
      if offset + alen > files[f].size { SetSize(f, offset + alen); }
      WrittenSized(v, v1, Volume(), f, offset, data[..alen]);
    }

    /** The blocks of f below k have been read since the volume was v0, with u0 blocks unused: asking for
        the block after the last has made the file longer. */
    ghost predicate Looked(v0: Vol, u0: nat, f: nat, k: nat)
      reads this, freemap.words
    {
      Valid() && f < |v0.files| && Shape(v0.files[f]) &&
      if k <= v0.files[f].blocks then Volume() == v0 && unused == u0
      else Lengthened(v0, Volume(), f) && u0 >= Needed(v0.files[f])
    }

    /** How a read up to endpos ends: it changes something only if it reaches past the last block, and then
        the file is a block longer or there was none to be had. */
    ghost predicate ReadTo(v0: Vol, u0: nat, f: nat, endpos: nat, ok: bool)
      reads this, freemap.words
    {
      Valid() && f < |v0.files| && Shape(v0.files[f]) &&
      if endpos <= 4096 * v0.files[f].blocks then ok && Volume() == v0
      else if u0 < Needed(v0.files[f]) then !ok && Extended(v0, Volume(), f, None)
      else ok && Lengthened(v0, Volume(), f)
    }

    lemma LookedToEnd(v0: Vol, u0: nat, f: nat, k: nat, endpos: nat)
      requires Looked(v0, u0, f, k) && 4096 * k - 4096 < endpos <= 4096 * k
      ensures ReadTo(v0, u0, f, endpos, true)
    {}

    /** Reads size bytes of block k, from offset o on, and appends them. */
    method ReadPart(f: nat, k: nat, o: nat, size: nat, sofar: seq<Byte>,
                    ghost v0: Vol, ghost u0: nat, ghost all: seq<Byte>, ghost base: nat, ghost lo: nat)
        returns (out: seq<Byte>, ok: bool)
      requires Looked(v0, u0, f, k) && k <= v0.files[f].blocks && k < 1036 && o + size <= 4096
      requires all == Extension(v0, f) && base <= lo == 4096 * k + o && sofar == all[base..lo]
      modifies this, freemap.words
      ensures lo + size <= |all|
      ensures ok ==> Looked(v0, u0, f, k + 1) && out == all[base..lo + size]
      ensures !ok ==> k == v0.files[f].blocks && Valid() && Extended(v0, Volume(), f, None) &&
                      u0 < Needed(v0.files[f]) && out == sofar
    {
      var r := Load(f, k);
      if r == None { return sofar, false; }
      PartSeen(v0, Volume(), f, k, r.value, o, size, all);
      PartJoins(all, base, lo, lo + size, sofar, disk[r.value][o..o + size]);
      out, ok := sofar + disk[r.value][o..o + size], true;
    }

    /** Reads what lies between offset and offset + len, up to the size of the file. If the size reaches
        past the last block, reading there makes the file a block longer. */
    method Read(f: nat, offset: int, len: nat) returns (out: seq<Byte>, ret: Status)
      requires Valid() && f < |files| && len < 0x1_0000_0000
      requires files[f].size < 4096 * files[f].blocks + 4096 && files[f].size <= 4096 * 1036
      modifies this, freemap.words
      ensures ret == Invalid <==> !Accepts(offset, len)
      ensures ReadTo(old(Volume()), old(unused), f, ReadEnd(old(files)[f], offset, len), ret != NoSpace)
      ensures out == if ret == Invalid then [] else
                     Clipped(Seen(old(Volume()), f), offset,
                             if ret == Done then EndPos(offset, len) else Max(offset, 4096 * old(files)[f].blocks))
    {
      Shaped(Volume(), f);
      var endpos := Range(offset, len);
      if endpos == None { return [], Invalid; }
      if offset == endpos.value || offset >= files[f].size { return [], Done; }
      var end := if endpos.value > files[f].size then files[f].size else endpos.value;
      ghost var all, size, reach := Extension(Volume(), f), files[f].size, 4096 * files[f].blocks;
      var ok;
      out, ok := ReadBlocks(f, offset, end, Volume(), unused, all);
      ret := if ok then Done else NoSpace;
      ClippedAtSize(all, size, offset, if ok then endpos.value else Max(offset, reach));
    }

    method ReadBlocks(f: nat, offset: nat, endpos: nat, ghost v0: Vol, ghost u0: nat, ghost all: seq<Byte>)
        returns (out: seq<Byte>, ok: bool)
      requires Looked(v0, u0, f, 0) && all == Extension(v0, f)
      requires offset < endpos < 4096 * v0.files[f].blocks + 4096 && endpos <= 4096 * 1036
      modifies this, freemap.words
      ensures ReadTo(v0, u0, f, endpos, ok)
      ensures out == all[offset..if ok then endpos else Max(offset, 4096 * v0.files[f].blocks)]
    {
      var blkno, blkoff, size, nblks, rest := Phases(offset, endpos);
      if blkoff == 0 {
        BlocksReach(v0.files[f].blocks, blkno + nblks, rest, endpos);
        out, ok := ReadAligned(f, [], blkno, nblks, rest, v0, u0, all, offset);
      } else {
        out, ok := ReadHead(f, offset, endpos, blkno, blkoff, size, v0, u0, all);
        if ok && size != endpos - offset {
          out, ok := ReadTail(f, out, blkno + 1, nblks, rest, endpos, v0, u0, all, offset);
        }
      }
    }

    /** What follows the first block boundary. */
    method ReadTail(f: nat, sofar: seq<Byte>, k: nat, nblks: nat, rest: nat, endpos: nat,
                    ghost v0: Vol, ghost u0: nat, ghost all: seq<Byte>, ghost base: nat)
        returns (out: seq<Byte>, ok: bool)
      requires Looked(v0, u0, f, k) && all == Extension(v0, f) && base <= 4096 * k <= |all| && sofar == all[base..4096 * k]
      requires endpos == 4096 * (k + nblks) + rest && rest < 4096
      requires endpos < 4096 * v0.files[f].blocks + 4096 && endpos <= 4096 * 1036
      modifies this, freemap.words
      ensures ReadTo(v0, u0, f, endpos, ok)
      ensures out == all[base..if ok then endpos else 4096 * v0.files[f].blocks]
    {
      BlocksReach(v0.files[f].blocks, k + nblks, rest, endpos);
      out, ok := ReadAligned(f, sofar, k, nblks, rest, v0, u0, all, base);
    }

    /** Up to the first block boundary, or to the end. */
    method ReadHead(f: nat, offset: nat, endpos: nat, k: nat, o: nat, size: nat,
                    ghost v0: Vol, ghost u0: nat, ghost all: seq<Byte>)
        returns (out: seq<Byte>, ok: bool)
      requires Looked(v0, u0, f, k) && all == Extension(v0, f) && offset == 4096 * k + o
      requires k <= v0.files[f].blocks && k < 1036 && 0 < size && o + size <= 4096 && offset + size <= endpos
      requires endpos <= 4096 * v0.files[f].blocks + 4096
      modifies this, freemap.words
      ensures ok ==> Looked(v0, u0, f, k + 1) && out == all[offset..offset + size]
      ensures !ok ==> 4096 * v0.files[f].blocks <= offset && out == []
      ensures !ok || size == endpos - offset ==> ReadTo(v0, u0, f, endpos, ok)
    {
      out, ok := ReadPart(f, k, o, size, [], v0, u0, all, offset, offset);
      if ok && size == endpos - offset { LookedToEnd(v0, u0, f, k + 1, endpos); }
    }

    /** Whole blocks, from block k on. */
    method ReadWhole(f: nat, sofar: seq<Byte>, k: nat, count: nat,
                     ghost v0: Vol, ghost u0: nat, ghost all: seq<Byte>, ghost base: nat)
        returns (out: seq<Byte>)
      requires Looked(v0, u0, f, k) && k + count <= v0.files[f].blocks
      requires all == Extension(v0, f) && base <= 4096 * k && sofar == all[base..4096 * k]
      modifies this, freemap.words
      ensures Looked(v0, u0, f, k + count) && out == all[base..4096 * (k + count)]
    {
      out := sofar;
      var blkno, nblks := k, count;
      while nblks != 0
        invariant 0 <= nblks <= count && blkno + nblks == k + count && base <= 4096 * blkno
        invariant Looked(v0, u0, f, blkno) && out == all[base..4096 * blkno]
        decreases nblks
      {
        var ok;
        out, ok := ReadPart(f, blkno, 0, 4096, out, v0, u0, all, base, 4096 * blkno);
        blkno, nblks := blkno + 1, nblks - 1;
      }
    }

    /** From block k on: whole blocks, then the rest. */
    method ReadAligned(f: nat, sofar: seq<Byte>, k: nat, nblks: nat, rest: nat,
                       ghost v0: Vol, ghost u0: nat, ghost all: seq<Byte>, ghost base: nat)
        returns (out: seq<Byte>, ok: bool)
      requires Looked(v0, u0, f, k) && k + nblks <= v0.files[f].blocks && rest < 4096 && (rest != 0 ==> k + nblks < 1036)
      requires all == Extension(v0, f) && base <= 4096 * k && sofar == all[base..4096 * k]
      modifies this, freemap.words
      ensures ReadTo(v0, u0, f, 4096 * (k + nblks) + rest, ok)
      ensures out == all[base..if ok then 4096 * (k + nblks) + rest else 4096 * v0.files[f].blocks]
    {
      out := ReadWhole(f, sofar, k, nblks, v0, u0, all, base);
      ok := true;
      if rest != 0 {
        out, ok := ReadPart(f, k + nblks, 0, rest, out, v0, u0, all, base, 4096 * (k + nblks));
        if ok { LookedToEnd(v0, u0, f, k + nblks + 1, 4096 * (k + nblks) + rest); }
      }
    }

    // ----- changing the size -----

    /** Adds cleared blocks until the file has n, or blocks run out. */
    method Grow(f: nat, n: nat) returns (ok: bool)
      requires Valid() && f < |files| && files[f].blocks <= n <= 1036
      modifies this, freemap.words
      ensures Valid() && Fitted(old(Volume()), Volume(), f)
      ensures Paid(old(files)[f], old(unused), files[f], unused)
      ensures if ok then files[f].blocks == n else files[f].blocks < n && unused < Needed(files[f])
    {
      ghost var v0, u0 := Volume(), unused;
      FittedItself(v0, f);
      PaidNothing(v0, f, u0);
      ok := true;
      while files[f].blocks != n
        invariant Valid() && Fitted(v0, Volume(), f) && files[f].blocks <= n
        invariant Paid(v0.files[f], u0, files[f], unused)
        decreases n - files[f].blocks
      {
        ghost var v, u := Volume(), unused;
        var r := Load(f, files[f].blocks);
        FittedMore(v0, v, Volume(), f, r);
        PaidMore(v0.files[f], u0, v.files[f], u, files[f], unused);
        if r == None { return false; }
      }
    }

    method Shrink(f: nat, n: nat)
      requires Valid() && f < |files| && n <= files[f].blocks
      modifies this, freemap.words
      ensures Valid() && Fitted(old(Volume()), Volume(), f) && files[f].blocks == n
      ensures unused == old(unused) + old(files)[f].blocks - n
    {
      ghost var v0, u0 := Volume(), unused;
      FittedItself(v0, f);
      while files[f].blocks != n
        invariant Valid() && Fitted(v0, Volume(), f) && n <= files[f].blocks <= v0.files[f].blocks
        invariant unused == u0 + v0.files[f].blocks - files[f].blocks
        decreases files[f].blocks
      {
        ghost var v := Volume();
        DropLast(f);
        FittedLess(v0, v, Volume(), f);
      }
    }

    /** Makes the file len bytes long. When blocks run out, the size stays but as many blocks as there
        were remain added; asked for the size it has, the call stops the kernel unless the file has just
        the blocks for it. */
    method Truncate(f: nat, len: int) returns (ret: Status)
      requires Valid() && f < |files| && (0 <= len <= MAX_FILE_SIZE ==> Blocks(len) <= 1036)
      modifies this, freemap.words
      ensures Valid() && (ret == Invalid <==> !(0 <= len <= MAX_FILE_SIZE))
      ensures ret == Halted <==> ret != Invalid && len == old(files)[f].size && Blocks(len) != old(files)[f].blocks
      ensures ret == Invalid || ret == Halted ==> Volume() == old(Volume())
      ensures ret == NoSpace <==>
                ret != Invalid && len != old(files)[f].size && old(unused) < Demand(old(files)[f], Blocks(len))
      ensures ret == Done ==> Truncated(old(Volume()), Volume(), f, len) && files[f].blocks == Blocks(len)
      ensures ret == NoSpace ==>
                Truncated(old(Volume()), Volume(), f, old(files)[f].size) &&
                Demand(old(files)[f], files[f].blocks) <= old(unused) < Demand(old(files)[f], files[f].blocks + 1)
      ensures ret != Invalid && old(files)[f].blocks == Blocks(old(files)[f].size) ==>
                (files[f].blocks == Blocks(files[f].size) <==>
                 old(unused) >= Demand(old(files)[f], Blocks(len)) || old(unused) < Needed(old(files)[f]))
    {
      if len < 0 || len > MAX_FILE_SIZE { return Invalid; }
      ghost var v0, u0 := Volume(), unused;
      var tblks := Blocks(len);
      FittedItself(v0, f);
      if files[f].size == len { return if tblks == files[f].blocks then Done else Halted; }
      var ok := true;
      if files[f].blocks < tblks { ok := Grow(f, tblks); } else { Shrink(f, tblks); }
      ghost var v := Volume();
      ret := if ok then Done else NoSpace;
      if ok {
        SetSize(f, len);
        TruncatedTo(v0, v, f, len);
      } else {
        Shortage(v0.files[f], u0, files[f], unused, tblks);
      }
    }
  }

  lemma DirectExtends(v: Vol, f: nat, b: nat)
    requires Sound(v) && f < |v.files| && |v.files[f].direct| == 12 && v.files[f].blocks < 12 && b < |v.free| && v.free[b]
    ensures Sound(DirectAdded(v, f, b)) && Extended(v, DirectAdded(v, f, b), f, Some(b))
  {
    AddDirect(v, f, b);
    Shaped(v, f);
  }

  /** Block e is the indirect block of f, or has just been allocated to become it. */
  ghost predicate Found(v: Vol, v': Vol, f: nat, e: nat) {
    f < |v.files| && 0 < e < |v.disk| == |v.free| &&
    if v.files[f].indirect == 0 then v.free[e] && v' == Taken(v, e) else v.files[f].indirect == e && v' == v
  }

  /** The volume with e as the indirect block of f, newly so unless it was before. */
  ghost function WithIndirect(v: Vol, f: nat, e: nat): Vol
    requires f < |v.files| && e < |v.disk| && |v.free| == |v.disk|
  {
    if v.files[f].indirect == 0 then IndirectAdded(v, f, e) else v
  }

  lemma IndirectInUse(v: Vol, f: nat)
    requires Sound(v) && f < |v.files|
    ensures Shape(v.files[f]) && v.files[f].indirect < |v.disk|
  {
    assert FileFits(v.disk, v.own, v.files[f], f);
    assert v.files[f].indirect != 0 ==> OwnFits(v.disk, v.own, v.files, v.files[f].indirect);
  }

  /** Block b entered in block e, which is made the indirect block of f. */
  ghost function Entered(w: Vol, f: nat, e: nat, b: nat, own: map<nat, Owner>): Vol
    requires f < |w.files| && 12 <= w.files[f].blocks < 1036 && e < |w.disk| && b < 0x1_0000_0000
  {
    w.(disk := w.disk[e := PutEntry(w.disk[e], w.files[f].blocks - 12, b)],
       files := w.files[f := w.files[f].(indirect := e, blocks := w.files[f].blocks + 1)], own := own)
  }

  /** Both the indirect block e and the new block b have been allocated. */
  ghost predicate EntryReady(v: Vol, w: Vol, f: nat, e: nat, b: nat) {
    0 < e < |v.disk| == |v.free| && b < |v.disk| && f < |v.files| && 12 <= v.files[f].blocks < 1036 &&
    (if v.files[f].indirect == 0 then v.free[e] else v.files[f].indirect == e) &&
    var held := if v.files[f].indirect == 0 then Taken(v, e) else v;
    held.free[b] && w == Taken(held, b)
  }

  lemma EntryAddedIsEntered(v: Vol, w: Vol, f: nat, e: nat, b: nat)
    requires |v.disk| <= 0x1_0000_0000 && EntryReady(v, w, f, e, b)
    ensures var v1 := WithIndirect(v, f, e);
            EntryAdded(v1, f, b) == Entered(w, f, e, b, v1.own[b := Data(f, v.files[f].blocks)])
  {}

  lemma EntryExtends(v: Vol, w: Vol, f: nat, e: nat, b: nat)
    requires Sound(v) && EntryReady(v, w, f, e, b)
    ensures var v' := Entered(w, f, e, b, WithIndirect(v, f, e).own[b := Data(f, v.files[f].blocks)]);
            Sound(v') && Extended(v, v', f, Some(b))
  {
    var v1 := WithIndirect(v, f, e);
    KeptItself(v);
    if v.files[f].indirect == 0 { AddIndirect(v, f, e); } else { IndirectInUse(v, f); }
    AddEntry(v1, f, b);
    EntryAddedIsEntered(v, w, f, e, b);
    ExtendedAfter(v, v1, EntryAdded(v1, f, b), f, b);
  }

  ghost predicate Located(v: Vol, f: nat, k: nat, b: nat) {
    f < |v.files| && Shape(v.files[f]) && k < v.files[f].blocks && b == BlockOf(v.disk, v.files[f], k) < |v.disk|
  }

  lemma Locates(v: Vol, f: nat, k: nat)
    requires Sound(v) && f < |v.files| && k < v.files[f].blocks
    ensures Shape(v.files[f]) && Located(v, f, k, BlockOf(v.disk, v.files[f], k))
    ensures k >= 12 ==> 0 < v.files[f].indirect < |v.disk|
  {
    assert FileFits(v.disk, v.own, v.files[f], f) && DataAt(v.disk, v.own, v.files[f], f, k);
    assert OwnFits(v.disk, v.own, v.files, BlockOf(v.disk, v.files[f], k));
    assert k >= 12 ==> OwnFits(v.disk, v.own, v.files, v.files[f].indirect);
  }

  /** File f has lost its last block. */
  ghost predicate Shortened(v: Vol, v': Vol, f: nat) {
    f < |v.files| && |v'.files| == |v.files| && OthersKept(v, v', f) && Shape(v.files[f]) && Shape(v'.files[f]) &&
    0 < v.files[f].blocks == v'.files[f].blocks + 1 && v'.files[f].size == v.files[f].size &&
    BytesOf(v', f) == BytesOf(v, f)[..4096 * v'.files[f].blocks]
  }

  lemma LoadGrows(v: Vol, v1: Vol, f: nat, k: nat, r: Option<nat>)
    requires Sound(v) && f < |v.files| && k <= v.files[f].blocks && r.Some?
    requires k < v.files[f].blocks ==> v1 == v && Located(v, f, k, r.value)
    requires k == v.files[f].blocks ==> Extended(v, v1, f, r)
    ensures |v1.files| == |v.files| && OthersKept(v, v1, f) && Located(v1, f, k, r.value) && Shape(v.files[f])
    ensures v1.files[f].blocks == Max(v.files[f].blocks, k + 1) && v1.files[f].size == v.files[f].size
    ensures BytesOf(v1, f) == Grown(BytesOf(v, f), v1.files[f].blocks)
  {
    KeptItself(v);
    assert ZeroBlock() == Zeros(4096);
  }

  lemma WroteNothing(v: Vol, f: nat, p: nat, data: seq<Byte>)
    requires Sound(v) && f < |v.files|
    ensures Wrote(v, v, f, p, data, 0)
  {
    KeptItself(v);
    assert Kept(v, v, f);
    forall i | 0 <= i < 4096 * v.files[f].blocks ensures WroteAt(v, v, f, p, data, 0, i) {}
  }

  lemma WroteSame(v0: Vol, v: Vol, v': Vol, f: nat, p: nat, data: seq<Byte>, alen: nat)
    requires Wrote(v0, v, f, p, data, alen) && Extended(v, v', f, None)
    ensures Wrote(v0, v', f, p, data, alen)
  {
    OthersKeptTwice(v0, v, v', f);
    forall i | 0 <= i < 4096 * v'.files[f].blocks ensures WroteAt(v0, v', f, p, data, alen, i) {
      assert WroteAt(v0, v, f, p, data, alen, i);
    }
  }

  /** How a transfer divides: size bytes in block blkno from blkoff on, unless blkoff is zero, then
      whole blocks, then a rest. */
  method Phases(offset: nat, endpos: nat) returns (blkno: nat, blkoff: nat, size: nat, nblks: nat, rest: nat)
    requires offset < endpos
    ensures offset == 4096 * blkno + blkoff && blkoff < 4096 && rest < 4096
    ensures blkoff == 0 ==> endpos == offset + 4096 * nblks + rest
    ensures blkoff != 0 ==> 0 < size <= endpos - offset && blkoff + size <= 4096
    ensures blkoff != 0 && size != endpos - offset ==>
              offset + size == 4096 * (blkno + 1) && endpos == offset + size + 4096 * nblks + rest
  {
    blkno, nblks, blkoff, rest := offset / 4096, endpos / 4096 - offset / 4096, offset % 4096, endpos % 4096;
    size := 0;
    if blkoff != 0 {
      size := if nblks != 0 then 4096 - blkoff else endpos - offset;
      if nblks != 0 { nblks := nblks - 1; }
    }
  }

  /** Checks offset and length, and clips the range at the largest file size. */
  method Range(offset: int, len: nat) returns (endpos: Option<nat>)
    ensures endpos == if Accepts(offset, len) then Some(EndPos(offset, len)) else None
    ensures endpos.Some? && len < 0x1_0000_0000 ==> 0 <= offset <= endpos.value <= offset + len
  {
    var end := Signed(offset + len);
    if offset < 0 || offset >= MAX_FILE_SIZE || offset > end { return None; }
    if end > MAX_FILE_SIZE { end := MAX_FILE_SIZE; }
    return Some(end);
  }

  /** A range that ends before the block after the next has whole blocks only within the file. */
  lemma BlocksReach(blocks: nat, k: nat, rest: nat, endpos: nat)
    requires endpos == 4096 * k + rest && endpos < 4096 * blocks + 4096 && endpos <= 4096 * 1036
    ensures k <= blocks && (rest != 0 ==> k < 1036)
  {}

  lemma PartJoins<T>(s: seq<T>, a: nat, b: nat, c: nat, x: seq<T>, y: seq<T>)
    requires a <= b <= c <= |s| && x == s[a..b] && y == s[b..c]
    ensures x + y == s[a..c]
  {}

  /** The next block to be written is at most one past the end. */
  lemma WithinReach(blocks: nat, p: nat, alen: nat, k: nat, o: nat)
    requires p + alen == 4096 * k + o && o < 4096 && p < 4096 * blocks + 4096
    ensures k <= BlocksAfter(blocks, p, alen)
  {
    BlocksCover(p + alen);
  }

  /** File f has grown by one cleared block, or not at all; no other file has changed. */
  ghost predicate Extended(v: Vol, v': Vol, f: nat, r: Option<nat>) {
    f < |v.files| && |v'.files| == |v.files| && Shape(v.files[f]) && OthersKept(v, v', f) &&
    if r == None then Kept(v, v', f) && v'.free == v.free
    else
      Shape(v'.files[f]) && v'.files[f].blocks == v.files[f].blocks + 1 && v'.files[f].size == v.files[f].size &&
      BytesOf(v', f) == BytesOf(v, f) + ZeroBlock() &&
      r.value == BlockOf(v'.disk, v'.files[f], v.files[f].blocks) && r.value < |v'.disk|
  }

  lemma KeptItself(v: Vol)
    requires Sound(v)
    ensures forall g :: 0 <= g < |v.files| ==> Kept(v, v, g)
  {
    forall g | 0 <= g < |v.files| ensures Kept(v, v, g) { assert FileFits(v.disk, v.own, v.files[g], g); }
  }

  /** Taking block e and giving it back leaves a sound volume in which every file reads the same. */
  lemma TakenBack(v: Vol, e: nat)
    requires Sound(v) && e < |v.disk| && v.free[e]
    ensures var v' := Taken(v, e).(free := Taken(v, e).free[e := true]);
            Sound(v') && v'.free == v.free && forall g :: 0 <= g < |v.files| ==> Kept(v, v', g)
  {
    FreeIsSpare(v, e);
    SpareWritten(v, e, ZeroBlock());
    assert Taken(v, e).free[e := true] == v.free;
  }

  lemma ExtendedAfter(v: Vol, v1: Vol, v2: Vol, f: nat, b: nat)
    requires f < |v.files| && |v1.files| == |v.files| && OthersKept(v, v1, f) && OthersKept(v1, v2, f)
    requires Shape(v.files[f]) && Shape(v1.files[f]) && |v2.files| == |v.files| && Shape(v2.files[f])
    requires v1.files[f].blocks == v.files[f].blocks && v1.files[f].size == v.files[f].size == v2.files[f].size
    requires BytesOf(v1, f) == BytesOf(v, f) && v2.files[f].blocks == v.files[f].blocks + 1
    requires BytesOf(v2, f) == BytesOf(v1, f) + ZeroBlock()
    requires b == BlockOf(v2.disk, v2.files[f], v.files[f].blocks) < |v2.disk|
    ensures Extended(v, v2, f, Some(b))
  {
    forall g | 0 <= g < |v.files| && g != f ensures Kept(v, v2, g) {
      assert Kept(v, v1, g) && Kept(v1, v2, g);
    }
  }

  // ----- sizes and offsets -----

  datatype Status = Done | NoSpace | Invalid | Halted

  const MAX_FILE_SIZE: nat := 0x800_0000

  /** The offset and the length make sense. */
  predicate Accepts(offset: int, len: nat) {
    0 <= offset < MAX_FILE_SIZE && offset <= Signed(offset + len)
  }

  function EndPos(offset: int, len: nat): int {
    if Signed(offset + len) > MAX_FILE_SIZE then MAX_FILE_SIZE else Signed(offset + len)
  }

  /** Exactly the transfers that do not run over the largest signed number make sense. */
  lemma AcceptsExactly(offset: int, len: nat)
    requires len < 0x1_0000_0000
    ensures Accepts(offset, len) <==> 0 <= offset < MAX_FILE_SIZE && offset + len < 0x8000_0000
    ensures Accepts(offset, len) ==>
              EndPos(offset, len) == if offset + len > MAX_FILE_SIZE then MAX_FILE_SIZE else offset + len
  {}

  /** The part of s between p and q that exists. */
  function Clipped(s: seq<Byte>, p: nat, q: nat): seq<Byte>
    requires p <= q
  {
    if p >= |s| then [] else if q > |s| then s[p..] else s[p..q]
  }

  function Resized(v: Vol, f: nat, size: nat): Vol
    requires f < |v.files|
  {
    v.(files := v.files[f := v.files[f].(size := size)])
  }

  lemma ResizedSound(v: Vol, f: nat, size: nat)
    requires Sound(v) && f < |v.files|
    ensures Sound(Resized(v, f, size)) && OthersKept(v, Resized(v, f, size), f)
  {
    var v' := Resized(v, f, size);
    assert FileFits(v.disk, v.own, v.files[f], f);
    forall k | 0 <= k < 1036 ensures DataAt(v'.disk, v'.own, v'.files[f], f, k) {
      assert DataAt(v.disk, v.own, v.files[f], f, k);
    }
    forall c | c in v'.own && v'.own[c].f == f ensures OwnFits(v'.disk, v'.own, v'.files, c) {
      assert OwnFits(v.disk, v.own, v.files, c);
    }
    forall c | 0 <= c < |v'.free| ensures FreeFits(v'.free, v'.own, v'.reserved, c) {
      assert FreeFits(v.free, v.own, v.reserved, c);
    }
    SoundIfOwn(v, v', f);
  }

  lemma Shaped(v: Vol, f: nat)
    requires Sound(v) && f < |v.files|
    ensures Shape(v.files[f])
  {
    assert FileFits(v.disk, v.own, v.files[f], f);
  }

  lemma PartOfBytes(v: Vol, f: nat, k: nat, o: nat, size: nat)
    requires f < |v.files| && Shape(v.files[f]) && k < v.files[f].blocks && o + size <= 4096
    ensures 4096 * k + o + size <= |BytesOf(v, f)|
    ensures BytesOf(v, f)[4096 * k + o..4096 * k + o + size] ==
            BlockAt(v.disk, BlockOf(v.disk, v.files[f], k))[o..o + size]
  {
    BytesSlice(v.disk, v.files[f], v.files[f].blocks, k);
    SliceOfSlice(BytesOf(v, f), 4096 * k, 4096 * k + 4096, o, o + size);
  }

  /** File f has become longer by one cleared block, and nothing else has changed. */
  ghost predicate Lengthened(v: Vol, v': Vol, f: nat) {
    f < |v.files| && |v'.files| == |v.files| && Shape(v.files[f]) && Shape(v'.files[f]) && OthersKept(v, v', f) &&
    v'.files[f].blocks == v.files[f].blocks + 1 && v'.files[f].size == v.files[f].size &&
    BytesOf(v', f) == Extension(v, f)
  }

  /** The bytes of f and one more block, cleared. */
  function Extension(v: Vol, f: nat): (s: seq<Byte>)
    requires f < |v.files| && |v.files[f].direct| == 12 && v.files[f].blocks <= 1036
    ensures |s| == 4096 * v.files[f].blocks + 4096
  {
    BytesOf(v, f) + ZeroBlock()
  }

  /** The content of a file as a reader sees it: what has no block yet is zero. */
  function Seen(v: Vol, f: nat): (s: seq<Byte>)
    requires f < |v.files| && |v.files[f].direct| == 12 && v.files[f].blocks <= 1036
    requires v.files[f].size <= 4096 * v.files[f].blocks + 4096
    ensures |s| == v.files[f].size
  {
    Extension(v, f)[..v.files[f].size]
  }

  lemma SeenIsContent(v: Vol, f: nat)
    requires f < |v.files| && |v.files[f].direct| == 12 && v.files[f].blocks <= 1036
    requires v.files[f].size <= 4096 * v.files[f].blocks
    ensures Seen(v, f) == Content(v, f)
  {
    SliceOfPrefix(BytesOf(v, f), ZeroBlock(), 0, v.files[f].size);
  }

  /** The end of what there is to read in the range, zero if there is nothing. */
  function ReadEnd(ino: Inode, offset: int, len: nat): nat {
    if !Accepts(offset, len) || offset == EndPos(offset, len) || offset >= ino.size then 0
    else if EndPos(offset, len) > ino.size then ino.size else EndPos(offset, len)
  }

  lemma ClippedAtSize(all: seq<Byte>, size: nat, p: nat, q: nat)
    requires p < size <= |all| && p <= q
    ensures all[p..if q > size then size else q] == Clipped(all[..size], p, q)
  {
    SliceOfSlice(all, 0, size, p, if q > size then size else q);
  }

  lemma PartSeen(v0: Vol, v: Vol, f: nat, k: nat, b: nat, o: nat, size: nat, all: seq<Byte>)
    requires f < |v0.files| && Shape(v0.files[f]) && all == Extension(v0, f) && o + size <= 4096
    requires k < v0.files[f].blocks ==> v == v0 && Located(v, f, k, b)
    requires k >= v0.files[f].blocks ==> k == v0.files[f].blocks && Extended(v0, v, f, Some(b))
    ensures b < |v.disk| && 4096 * k + o + size <= |all|
    ensures v.disk[b][o..o + size] == all[4096 * k + o..4096 * k + o + size]
  {
    PartOfBytes(v, f, k, o, size);
    if k < v0.files[f].blocks { SliceOfPrefix(BytesOf(v0, f), ZeroBlock(), 4096 * k + o, 4096 * k + o + size); }
  }

  lemma PrefixOfPrefix<T>(s: seq<T>, a: nat, b: nat)
    requires a <= b <= |s|
    ensures s[..b][..a] == s[..a]
  {}

  lemma SliceOfSlice<T>(s: seq<T>, lo: nat, hi: nat, p: nat, q: nat)
    requires lo <= hi <= |s| && p <= q <= hi - lo
    ensures s[lo..hi][p..q] == s[lo + p..lo + q]
  {
    forall i | 0 <= i < q - p ensures s[lo..hi][p..q][i] == s[lo + p..lo + q][i] {}
  }

  /** What a write leaves behind: d at offset p of file f, the file long enough for it, and nothing
      else changed. */
  ghost predicate Written(v: Vol, v': Vol, f: nat, p: nat, d: seq<Byte>) {
    f < |v.files| && |v'.files| == |v.files| && Shape(v.files[f]) && Shape(v'.files[f]) && OthersKept(v, v', f) &&
    v'.files[f].size == Max(v.files[f].size, p + |d|) &&
    v'.files[f].blocks == BlocksAfter(v.files[f].blocks, p, |d|) &&
    (d != [] ==> p + |d| <= 4096 * v'.files[f].blocks) &&
    BytesOf(v', f) == PutAt(BytesOf(v, f), v'.files[f].blocks, p, d)
  }

  /** The same before the size is set. */
  ghost predicate Stored(v: Vol, v': Vol, f: nat, p: nat, d: seq<Byte>) {
    f < |v.files| && |v'.files| == |v.files| && Shape(v.files[f]) && Shape(v'.files[f]) && OthersKept(v, v', f) &&
    v'.files[f].size == v.files[f].size && v'.files[f].blocks == BlocksAfter(v.files[f].blocks, p, |d|) &&
    (d != [] ==> p + |d| <= 4096 * v'.files[f].blocks) &&
    BytesOf(v', f) == PutAt(BytesOf(v, f), v'.files[f].blocks, p, d)
  }

  lemma WroteStored(v: Vol, v': Vol, f: nat, p: nat, data: seq<Byte>, alen: nat)
    requires Wrote(v, v', f, p, data, alen)
    ensures Stored(v, v', f, p, data[..alen])
  {
    WroteIsPut(v, v', f, p, data, alen);
  }

  lemma WrittenSized(v: Vol, v1: Vol, v2: Vol, f: nat, p: nat, d: seq<Byte>)
    requires Sound(v1) && Stored(v, v1, f, p, d)
    requires v2 == if p + |d| > v1.files[f].size then Resized(v1, f, p + |d|) else v1
    ensures Written(v, v2, f, p, d)
  {
    if p + |d| > v1.files[f].size { WrittenLonger(v, v1, v2, f, p, d); } else { StoredWritten(v, v1, v1, f, p, d); }
  }

  lemma WrittenLonger(v: Vol, v1: Vol, v2: Vol, f: nat, p: nat, d: seq<Byte>)
    requires Sound(v1) && Stored(v, v1, f, p, d) && p + |d| > v1.files[f].size && v2 == Resized(v1, f, p + |d|)
    ensures Written(v, v2, f, p, d)
  {
    ResizedReads(v1, v2, f, p + |d|);
    OthersKeptTwice(v, v1, v2, f);
    StoredWritten(v, v1, v2, f, p, d);
  }

  lemma StoredWritten(v: Vol, v1: Vol, v2: Vol, f: nat, p: nat, d: seq<Byte>)
    requires Stored(v, v1, f, p, d) && |v2.files| == |v.files| && OthersKept(v, v2, f) && Shape(v2.files[f])
    requires v2.files[f].blocks == v1.files[f].blocks && v2.files[f].size == Max(v1.files[f].size, p + |d|)
    requires BytesOf(v2, f) == BytesOf(v1, f)
    ensures Written(v, v2, f, p, d)
  {}

  lemma ResizedReads(v: Vol, v': Vol, f: nat, size: nat)
    requires Sound(v) && f < |v.files| && v' == Resized(v, f, size)
    ensures |v'.files| == |v.files| && OthersKept(v, v', f) && Shape(v.files[f]) && Shape(v'.files[f])
    ensures v'.files[f].blocks == v.files[f].blocks && v'.files[f].size == size && BytesOf(v', f) == BytesOf(v, f)
  {
    ResizedSound(v, f, size);
    Shaped(v, f);
    SameBytes(v.disk, v.files[f], v.disk, v'.files[f], v.files[f].blocks);
  }

  /** Within the file or at its end, a write overwrites the content of the file as a byte sequence,
      and the file keeps exactly the blocks that its size takes. */
  lemma WriteRefines(v: Vol, v': Vol, f: nat, p: nat, d: seq<Byte>)
    requires Written(v, v', f, p, d) && p <= v.files[f].size <= 4096 * v.files[f].blocks
    ensures v'.files[f].size <= 4096 * v'.files[f].blocks
    ensures Content(v', f) == Overwritten(Content(v, f), p, d)
    ensures v.files[f].blocks == Blocks(v.files[f].size) ==> v'.files[f].blocks == Blocks(v'.files[f].size)
  {
    PutIsOverwrite(BytesOf(v, f), v'.files[f].blocks, p, d, v.files[f].size);
    BlocksMonotone(v.files[f].size, p + |d|);
    BlocksMonotone(p + |d|, v.files[f].size);
  }

  /** What was written is what a read of the same range returns. */
  lemma ReadAfterWrite(v: Vol, v': Vol, f: nat, p: nat, d: seq<Byte>)
    requires Written(v, v', f, p, d) && p <= v.files[f].size <= 4096 * v.files[f].blocks
    ensures v'.files[f].size <= 4096 * v'.files[f].blocks && Clipped(Content(v', f), p, p + |d|) == d
  {
    WriteRefines(v, v', f, p, d);
  }

  lemma BlocksMonotone(a: nat, b: nat)
    ensures a <= b ==> Blocks(a) <= Blocks(b)
  {
    BlocksCover(a);
    BlocksCover(b);
  }

  // ----- changing the size -----

  /** The bytes of f in v are those in v0, cut off or followed by cleared blocks. */
  ghost predicate Fitted(v0: Vol, v: Vol, f: nat) {
    f < |v0.files| && Truncated(v0, v, f, v0.files[f].size)
  }

  ghost predicate Truncated(v0: Vol, v: Vol, f: nat, size: nat) {
    f < |v0.files| && |v.files| == |v0.files| && Shape(v0.files[f]) && Shape(v.files[f]) && OthersKept(v0, v, f) &&
    v.files[f].size == size && BytesOf(v, f) == FitTo(BytesOf(v0, f), v.files[f].blocks)
  }

  /** Cut off at n blocks, or followed by cleared blocks up to n. */
  function FitTo(s: seq<Byte>, n: nat): (r: seq<Byte>)
    ensures |r| == 4096 * n
  {
    Grown(s, n)[..4096 * n]
  }

  lemma FittedItself(v: Vol, f: nat)
    requires Sound(v) && f < |v.files|
    ensures Fitted(v, v, f)
  {
    KeptItself(v);
    Shaped(v, f);
  }

  lemma FitAgain(s: seq<Byte>, m: nat, n: nat)
    requires |s| <= 4096 * m <= 4096 * n || 4096 * n <= 4096 * m <= |s|
    ensures FitTo(FitTo(s, m), n) == FitTo(s, n)
  {
    forall i | 0 <= i < 4096 * n ensures FitTo(FitTo(s, m), n)[i] == FitTo(s, n)[i] {
      GrownAt(FitTo(s, m), n, i);
      GrownAt(s, n, i);
      if i < 4096 * m { GrownAt(s, m, i); }
    }
  }

  lemma FittedMore(v0: Vol, v: Vol, v': Vol, f: nat, r: Option<nat>)
    requires Fitted(v0, v, f) && v0.files[f].blocks <= v.files[f].blocks && Extended(v, v', f, r)
    ensures Fitted(v0, v', f)
  {
    OthersKeptTwice(v0, v, v', f);
    if r != None {
      assert BytesOf(v', f) == FitTo(BytesOf(v, f), v'.files[f].blocks) by { assert ZeroBlock() == Zeros(4096); }
      FitAgain(BytesOf(v0, f), v.files[f].blocks, v'.files[f].blocks);
    }
  }

  lemma FittedLess(v0: Vol, v: Vol, v': Vol, f: nat)
    requires Fitted(v0, v, f) && v.files[f].blocks <= v0.files[f].blocks && Shortened(v, v', f)
    ensures Fitted(v0, v', f)
  {
    OthersKeptTwice(v0, v, v', f);
    FitAgain(BytesOf(v0, f), v.files[f].blocks, v'.files[f].blocks);
  }

  lemma TruncatedTo(v0: Vol, v: Vol, f: nat, size: nat)
    requires Sound(v) && Fitted(v0, v, f)
    ensures Truncated(v0, Resized(v, f, size), f, size)
  {
    ResizedReads(v, Resized(v, f, size), f, size);
    OthersKeptTwice(v0, v, Resized(v, f, size), f);
  }

  /** Shrinking keeps the beginning of the content. Growing keeps all of it, and what lies past the
      old last block reads as zero. */
  lemma TruncateRefines(v: Vol, v': Vol, f: nat, len: nat)
    requires Truncated(v, v', f, len) && v'.files[f].blocks == Blocks(len)
    requires v.files[f].size <= 4096 * v.files[f].blocks
    ensures len <= 4096 * v'.files[f].blocks
    ensures var was, now := Content(v, f), Content(v', f);
            if len <= |was| then now == was[..len]
            else was <= now && forall i :: 4096 * v.files[f].blocks <= i < len ==> now[i] == 0
  {
    BlocksCover(len);
    var was, now := Content(v, f), Content(v', f);
    forall i | 0 <= i < len ensures now[i] == if i < |BytesOf(v, f)| then BytesOf(v, f)[i] else 0 {
      GrownAt(BytesOf(v, f), v'.files[f].blocks, i);
    }
  }

  // ----- two volumes without room -----

  function EmptyFile(): Inode { Inode(0, 0, seq(12, _ => 0), 0) }

  lemma {:induction false} CountAll(free: seq<bool>)
    requires forall i :: 0 <= i < |free| ==> free[i]
    ensures Count(free) == |free|
  {
    if free != [] { CountAll(free[1..]); }
  }

  /** A volume of n unused blocks after a reserved one, with one empty file. */
  method NewVolume(n: nat) returns (fs: FileSystem)
    requires n < 0xFFFF_FFFF
    ensures fresh(fs) && fresh(fs.freemap) && fresh(fs.freemap.words)
    ensures fs.Valid() && fs.files == [EmptyFile()] && fs.unused == n
  {
    var bits := new Bitmap.Map(n + 1);
    ghost var all := bits.Contents();
    CountAll(all);
    var b := bits.Alloc();
    CountChanged(all, 0, false);
    var image := seq(n + 1, _ => ZeroBlock());
    EmptyIsSound(image, bits.Contents());
    fs := new FileSystem(image, bits, n, [EmptyFile()], map[], {0});
  }

  lemma EmptyIsSound(image: seq<Block>, free: seq<bool>)
    requires 0 < |image| == |free| <= 0x1_0000_0000 && forall i :: 0 <= i < |free| ==> free[i] == (i != 0)
    ensures Sound(Vol(image, free, [EmptyFile()], map[], {0}))
  {
    var v := Vol(image, free, [EmptyFile()], map[], {0});
    forall k | 0 <= k < 1036 ensures DataAt(v.disk, v.own, v.files[0], 0, k) {}
    assert FileFits(v.disk, v.own, v.files[0], 0);
    forall b | 0 <= b < |v.free| ensures FreeFits(v.free, v.own, v.reserved, b) {}
  }

  /** A write past the end of the last block, on a full volume, leaves a size without a block for it. */
  method SizeWithoutBlocks() returns (size: nat, blocks: nat, ret: Status)
    ensures ret == NoSpace && size == 1 && blocks == 0
  {
    var fs := NewVolume(0);
    var alen;
    AcceptsExactly(1, 1);
    alen, ret := fs.Write(0, 1, [7]);
    size, blocks := fs.files[0].size, fs.files[0].blocks;
  }

  /** Growing by two blocks where there is one leaves a block beyond the size, and then asking for the
      size the file has stops the kernel. */
  method BlocksWithoutSize() returns (size: nat, blocks: nat, ret: Status, again: Status)
    ensures ret == NoSpace && size == 0 && blocks == 1 && again == Halted
  {
    var fs := NewVolume(1);
    ret := fs.Truncate(0, 8192);
    size, blocks := fs.files[0].size, fs.files[0].blocks;
    again := fs.Truncate(0, 0);
  }
}
