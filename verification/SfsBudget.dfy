/** What growing a file costs: data blocks, and one block for the indirect entries when they are first
    needed. */
module SfsBudget {
  import opened SfsVolume
  import opened SfsBytes

  /** How many blocks it takes to make a file one block longer. */
  function Needed(ino: Inode): nat {
    if ino.blocks < 12 || ino.indirect != 0 then 1 else 2
  }

  /** How many blocks it takes to bring a file to n blocks. */
  function Demand(ino: Inode, n: nat): nat {
    if n <= ino.blocks then 0 else n - ino.blocks + if n > 12 && ino.indirect == 0 then 1 else 0
  }

  /** The file has become one block longer, and this has been paid for, or nothing has changed. */
  predicate Grew(ino: Inode, unused: nat, ino': Inode, unused': nat) {
    (ino'.blocks == ino.blocks && ino'.indirect == ino.indirect && unused' == unused) ||
    (ino'.blocks == ino.blocks + 1 && unused' + Needed(ino) == unused &&
     (ino'.indirect != 0 <==> ino.indirect != 0 || ino.blocks >= 12))
  }

  /** From what the file was, and the blocks there were then, exactly what its growth took is gone. */
  predicate Paid(ino0: Inode, unused0: nat, ino: Inode, unused: nat) {
    ino0.blocks <= ino.blocks && (ino0.blocks > 12 ==> ino0.indirect != 0) && unused + Demand(ino0, ino.blocks) == unused0 &&
    (ino.indirect != 0 <==> ino0.indirect != 0 || ino.blocks > 12)
  }

  lemma PaidNothing(v: Vol, f: nat, unused: nat)
    requires Sound(v) && f < |v.files|
    ensures Paid(v.files[f], unused, v.files[f], unused)
  {
    assert FileFits(v.disk, v.own, v.files[f], f);
  }

  lemma PaidMore(ino0: Inode, unused0: nat, ino: Inode, unused: nat, ino': Inode, unused': nat)
    requires Paid(ino0, unused0, ino, unused) && Grew(ino, unused, ino', unused')
    ensures Paid(ino0, unused0, ino', unused')
  {}

  /** When the next block can no longer be paid for, no larger size could have been. */
  lemma Shortage(ino0: Inode, unused0: nat, ino: Inode, unused: nat, n: nat)
    requires Paid(ino0, unused0, ino, unused) && unused < Needed(ino) && ino.blocks < n
    ensures unused0 < Demand(ino0, n) && Demand(ino0, ino.blocks) <= unused0 < Demand(ino0, ino.blocks + 1)
  {}

  /** The file is as long as it was paid for when the transfer of n bytes to p stopped after alen. */
  ghost predicate Stopped(ino0: Inode, unused0: nat, ino: Inode, unused: nat, p: nat, alen: nat, n: nat) {
    Paid(ino0, unused0, ino, unused) && ino.blocks == BlocksAfter(ino0.blocks, p, alen) && alen <= n && 0 < n &&
    (alen < n ==> unused < Needed(ino) && 4096 * ino.blocks <= p + alen)
  }

  /** What a write of n bytes to p takes: it falls short exactly when there were fewer blocks than it needs,
      and a size within the blocks stays so exactly when the write begins there or a block could be added. */
  ghost predicate WriteCost(ino0: Inode, unused0: nat, ino: Inode, unused: nat, p: nat, alen: nat, n: nat) {
    Paid(ino0, unused0, ino, unused) && (alen < n <==> unused0 < Demand(ino0, Blocks(p + n))) &&
    (ino0.size <= 4096 * ino0.blocks ==>
       (ino.size <= 4096 * ino.blocks <==> p <= 4096 * ino0.blocks || unused0 >= Needed(ino0)))
  }

  lemma WriteCosts(ino0: Inode, unused0: nat, ino: Inode, unused: nat, p: nat, alen: nat, n: nat)
    requires Stopped(ino0, unused0, ino, unused, p, alen, n) && ino.size == ino0.size
    ensures WriteCost(ino0, unused0, ino.(size := Max(ino.size, p + alen)), unused, p, alen, n)
  {
    BlocksCover(p + n);
    BlocksCover(p + alen);
    if alen < n { Shortage(ino0, unused0, ino, unused, Blocks(p + n)); }
  }
}
