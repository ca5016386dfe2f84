/** Namespace quotas: what `marfs_statvfs` reports as free, against what `marfs_creat` allows. */
module Quota {
  import opened Common

  /** Quotas of a namespace (0 for no limit) and the block size of its data scheme. */
  datatype Ns = Ns(fquota: nat, dquota: nat, partsz: nat)

  /** Usage as the MDAL reports it; negative when it could not be read. */
  datatype Usage = Usage(inodes: int, data: int)

  /** The fields of `struct statvfs` that are overwritten. */
  datatype StatVfs = StatVfs(bsize: nat, frsize: nat, blocks: nat, bfree: nat, bavail: nat, files: nat, ffree: nat, favail: nat)

  /** Used blocks, a partial one counting as one. */
  function UsedBlocks(data: nat, bsize: nat): (n: nat)
    requires bsize > 0
    ensures (n - 1) * bsize < data <= n * bsize
  {
    var q := data / bsize;
    assert data == q * bsize + data % bsize;
    assert (q + 1) * bsize == q * bsize + bsize && (q - 1) * bsize == q * bsize - bsize;
    if data % bsize != 0 then q + 1 else q
  }

  /** The part of `marfs_statvfs` that rewrites the buffer. */
  method StatNs(ns: Ns, u: Usage) returns (buf: StatVfs)
    requires ns.partsz > 0
    ensures buf == Reported(ns, u)
  {
    var datausage := u.data;
    if datausage < 0 { datausage := 0; }
    if datausage % ns.partsz != 0 {
      datausage := datausage / ns.partsz + 1;
    } else if datausage != 0 {
      datausage := datausage / ns.partsz;
    }
    var inodeusage := u.inodes;
    if inodeusage < 0 { inodeusage := 0; }
    var blocks := ns.dquota / ns.partsz;
    var bfree := if datausage < blocks then blocks - datausage else 0;
    var ffree := if inodeusage < ns.fquota then ns.fquota - inodeusage else 0;
    buf := StatVfs(ns.partsz, ns.partsz, blocks, bfree, bfree, ns.fquota, ffree, ffree);
    if u.data <= 0 { assert 0 / ns.partsz == 0; }
  }

  function Known(x: int): (n: nat) { if x < 0 then 0 else x }

  function Reported(ns: Ns, u: Usage): (buf: StatVfs)
    requires ns.partsz > 0
  {
    var used, blocks := UsedBlocks(Known(u.data), ns.partsz), ns.dquota / ns.partsz;
    var bfree := if used < blocks then blocks - used else 0;
    var ffree := if Known(u.inodes) < ns.fquota then ns.fquota - Known(u.inodes) else 0;
    StatVfs(ns.partsz, ns.partsz, blocks, bfree, bfree, ns.fquota, ffree, ffree)
  }

  /** The inode check of `marfs_creat`. */
  predicate CreatPassesInodes(ns: Ns, u: Usage) { ns.fquota == 0 || 0 <= u.inodes < ns.fquota }

  /** The data check of `marfs_creat`. */
  predicate CreatPassesData(ns: Ns, u: Usage) { ns.dquota == 0 || 0 <= u.data < ns.dquota }

  /** The free blocks reported fit under the quota on top of the usage ... */
  lemma FreeBlocksFit(ns: Ns, u: Usage)
    requires ns.partsz > 0 && u.data >= 0 && Reported(ns, u).bfree > 0
    ensures Reported(ns, u).bfree * ns.partsz + u.data <= ns.dquota
  {
    var b := ns.partsz;
    var used, blocks := UsedBlocks(u.data, b), ns.dquota / b;
    DivFloor(ns.dquota, b);
    var bfree := blocks - used;
    assert bfree * b == blocks * b - used * b;
  }

  /** ... and no more than that would fit on top of the blocks in use. */
  lemma FreeBlocksMaximal(ns: Ns, u: Usage, k: nat)
    requires ns.partsz > 0 && u.data >= 0 && k > Reported(ns, u).bfree
    ensures (UsedBlocks(u.data, ns.partsz) + k) * ns.partsz > ns.dquota
  {
    var used, blocks := UsedBlocks(u.data, ns.partsz), ns.dquota / ns.partsz;
    DivFloor(ns.dquota, ns.partsz);
    MulMono(blocks + 1, used + k, ns.partsz);
  }

  /** Free blocks promise that creat passes the data check, except after a failed usage read, which
      statvfs takes for zero usage and creat refuses. */
  lemma FreeBlocksAgree(ns: Ns, u: Usage)
    requires ns.partsz > 0
    ensures (Reported(ns, u).bfree > 0 ==> CreatPassesData(ns, u)) <==> u.data >= 0 || ns.dquota < ns.partsz
  {
    if u.data >= 0 {
      var buf := Reported(ns, u);
      if buf.bfree > 0 {
        FreeBlocksFit(ns, u);
        MulMono(1, buf.bfree, buf.bsize);
      }
    } else {
      var blocks := ns.dquota / ns.partsz;
      assert UsedBlocks(0, ns.partsz) == 0 by { assert 0 / ns.partsz == 0; }
      assert blocks > 0 <==> ns.dquota >= ns.partsz;
    }
  }

  /** Free inodes are reported exactly when creat passes the inode check, provided there is an
      inode quota and the usage could be read; otherwise the two disagree. */
  lemma FreeInodesAgree(ns: Ns, u: Usage)
    requires ns.partsz > 0
    ensures (Reported(ns, u).ffree > 0 <==> CreatPassesInodes(ns, u)) <==> ns.fquota > 0 && u.inodes >= 0
  {
  }

  /** The inode figures: the quota, of which free and used make up the whole until it is used up. */
  lemma InodesAddUp(ns: Ns, u: Usage)
    requires ns.partsz > 0 && u.inodes >= 0
    ensures var buf := Reported(ns, u);
      buf.favail == buf.ffree && buf.files == ns.fquota && (if u.inodes <= ns.fquota then buf.ffree + u.inodes == buf.files else buf.ffree == 0)
  {
  }

  /** The block figures, in blocks of the data scheme: as many as fit into the quota, of which free
      and used make up the whole until they are used up. */
  lemma BlocksAddUp(ns: Ns, u: Usage)
    requires ns.partsz > 0 && u.data >= 0
    ensures var buf := Reported(ns, u);
      && buf.bsize == buf.frsize == ns.partsz && buf.bavail == buf.bfree
      && buf.blocks * buf.bsize <= ns.dquota < (buf.blocks + 1) * buf.bsize
      && var used := UsedBlocks(u.data, buf.bsize);
         if used <= buf.blocks then buf.bfree + used == buf.blocks else buf.bfree == 0
  {
    DivFloor(ns.dquota, ns.partsz);
  }

  /** A usage that could not be read is reported as none. */
  lemma UnreadIsUnused(ns: Ns, u: Usage)
    requires ns.partsz > 0
    ensures Reported(ns, u) == Reported(ns, Usage(if u.inodes < 0 then 0 else u.inodes, if u.data < 0 then 0 else u.data))
  {
  }
}
