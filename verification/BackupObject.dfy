/** The backup objects themselves: fields updated in place, and the linked list that the source
    pager keeps of the backups to be told about changes. */
module BackupObject {
  import opened Division
  import opened BackupPages
  import opened BackupFinish
  import opened BackupProtocol

  class BackupHandle {
    var iNext: nat
    var rc: int
    var isAttached: bool
    var bDestLocked: bool
    var dest: Pages
    var D: nat
    var iDestSchema: nat
    const fixedSize: bool
    const wal: bool
    var file: seq<byte>
    var pNext: BackupHandle?
    ghost var pos: nat  // place in the source's list, counted from its end

    constructor (fixedSize: bool, wal: bool)
      ensures Abs() == NewBackup(fixedSize, wal) && pNext == null
    {
      iNext, rc, isAttached, bDestLocked := 1, SQLITE_OK, false, false;
      dest, D, iDestSchema, file, pNext := Pages(map[], 0), 0, 0, [], null;
      this.fixedSize, this.wal := fixedSize, wal;
    }

    function Abs(): Backup
      reads this
    {
      Backup(iNext, rc, isAttached, bDestLocked, dest, D, iDestSchema, fixedSize, wal, file)
    }

    /** The body of the page loop: fetch, journal and fill one destination page. */
    method CopyBlockTo(iOff: nat, block: Page, destRc: nat -> int) returns (r: int)
      requires D > 0 && AllSized(dest, D) && iOff % D + |block| <= D
      modifies this`dest
      ensures (dest, r) == CopyBlock(old(dest), D, iOff, block, destRc)
    {
      var iDest := iOff / D + 1;
      if iDest == PENDING_BYTE / D + 1 {
        return SQLITE_OK;
      }
      r := destRc(iDest);
      if r == SQLITE_OK {
        var o := iOff % D;
        var zDestData := GetPage(dest, D, iDest);
        dest := Pages(dest.page[iDest := zDestData[..o] + block + zDestData[o + |block|..]],
                      if iDest > dest.nPage then iDest else dest.nPage);
      }
    }

    /** backupOnePage */
    method CopyPage(S: nat, k: nat, zSrcData: Page, bUpdate: bool, nSrcPage: nat, destRc: nat -> int) returns (r: int)
      requires IsPageSize(S) && IsPageSize(D) && AllSized(dest, D) && |zSrcData| == S && k > 0
      modifies this`dest
      ensures (dest, r) == OnePage(old(dest), D, S, k, zSrcData, bUpdate, nSrcPage, fixedSize, destRc)
    {
      BaseAligned(k, S, D);
      if S != D && fixedSize {
        return SQLITE_READONLY;
      }
      var zIn := if k == 1 && !bUpdate then zSrcData[..28] + Put4(nSrcPage) + zSrcData[32..] else zSrcData;
      var iOff := (k - 1) * S;
      if S < D {
        r := CopyBlockTo(iOff, zIn, destRc);
      } else {
        r := CopyPieces(S, (k - 1) * (S / D), zIn, destRc);
      }
    }

    /** The page loop for a source page that spans several destination pages. */
    method CopyPieces(S: nat, q: nat, zIn: Page, destRc: nat -> int) returns (r: int)
      requires D > 0 && AllSized(dest, D) && |zIn| == S && S % D == 0
      modifies this`dest
      ensures (dest, r) == CopyBlocks(old(dest), D, q, zIn, destRc)
    {
      hide AllSized, CopyBlock, CopyBlocks;
      ghost var final := CopyBlocks(dest, D, q, zIn, destRc);
      var iOff, off := q * D, 0;
      ghost var m: nat := 0;
      r := SQLITE_OK;
      assert zIn[0..] == zIn;
      while r == SQLITE_OK && off < S
        invariant 0 <= off == m * D <= S && iOff == (q + m) * D && AllSized(dest, D)
        invariant if r == SQLITE_OK then CopyBlocks(dest, D, q + m, zIn[off..], destRc) == final else (dest, r) == final
        decreases S - off, r == SQLITE_OK
      {
        PieceFacts(m, q, S, D);
        BlocksStep(dest, D, q + m, zIn[off..], destRc);
        assert zIn[off..][..D] == zIn[off..off + D] && zIn[off..][D..] == zIn[off + D..];
        r := CopyBlockTo(iOff, zIn[off..off + D], destRc);
        if r == SQLITE_OK {
          iOff, off := iOff + D, off + D;
          m := m + 1;
        }
      }
      if r == SQLITE_OK {
        BlocksEnd(dest, D, q + m, zIn[off..], destRc);
      }
    }

    ghost predicate Ready(src: seq<Page>, S: nat)
      reads this
    {
      Sized(Abs(), src, S)
    }

    /** One turn of the copy loop: iNext moves on whatever the page calls return. */
    method CopyNext(src: seq<Page>, S: nat, env: Env) returns (r: int)
      requires Ready(src, S) && bDestLocked && iNext <= |src|
      modifies this`iNext, this`dest
      ensures (Abs(), r) == CopyOne(old(Abs()), src, S, env)
    {
      assert S > 0;
      hide IsPageSize, OnePage, AllSized;
      r := SQLITE_OK;
      var iSrcPg := iNext;
      if iSrcPg != PENDING_BYTE / S + 1 {
        r := env.srcRc(iSrcPg);
        if r == SQLITE_OK {
          r := CopyPage(S, iSrcPg, src[iSrcPg - 1], false, |src|, env.destRc);
        }
      }
      iNext := iNext + 1;
    }

    /** The copy loop of sqlite3_backup_step. */
    method CopyPages(src: seq<Page>, S: nat, nPage: int, env: Env) returns (r: int)
      requires Ready(src, S) && bDestLocked
      modifies this`iNext, this`dest
      ensures Ready(src, S) && bDestLocked && (Abs(), r) == CopyLoop(old(Abs()), src, S, nPage, SQLITE_OK, env)
    {
      hide Sized, CopyOne;
      ghost var final := CopyLoop(Abs(), src, S, nPage, SQLITE_OK, env);
      var ii := 0;
      r := SQLITE_OK;
      while (nPage < 0 || ii < nPage) && iNext <= |src| && r == SQLITE_OK
        invariant ii >= 0 && (nPage >= 0 ==> ii <= nPage) && Ready(src, S) && bDestLocked
        invariant CopyLoop(Abs(), src, S, nPage - ii, r, env) == final
        decreases |src| + 1 - iNext
      {
        r := CopyNext(src, S, env);
        ii := ii + 1;
      }
    }

    /** The calls that finish the backup, until one fails. */
    method CompleteBackup(src: seq<Page>, S: nat, env: Env) returns (r: int)
      requires Ready(src, S) && bDestLocked && |env.newDb| == D
      modifies this`dest, this`file
      ensures (Abs(), r) == Complete(old(Abs()), src, S, env)
    {
      SizesDivide(S, D);
      if src == [] {
        if env.newRc != SQLITE_OK {
          return env.newRc;
        }
        dest := Pages(map[1 := env.newDb], 1);
      }
      r := env.metaRc;
      if r == SQLITE_OK {
        dest := PatchHeader(dest, D, 40, Put4(iDestSchema + 1));
        if wal {
          r := env.versionRc;
          if r == SQLITE_OK {
            dest := PatchHeader(dest, D, 18, [2, 2]);
          }
        }
      }
      if r == SQLITE_OK {
        r := env.commitRc;
        if r == SQLITE_OK {
          CommitFile(if src == [] then [Zeros(S)] else src, S);
          r := SQLITE_DONE;
        }
      }
      hide IsPageSize, AllSized, PatchHeader, FinalFile;
    }

    /** Commits the pages to the file; a smaller source page size needs the extra pages and the truncation. */
    method CommitFile(src: seq<Page>, S: nat)
      requires IsPageSize(S) && IsPageSize(D) && AllSized(dest, D) && src != []
      modifies this`file
      ensures S > 0 && D > 0 && file == FinalFile(dest, D, S, src)
    {
      SizesDivide(S, D);
      var nDestTruncate := DestTruncate(S, D, |src|);
      if S < D {
        file := FileOf(dest, D, dest.nPage);
        WriteExtraPages(src, S);
        var iSize := S * |src|;
        if |file| > iSize {
          file := file[..iSize];
        }
      } else {
        file := FileOf(dest, D, if nDestTruncate < 0 then 0 else nDestTruncate);
      }
    }

    /** The loop that writes the source pages behind the pending page straight into the file. */
    method WriteExtraPages(src: seq<Page>, S: nat)
      requires S > 0 && D > 0
      modifies this`file
      ensures file == WriteExtra(old(file), src, S, PENDING_BYTE + S, Min(PENDING_BYTE + D, S * |src|))
    {
      hide WriteExtra, OsWrite;
      var iEnd := Min(PENDING_BYTE + D, S * |src|);
      var iOff := PENDING_BYTE + S;
      ghost var final := WriteExtra(file, src, S, iOff, iEnd);
      while iOff < iEnd
        invariant WriteExtra(file, src, S, iOff, iEnd) == final
        decreases iEnd - iOff
      {
        ExtraStep(file, src, S, iOff, iEnd);
        file := OsWrite(file, src[iOff / S], iOff);
        iOff := iOff + S;
      }
      ExtraEnd(file, src, S, iOff, iEnd);
    }

    /** sqlite3_backup_step on the backup itself; attach tells whether it is now to be registered. */
    method Advance(src: seq<Page>, S: nat, nPage: int, env: Env) returns (r: int, attach: bool)
      requires Ready(src, S) && EnvOk(env) && (bDestLocked ==> |env.newDb| == D)
      modifies this`iNext, this`rc, this`bDestLocked, this`dest, this`D, this`iDestSchema, this`file
      ensures r == rc && (attach ==> !isAttached)
      ensures Abs().(isAttached := isAttached || attach) == BackupProtocol.Step(old(Abs()), src, S, nPage, env)
    {
      hide IsPageSize, CopyLoop, FinalFile, AllSized, Prepare, Complete;
      r, attach := rc, false;
      if IsFatal(rc) {
        return;
      }
      r := PrepareStep(S, env);
      if r == SQLITE_OK {
        r := CopyPages(src, S, nPage, env);
        if r == SQLITE_OK {
          if iNext > |src| {
            r := SQLITE_DONE;
          } else {
            attach := !isAttached;
          }
        }
        if r == SQLITE_DONE {
          r := CompleteBackup(src, S, env);
        }
      }
      if r == SQLITE_IOERR_NOMEM {
        r := SQLITE_NOMEM;
      }
      rc := r;
    }

    /** sqlite3_backup_step */
    method Step(pager: SourcePager, nPage: int, env: Env) returns (r: int)
      requires Ready(pager.pages, pager.S) && EnvOk(env) && (bDestLocked ==> |env.newDb| == D)
      requires pager.Chained() && (isAttached <==> this in pager.list)
      modifies this, pager`pBackup, pager`list, pager`nodes
      ensures Abs() == BackupProtocol.Step(old(Abs()), pager.pages, pager.S, nPage, env) && r == rc
      ensures pager.Chained() && (isAttached <==> this in pager.list)
      ensures pager.list == if isAttached && !old(isAttached) then [this] + old(pager.list) else old(pager.list)
    {
      hide Sized, EnvOk, BackupProtocol.Step;
      var attach;
      r, attach := Advance(pager.pages, pager.S, nPage, env);
      if attach {
        pager.Attach(this);
      }
    }

    /** The part of a step before the copy loop. */
    method PrepareStep(S: nat, env: Env) returns (r: int)
      requires EnvOk(env)
      modifies this`bDestLocked, this`dest, this`D, this`iDestSchema
      ensures (Abs(), r) == Prepare(old(Abs()), S, env)
    {
      r := if env.srcInWrite then SQLITE_BUSY else SQLITE_OK;
      if r == SQLITE_OK {
        r := env.readRc;
      }
      if !bDestLocked && r == SQLITE_OK && env.pgszOom {
        r := SQLITE_NOMEM;
      }
      if r == SQLITE_OK && !bDestLocked {
        r := env.lockRc;
        if r == SQLITE_OK {
          bDestLocked, dest, D := true, env.lockedDest, env.lockedD;
          iDestSchema := WordAt(dest, D, 40);
        }
      }
      if r == SQLITE_OK && wal && S != D {
        r := SQLITE_READONLY;
      }
    }
  }

  /** The source database's pager: its pages and the list of registered backups. */
  class SourcePager {
    const S: nat
    var pages: seq<Page>
    var pBackup: BackupHandle?
    ghost var list: seq<BackupHandle>
    ghost var nodes: set<BackupHandle>

    /** pBackup and the pNext fields link exactly the backups of list, each once. */
    ghost predicate Chained()
      reads this, nodes
    {
      && (forall i {:trigger list[i]} :: 0 <= i < |list| ==> list[i] in nodes)
      && pBackup == (if list == [] then null else list[0])
      && (forall i {:trigger list[i].pNext} :: 0 <= i < |list| ==>
           list[i].pNext == if i + 1 < |list| then list[i + 1] else null)
      && (forall i {:trigger list[i]} :: 0 <= i < |list| ==> list[i].pos == |list| - 1 - i)
    }

    /** attachBackupObject */
    method Attach(p: BackupHandle)
      requires Chained() && p !in list
      modifies this`pBackup, this`list, this`nodes, p`pNext, p`isAttached, p`pos
      ensures Chained() && list == [p] + old(list) && p.isAttached
    {
      p.pNext := pBackup;
      pBackup := p;
      p.isAttached := true;
      p.pos := |list|;
      list, nodes := [p] + list, nodes + {p};
    }

    /** Reports one modified page to every registered backup, in list order. */
    method BackupUpdate(k: nat, aData: Page, destRc: nat -> int)
      requires Chained() && IsPageSize(S) && k > 0 && |aData| == S
      requires forall i {:trigger list[i]} :: 0 <= i < |list| ==> Updatable(list[i].Abs())
      modifies nodes
      ensures Chained() && list == old(list)
      ensures forall i {:trigger list[i]} :: 0 <= i < |list| ==>
        list[i].Abs() == Refreshed(old(list[i].Abs()), S, k, aData, destRc)
    {
      hide BackupHandle.Abs, Updatable;
      var p := pBackup;
      ghost var n: nat := 0;
      while p != null
        invariant n <= |list| && p == (if n < |list| then list[n] else null) && Chained()
        invariant forall i {:trigger list[i]} :: 0 <= i < n ==>
          list[i].Abs() == Refreshed(old(list[i].Abs()), S, k, aData, destRc)
        invariant forall i {:trigger list[i]} :: n <= i < |list| ==> list[i].Abs() == old(list[i].Abs())
        decreases |list| - n
      {
        assert forall i {:trigger list[i]} :: 0 <= i < |list| && i != n ==> list[i] != p;
        label L:
        UpdateOne(p, k, aData, destRc);
        assert forall i {:trigger list[i]} :: 0 <= i < |list| && i != n ==> list[i].Abs() == old@L(list[i].Abs());
        n := n + 1;
        p := p.pNext;
      }
    }

    /** backupUpdate for one backup: copy the page again if it was copied before. */
    method UpdateOne(p: BackupHandle, k: nat, aData: Page, destRc: nat -> int)
      requires IsPageSize(S) && k > 0 && |aData| == S && Updatable(p.Abs())
      modifies p`dest, p`rc
      ensures p.Abs() == Update(old(p.Abs()), S, k, aData, destRc)
    {
      if !IsFatal(p.rc) && k < p.iNext {
        var rc := p.CopyPage(S, k, aData, true, 0, destRc);
        if rc != SQLITE_OK {
          p.rc := rc;
        }
      }
    }

    /** sqlite3BackupRestart: every registered backup starts again from page 1. */
    method BackupRestart()
      requires Chained()
      modifies nodes
      ensures Chained() && list == old(list)
      ensures forall i {:trigger list[i]} :: 0 <= i < |list| ==> list[i].Abs() == old(list[i].Abs()).(iNext := 1)
    {
      hide BackupHandle.Abs;
      var p := pBackup;
      ghost var n := 0;
      while p != null
        invariant n <= |list| && p == (if n < |list| then list[n] else null)
        invariant Chained()
        invariant forall i {:trigger list[i]} :: 0 <= i < n ==> list[i].Abs() == old(list[i].Abs()).(iNext := 1)
        invariant forall i {:trigger list[i]} :: n <= i < |list| ==> list[i].Abs() == old(list[i].Abs())
        decreases |list| - n
      {
        assert forall i {:trigger list[i]} :: 0 <= i < |list| && i != n ==> list[i] != p;
        label L:
        RestartOne(p);
        assert forall i {:trigger list[i]} :: 0 <= i < |list| && i != n ==> list[i].Abs() == old@L(list[i].Abs());
        n := n + 1;
        p := p.pNext;
      }
    }

    method RestartOne(p: BackupHandle)
      modifies p`iNext
      ensures p.Abs() == old(p.Abs()).(iNext := 1)
    {
      p.iNext := 1;
    }

    /** The list part of sqlite3_backup_finish: unlinks p, wherever it stands. */
    method Detach(p: BackupHandle)
      requires Chained() && (p.isAttached <==> p in list)
      modifies this`pBackup, this`list, this`nodes, nodes
      ensures Chained() && p !in list
      ensures forall i {:trigger old(list)[i]} :: 0 <= i < |old(list)| ==> old(list)[i].Abs() == old(list[i].Abs())
      ensures if old(p.isAttached)
        then exists n :: 0 <= n < |old(list)| && old(list)[n] == p && list == old(list)[..n] + old(list)[n + 1..]
        else list == old(list)
    {
      if !p.isAttached {
        return;
      }
      var prev;
      ghost var n;
      prev, n := FindPrevious(p);
      Unlink(p, prev, n);
    }

    method FindPrevious(p: BackupHandle) returns (prev: BackupHandle?, ghost n: nat)
      requires Chained() && p in list
      ensures n < |list| && list[n] == p && prev == if n == 0 then null else list[n - 1]
    {
      n := 0;
      prev := null;
      var pp := pBackup;
      while pp != p
        invariant n < |list| && pp == list[n] && p in list[n..]
        invariant prev == (if n == 0 then null else list[n - 1])
        decreases |list| - n
      {
        assert list[n..] == [list[n]] + list[n + 1..];
        prev := pp;
        pp := pp.pNext;
        n := n + 1;
      }
    }

    method Unlink(p: BackupHandle, prev: BackupHandle?, ghost n: nat)
      requires Chained() && n < |list| && list[n] == p && prev == if n == 0 then null else list[n - 1]
      modifies this`pBackup, this`list, this`nodes, nodes`pNext, nodes`pos
      ensures Chained() && p !in list && list == old(list)[..n] + old(list)[n + 1..]
    {
      Bypass(p, prev, n);
      Renumber(n);
      ghost var was := list;
      list, nodes := list[..n] + list[n + 1..], nodes - {p};
      assert forall i {:trigger list[i]} :: 0 <= i < |list| ==> list[i] == was[if i < n then i else i + 1];
    }

    /** pBackup or the pNext field that led to p leads past it. */
    method Bypass(p: BackupHandle, prev: BackupHandle?, ghost n: nat)
      requires Chained() && n < |list| && list[n] == p && prev == if n == 0 then null else list[n - 1]
      modifies this`pBackup, nodes`pNext
      ensures pBackup == if n == 0 then (if |list| == 1 then null else list[1]) else old(pBackup)
      ensures forall i {:trigger list[i].pNext} :: 0 <= i < |list| ==>
        list[i].pNext ==
          if i + 1 == n then (if n + 1 < |list| then list[n + 1] else null)
          else if i + 1 < |list| then list[i + 1] else null
    {
      assert forall i {:trigger list[i]} :: 0 <= i < |list| && i != n - 1 ==> list[i] != prev;
      if prev == null {
        pBackup := p.pNext;
      } else {
        prev.pNext := p.pNext;
      }
    }

    /** The backups in front of place n come one place closer to the end. */
    ghost method Renumber(n: nat)
      requires n < |list| && forall i {:trigger list[i]} :: 0 <= i < |list| ==> list[i] in nodes
      requires forall i {:trigger list[i]} :: 0 <= i < |list| ==> list[i].pos == |list| - 1 - i
      modifies nodes`pos
      ensures forall i {:trigger list[i]} :: 0 <= i < |list| ==>
        list[i].pos == if i < n then |list| - 2 - i else |list| - 1 - i
    {
      forall i | 0 <= i < n {
        list[i].pos := |list| - 2 - i;
      }
    }
  }

  lemma ExtraStep(f: seq<byte>, src: seq<Page>, S: nat, iOff: nat, iEnd: nat)
    requires S > 0 && iOff < iEnd <= S * |src|
    ensures iOff / S < |src|
    ensures WriteExtra(f, src, S, iOff, iEnd) == WriteExtra(OsWrite(f, src[iOff / S], iOff), src, S, iOff + S, iEnd)
  {
    OffsetInSource(iOff, S, |src|);
    hide OsWrite;
  }

  lemma ExtraEnd(f: seq<byte>, src: seq<Page>, S: nat, iOff: nat, iEnd: nat)
    requires S > 0 && iEnd <= S * |src| && iOff >= iEnd
    ensures WriteExtra(f, src, S, iOff, iEnd) == f
  {
  }

  /** What a registered backup owes to backupUpdate: a live one that has copied pages holds its
      destination. */
  ghost predicate Updatable(b: Backup) {
    && (!IsFatal(b.rc) && b.iNext > 1 ==> b.bDestLocked)
    && (b.bDestLocked ==> IsPageSize(b.D) && AllSized(b.dest, b.D))
  }

  /** A registered backup after one page has been reported to it. */
  ghost function Refreshed(b: Backup, S: nat, k: nat, data: Page, destRc: nat -> int): Backup
    requires IsPageSize(S) && k > 0 && |data| == S
  {
    if Updatable(b) then Update(b, S, k, data, destRc) else b
  }

  lemma PieceFacts(m: nat, q: nat, S: nat, D: nat)
    requires D > 0 && S % D == 0 && m * D < S
    ensures (m + 1) * D == m * D + D <= S && (q + m + 1) * D == (q + m) * D + D && (q + m) * D % D == 0
  {
    Parts(S, D);
    Below(m * D, S / D, D);
    DivUnique(m * D, D, m, 0);
    MulMono(m + 1, S / D, D);
    DivUnique((q + m) * D, D, q + m, 0);
  }

  lemma BlocksStep(dest: Pages, D: nat, q: nat, data: Page, destRc: nat -> int)
    requires D > 0 && AllSized(dest, D) && |data| >= D
    ensures q * D % D == 0
    ensures var (d, rc) := CopyBlock(dest, D, q * D, data[..D], destRc);
      CopyBlocks(dest, D, q, data, destRc) == if rc != 0 then (d, rc) else CopyBlocks(d, D, q + 1, data[D..], destRc)
  {
    DivUnique(q * D, D, q, 0);
  }

  lemma BlocksEnd(dest: Pages, D: nat, q: nat, data: Page, destRc: nat -> int)
    requires D > 0 && AllSized(dest, D) && |data| < D
    ensures CopyBlocks(dest, D, q, data, destRc) == (dest, 0)
  {
  }
}
