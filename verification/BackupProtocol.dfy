/** The online backup as a state machine: steps, source commits, restarts and finishes in any order. */
module BackupProtocol {
  import opened Wrappers
  import opened Division
  import opened BackupPages
  import opened BackupFinish

  const SQLITE_IOERR_NOMEM: int := 3082

  /** One sqlite3_backup object; dest and D describe the destination once it is locked, file is what
      has been committed to it; fixedSize says that its pages cannot change size, because it is in
      memory or has a codec; iDestSchema is the schema cookie found when locking. */
  datatype Backup = Backup(
    iNext: nat, rc: int, isAttached: bool, bDestLocked: bool,
    dest: Pages, D: nat, iDestSchema: nat, fixedSize: bool, wal: bool, file: seq<byte>)

  /** Results of the pager and b-tree calls made during one step, and the destination as the lock finds it. */
  datatype Env = Env(
    srcInWrite: bool,         // the source is inside a write transaction
    readRc: int,              // opening the read transaction
    pgszOom: bool,            // setting the destination page size ran out of memory
    lockRc: int,              // locking the destination
    lockedD: nat, lockedDest: Pages,
    srcRc: nat -> int,        // reading source page k
    destRc: nat -> int,       // fetching and journalling destination page q
    newDb: Page,              // the single page of an empty database
    newRc: int,               // creating that empty database
    metaRc: int,              // writing the schema cookie
    versionRc: int,           // writing the file format, in WAL mode
    commitRc: int)            // the pager and file calls that commit the destination

  predicate Transient(rc: int) {
    rc == SQLITE_BUSY || rc == SQLITE_LOCKED
  }

  /** What the pager promises: page sizes fit, and no call but the step itself says DONE. */
  ghost predicate EnvOk(env: Env) {
    && IsPageSize(env.lockedD) && AllSized(env.lockedDest, env.lockedD) && |env.newDb| == env.lockedD
    && env.lockRc != SQLITE_DONE && env.readRc != SQLITE_DONE
    && env.newRc != SQLITE_DONE && env.metaRc != SQLITE_DONE
    && env.versionRc != SQLITE_DONE && env.commitRc != SQLITE_DONE
    && (forall k: nat {:trigger env.srcRc(k)} :: env.srcRc(k) != SQLITE_DONE)
    && (forall q: nat {:trigger env.destRc(q)} :: env.destRc(q) != SQLITE_DONE)
  }

  /** The code of copying source page k: reading it, or writing the destination pages it covers. */
  ghost function PageRc(S: nat, env: Env, k: nat): int
    requires S > 0 && env.lockedD > 0 && k > 0
  {
    if env.srcRc(k) != SQLITE_OK then env.srcRc(k) else DestRc(env.lockedD, S, k, env.destRc)
  }

  /** No page before page k fails. */
  ghost predicate Smooth(S: nat, env: Env, k: nat)
    requires S > 0 && env.lockedD > 0
  {
    forall j: nat {:trigger PageRc(S, env, j)} :: 0 < j < k && j != PendingPage(S) ==> PageRc(S, env, j) == SQLITE_OK
  }

  /** No page fails for the time being only, unless its place in the destination is the pending
      page and a page before it fails as well. */
  ghost predicate PagesFailForGood(S: nat, env: Env)
    requires S > 0 && env.lockedD > 0
  {
    forall k: nat {:trigger PageRc(S, env, k)} :: k > 0 && k != PendingPage(S) && Transient(PageRc(S, env, k)) ==>
      InPending(Base(k, S), env.lockedD) && !Smooth(S, env, k)
  }

  /** The code of the calls that finish the backup of a source with pages. */
  function FinishRc(env: Env, wal: bool): int {
    if env.metaRc != SQLITE_OK then env.metaRc
    else if wal && env.versionRc != SQLITE_OK then env.versionRc
    else env.commitRc
  }

  /** The finishing calls fail for good, or are not reached because the first page fails. */
  ghost predicate FinishFailsForGood(S: nat, env: Env)
    requires S > 0 && env.lockedD > 0
  {
    Transient(FinishRc(env, false)) || (S == env.lockedD && Transient(FinishRc(env, true))) ==>
      PageRc(S, env, 1) != SQLITE_OK
  }

  /** The step does not get as far as copying, or whatever fails in it fails for good. */
  ghost predicate FailsForGood(S: nat, env: Env)
    requires S > 0 && env.lockedD > 0
  {
    env.srcInWrite || env.readRc != SQLITE_OK || (PagesFailForGood(S, env) && FinishFailsForGood(S, env))
  }

  ghost predicate Sized(b: Backup, src: seq<Page>, S: nat) {
    && IsPageSize(S) && SourceSized(src, S) && b.iNext > 0
    && (b.bDestLocked ==> IsPageSize(b.D) && AllSized(b.dest, b.D))
  }

  /** The invariant: a live backup that has copied something is registered with the source, and
      every source page below iNext, up to the current size, has its copy. */
  ghost predicate Inv(b: Backup, src: seq<Page>, S: nat) {
    && Sized(b, src, S)
    && (!IsFatal(b.rc) && b.iNext > 1 ==> b.isAttached && b.bDestLocked)
    && (!IsFatal(b.rc) && b.bDestLocked ==> AllCopied(b.dest, b.D, S, src, b.iNext))
  }

  // ---------------------------------------------------------------- sqlite3_backup_step

  /** One turn of the copy loop; iNext advances even when the page could not be read. */
  function CopyOne(b: Backup, src: seq<Page>, S: nat, env: Env): (r: (Backup, int))
    requires Sized(b, src, S) && b.bDestLocked && b.iNext <= |src|
    ensures Sized(r.0, src, S) && r.0 == b.(iNext := b.iNext + 1, dest := r.0.dest)
    ensures r.1 == SQLITE_READONLY || ReturnedBy(env.srcRc, r.1) || ReturnedBy(env.destRc, r.1)
  {
    var k := b.iNext;
    var c := b.(iNext := k + 1);
    if k == PendingPage(S) then (c, SQLITE_OK)
    else if env.srcRc(k) != SQLITE_OK then (c, env.srcRc(k))
    else
      var (dest, rc) := OnePage(b.dest, b.D, S, k, src[k - 1], false, |src|, b.fixedSize, env.destRc);
      (c.(dest := dest), rc)
  }

  /** The copy loop: at most left pages, or all of them when left is negative. */
  function CopyLoop(b: Backup, src: seq<Page>, S: nat, left: int, rc: int, env: Env): (r: (Backup, int))
    requires Sized(b, src, S) && b.bDestLocked
    ensures Sized(r.0, src, S) && r.0.bDestLocked && r.0.iNext >= b.iNext
    ensures r.0 == b.(iNext := r.0.iNext, dest := r.0.dest)
    ensures r.1 == rc || r.1 == SQLITE_READONLY || ReturnedBy(env.srcRc, r.1) || ReturnedBy(env.destRc, r.1)
    decreases |src| + 1 - b.iNext
  {
    if left == 0 || b.iNext > |src| || rc != SQLITE_OK then (b, rc)
    else
      var (c, rc1) := CopyOne(b, src, S, env);
      CopyLoop(c, src, S, left - 1, rc1, env)
  }

  /** The checks before the copy loop: write transaction, read lock, page size, destination lock. */
  function Prepare(b: Backup, S: nat, env: Env): (r: (Backup, int))
    requires EnvOk(env)
    ensures r.0 == b.(bDestLocked := r.0.bDestLocked, dest := r.0.dest, D := r.0.D, iDestSchema := r.0.iDestSchema)
    ensures b.bDestLocked || !r.0.bDestLocked ==> r.0 == b
    ensures !b.bDestLocked && r.0.bDestLocked ==>
      && r.0.dest == env.lockedDest && r.0.D == env.lockedD
      && r.0.iDestSchema == WordAt(env.lockedDest, env.lockedD, 40)
    ensures r.1 == SQLITE_OK ==> r.0.bDestLocked
  {
    if env.srcInWrite then (b, SQLITE_BUSY)
    else if env.readRc != SQLITE_OK then (b, env.readRc)
    else if !b.bDestLocked && env.pgszOom then (b, SQLITE_NOMEM)
    else if !b.bDestLocked && env.lockRc != SQLITE_OK then (b, env.lockRc)
    else
      var c := if b.bDestLocked then b else Lock(b, env);
      (c, if c.wal && S != c.D then SQLITE_READONLY else SQLITE_OK)
  }

  /** The destination is locked, and its schema cookie noted. */
  function Lock(b: Backup, env: Env): Backup
    requires EnvOk(env)
  {
    b.(bDestLocked := true, dest := env.lockedDest, D := env.lockedD,
       iDestSchema := WordAt(env.lockedDest, env.lockedD, 40))
  }

  /** The header changes of the commit: the schema cookie and, in WAL mode, the file format. */
  function WithCookie(b: Backup): (r: Backup)
    requires b.bDestLocked && IsPageSize(b.D) && AllSized(b.dest, b.D)
    ensures r == b.(dest := r.dest) && AllSized(r.dest, r.D)
  {
    b.(dest := PatchHeader(b.dest, b.D, 40, Put4(b.iDestSchema + 1)))
  }

  function WithVersion(b: Backup): (r: Backup)
    requires b.bDestLocked && IsPageSize(b.D) && AllSized(b.dest, b.D)
    ensures r == b.(dest := r.dest) && AllSized(r.dest, r.D)
  {
    if b.wal then b.(dest := PatchHeader(b.dest, b.D, 18, [2, 2])) else b
  }

  /** An empty source becomes a one-page database. */
  function WithNewDb(b: Backup, src: seq<Page>, env: Env): (r: Backup)
    requires b.bDestLocked && |env.newDb| == b.D && AllSized(b.dest, b.D)
    ensures r == b.(dest := r.dest) && AllSized(r.dest, r.D)
  {
    if src == [] then b.(dest := Pages(map[1 := env.newDb], 1)) else b
  }

  /** Finishes the destination, call by call; a failure leaves what the calls before it did. */
  function Complete(b: Backup, src: seq<Page>, S: nat, env: Env): (r: (Backup, int))
    requires Sized(b, src, S) && b.bDestLocked && |env.newDb| == b.D
    ensures r.0 == b.(dest := r.0.dest, file := r.0.file) && AllSized(r.0.dest, r.0.D)
  {
    SizesDivide(S, b.D);
    if src == [] && env.newRc != SQLITE_OK then (b, env.newRc)
    else
      var b1 := WithNewDb(b, src, env);
      if env.metaRc != SQLITE_OK then (b1, env.metaRc)
      else
        var b2 := WithCookie(b1);
        if b.wal && env.versionRc != SQLITE_OK then (b2, env.versionRc)
        else
          var b3 := WithVersion(b2);
          if env.commitRc != SQLITE_OK then (b3, env.commitRc)
          else (b3.(file := FinalFile(b3.dest, b3.D, S, if src == [] then [Zeros(S)] else src)), SQLITE_DONE)
  }

  /** The whole call: the new state, whose rc is also the value returned. */
  function Step(b: Backup, src: seq<Page>, S: nat, nPage: int, env: Env): (r: Backup)
    requires Sized(b, src, S) && EnvOk(env) && (b.bDestLocked ==> |env.newDb| == b.D)
    ensures Sized(r, src, S)
  {
    if IsFatal(b.rc) then b
    else
      var (b1, rc1) := Prepare(b, S, env);
      if rc1 != SQLITE_OK then b1.(rc := Mapped(rc1))
      else
        var (b2, rc2) := CopyLoop(b1, src, S, nPage, SQLITE_OK, env);
        if rc2 != SQLITE_OK then b2.(rc := Mapped(rc2))
        else if b2.iNext <= |src| then b2.(rc := SQLITE_OK, isAttached := true)
        else
          var (b3, rc3) := Complete(b2, src, S, env);
          b3.(rc := Mapped(rc3))
  }

  function Mapped(rc: int): int {
    if rc == SQLITE_IOERR_NOMEM then SQLITE_NOMEM else rc
  }

  // ---------------------------------------------------------------- callbacks from the source

  /** backupUpdate for one backup and one page. */
  function Update(b: Backup, S: nat, k: nat, data: Page, destRc: nat -> int): (r: Backup)
    requires IsPageSize(S) && k > 0 && |data| == S
    requires !IsFatal(b.rc) && k < b.iNext ==> b.bDestLocked
    requires b.bDestLocked ==> IsPageSize(b.D) && AllSized(b.dest, b.D)
    ensures r == b.(dest := r.dest, rc := r.rc)
    ensures r.bDestLocked ==> AllSized(r.dest, r.D)
    ensures IsFatal(b.rc) ==> r == b
  {
    if !IsFatal(b.rc) && k < b.iNext then
      var (dest, rc) := OnePage(b.dest, b.D, S, k, data, true, 0, b.fixedSize, destRc);
      if rc != SQLITE_OK then b.(dest := dest, rc := rc) else b.(dest := dest)
    else b
  }

  function Restarted(b: Backup): Backup {
    if b.isAttached then b.(iNext := 1) else b
  }

  // ---------------------------------------------------------------- one call keeps the invariant

  lemma CopiedMore(dest: Pages, D: nat, S: nat, src: seq<Page>, k: nat)
    requires D > 0 && S > 0 && AllSized(dest, D) && k > 0 && AllCopied(dest, D, S, src, k)
    requires k <= |src| && k != PendingPage(S) ==> PageCopied(dest, D, Base(k, S), src[k - 1])
    ensures AllCopied(dest, D, S, src, k + 1)
  {
  }

  lemma PageAdded(b: Backup, src: seq<Page>, S: nat, bUpdate: bool, k: nat, data: Page, destRc: nat -> int,
                  nSrcPage: nat, upTo: nat)
    requires IsPageSize(S) && IsPageSize(b.D) && AllSized(b.dest, b.D) && SourceSized(src, S) && k > 0 && |data| == S
    requires AllCopied(b.dest, b.D, S, src, upTo)
    requires OnePage(b.dest, b.D, S, k, data, bUpdate, nSrcPage, b.fixedSize, destRc).1 == SQLITE_OK
    ensures var d := OnePage(b.dest, b.D, S, k, data, bUpdate, nSrcPage, b.fixedSize, destRc).0;
      && PageCopied(d, b.D, Base(k, S), data)
      && forall j {:trigger src[j - 1]} :: 1 <= j <= |src| && j < upTo && j != k && j != PendingPage(S) ==>
        PageCopied(d, b.D, Base(j, S), src[j - 1])
  {
    OnePageCopies(b.dest, b.D, S, k, data, bUpdate, nSrcPage, b.fixedSize, destRc);
    var d := OnePage(b.dest, b.D, S, k, data, bUpdate, nSrcPage, b.fixedSize, destRc).0;
    forall j {:trigger src[j - 1]} | 1 <= j <= |src| && j < upTo && j != k && j != PendingPage(S)
      ensures PageCopied(d, b.D, Base(j, S), src[j - 1])
    {
      OnePageKeeps(b.dest, b.D, S, k, data, bUpdate, nSrcPage, b.fixedSize, destRc, j, src[j - 1]);
    }
  }

  /** A turn of the loop that does not fail for good leaves everything below iNext copied. */
  lemma CopyOneCopies(b: Backup, src: seq<Page>, S: nat, env: Env)
    requires Sized(b, src, S) && b.bDestLocked && b.iNext <= |src| && b.D == env.lockedD
    requires S > 0 && b.D > 0 && PagesFailForGood(S, env)
    requires AllCopied(b.dest, b.D, S, src, b.iNext)
    ensures var (r, rc) := CopyOne(b, src, S, env);
      !IsFatal(rc) ==> AllCopied(r.dest, r.D, S, src, r.iNext)
  {
    hide IsPageSize, OnePage, AllSized, Base, PageCopied, InPending, DestRc, PendingPage;
    var k := b.iNext;
    assert k == PendingPage(S) || InPending(Base(k, S), b.D) || !Transient(PageRc(S, env, k));
    if k == PendingPage(S) {
      CopiedMore(b.dest, b.D, S, src, k);
    } else if env.srcRc(k) == SQLITE_OK {
      OnePageRc(b.dest, b.D, S, k, src[k - 1], false, |src|, b.fixedSize, env.destRc);
      var (dest, rc) := OnePage(b.dest, b.D, S, k, src[k - 1], false, |src|, b.fixedSize, env.destRc);
      if rc == SQLITE_OK {
        PageAdded(b, src, S, false, k, src[k - 1], env.destRc, |src|, k);
        CopiedMore(dest, b.D, S, src, k);
      } else if !IsFatal(rc) {
        PendingIsFree(b.D, S, k, env.destRc);
        assert false;
      }
    } else if !IsFatal(env.srcRc(k)) {
      PendingIsFree(b.D, S, k, env.destRc);
      PendingIsCopied(b.dest, b.D, S, k, src[k - 1]);
      CopiedMore(b.dest, b.D, S, src, k);
    }
  }

  /** Nothing has to be copied to the destination's pending page. */
  lemma PendingIsCopied(dest: Pages, D: nat, S: nat, k: nat, data: Page)
    requires D > 0 && AllSized(dest, D) && k > 0 && |data| == S
    requires forall x: nat {:trigger InPending(x, D)} :: Base(k, S) <= x < Base(k, S) + S ==> InPending(x, D)
    ensures PageCopied(dest, D, Base(k, S), data)
  {
    hide Base, ByteAt;
  }

  lemma {:induction false} CopyLoopCopies(b: Backup, src: seq<Page>, S: nat, left: int, rc: int, env: Env)
    requires Sized(b, src, S) && b.bDestLocked && b.D == env.lockedD
    requires S > 0 && b.D > 0 && PagesFailForGood(S, env)
    requires !IsFatal(rc) ==> AllCopied(b.dest, b.D, S, src, b.iNext)
    ensures var (r, rc1) := CopyLoop(b, src, S, left, rc, env);
      !IsFatal(rc1) ==> AllCopied(r.dest, r.D, S, src, r.iNext)
    decreases |src| + 1 - b.iNext
  {
    if !(left == 0 || b.iNext > |src| || rc != SQLITE_OK) {
      CopyOneCopies(b, src, S, env);
      hide Sized, AllCopied, CopyOne, PagesFailForGood;
      var (c, rc1) := CopyOne(b, src, S, env);
      CopyLoopCopies(c, src, S, left - 1, rc1, env);
    }
  }

  /** One turn of the loop returns the code of its page. */
  lemma CopyOneRc(b: Backup, src: seq<Page>, S: nat, env: Env)
    requires Sized(b, src, S) && b.bDestLocked && b.D == env.lockedD && b.iNext <= |src| && S > 0 && b.D > 0
    ensures var rc := CopyOne(b, src, S, env).1;
      if b.iNext == PendingPage(S) then rc == SQLITE_OK
      else rc == PageRc(S, env, b.iNext) || (rc == SQLITE_READONLY && b.fixedSize && S != b.D)
  {
    OnePageRc(b.dest, b.D, S, b.iNext, src[b.iNext - 1], false, |src|, b.fixedSize, env.destRc);
    hide IsPageSize, OnePage, AllSized, DestRc, PendingPage;
  }

  /** A loop from page 1 on stops at the first failure. */
  lemma {:induction false} CopyLoopPath(b: Backup, src: seq<Page>, S: nat, left: int, rc: int, env: Env)
    requires Sized(b, src, S) && b.bDestLocked && b.D == env.lockedD && S > 0 && b.D > 0
    requires rc == SQLITE_OK ==> Smooth(S, env, b.iNext)
    requires rc != SQLITE_OK && !IsFatal(rc) ==> StoppedAt(S, env, b.iNext - 1)
    ensures var (r, rc1) := CopyLoop(b, src, S, left, rc, env);
      && (rc1 == SQLITE_OK ==> Smooth(S, env, r.iNext))
      && (rc1 != SQLITE_OK && !IsFatal(rc1) ==> StoppedAt(S, env, r.iNext - 1))
    decreases |src| + 1 - b.iNext
  {
    if !(left == 0 || b.iNext > |src| || rc != SQLITE_OK) {
      CopyOneRc(b, src, S, env);
      hide Sized, CopyOne, PageRc, PendingPage;
      var (c, rc1) := CopyOne(b, src, S, env);
      CopyLoopPath(c, src, S, left - 1, rc1, env);
    }
  }

  /** Page k fails for the time being and is the first that fails. */
  ghost predicate StoppedAt(S: nat, env: Env, k: int)
    requires S > 0 && env.lockedD > 0
  {
    k > 0 && k != PendingPage(S) && Smooth(S, env, k) && Transient(PageRc(S, env, k))
  }

  /** The finishing calls change nothing but the header, or create an empty database. */
  lemma CompleteKeeps(b: Backup, src: seq<Page>, S: nat, env: Env, upTo: nat)
    requires Sized(b, src, S) && b.bDestLocked && |env.newDb| == b.D
    requires S > 0 && b.D > 0 && AllCopied(b.dest, b.D, S, src, upTo)
    ensures var (r, rc) := Complete(b, src, S, env);
      && AllCopied(r.dest, r.D, S, src, upTo)
      && (src != [] ==> rc == if FinishRc(env, b.wal) == SQLITE_OK then SQLITE_DONE else FinishRc(env, b.wal))
  {
    SizesDivide(S, b.D);
    var b1 := WithNewDb(b, src, env);
    assert AllCopied(b1.dest, b.D, S, src, upTo);
    var b2 := WithCookie(b1);
    PatchKeeps(b1.dest, b.D, S, 40, Put4(b.iDestSchema + 1), src, upTo);
    if b.wal { PatchKeeps(b2.dest, b.D, S, 18, [2, 2], src, upTo); }
    hide IsPageSize, AllCopied, PatchHeader, FinalFile, AllSized, WithNewDb;
  }

  /** A step keeps the invariant unless something in it fails for the time being only. */
  lemma StepKeeps(b: Backup, src: seq<Page>, S: nat, nPage: int, env: Env)
    requires Inv(b, src, S) && EnvOk(env) && (b.bDestLocked ==> |env.newDb| == b.D)
    requires S > 0 && env.lockedD > 0 && FailsForGood(S, env)
    ensures Inv(Step(b, src, S, nPage, env), src, S)
  {
    PrepareKeeps(b, src, S, env);
    hide IsPageSize, AllCopied, CopyLoop, Complete, AllSized, PageRc;
    var (b1, rc1) := Prepare(b, S, env);
    if !IsFatal(b.rc) && rc1 == SQLITE_OK {
      PreparedSizes(b, S, env);
      CopyLoopCopies(b1, src, S, nPage, SQLITE_OK, env);
      var (b2, rc2) := CopyLoop(b1, src, S, nPage, SQLITE_OK, env);
      if b1.iNext == 1 { LoopFromStart(b1, src, S, nPage, env); }
      if rc2 == SQLITE_OK && b2.iNext > |src| {
        CompleteKeeps(b2, src, S, env, b2.iNext);
      }
    }
    hide Prepare;
  }

  /** A loop from page 1 on does not stop for the time being, and if it copies anything, then the
      finishing calls do not fail for the time being either. */
  lemma LoopFromStart(b: Backup, src: seq<Page>, S: nat, left: int, env: Env)
    requires Sized(b, src, S) && b.bDestLocked && b.D == env.lockedD && S > 0 && b.D > 0 && b.iNext == 1
    requires PagesFailForGood(S, env) && FinishFailsForGood(S, env) && (b.wal ==> S == b.D)
    ensures var (r, rc) := CopyLoop(b, src, S, left, SQLITE_OK, env);
      && (rc == SQLITE_OK || IsFatal(rc))
      && (rc == SQLITE_OK && r.iNext > 1 ==> src != [] && !Transient(FinishRc(env, b.wal)))
  {
    PendingIsLater(S);
    hide IsPageSize, AllSized, PageRc, PendingPage, CopyOne;
    CopyLoopPath(b, src, S, left, SQLITE_OK, env);
    var (r, rc) := CopyLoop(b, src, S, left, SQLITE_OK, env);
    if rc == SQLITE_OK && r.iNext > 1 {
      assert PageRc(S, env, 1) == SQLITE_OK;
    }
  }

  /** Once the copy loop is reached, the destination's page size is the one of this step. */
  lemma PreparedSizes(b: Backup, S: nat, env: Env)
    requires EnvOk(env) && (b.bDestLocked ==> |env.newDb| == b.D) && Prepare(b, S, env).1 == SQLITE_OK
    ensures var r := Prepare(b, S, env).0; r.bDestLocked && r.D == env.lockedD == |env.newDb| && (r.wal ==> S == r.D)
    ensures !env.srcInWrite && env.readRc == SQLITE_OK
  {
    hide IsPageSize, AllSized;
  }

  lemma PrepareKeeps(b: Backup, src: seq<Page>, S: nat, env: Env)
    requires Inv(b, src, S) && EnvOk(env)
    ensures var (r, rc) := Prepare(b, S, env);
      && Sized(r, src, S) && r.iNext == b.iNext && r.isAttached == b.isAttached
      && (!IsFatal(b.rc) && rc == SQLITE_OK ==> AllCopied(r.dest, r.D, S, src, r.iNext))
      && (!IsFatal(b.rc) && rc != SQLITE_OK ==> Inv(r.(rc := Mapped(rc)), src, S))
  {
    hide IsPageSize;
  }

  /** DONE means done: the committed file holds every byte of the source, except the source's
      pending page and the 100-byte file header, and is no longer than the source. */
  lemma DoneIsComplete(b: Backup, src: seq<Page>, S: nat, nPage: int, env: Env, x: nat)
    requires Inv(b, src, S) && EnvOk(env) && (b.bDestLocked ==> |env.newDb| == b.D)
    requires S > 0 && env.lockedD > 0 && FailsForGood(S, env)
    requires !IsFatal(b.rc) && Step(b, src, S, nPage, env).rc == SQLITE_DONE
    requires 100 <= x < S * |src| && !InPending(x, S)
    ensures var f := Step(b, src, S, nPage, env).file; x < |f| <= S * |src| && f[x] == SourceByte(src, S, x)
  {
    var b2 := DoneState(b, src, S, nPage, env);
    CompletedFile(b2, src, S, env);
    CompleteKeeps(b2, src, S, env, |src| + 1);
    hide Step, Complete, Inv, FailsForGood, FinalFile, IsPageSize, AllCopied;
    FinalBytes(Complete(b2, src, S, env).0.dest, b2.D, S, src, x);
  }

  /** A step that returns DONE has completed a state in which every page is copied. */
  lemma DoneState(b: Backup, src: seq<Page>, S: nat, nPage: int, env: Env) returns (b2: Backup)
    requires Inv(b, src, S) && EnvOk(env) && (b.bDestLocked ==> |env.newDb| == b.D)
    requires S > 0 && env.lockedD > 0 && FailsForGood(S, env)
    requires !IsFatal(b.rc) && Step(b, src, S, nPage, env).rc == SQLITE_DONE
    ensures Sized(b2, src, S) && b2.bDestLocked && b2.D > 0 && AllCopied(b2.dest, b2.D, S, src, |src| + 1)
    ensures |env.newDb| == b2.D && Complete(b2, src, S, env).1 == SQLITE_DONE
    ensures Step(b, src, S, nPage, env).file == Complete(b2, src, S, env).0.file
  {
    PrepareKeeps(b, src, S, env);
    PrepareNotDone(b, S, env);
    hide IsPageSize, AllCopied, AllSized, SourceSized, Prepare, CopyLoop, Complete, Inv;
    var (b1, rc1) := Prepare(b, S, env);
    assert rc1 == SQLITE_OK;
    PreparedSizes(b, S, env);
    CopyLoopCopies(b1, src, S, nPage, SQLITE_OK, env);
    var r := CopyLoop(b1, src, S, nPage, SQLITE_OK, env);
    b2 := r.0;
    assert r.1 == SQLITE_OK && b2.iNext > |src|;
    CopiedAll(b2.dest, b2.D, S, src, b2.iNext);
  }

  lemma CopiedAll(dest: Pages, D: nat, S: nat, src: seq<Page>, upTo: nat)
    requires D > 0 && S > 0 && AllSized(dest, D) && AllCopied(dest, D, S, src, upTo) && upTo > |src|
    ensures AllCopied(dest, D, S, src, |src| + 1)
  {
  }

  lemma PrepareNotDone(b: Backup, S: nat, env: Env)
    requires EnvOk(env)
    ensures Prepare(b, S, env).1 != SQLITE_DONE
  {
  }

  /** The file that DONE leaves behind. */
  lemma CompletedFile(b: Backup, src: seq<Page>, S: nat, env: Env)
    requires Sized(b, src, S) && b.bDestLocked && |env.newDb| == b.D && S > 0 && b.D > 0
    requires EnvOk(env) && Complete(b, src, S, env).1 == SQLITE_DONE && src != []
    ensures var r := Complete(b, src, S, env).0; r.file == FinalFile(r.dest, b.D, S, src)
  {
    hide IsPageSize, FinalFile, AllSized, WithNewDb, WithCookie, WithVersion;
  }

  // ---------------------------------------------------------------- commits of the source

  /** The new content of the source, and the pages reported as written, in order. */
  ghost predicate Reported(src: seq<Page>, src': seq<Page>, S: nat, changed: seq<nat>)
    requires S > 0
  {
    && SourceSized(src', S)
    && (forall i {:trigger changed[i]} :: 0 <= i < |changed| ==>
         1 <= changed[i] <= |src'| && changed[i] != PendingPage(S))
    && (forall k {:trigger src'[k - 1]} :: 1 <= k <= |src'| && k != PendingPage(S) ==>
          k in changed || (k <= |src| && src[k - 1] == src'[k - 1]))
  }

  /** backupUpdate called for each reported page. */
  function Updates(b: Backup, S: nat, src': seq<Page>, changed: seq<nat>, destRc: nat -> int): (r: Backup)
    requires IsPageSize(S) && SourceSized(src', S)
    requires forall i {:trigger changed[i]} :: 0 <= i < |changed| ==> 1 <= changed[i] <= |src'|
    requires !IsFatal(b.rc) && b.iNext > 1 ==> b.bDestLocked
    requires b.bDestLocked ==> IsPageSize(b.D) && AllSized(b.dest, b.D)
    ensures r == b.(dest := r.dest, rc := r.rc) && (r.bDestLocked ==> AllSized(r.dest, r.D))
    ensures IsFatal(b.rc) ==> r == b
    decreases |changed|
  {
    if changed == [] then b
    else Updates(Update(b, S, changed[0], src'[changed[0] - 1], destRc), S, src', changed[1..], destRc)
  }

  /** While a commit is being reported: pages whose report is still to come may be out of date. */
  ghost predicate Catching(b: Backup, S: nat, src': seq<Page>, changed: seq<nat>)
    requires S > 0
  {
    && (b.bDestLocked ==> IsPageSize(b.D) && AllSized(b.dest, b.D))
    && (!IsFatal(b.rc) && b.iNext > 1 ==> b.bDestLocked)
    && (!IsFatal(b.rc) && b.bDestLocked ==>
         forall k {:trigger src'[k - 1]} :: 1 <= k <= |src'| && k < b.iNext && k != PendingPage(S) && k !in changed ==>
           PageCopied(b.dest, b.D, Base(k, S), src'[k - 1]))
  }

  lemma UpdateCatchesUp(b: Backup, S: nat, src': seq<Page>, changed: seq<nat>, destRc: nat -> int)
    requires IsPageSize(S) && SourceSized(src', S) && changed != [] && 1 <= changed[0] <= |src'|
    requires Catching(b, S, src', changed)
    requires forall q: nat {:trigger destRc(q)} :: !Transient(destRc(q))
    ensures Catching(Update(b, S, changed[0], src'[changed[0] - 1], destRc), S, src', changed[1..])
  {
    var k := changed[0];
    var data := src'[k - 1];
    var r := Update(b, S, k, data, destRc);
    if !IsFatal(r.rc) && r.bDestLocked {
      hide IsPageSize, OnePage, AllSized, Base, PageCopied;
      if k < b.iNext { OnePageCopies(b.dest, b.D, S, k, data, true, 0, b.fixedSize, destRc); }
      forall j {:trigger src'[j - 1]} | 1 <= j <= |src'| && j < b.iNext && j != PendingPage(S) && j !in changed[1..]
        ensures PageCopied(r.dest, b.D, Base(j, S), src'[j - 1])
      {
        if j != k {
          assert j !in changed;
          if k < b.iNext { OnePageKeeps(b.dest, b.D, S, k, data, true, 0, b.fixedSize, destRc, j, src'[j - 1]); }
        }
      }
    }
  }

  lemma CatchingFacts(b: Backup, S: nat, src': seq<Page>, changed: seq<nat>)
    requires S > 0 && Catching(b, S, src', changed)
    ensures b.bDestLocked ==> IsPageSize(b.D) && AllSized(b.dest, b.D)
    ensures !IsFatal(b.rc) && b.iNext > 1 ==> b.bDestLocked
  {
  }

  lemma {:induction false} UpdatesCatchUp(b: Backup, S: nat, src': seq<Page>, changed: seq<nat>, destRc: nat -> int)
    requires IsPageSize(S) && SourceSized(src', S)
    requires forall i {:trigger changed[i]} :: 0 <= i < |changed| ==> 1 <= changed[i] <= |src'|
    requires Catching(b, S, src', changed)
    requires forall q: nat {:trigger destRc(q)} :: !Transient(destRc(q))
    ensures Catching(Updates(b, S, src', changed, destRc), S, src', [])
    decreases |changed|
  {
    CatchingFacts(b, S, src', changed);
    hide Update, Catching, IsPageSize, AllSized;
    if changed != [] {
      UpdateCatchesUp(b, S, src', changed, destRc);
      CatchingFacts(Update(b, S, changed[0], src'[changed[0] - 1], destRc), S, src', changed[1..]);
      UpdatesCatchUp(Update(b, S, changed[0], src'[changed[0] - 1], destRc), S, src', changed[1..], destRc);
    }
  }

  /** A registered backup follows every commit of the source. */
  lemma CommitKeeps(b: Backup, S: nat, src: seq<Page>, src': seq<Page>, changed: seq<nat>, destRc: nat -> int)
    requires Inv(b, src, S) && Reported(src, src', S, changed)
    requires forall q: nat {:trigger destRc(q)} :: !Transient(destRc(q))
    ensures Inv(Updates(b, S, src', changed, destRc), src', S)
  {
    assert S > 0;
    hide IsPageSize, PageCopied, AllSized;
    assert Catching(b, S, src', changed);
    UpdatesCatchUp(b, S, src', changed, destRc);
  }

  /** A backup that is not registered, and has not failed, has copied nothing yet. */
  lemma UnregisteredKeeps(b: Backup, S: nat, src: seq<Page>, src': seq<Page>)
    requires Inv(b, src, S) && SourceSized(src', S) && !b.isAttached
    ensures Inv(b, src', S)
  {
    hide IsPageSize, PageCopied, AllSized;
  }

  // ---------------------------------------------------------------- runs

  /** The source, its page size and the backups started from it and not finished. */
  datatype World = World(S: nat, src: seq<Page>, bs: seq<Backup>)

  datatype Event =
    | Begin(fixedSize: bool, wal: bool)  // sqlite3_backup_init
    | StepOf(i: nat, nPage: int, env: Env)  // sqlite3_backup_step
    | Commit(src': seq<Page>, changed: seq<nat>, destRc: nat -> int)  // sqlite3BackupUpdate
    | Restart(now: seq<Page>, pgsz: nat)  // the source has changed unreported: sqlite3BackupRestart
    | Finish(i: nat)  // sqlite3_backup_finish

  ghost predicate Possible(w: World, e: Event) {
    IsPageSize(w.S) &&
    match e
    case Begin(_, _) => true
    case StepOf(i, _, env) => i < |w.bs| && EnvOk(env) && (w.bs[i].bDestLocked ==> |env.newDb| == w.bs[i].D)
    case Commit(src', changed, _) => Reported(w.src, src', w.S, changed)
    case Restart(now, pgsz) => IsPageSize(pgsz) && SourceSized(now, pgsz)
    case Finish(i) => i < |w.bs|
  }

  /** Whatever fails in the event fails for good; the source asserts this of backupUpdate. */
  ghost predicate Fatalistic(S: nat, e: Event) {
    match e
    case StepOf(_, _, env) => S > 0 && env.lockedD > 0 && FailsForGood(S, env)
    case Commit(_, _, destRc) => forall q: nat {:trigger destRc(q)} :: !Transient(destRc(q))
    case _ => true
  }

  function NewBackup(fixedSize: bool, wal: bool): Backup {
    Backup(1, SQLITE_OK, false, false, Pages(map[], 0), 0, 0, fixedSize, wal, [])
  }

  /** What holds whatever the calls return: sizes, and a lock on the destination before the first copy. */
  ghost predicate WellFormed(b: Backup, src: seq<Page>, S: nat) {
    Sized(b, src, S) && (!IsFatal(b.rc) && b.iNext > 1 ==> b.bDestLocked)
  }

  ghost predicate WorldOk(w: World) {
    && IsPageSize(w.S) && SourceSized(w.src, w.S)
    && forall i {:trigger w.bs[i]} :: 0 <= i < |w.bs| ==> WellFormed(w.bs[i], w.src, w.S)
  }

  ghost predicate WorldInv(w: World) {
    WorldOk(w) && forall i {:trigger w.bs[i]} :: 0 <= i < |w.bs| ==> Inv(w.bs[i], w.src, w.S)
  }

  /** What a commit does to one backup: only registered ones are told. */
  function Told(b: Backup, S: nat, src': seq<Page>, changed: seq<nat>, destRc: nat -> int): (r: Backup)
    requires IsPageSize(S) && SourceSized(src', S)
    requires forall i {:trigger changed[i]} :: 0 <= i < |changed| ==> 1 <= changed[i] <= |src'|
    requires !IsFatal(b.rc) && b.iNext > 1 ==> b.bDestLocked
    requires b.bDestLocked ==> IsPageSize(b.D) && AllSized(b.dest, b.D)
    ensures r == b.(dest := r.dest, rc := r.rc) && (r.bDestLocked ==> AllSized(r.dest, r.D))
    ensures IsFatal(b.rc) ==> r == b
  {
    if b.isAttached then Updates(b, S, src', changed, destRc) else b
  }

  function After(w: World, e: Event): (r: World)
    requires WorldOk(w) && Possible(w, e)
  {
    match e
    case Begin(fixedSize, wal) => w.(bs := w.bs + [NewBackup(fixedSize, wal)])
    case StepOf(i, nPage, env) =>
      assert WellFormed(w.bs[i], w.src, w.S);
      w.(bs := w.bs[i := Step(w.bs[i], w.src, w.S, nPage, env)])
    case Commit(src', changed, destRc) =>
      w.(src := src', bs := seq(|w.bs|, i requires 0 <= i < |w.bs| => CommitTo(w, i, src', changed, destRc)))
    case Restart(now, pgsz) =>
      World(pgsz, now, seq(|w.bs|, i requires 0 <= i < |w.bs| => Restarted(w.bs[i])))
    case Finish(i) => w.(bs := w.bs[..i] + w.bs[i + 1..])
  }

  function CommitTo(w: World, i: nat, src': seq<Page>, changed: seq<nat>, destRc: nat -> int): Backup
    requires WorldOk(w) && i < |w.bs| && w.S > 0 && Reported(w.src, src', w.S, changed)
  {
    assert WellFormed(w.bs[i], w.src, w.S);
    Told(w.bs[i], w.S, src', changed, destRc)
  }

  lemma StepOk(b: Backup, src: seq<Page>, S: nat, nPage: int, env: Env)
    requires WellFormed(b, src, S) && EnvOk(env) && (b.bDestLocked ==> |env.newDb| == b.D)
    ensures WellFormed(Step(b, src, S, nPage, env), src, S)
  {
    hide IsPageSize, AllSized, CopyLoop, Complete;
  }

  /** Every event leaves a world in which every event is defined, whatever its calls return. */
  lemma EventOk(w: World, e: Event)
    requires WorldOk(w) && Possible(w, e)
    ensures WorldOk(After(w, e))
  {
    var r := After(w, e);
    hide IsPageSize, PageCopied, AllSized, Step, Updates;
    match e {
      case Begin(fixedSize, wal) =>
        assert WellFormed(NewBackup(fixedSize, wal), w.src, w.S);
      case StepOf(i, nPage, env) =>
        assert WellFormed(w.bs[i], w.src, w.S);
        StepOk(w.bs[i], w.src, w.S, nPage, env);
      case Commit(src', changed, destRc) =>
        forall i {:trigger r.bs[i]} | 0 <= i < |r.bs| ensures WellFormed(r.bs[i], src', w.S) {
          assert WellFormed(w.bs[i], w.src, w.S);
        }
      case Restart(now, pgsz) =>
        forall i {:trigger r.bs[i]} | 0 <= i < |r.bs| ensures WellFormed(r.bs[i], now, pgsz) {
          assert WellFormed(w.bs[i], w.src, w.S);
        }
      case Finish(i) =>
        assert forall k {:trigger r.bs[k]} :: 0 <= k < |r.bs| ==> r.bs[k] == w.bs[if k < i then k else k + 1];
    }
  }

  /** Every event keeps the invariant of every backup, as long as what fails fails for good. */
  lemma EventKeeps(w: World, e: Event)
    requires WorldInv(w) && Possible(w, e) && Fatalistic(w.S, e)
    ensures WorldInv(After(w, e))
  {
    var r := After(w, e);
    SizesDivide(w.S, w.S);
    hide IsPageSize, PageCopied, AllSized, Step, Updates, AllCopied;
    match e {
      case Begin(fixedSize, wal) => NewKeeps(w, fixedSize, wal);
      case StepOf(i, nPage, env) =>
        assert Inv(w.bs[i], w.src, w.S);
        StepKeeps(w.bs[i], w.src, w.S, nPage, env);
      case Commit(src', changed, destRc) =>
        forall i {:trigger r.bs[i]} | 0 <= i < |r.bs|
          ensures Inv(r.bs[i], src', w.S)
        {
          assert Inv(w.bs[i], w.src, w.S);
          if w.bs[i].isAttached { CommitKeeps(w.bs[i], w.S, w.src, src', changed, destRc); }
          else { UnregisteredKeeps(w.bs[i], w.S, w.src, src'); }
        }
      case Restart(now, pgsz) =>
        forall i {:trigger r.bs[i]} | 0 <= i < |r.bs|
          ensures Inv(r.bs[i], now, pgsz)
        {
          RestartKeeps(w.bs[i], w.src, w.S, now, pgsz);
        }
      case Finish(i) =>
        assert forall k {:trigger r.bs[k]} :: 0 <= k < |r.bs| ==> r.bs[k] == w.bs[if k < i then k else k + 1];
    }
  }

  lemma NewKeeps(w: World, fixedSize: bool, wal: bool)
    requires WorldInv(w)
    ensures WorldInv(w.(bs := w.bs + [NewBackup(fixedSize, wal)]))
  {
    hide IsPageSize;
    assert Inv(NewBackup(fixedSize, wal), w.src, w.S);
    hide Inv;
  }

  /** A restart makes up for whatever has become of the source unreported, its page size included. */
  lemma RestartKeeps(b: Backup, src: seq<Page>, S: nat, now: seq<Page>, pgsz: nat)
    requires Inv(b, src, S) && IsPageSize(pgsz) && SourceSized(now, pgsz)
    ensures Inv(Restarted(b), now, pgsz)
  {
    hide IsPageSize, PageCopied, AllSized;
  }

  // ---------------------------------------------------------------- whole runs

  /** Every event of the run can happen when its turn comes. */
  ghost predicate PossibleRun(w: World, es: seq<Event>)
    requires WorldOk(w)
    decreases |es|
  {
    es == [] || (Possible(w, es[0]) && (EventOk(w, es[0]); PossibleRun(After(w, es[0]), es[1..])))
  }

  ghost function Exec(w: World, es: seq<Event>): (r: World)
    requires WorldOk(w) && PossibleRun(w, es)
    ensures WorldOk(r)
    decreases |es|
  {
    if es == [] then w else
      EventOk(w, es[0]);
      Exec(After(w, es[0]), es[1..])
  }

  /** Whatever fails in the run fails for good. */
  ghost predicate FatalisticRun(w: World, es: seq<Event>)
    requires WorldOk(w) && PossibleRun(w, es)
    decreases |es|
  {
    es == [] || (Fatalistic(w.S, es[0]) && (EventOk(w, es[0]); FatalisticRun(After(w, es[0]), es[1..])))
  }

  /** Safety over every run: whatever the order of starts, steps, commits, restarts and finishes,
      each live backup has copied every source page below its iNext, and is registered with the
      source as soon as it has copied anything. */
  lemma {:induction false} RunKeeps(w: World, es: seq<Event>)
    requires WorldInv(w) && PossibleRun(w, es) && FatalisticRun(w, es)
    ensures WorldInv(Exec(w, es))
    decreases |es|
  {
    hide WorldOk, Inv, After, Possible, Fatalistic;
    if es != [] {
      EventOk(w, es[0]);
      EventKeeps(w, es[0]);
      RunKeeps(After(w, es[0]), es[1..]);
    }
  }

  // ---------------------------------------------------------------- a finished backup is left alone

  /** Where backup i stands after an event; None once it has been finished. */
  function Moved(e: Event, i: nat): Option<nat> {
    if !e.Finish? || e.i > i then Some(i)
    else if e.i == i then None
    else Some(i - 1)
  }

  function Place(es: seq<Event>, i: nat): Option<nat> {
    if es == [] then Some(i)
    else
      match Moved(es[0], i)
      case None => None
      case Some(j) => Place(es[1..], j)
  }

  /** Once a backup is DONE, or has failed for good, no event but its own finish touches its
      destination or its committed file. */
  lemma FatalIsFrozen(w: World, e: Event, i: nat)
    requires WorldOk(w) && Possible(w, e) && i < |w.bs| && IsFatal(w.bs[i].rc) && Moved(e, i).Some?
    ensures var j := Moved(e, i).value;
      && j < |After(w, e).bs|
      && After(w, e).bs[j] == w.bs[i].(iNext := After(w, e).bs[j].iNext)
  {
    hide IsPageSize, PageCopied, AllSized, Updates;
    match e {
      case Finish(k) => assert (w.bs[..k] + w.bs[k + 1..])[if k < i then i - 1 else i] == w.bs[i];
      case _ =>
    }
  }

  lemma {:induction false} FrozenForGood(w: World, es: seq<Event>, i: nat)
    requires WorldOk(w) && PossibleRun(w, es) && i < |w.bs| && IsFatal(w.bs[i].rc) && Place(es, i).Some?
    ensures var r, j := Exec(w, es), Place(es, i).value;
      j < |r.bs| && r.bs[j] == w.bs[i].(iNext := r.bs[j].iNext)
    decreases |es|
  {
    hide WorldOk, After, Possible;
    if es != [] {
      EventOk(w, es[0]);
      FatalIsFrozen(w, es[0], i);
      FrozenForGood(After(w, es[0]), es[1..], Moved(es[0], i).value);
    }
  }

  /** From any run's step that returns DONE on, until it is finished, the backup's file is the
      source as it was at that step: later steps, commits, restarts and other backups do not matter. */
  lemma DoneForGood(w: World, es: seq<Event>, i: nat, nPage: int, env: Env, later: seq<Event>, x: nat)
    requires WorldInv(w) && PossibleRun(w, es) && FatalisticRun(w, es)
    requires var v, e := Exec(w, es), StepOf(i, nPage, env);
      && Possible(v, e) && Fatalistic(v.S, e) && !IsFatal(v.bs[i].rc) && After(v, e).bs[i].rc == SQLITE_DONE
      && (EventOk(v, e); PossibleRun(After(v, e), later)) && Place(later, i).Some?
      && 100 <= x < v.S * |v.src| && !InPending(x, v.S)
    ensures var v := Exec(w, es);
      var e := StepOf(i, nPage, env);
      var r, j := (EventOk(v, e); Exec(After(v, e), later)), Place(later, i).value;
      && v.S > 0 && SourceSized(v.src, v.S) && j < |r.bs| && r.bs[j].rc == SQLITE_DONE
      && x < |r.bs[j].file| <= v.S * |v.src| && r.bs[j].file[x] == SourceByte(v.src, v.S, x)
  {
    var v, e := Exec(w, es), StepOf(i, nPage, env);
    RunKeeps(w, es);
    EventOk(v, e);
    assert Inv(v.bs[i], v.src, v.S);
    hide Inv, IsPageSize, AllSized, Exec, PossibleRun, Step;
    DoneIsComplete(v.bs[i], v.src, v.S, nPage, env, x);
    FrozenForGood(After(v, e), later, i);
  }
}
