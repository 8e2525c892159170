/** How far a step gets when nothing fails. */
module BackupProgress {
  import opened Division
  import opened BackupPages
  import opened BackupFinish
  import opened BackupProtocol

  /** Every call of the step succeeds. */
  ghost predicate AllSucceed(env: Env) {
    && EnvOk(env) && !env.srcInWrite && env.readRc == SQLITE_OK && !env.pgszOom && env.lockRc == SQLITE_OK
    && (forall k: nat {:trigger env.srcRc(k)} :: env.srcRc(k) == SQLITE_OK)
    && (forall q: nat {:trigger env.destRc(q)} :: env.destRc(q) == SQLITE_OK)
    && env.newRc == SQLITE_OK && env.metaRc == SQLITE_OK && env.versionRc == SQLITE_OK && env.commitRc == SQLITE_OK
  }

  /** The pages a call with nPage copies, of those that are left; all of them when nPage is negative. */
  function Quota(nPage: int, left: nat): nat {
    if nPage < 0 || nPage > left then left else nPage
  }

  function Left(b: Backup, src: seq<Page>): nat {
    if b.iNext <= |src| then |src| + 1 - b.iNext else 0
  }

  /** The destination's pages have the source's size, or may have another one. */
  predicate Compatible(b: Backup, S: nat, D: nat) {
    S == D || (!b.fixedSize && !b.wal)
  }

  lemma {:induction false} NothingFails(D: nat, q: nat, n: nat, destRc: nat -> int)
    requires D > 0 && forall q: nat {:trigger destRc(q)} :: destRc(q) == SQLITE_OK
    ensures BlocksRc(D, q, n, destRc) == SQLITE_OK
    decreases n
  {
    if n > 0 { NothingFails(D, q + 1, n - 1, destRc); }
  }

  lemma TurnSucceeds(b: Backup, src: seq<Page>, S: nat, env: Env)
    requires Sized(b, src, S) && b.bDestLocked && b.iNext <= |src| && b.D == env.lockedD
    requires AllSucceed(env) && Compatible(b, S, b.D)
    ensures CopyOne(b, src, S, env).1 == SQLITE_OK
  {
    assert S > 0 && b.D > 0;
    DestSucceeds(b.D, S, b.iNext, env.destRc);
    CopyOneRc(b, src, S, env);
    hide IsPageSize, OnePage, AllSized, DestRc, CopyOne, PendingPage;
    assert env.srcRc(b.iNext) == SQLITE_OK;
    if b.iNext != PendingPage(S) {
      MayCopy(b, src, S, env);
    }
  }

  lemma DestSucceeds(D: nat, S: nat, k: nat, destRc: nat -> int)
    requires D > 0 && S > 0 && k > 0 && forall q: nat {:trigger destRc(q)} :: destRc(q) == SQLITE_OK
    ensures DestRc(D, S, k, destRc) == SQLITE_OK
  {
    hide BlocksRc;
    if S < D {
      NothingFails(D, (k - 1) * S / D, 1, destRc);
    } else {
      NothingFails(D, (k - 1) * (S / D), S / D, destRc);
    }
  }

  /** Compatible page sizes rule the other failure out. */
  lemma MayCopy(b: Backup, src: seq<Page>, S: nat, env: Env)
    requires Sized(b, src, S) && b.bDestLocked && b.iNext <= |src| && Compatible(b, S, b.D)
    requires S > 0 && b.D > 0 && b.iNext != PendingPage(S) && env.srcRc(b.iNext) == SQLITE_OK
    requires DestRc(b.D, S, b.iNext, env.destRc) == SQLITE_OK
    ensures CopyOne(b, src, S, env).1 == SQLITE_OK
  {
    OnePageRc(b.dest, b.D, S, b.iNext, src[b.iNext - 1], false, |src|, b.fixedSize, env.destRc);
    hide IsPageSize, OnePage, AllSized, DestRc, PendingPage;
  }

  lemma {:induction false} LoopSucceeds(b: Backup, src: seq<Page>, S: nat, left: int, env: Env)
    requires Sized(b, src, S) && b.bDestLocked && b.D == env.lockedD
    requires AllSucceed(env) && Compatible(b, S, b.D)
    ensures
      var (r, rc) := CopyLoop(b, src, S, left, SQLITE_OK, env);
      rc == SQLITE_OK && r.iNext == b.iNext + Quota(left, Left(b, src))
    decreases |src| + 1 - b.iNext
  {
    if left != 0 && b.iNext <= |src| {
      TurnSucceeds(b, src, S, env);
      hide Sized, AllSucceed, CopyOne;
      LoopSucceeds(CopyOne(b, src, S, env).0, src, S, left - 1, env);
    }
  }

  /** A step in which every call succeeds copies as many pages as it is asked to, or all that are left,
      and reports DONE exactly when none is left then; otherwise the backup is attached. */
  lemma StepProgress(b: Backup, src: seq<Page>, S: nat, nPage: int, env: Env)
    requires Sized(b, src, S) && !IsFatal(b.rc) && AllSucceed(env) && (b.bDestLocked ==> |env.newDb| == b.D)
    requires Compatible(b, S, env.lockedD)
    ensures
      var r := Step(b, src, S, nPage, env);
      && r.iNext == b.iNext + Quota(nPage, Left(b, src))
      && r.rc == (if r.iNext > |src| then SQLITE_DONE else SQLITE_OK)
      && (r.rc == SQLITE_OK ==> r.isAttached)
  {
    hide IsPageSize, AllSized, CopyLoop;
    var b1 := Prepare(b, S, env).0;
    assert Prepare(b, S, env).1 == SQLITE_OK && b1.D == env.lockedD == |env.newDb|;
    PreparedSized(b, src, S, env);
    LoopSucceeds(b1, src, S, nPage, env);
    hide Sized, FinalFile, Compatible;
  }

  lemma PreparedSized(b: Backup, src: seq<Page>, S: nat, env: Env)
    requires Sized(b, src, S) && EnvOk(env)
    ensures Sized(Prepare(b, S, env).0, src, S)
  {
    hide IsPageSize, AllSized;
  }

  /** Calls with positive nPage therefore finish a source that does not change: each leaves fewer pages. */
  lemma StepsFinish(b: Backup, src: seq<Page>, S: nat, nPage: int, env: Env)
    requires Sized(b, src, S) && !IsFatal(b.rc) && AllSucceed(env) && (b.bDestLocked ==> |env.newDb| == b.D)
    requires Compatible(b, S, env.lockedD) && nPage != 0
    ensures
      var r := Step(b, src, S, nPage, env);
      r.rc == SQLITE_DONE || (r.rc == SQLITE_OK && Left(r, src) < Left(b, src))
  {
    StepProgress(b, src, S, nPage, env);
    hide Step, Sized, AllSucceed;
  }

  /** Until the step that reports DONE the destination's file stays as it was, whatever fails. */
  lemma CommittedOnlyWhenDone(b: Backup, src: seq<Page>, S: nat, nPage: int, env: Env)
    requires Sized(b, src, S) && EnvOk(env) && (b.bDestLocked ==> |env.newDb| == b.D)
    ensures Step(b, src, S, nPage, env).file != b.file ==>
      Step(b, src, S, nPage, env).rc == SQLITE_DONE && !IsFatal(b.rc)
  {
    hide Sized, IsPageSize, AllSized, CopyLoop, Prepare, FinalFile, WithCookie, WithVersion, WithNewDb;
  }
}
