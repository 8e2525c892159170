/** What goes wrong when a call of a step fails for the time being: iNext has moved on, and the backup
    lives. The invariant of BackupProtocol is kept by exactly the steps that FailsForGood describes. */
module BackupFailures {
  import opened Division
  import opened BackupPages
  import opened BackupFinish
  import opened BackupProtocol

  /** With these results of the calls, a step keeps the invariant of every backup of every source. */
  ghost predicate StepAlwaysKeeps(S: nat, env: Env)
    requires EnvOk(env)
  {
    forall b: Backup, src: seq<Page>, nPage: int ::
      Inv(b, src, S) && (b.bDestLocked ==> |env.newDb| == b.D) ==> Inv(Step(b, src, S, nPage, env), src, S)
  }

  /** The exact condition: the step ends before the copy loop, or every page that can fail for the
      time being is harmless, and so are the finishing calls. */
  lemma KeptExactlyWhenFailuresAreForGood(S: nat, env: Env)
    requires IsPageSize(S) && EnvOk(env)
    ensures StepAlwaysKeeps(S, env) <==> S > 0 && env.lockedD > 0 && FailsForGood(S, env)
  {
    assert S > 0 && env.lockedD > 0;
    if FailsForGood(S, env) {
      forall b: Backup, src: seq<Page>, nPage: int | Inv(b, src, S) && (b.bDestLocked ==> |env.newDb| == b.D)
        ensures Inv(Step(b, src, S, nPage, env), src, S)
      {
        StepKeeps(b, src, S, nPage, env);
      }
    } else {
      var b, src, nPage := BrokenBackup(S, env);
    }
  }

  /** Otherwise there is a backup whose invariant the step breaks. */
  lemma BrokenBackup(S: nat, env: Env) returns (b: Backup, src: seq<Page>, nPage: int)
    requires IsPageSize(S) && EnvOk(env) && S > 0 && env.lockedD > 0 && !FailsForGood(S, env)
    ensures Inv(b, src, S) && (b.bDestLocked ==> |env.newDb| == b.D) && !Inv(Step(b, src, S, nPage, env), src, S)
  {
    hide IsPageSize, EnvOk, PageRc, Inv, Step;
    if !PagesFailForGood(S, env) {
      var k: nat :| k > 0 && k != PendingPage(S) && Transient(PageRc(S, env, k))
        && !(InPending(Base(k, S), env.lockedD) && !Smooth(S, env, k));
      if InPending(Base(k, S), env.lockedD) {
        b, src, nPage := Locked(env.lockedD, false), AllZeros(S, k), -1;
        StoppedUnregistered(S, env, k);
      } else {
        b, src, nPage := CopiedZeros(env.lockedD, k), ZerosThenOnes(S, k), 1;
        var x := SkippedPage(S, env, k);
      }
    } else {
      var wal := !Transient(FinishRc(env, false));
      b, src, nPage := Locked(env.lockedD, wal), [Ones(S)], -1;
      UnregisteredAtEnd(S, env, wal);
    }
  }

  // ---------------------------------------------------------------- the backups that break

  function Ones(n: nat): (p: Page)
    ensures |p| == n && forall i :: 0 <= i < n ==> p[i] == 1
  {
    seq(n, _ => 1 as byte)
  }

  function AllZeros(S: nat, n: nat): (src: seq<Page>)
    ensures |src| == n && SourceSized(src, S)
  {
    seq(n, _ => Zeros(S))
  }

  /** A source of k-1 zero pages and one page of ones, and a backup that has copied the zeros. */
  function ZerosThenOnes(S: nat, k: nat): (src: seq<Page>)
    requires k > 0
    ensures |src| == k && SourceSized(src, S)
    ensures forall i :: 0 <= i < k - 1 ==> src[i] == Zeros(S)
    ensures src[k - 1] == Ones(S)
  {
    seq(k - 1, _ => Zeros(S)) + [Ones(S)]
  }

  function CopiedZeros(D: nat, k: nat): Backup {
    Backup(k, SQLITE_OK, true, true, Pages(map[], k * 65536), D, 0, false, false, [])
  }

  /** A backup that has locked its destination and copied nothing. */
  function Locked(D: nat, wal: bool): Backup {
    Backup(1, SQLITE_OK, false, true, Pages(map[], 0), D, 0, false, wal, [])
  }

  /** A step in which every call succeeds. */
  ghost predicate AllWell(env: Env, D: nat) {
    && EnvOk(env) && |env.newDb| == D
    && !env.srcInWrite && env.readRc == SQLITE_OK
    && env.newRc == SQLITE_OK && env.metaRc == SQLITE_OK && env.versionRc == SQLITE_OK && env.commitRc == SQLITE_OK
  }

  /** The backup reports DONE in the next step in which every call succeeds, and its file differs
      from the source at offset x. */
  ghost predicate EndsWrong(b: Backup, src: seq<Page>, S: nat, x: nat)
    requires S > 0
  {
    && Sized(b, src, S) && b.bDestLocked && 100 <= x < S * |src| && !InPending(x, S)
    && forall env, nPage {:trigger Step(b, src, S, nPage, env)} :: AllWell(env, b.D) ==>
        var r := Step(b, src, S, nPage, env);
        r.rc == SQLITE_DONE && x < |r.file| && r.file[x] != SourceByte(src, S, x)
  }

  /** A live backup at its end, with a wrong byte in the image of the destination, ends wrong. */
  lemma WrongByteStays(b: Backup, src: seq<Page>, S: nat, x: nat)
    requires Sized(b, src, S) && b.bDestLocked && S > 0 && b.D > 0 && !IsFatal(b.rc) && b.iNext > |src|
    requires 100 <= x < S * |src| && !InPending(x, S) && !InPending(x, b.D) && x / b.D < b.dest.nPage
    requires (b.wal ==> S == b.D) && ByteAt(b.dest, b.D, x) != SourceByte(src, S, x)
    ensures EndsWrong(b, src, S, x)
  {
    SizesDivide(S, b.D);
    forall env, nPage {:trigger Step(b, src, S, nPage, env)} | AllWell(env, b.D)
      ensures
        var r := Step(b, src, S, nPage, env);
        r.rc == SQLITE_DONE && x < |r.file| && r.file[x] != SourceByte(src, S, x)
    {
      assert src != [];
      hide IsPageSize, FinalFile, AllSized, PatchHeader, ByteAt, EnvOk;
      assert CopyLoop(b, src, S, nPage, SQLITE_OK, env) == (b, SQLITE_OK);
      var r := Complete(b, src, S, env).0;
      HeaderOnly(b, src, S, env, x);
      FileByte(r.dest, b.D, S, src, x);
    }
  }

  lemma PatchedByte(dest: Pages, D: nat, o: nat, block: Page, x: nat)
    requires 100 < D && AllSized(dest, D) && o + |block| <= 100 && x >= 100
    ensures var r := PatchHeader(dest, D, o, block); ByteAt(r, D, x) == ByteAt(dest, D, x) && r.nPage >= dest.nPage
  {
    DivUnique(o, D, 0, o);
    WriteBlockBytes(dest, D, o, block, x);
    hide AllSized, WriteBlock, ByteAt;
  }

  /** The finishing calls do not touch a byte behind the header. */
  lemma HeaderOnly(b: Backup, src: seq<Page>, S: nat, env: Env, x: nat)
    requires Sized(b, src, S) && b.bDestLocked && S > 0 && AllWell(env, b.D) && b.D > 0 && src != [] && x >= 100
    ensures var r := Complete(b, src, S, env);
      && r.1 == SQLITE_DONE && ByteAt(r.0.dest, b.D, x) == ByteAt(b.dest, b.D, x) && r.0.dest.nPage >= b.dest.nPage
      && r.0.file == FinalFile(r.0.dest, b.D, S, src)
  {
    hide FinalFile, AllSized, WriteBlock, ByteAt, EnvOk, PatchHeader, PowerOfTwo, SourceSized;
    PatchedByte(b.dest, b.D, 40, Put4(b.iDestSchema + 1), x);
    PatchedByte(WithCookie(b).dest, b.D, 18, [2, 2], x);
  }

  /** A page that fails for the time being is skipped and never copied: the backup goes on to report
      DONE with a wrong byte. */
  lemma SkippedPage(S: nat, env: Env, k: nat) returns (x: nat)
    requires IsPageSize(S) && EnvOk(env) && S > 0 && env.lockedD > 0 && !env.srcInWrite && env.readRc == SQLITE_OK
    requires k > 0 && Transient(PageRc(S, env, k)) && !InPending(Base(k, S), env.lockedD)
    ensures var b, src := CopiedZeros(env.lockedD, k), ZerosThenOnes(S, k);
      && Inv(b, src, S) && |env.newDb| == b.D
      && !Inv(Step(b, src, S, 1, env), src, S)
      && EndsWrong(Step(b, src, S, 1, env), src, S, x)
  {
    var D := env.lockedD;
    var b, src := CopiedZeros(D, k), ZerosThenOnes(S, k);
    SizesDivide(S, D);
    ZerosCopied(S, D, k);
    var c, rc;
    c, rc, x := SkippedTurn(S, env, k);
    hide IsPageSize, CopyOne, AllCopied, AllSized, PageRc, ByteAt, EndsWrong;
    assert CopyLoop(b, src, S, 1, SQLITE_OK, env) == CopyLoop(c, src, S, 0, rc, env) == (c, rc);
    assert Step(b, src, S, 1, env) == c.(rc := rc);
    LastPage(S, src, k, x);
    OnesNotCopied(c.dest, D, S, src, k, x);
    WrongByteStays(c.(rc := rc), src, S, x);
  }

  /** The turn of the loop that fails leaves a zero byte where the source has a one. */
  lemma SkippedTurn(S: nat, env: Env, k: nat) returns (c: Backup, rc: int, x: nat)
    requires IsPageSize(S) && EnvOk(env) && S > 0 && env.lockedD > 0
    requires k > 0 && Transient(PageRc(S, env, k)) && !InPending(Base(k, S), env.lockedD)
    ensures var b, src := CopiedZeros(env.lockedD, k), ZerosThenOnes(S, k);
      && AllSized(b.dest, b.D) && CopyOne(b, src, S, env) == (c, rc) && c.iNext == k + 1
      && AllSized(c.dest, b.D) && c == b.(iNext := k + 1, dest := c.dest)
      && rc == PageRc(S, env, k) && x / b.D < c.dest.nPage && ByteAt(c.dest, b.D, x) == 0
      && Base(k, S) + 100 <= x < Base(k, S) + S && !InPending(x, b.D)
  {
    var D := env.lockedD;
    var b, src := CopiedZeros(D, k), ZerosThenOnes(S, k);
    c, rc := CopyOne(b, src, S, env).0, CopyOne(b, src, S, env).1;
    NotPending(k, S, D);
    if env.srcRc(k) != SQLITE_OK {
      x := Base(k, S) + 100;
      OffPendingPage(k, S, D);
    } else {
      x := OnePageStop(b.dest, D, S, k, src[k - 1], |src|, env.destRc);
      OnePageRc(b.dest, D, S, k, src[k - 1], false, |src|, false, env.destRc);
      OnePageGrows(b.dest, D, S, k, src[k - 1], |src|, env.destRc);
    }
    WithinImage(k, S, D, x);
    ZeroByte(b.dest, D, x);
    hide IsPageSize, OnePage, AllSized, ByteAt, EnvOk, DestRc, PendingPage;
  }

  /** The destination does not shrink when a page is copied, or fails to be. */
  lemma OnePageGrows(dest: Pages, D: nat, S: nat, k: nat, data: Page, nSrcPage: nat, destRc: nat -> int)
    requires IsPageSize(S) && IsPageSize(D) && AllSized(dest, D) && |data| == S && k > 0
    ensures OnePage(dest, D, S, k, data, false, nSrcPage, false, destRc).0.nPage >= dest.nPage
  {
    BaseAligned(k, S, D);
    hide IsPageSize, AllSized, ReturnedBy;
    if S >= D { BlocksGrow(dest, D, (k - 1) * (S / D), Outgoing(data, k, false, nSrcPage), destRc); }
  }

  lemma {:induction false} BlocksGrow(dest: Pages, D: nat, q: nat, data: Page, destRc: nat -> int)
    requires D > 0 && AllSized(dest, D)
    ensures CopyBlocks(dest, D, q, data, destRc).0.nPage >= dest.nPage
    decreases |data|
  {
    CopyBlocksOn(dest, D, q, data, destRc);
    hide CopyBlocks, AllSized, ReturnedBy;
    if |data| >= D {
      DivUnique(q * D, D, q, 0);
      BlocksGrow(CopyBlock(dest, D, q * D, data[..D], destRc).0, D, q + 1, data[D..], destRc);
    }
  }

  lemma ZeroByte(dest: Pages, D: nat, x: nat)
    requires D > 0 && dest.page == map[]
    ensures AllSized(dest, D) && ByteAt(dest, D, x) == 0
  {
  }

  /** Every byte of page k lies within the first k * 65536 destination pages. */
  lemma WithinImage(k: nat, S: nat, D: nat, x: nat)
    requires k > 0 && 0 < S <= 65536 && D > 0 && x < Base(k, S) + S
    ensures x / D < k * 65536
  {
    assert Base(k, S) + S == k * S;
    MulMono(S, 65536, k);
    MulMono(1, D, k * 65536);
    Below(x, k * 65536, D);
  }

  lemma NotPending(k: nat, S: nat, D: nat)
    requires IsPageSize(S) && IsPageSize(D) && k > 0 && !InPending(Base(k, S), D)
    ensures S > 0 && k != PendingPage(S)
  {
    SizesDivide(S, D);
    Parts(PENDING_BYTE, S);
    BaseOf(PENDING_BYTE / S, S);
    hide IsPageSize;
  }

  lemma OffPendingPage(k: nat, S: nat, D: nat)
    requires IsPageSize(S) && IsPageSize(D) && k > 0 && !InPending(Base(k, S), D)
    ensures !InPending(Base(k, S) + 100, D)
  {
    var base := Base(k, S);
    SizesDivide(S, D);
    DivUnique(base, S, k - 1, 0);
    if S < D {
      OffPending(base, 100, S, D);
    } else {
      NotPending(k, S, D);
      DivUnique(base + 100, S, k - 1, 100);
      PageOf(base + 100, S);
      hide IsPageSize;
    }
  }

  lemma LastPage(S: nat, src: seq<Page>, k: nat, x: nat)
    requires IsPageSize(S) && S > 0 && SourceSized(src, S) && |src| == k > 0 && k != PendingPage(S)
    requires Base(k, S) <= x < Base(k, S) + S
    ensures x < S * |src| && !InPending(x, S) && SourceByte(src, S, x) == src[k - 1][x - Base(k, S)]
  {
    assert Base(k, S) + S == S * k;
    DivUnique(x, S, k - 1, x - Base(k, S));
    PageOf(x, S);
    hide IsPageSize;
  }

  lemma ZerosCopied(S: nat, D: nat, k: nat)
    requires IsPageSize(S) && IsPageSize(D) && k > 0
    ensures S > 0 && D > 0 && AllSized(CopiedZeros(D, k).dest, D)
    ensures AllCopied(CopiedZeros(D, k).dest, D, S, ZerosThenOnes(S, k), k)
  {
    var dest, src := CopiedZeros(D, k).dest, ZerosThenOnes(S, k);
    SizesDivide(S, D);
    hide IsPageSize;
    forall j {:trigger src[j - 1]} | 1 <= j <= |src| && j < k && j != PendingPage(S)
      ensures PageCopied(dest, D, Base(j, S), src[j - 1])
    {
      forall x: nat | Base(j, S) <= x < Base(j, S) + S
        ensures x / D < dest.nPage && ByteAt(dest, D, x) == 0
      {
        WithinImage(j, S, D, x);
        MulMono(j, k, 65536);
      }
    }
  }

  lemma OnesNotCopied(dest: Pages, D: nat, S: nat, src: seq<Page>, k: nat, x: nat)
    requires D > 0 && S > 0 && AllSized(dest, D) && SourceSized(src, S) && 0 < k <= |src| && k != PendingPage(S)
    requires Base(k, S) + 100 <= x < Base(k, S) + S && !InPending(x, D)
    requires ByteAt(dest, D, x) != src[k - 1][x - Base(k, S)]
    ensures !AllCopied(dest, D, S, src, k + 1)
  {
    assert !PageCopied(dest, D, Base(k, S), src[k - 1]);
  }

  /** A backup that is not yet registered stays so when the step ends for the time being, whatever
      it has copied. */
  lemma StoppedUnregistered(S: nat, env: Env, k: nat)
    requires IsPageSize(S) && EnvOk(env) && S > 0 && env.lockedD > 0 && !env.srcInWrite && env.readRc == SQLITE_OK
    requires k > 0 && k != PendingPage(S) && Transient(PageRc(S, env, k)) && Smooth(S, env, k)
    ensures var b, src := Locked(env.lockedD, false), AllZeros(S, k);
      var r := Step(b, src, S, -1, env);
      && Inv(b, src, S) && |env.newDb| == b.D
      && !IsFatal(r.rc) && r.iNext == k + 1 && !r.isAttached && !Inv(r, src, S)
  {
    var b, src := Locked(env.lockedD, false), AllZeros(S, k);
    SmoothLoop(b, src, S, -1, env, k);
    hide IsPageSize, CopyLoop, PageRc, PendingPage;
  }

  /** Without a failure before page k, the loop gets there. */
  lemma {:induction false} SmoothLoop(b: Backup, src: seq<Page>, S: nat, left: int, env: Env, k: nat)
    requires Sized(b, src, S) && b.bDestLocked && b.D == env.lockedD && S > 0 && b.D > 0 && !b.fixedSize
    requires left < 0 && b.iNext <= k <= |src| && k != PendingPage(S)
    requires Smooth(S, env, k) && PageRc(S, env, k) != SQLITE_OK
    ensures var (r, rc) := CopyLoop(b, src, S, left, SQLITE_OK, env); r.iNext == k + 1 && rc == PageRc(S, env, k)
    decreases k - b.iNext
  {
    CopyOneRc(b, src, S, env);
    hide Sized, CopyOne, PageRc, PendingPage;
    if b.iNext < k { SmoothLoop(CopyOne(b, src, S, env).0, src, S, left - 1, env, k); }
  }

  /** A backup that copies everything in one step and fails to finish for the time being is live and
      not registered. */
  lemma UnregisteredAtEnd(S: nat, env: Env, wal: bool)
    requires IsPageSize(S) && EnvOk(env) && S > 0 && env.lockedD > 0 && !env.srcInWrite && env.readRc == SQLITE_OK
    requires PageRc(S, env, 1) == SQLITE_OK && Transient(FinishRc(env, wal)) && (wal ==> S == env.lockedD)
    ensures var b, src := Locked(env.lockedD, wal), [Ones(S)];
      var r := Step(b, src, S, -1, env);
      && Inv(b, src, S) && |env.newDb| == b.D
      && !IsFatal(r.rc) && r.iNext == 2 && !r.isAttached && !Inv(r, src, S)
      && Sized(r, src, S) && r.bDestLocked && r.D == env.lockedD && r.wal == wal
      && AllCopied(r.dest, r.D, S, src, 2)
  {
    var b, src := Locked(env.lockedD, wal), [Ones(S)];
    OnePassCopies(S, env, wal);
    hide IsPageSize, CopyOne, AllCopied, PageRc, Complete, AllSized, PageCopied;
    var c := CopyOne(b, src, S, env).0;
    assert CopyLoop(b, src, S, -1, SQLITE_OK, env) == CopyLoop(c, src, S, -2, SQLITE_OK, env) == (c, SQLITE_OK);
    CompleteKeeps(c, src, S, env, 2);
  }

  lemma OnePassCopies(S: nat, env: Env, wal: bool)
    requires IsPageSize(S) && EnvOk(env) && S > 0 && env.lockedD > 0 && PageRc(S, env, 1) == SQLITE_OK
    ensures var b, src := Locked(env.lockedD, wal), [Ones(S)];
      var (c, rc) := CopyOne(b, src, S, env);
      rc == SQLITE_OK && c.iNext == 2 && AllCopied(c.dest, c.D, S, src, 2)
  {
    var b, src := Locked(env.lockedD, wal), [Ones(S)];
    PendingIsLater(S);
    OnePageRc(b.dest, b.D, S, 1, src[0], false, 1, false, env.destRc);
    OnePageCopies(b.dest, b.D, S, 1, src[0], false, 1, false, env.destRc);
    CopyOneRc(b, src, S, env);
    hide IsPageSize, OnePage, AllSized, DestRc, PageCopied, PendingPage;
  }

  /** Such a backup is not told of the next commit, and reports DONE with what the source held before. */
  lemma MissedCommit(S: nat, env: Env, wal: bool, destRc: nat -> int)
    requires IsPageSize(S) && EnvOk(env) && S > 0 && env.lockedD > 0 && !env.srcInWrite && env.readRc == SQLITE_OK
    requires PageRc(S, env, 1) == SQLITE_OK && Transient(FinishRc(env, wal)) && (wal ==> S == env.lockedD)
    ensures var src, src' := [Ones(S)], [Zeros(S)];
      var b := Step(Locked(env.lockedD, wal), src, S, -1, env);
      && Reported(src, src', S, [1])
      && EndsWrong(Told(b, S, src', [1], destRc), src', S, 100)
  {
    var src, src' := [Ones(S)], [Zeros(S)];
    var b := Step(Locked(env.lockedD, wal), src, S, -1, env);
    UnregisteredAtEnd(S, env, wal);
    PendingIsLater(S);
    SizesDivide(S, b.D);
    hide IsPageSize, Step, EndsWrong, ByteAt, PendingPage;
    assert PageCopied(b.dest, b.D, Base(1, S), src[0]);
    assert ByteAt(b.dest, b.D, 100) == src[0][100];
    DivUnique(100, S, 0, 100);
    WrongByteStays(b, src', S, 100);
  }

  /** Why restarts are needed: when a copied page changes unreported, the backup reports DONE with what
      the source held before, unless it is restarted. */
  lemma UnreportedChange(S: nat, D: nat)
    requires IsPageSize(S) && IsPageSize(D)
    ensures S > 0
    ensures
      var b, src, now := CopiedZeros(D, 2), [Zeros(S)], [Ones(S)];
      && Inv(b, src, S) && !Inv(b, now, S) && EndsWrong(b, now, S, 100) && Inv(Restarted(b), now, S)
  {
    var b, src, now := CopiedZeros(D, 2), [Zeros(S)], [Ones(S)];
    OneZeroCopied(S, D);
    SizesDivide(S, D);
    ZeroByte(b.dest, D, 100);
    PendingIsLater(S);
    WithinImage(1, S, D, 100);
    DivUnique(100, S, 0, 100);
    hide PowerOfTwo, ByteAt, PendingPage, EndsWrong, AllCopied, AllSized;
    RestartKeeps(b, src, S, now, S);
    OnesNotCopied(b.dest, D, S, now, 1, 100);
    WrongByteStays(b, now, S, 100);
  }

  lemma OneZeroCopied(S: nat, D: nat)
    requires IsPageSize(S) && IsPageSize(D)
    ensures Inv(CopiedZeros(D, 2), [Zeros(S)], S)
  {
    var dest, src := CopiedZeros(D, 2).dest, [Zeros(S)];
    SizesDivide(S, D);
    ZeroByte(dest, D, 0);
    assert PageCopied(dest, D, Base(1, S), src[0]) by {
      hide IsPageSize;
      forall x: nat | Base(1, S) <= x < Base(1, S) + S ensures x / D < dest.nPage && ByteAt(dest, D, x) == 0 {
        WithinImage(1, S, D, x);
        ZeroByte(dest, D, x);
      }
    }
    hide PageCopied, PowerOfTwo;
  }
}
