/** Completing a backup: the header, the final size, and the pages that follow the pending page. */
module BackupFinish {
  import opened Division
  import opened BackupPages

  /** Every page but the source's pending page has been copied. */
  ghost predicate AllCopied(dest: Pages, D: nat, S: nat, src: seq<Page>, upTo: nat)
    requires D > 0 && S > 0 && AllSized(dest, D)
  {
    forall k {:trigger src[k - 1]} :: 1 <= k <= |src| && k < upTo && k != PendingPage(S) ==>
      PageCopied(dest, D, Base(k, S), src[k - 1])
  }

  predicate SourceSized(src: seq<Page>, S: nat) {
    forall k {:trigger src[k]} :: 0 <= k < |src| ==> |src[k]| == S
  }

  /** Overwrites bytes inside the 100-byte header of page 1. */
  function PatchHeader(dest: Pages, D: nat, o: nat, block: Page): (r: Pages)
    requires 100 < D && AllSized(dest, D) && o + |block| <= 100
    ensures AllSized(r, D)
  {
    DivUnique(o, D, 0, o);
    WriteBlock(dest, D, o, block)
  }

  lemma PatchKeeps(dest: Pages, D: nat, S: nat, o: nat, block: Page, src: seq<Page>, upTo: nat)
    requires 100 < D && S > 0 && AllSized(dest, D) && o + |block| <= 100 && AllCopied(dest, D, S, src, upTo)
    ensures AllCopied(PatchHeader(dest, D, o, block), D, S, src, upTo)
  {
    DivUnique(o, D, 0, o);
    var r := PatchHeader(dest, D, o, block);
    forall k {:trigger src[k - 1]} | 1 <= k <= |src| && k < upTo && k != PendingPage(S)
      ensures PageCopied(r, D, Base(k, S), src[k - 1])
    {
      PatchKeepsPage(dest, D, o, block, Base(k, S), src[k - 1]);
    }
  }

  // ---------------------------------------------------------------- the final page count

  /** nDestTruncate */
  function DestTruncate(S: nat, D: nat, nSrcPage: nat): int
    requires S > 0 && D > 0
  {
    if S < D then
      var ratio := D / S;
      if ratio == 0 then 0 else
      var n := (nSrcPage + ratio - 1) / ratio;
      if n == PendingPage(D) then n - 1 else n
    else nSrcPage * (S / D)
  }

  /** The two asserts about the final size. */
  lemma TruncateAsserts(S: nat, D: nat, nSrcPage: nat)
    requires IsPageSize(S) && IsPageSize(D) && nSrcPage > 0
    ensures var n := DestTruncate(S, D, nSrcPage);
      && n > 0
      && (S < D ==>
           || n * D >= S * nSrcPage
           || (n == PendingPage(D) - 1 && PENDING_BYTE <= S * nSrcPage <= PENDING_BYTE + D))
      && (S >= D ==> n * D == S * nSrcPage)
  {
    if S < D { TruncateSmall(S, D, nSrcPage); } else { TruncateLarge(S, D, nSrcPage); }
  }

  lemma TruncateLarge(S: nat, D: nat, nSrcPage: nat)
    requires IsPageSize(S) && IsPageSize(D) && nSrcPage > 0 && S >= D
    ensures DestTruncate(S, D, nSrcPage) > 0 && DestTruncate(S, D, nSrcPage) * D == S * nSrcPage
  {
    hide IsPageSize;
    SizesDivide(S, D);
    var r := S / D;
    assert S == r * D;
    assert nSrcPage * r * D == (r * D) * nSrcPage;
    MulMono(1, nSrcPage, r);
  }

  lemma TruncateSmall(S: nat, D: nat, nSrcPage: nat)
    requires IsPageSize(S) && IsPageSize(D) && nSrcPage > 0 && S < D
    ensures var n := DestTruncate(S, D, nSrcPage);
      && n > 0
      && (n * D >= S * nSrcPage
          || (n == PendingPage(D) - 1 && PENDING_BYTE <= S * nSrcPage <= PENDING_BYTE + D))
  {
    var r := D / S;
    Ratio(S, D);
    PendingIsLater(D);
    PendingAligned(S, D);
    hide IsPageSize, PendingPage;
    var c := (nSrcPage + r - 1) / r;
    CeilBounds(nSrcPage, r);
    ScaleBounds(nSrcPage, c, r, S);
    LastPartial(c, D);
  }

  lemma LastPartial(c: nat, D: nat)
    ensures (c - 1) * D == c * D - D
  {
  }

  lemma PendingAligned(S: nat, D: nat)
    requires IsPageSize(S) && IsPageSize(D)
    ensures PENDING_BYTE == (PendingPage(D) - 1) * D
  {
    SizesDivide(S, D);
    Parts(PENDING_BYTE, D);
  }

  lemma Ratio(S: nat, D: nat)
    requires IsPageSize(S) && IsPageSize(D) && S < D
    ensures D / S > 0 && D == (D / S) * S
  {
    SizesDivide(S, D);
    hide IsPageSize;
    Parts(D, S);
    Below(D, 1, S);
  }

  lemma ScaleBounds(n: nat, c: nat, r: nat, S: nat)
    requires c > 0 && c * r >= n && (c - 1) * r < n && S > 0
    ensures c * (r * S) >= S * n && (c - 1) * (r * S) < S * n
  {
    MulMono(n, c * r, S);
    MulMono((c - 1) * r + 1, n, S);
    Reassociate(c, r, S);
    Reassociate(c - 1, r, S);
    Distribute((c - 1) * r, S);
  }

  lemma Reassociate(a: nat, b: nat, c: nat)
    ensures a * (b * c) == (a * b) * c
  {
  }

  lemma Distribute(a: nat, b: nat)
    ensures (a + 1) * b == a * b + b
  {
  }

  lemma PendingIsLater(D: nat)
    requires IsPageSize(D)
    ensures PendingPage(D) >= 2
  {
  }

  lemma CeilBounds(n: nat, r: nat)
    requires n > 0 && r > 0
    ensures var c := (n + r - 1) / r; c >= 1 && c * r >= n && (c - 1) * r < n
  {
    var c, m := (n + r - 1) / r, (n + r - 1) % r;
    assert c * r + m == n + r - 1;
    assert (c - 1) * r == c * r - r;
    assert 0 * r == 0;
  }

  // ---------------------------------------------------------------- the file

  /** CommitPhaseOne: the first n pages of the image as the bytes of the file. */
  function FileOf(dest: Pages, D: nat, n: nat): (f: seq<byte>)
    requires D > 0 && AllSized(dest, D)
    ensures |f| == n * D
  {
    seq(n * D, x requires 0 <= x < n * D => ByteAt(dest, D, x))
  }

  /** OsWrite: a write past the end extends the file with zeros. */
  function OsWrite(f: seq<byte>, block: Page, off: nat): (r: seq<byte>)
    ensures |r| >= |f| && |r| >= off + |block|
    ensures forall x :: 0 <= x < |r| ==>
      r[x] == if off <= x < off + |block| then block[x - off] else if x < |f| then f[x] else 0
  {
    var g := if |f| < off + |block| then f + Zeros(off + |block| - |f|) else f;
    g[..off] + block + g[off + |block|..]
  }

  /** The loop that writes the source pages behind the pending page straight into the file. */
  function WriteExtra(f: seq<byte>, src: seq<Page>, S: nat, iOff: nat, iEnd: nat): (r: seq<byte>)
    requires S > 0 && iEnd <= S * |src|
    ensures |r| >= |f|
    decreases iEnd - iOff
  {
    if iOff >= iEnd then f
    else
      OffsetInSource(iOff, S, |src|);
      WriteExtra(OsWrite(f, src[iOff / S], iOff), src, S, iOff + S, iEnd)
  }

  lemma OffsetInSource(x: nat, S: nat, n: nat)
    requires S > 0 && x < S * n
    ensures x / S < n
  {
    Below(x, n, S);
  }

  /** The byte of the source at offset x. */
  function SourceByte(src: seq<Page>, S: nat, x: nat): byte
    requires S > 0 && SourceSized(src, S) && x < S * |src|
  {
    OffsetInSource(x, S, |src|);
    src[x / S][x % S]
  }

  /** The extra writes do not reach past their end. */
  lemma {:induction false} BeyondExtra(f: seq<byte>, src: seq<Page>, S: nat, iOff: nat, iEnd: nat, x: nat)
    requires S > 0 && SourceSized(src, S) && iEnd <= S * |src| && iOff % S == 0 && iEnd % S == 0
    requires (x < iOff || x >= iEnd) && x < |f|
    ensures WriteExtra(f, src, S, iOff, iEnd)[x] == f[x]
    decreases iEnd - iOff
  {
    if iOff < iEnd {
      OffsetInSource(iOff, S, |src|);
      NextAligned(iOff, S, S);
      WithinAligned(iOff, iEnd, S);
      BeyondExtra(OsWrite(f, src[iOff / S], iOff), src, S, iOff + S, iEnd, x);
    }
  }

  lemma {:induction false} WriteExtraBytes(f: seq<byte>, src: seq<Page>, S: nat, iOff: nat, iEnd: nat, x: nat)
    requires S > 0 && SourceSized(src, S) && iEnd <= S * |src| && iOff % S == 0 && iEnd % S == 0
    requires iOff <= x < iEnd
    ensures var r := WriteExtra(f, src, S, iOff, iEnd);
      x < |r| && r[x] == SourceByte(src, S, x)
    decreases iEnd - iOff
  {
    OffsetInSource(iOff, S, |src|);
    NextAligned(iOff, S, S);
    WithinAligned(iOff, iEnd, S);
    var g := OsWrite(f, src[iOff / S], iOff);
    if x < iOff + S {
      Parts(iOff, S);
      DivUnique(x, S, iOff / S, x - iOff);
      BeyondExtra(g, src, S, iOff + S, iEnd, x);
    } else {
      WriteExtraBytes(g, src, S, iOff + S, iEnd, x);
    }
  }

  lemma WithinAligned(a: nat, b: nat, S: nat)
    requires S > 0 && a % S == 0 && b % S == 0 && a < b
    ensures a + S <= b
  {
    assert a == (a / S) * S && b == (b / S) * S;
    if a / S >= b / S { MulMono(b / S, a / S, S); }
    MulMono(a / S + 1, b / S, S);
    assert (a / S + 1) * S == (a / S) * S + S;
  }

  /** The destination file once everything is written and cut to size. */
  function FinalFile(dest: Pages, D: nat, S: nat, src: seq<Page>): (f: seq<byte>)
    requires D > 0 && S > 0 && AllSized(dest, D) && src != []
  {
    var iSize := S * |src|;
    if S < D then
      var f := WriteExtra(FileOf(dest, D, dest.nPage), src, S, PENDING_BYTE + S, Min(PENDING_BYTE + D, iSize));
      if |f| > iSize then f[..iSize] else f
    else
      var n := DestTruncate(S, D, |src|);
      FileOf(dest, D, if n < 0 then 0 else n)
  }

  /** A byte of the image, off the pending page of the source, is already copied or still to be
      written as one of the extra pages. */
  lemma ImageByte(dest: Pages, D: nat, S: nat, src: seq<Page>, x: nat)
    requires IsPageSize(S) && IsPageSize(D) && AllSized(dest, D) && SourceSized(src, S)
    requires AllCopied(dest, D, S, src, |src| + 1)
    requires 100 <= x < S * |src| && !InPending(x, S) && !InPending(x, D)
    ensures x / D < dest.nPage && ByteAt(dest, D, x) == SourceByte(src, S, x)
  {
    PageOf(x, S);
    SizesDivide(S, D);
    hide IsPageSize, ByteAt, PendingPage, InPending, Base, AllSized;
    var k := x / S + 1;
    Located(S, src, x);
    assert PageCopied(dest, D, Base(k, S), src[k - 1]);
    hide AllCopied;
    CopiedByte(dest, D, Base(k, S), src[k - 1], x);
  }

  /** The page of offset x, and x's place on it. */
  lemma Located(S: nat, src: seq<Page>, x: nat)
    requires S > 0 && SourceSized(src, S) && x < S * |src|
    ensures x / S < |src| && Base(x / S + 1, S) + x % S == x && |src[x / S]| == S
  {
    OffsetInSource(x, S, |src|);
    Parts(x, S);
    BaseOf(x / S, S);
  }

  lemma BaseOf(q: nat, S: nat)
    ensures Base(q + 1, S) == q * S
  {
  }

  lemma CopiedByte(dest: Pages, D: nat, base: nat, data: Page, x: nat)
    requires D > 0 && AllSized(dest, D) && PageCopied(dest, D, base, data)
    requires base <= x < base + |data| && 100 <= x && !InPending(x, D)
    ensures x / D < dest.nPage && ByteAt(dest, D, x) == data[x - base]
  {
    assert ByteAt(dest, D, x) == data[x - base];
  }

  /** The file holds the image, off the destination's pending page, up to the size of the source. */
  lemma FileByte(dest: Pages, D: nat, S: nat, src: seq<Page>, x: nat)
    requires IsPageSize(S) && IsPageSize(D) && AllSized(dest, D) && SourceSized(src, S) && src != []
    requires x < S * |src| && !InPending(x, D) && x / D < dest.nPage
    ensures var f := FinalFile(dest, D, S, src); x < |f| <= S * |src| && f[x] == ByteAt(dest, D, x)
  {
    if S >= D {
      TruncateAsserts(S, D, |src|);
    } else {
      ExtraAligned(S, D, |src|);
      hide IsPageSize, ByteAt;
      Below(x, dest.nPage, D);
      BeyondExtra(FileOf(dest, D, dest.nPage), src, S, PENDING_BYTE + S, Min(PENDING_BYTE + D, S * |src|), x);
    }
  }

  /** The extra writes start and end at page boundaries of the source. */
  lemma ExtraAligned(S: nat, D: nat, n: nat)
    requires IsPageSize(S) && IsPageSize(D) && S < D
    ensures S > 0 && (PENDING_BYTE + S) % S == 0 && Min(PENDING_BYTE + D, S * n) % S == 0
  {
    SizesDivide(S, D);
    hide IsPageSize;
    DivUnique(S * n, S, n, 0);
    NextAligned(PENDING_BYTE, S, D);
    NextAligned(PENDING_BYTE, S, S);
  }

  /** The main result: once a backup is done, every byte of the source database has its copy,
      except the source's pending page and the 100-byte header of the file. */
  lemma FinalBytes(dest: Pages, D: nat, S: nat, src: seq<Page>, x: nat)
    requires IsPageSize(S) && IsPageSize(D) && AllSized(dest, D) && SourceSized(src, S) && src != []
    requires AllCopied(dest, D, S, src, |src| + 1)
    requires 100 <= x < S * |src| && !InPending(x, S)
    ensures var f := FinalFile(dest, D, S, src); x < |f| <= S * |src| && f[x] == SourceByte(src, S, x)
  {
    if !InPending(x, D) {
      ImageByte(dest, D, S, src, x);
      FileByte(dest, D, S, src, x);
    } else {
      ExtraAligned(S, D, |src|);
      hide IsPageSize, ByteAt;
      WriteExtraBytes(FileOf(dest, D, dest.nPage), src, S, PENDING_BYTE + S, Min(PENDING_BYTE + D, S * |src|), x);
    }
  }
}
