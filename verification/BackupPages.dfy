/** Page copies between databases of different page sizes, byte by byte. */
module BackupPages {
  import opened Division

  newtype byte = b: int | 0 <= b < 256

  type Page = seq<byte>
  /** A database as its pager shows it: page contents by page number (from 1) and page count. */
  datatype Pages = Pages(page: map<nat, Page>, nPage: nat)

  const PENDING_BYTE: nat := 0x4000_0000

  predicate PowerOfTwo(n: nat) {
    n == 1 || (n > 0 && n % 2 == 0 && PowerOfTwo(n / 2))
  }

  predicate IsPageSize(n: nat) {
    512 <= n <= 65536 && PowerOfTwo(n)
  }

  function Min(a: nat, b: nat): nat {
    if a < b then a else b
  }

  /** The page that holds the lock byte and is never used. */
  function PendingPage(pgsz: nat): nat
    requires pgsz > 0
  {
    PENDING_BYTE / pgsz + 1
  }

  /** Byte offsets on the pending page of a database with this page size. */
  predicate InPending(x: int, pgsz: nat) {
    PENDING_BYTE <= x < PENDING_BYTE + pgsz
  }

  lemma {:induction false} PowersDivide(a: nat, b: nat)
    requires PowerOfTwo(a) && PowerOfTwo(b) && a <= b
    ensures a > 0 && b % a == 0
  {
    if a > 1 {
      PowersDivide(a / 2, b / 2);
      Parts(b / 2, a / 2);
      assert b == (b / 2 / (a / 2)) * (a / 2) * 2 == (b / 2 / (a / 2)) * a;
      DivUnique(b, a, b / 2 / (a / 2), 0);
    }
  }

  lemma PendingByteIsPower()
    ensures PowerOfTwo(PENDING_BYTE)
  {
    TimesEight(1);
    TimesEight(0x8);
    TimesEight(0x40);
    TimesEight(0x200);
    TimesEight(0x1000);
    TimesEight(0x8000);
    TimesEight(0x40000);
    TimesEight(0x200000);
    TimesEight(0x1000000);
    TimesEight(0x8000000);
    hide PowerOfTwo;
  }

  lemma TimesEight(n: nat)
    requires PowerOfTwo(n)
    ensures PowerOfTwo(8 * n)
  {
    Twice(n);
    Twice(2 * n);
    Twice(4 * n);
    hide PowerOfTwo;
  }

  lemma Twice(n: nat)
    requires PowerOfTwo(n)
    ensures PowerOfTwo(2 * n)
  {
  }

  /** Page sizes are powers of two: the smaller divides the larger, and both divide PENDING_BYTE. */
  lemma SizesDivide(s: nat, d: nat)
    requires IsPageSize(s) && IsPageSize(d)
    ensures 512 <= s <= 65536 && 512 <= d <= 65536 && s % Min(s, d) == 0 && d % Min(s, d) == 0
    ensures PENDING_BYTE % s == 0 && PENDING_BYTE % d == 0
  {
    PendingByteIsPower();
    PowersDivide(s, PENDING_BYTE);
    PowersDivide(d, PENDING_BYTE);
    if s <= d { PowersDivide(s, d); } else { PowersDivide(d, s); }
    PowersDivide(s, s);
    PowersDivide(d, d);
  }

  lemma PageOf(x: nat, pgsz: nat)
    requires IsPageSize(pgsz)
    ensures x / pgsz + 1 == PendingPage(pgsz) <==> InPending(x, pgsz)
  {
    var q := PENDING_BYTE / pgsz;
    SizesDivide(pgsz, pgsz);
    assert PENDING_BYTE == q * pgsz;
    if InPending(x, pgsz) {
      DivUnique(x, pgsz, q, x - PENDING_BYTE);
    }
    assert x == (x / pgsz) * pgsz + x % pgsz;
  }

  /** A block of n aligned bytes does not straddle a page whose size is a multiple of n. */
  lemma BlockFits(x: nat, n: nat, pgsz: nat)
    requires n > 0 && pgsz > 0 && pgsz % n == 0 && x % n == 0
    ensures x % pgsz + n <= pgsz
  {
    var q, r, o := pgsz / n, x / pgsz, x % pgsz;
    assert pgsz == q * n && x == r * pgsz + o;
    var k := x / n;
    assert x == k * n;
    assert r * pgsz == (r * q) * n by { assert r * (q * n) == (r * q) * n; }
    var m := k - r * q;
    assert o == m * n by { assert k * n - (r * q) * n == (k - r * q) * n; }
    if m >= q { MulMono(q, m, n); }
    if m < 0 { MulMono(m, -1, n); }
    MulMono(m + 1, q, n);
    assert (m + 1) * n == m * n + n;
  }

  ghost predicate AllSized(dest: Pages, D: nat) {
    forall q :: q in dest.page ==> |dest.page[q]| == D && 1 <= q <= dest.nPage
  }

  function Zeros(n: nat): (p: Page)
    ensures |p| == n && forall i :: 0 <= i < n ==> p[i] == 0
  {
    seq(n, _ => 0 as byte)
  }

  /** PagerGet: a page that was never written reads as zeros. */
  function GetPage(dest: Pages, D: nat, q: nat): (p: Page)
    requires AllSized(dest, D)
    ensures |p| == D
  {
    if q in dest.page then dest.page[q] else Zeros(D)
  }

  /** The byte at offset x of the database image. */
  function ByteAt(dest: Pages, D: nat, x: nat): byte
    requires D > 0 && AllSized(dest, D)
  {
    GetPage(dest, D, x / D + 1)[x % D]
  }

  /** memcpy of a block into the page that contains offset iOff. */
  function WriteBlock(dest: Pages, D: nat, iOff: nat, block: Page): (r: Pages)
    requires D > 0 && AllSized(dest, D) && iOff % D + |block| <= D
    ensures AllSized(r, D) && r.nPage >= dest.nPage && r.nPage >= iOff / D + 1
  {
    var q, o := iOff / D + 1, iOff % D;
    var p := GetPage(dest, D, q);
    Pages(dest.page[q := p[..o] + block + p[o + |block|..]], if q > dest.nPage then q else dest.nPage)
  }

  lemma WriteBlockBytes(dest: Pages, D: nat, iOff: nat, block: Page, x: nat)
    requires D > 0 && AllSized(dest, D) && iOff % D + |block| <= D
    ensures ByteAt(WriteBlock(dest, D, iOff, block), D, x)
         == if iOff <= x < iOff + |block| then block[x - iOff] else ByteAt(dest, D, x)
  {
    BlockPosition(iOff, |block|, D, x);
    WrittenPage(dest, D, iOff, block, x / D + 1);
    WrittenSize(WriteBlock(dest, D, iOff, block), D, x);
    WrittenSize(dest, D, x);
    hide *;
    var q, o, qx, ox := iOff / D, iOff % D, x / D, x % D;
    Splice(GetPage(dest, D, qx + 1), GetPage(WriteBlock(dest, D, iOff, block), D, qx + 1), o, block, ox, qx == q);
  }

  lemma WrittenSize(dest: Pages, D: nat, x: nat)
    requires D > 0 && AllSized(dest, D)
    ensures |GetPage(dest, D, x / D + 1)| == D && x % D < D
    ensures ByteAt(dest, D, x) == GetPage(dest, D, x / D + 1)[x % D]
  {
  }

  /** Writing a block changes its own page and no other. */
  lemma WrittenPage(dest: Pages, D: nat, iOff: nat, block: Page, q: nat)
    requires D > 0 && AllSized(dest, D) && iOff % D + |block| <= D
    ensures GetPage(WriteBlock(dest, D, iOff, block), D, q) ==
      if q != iOff / D + 1 then GetPage(dest, D, q)
      else GetPage(dest, D, q)[..iOff % D] + block + GetPage(dest, D, q)[iOff % D + |block|..]
  {
  }

  lemma Splice(p: Page, p': Page, o: nat, block: Page, i: nat, same: bool)
    requires o + |block| <= |p| && i < |p| && p' == if same then p[..o] + block + p[o + |block|..] else p
    ensures |p'| == |p| && p'[i] == if same && o <= i < o + |block| then block[i - o] else p[i]
  {
  }

  /** Block bytes are those on its page at its offset. */
  lemma BlockPosition(iOff: nat, n: nat, D: nat, x: nat)
    requires D > 0 && iOff % D + n <= D
    ensures iOff <= x < iOff + n <==> x / D == iOff / D && iOff % D <= x % D < iOff % D + n
    ensures x / D == iOff / D ==> x % D - iOff % D == x - iOff
  {
    var q, o := iOff / D, iOff % D;
    assert iOff == q * D + o;
    assert x == (x / D) * D + x % D;
    if iOff <= x < iOff + n {
      DivUnique(x, D, q, o + (x - iOff));
    }
  }

  /** rc is OK or a code that some page call returned. */
  ghost predicate ReturnedBy(pageRc: nat -> int, rc: int) {
    rc == 0 || exists q: nat :: rc == pageRc(q)
  }

  /** Copies the bytes of a block into the page at offset iOff, unless that is the pending page.
      destRc(q) is the result of fetching and journalling destination page q. */
  function CopyBlock(dest: Pages, D: nat, iOff: nat, block: Page, destRc: nat -> int): (r: (Pages, int))
    requires D > 0 && AllSized(dest, D) && iOff % D + |block| <= D
    ensures AllSized(r.0, D) && ReturnedBy(destRc, r.1)
  {
    var q := iOff / D + 1;
    if q == PendingPage(D) then (dest, 0)
    else if destRc(q) != 0 then (dest, destRc(q))
    else (WriteBlock(dest, D, iOff, block), 0)
  }

  /** The loop of backupOnePage over the destination pages that a larger source page spans, from
      page index q on; it stops at the first failure. */
  function CopyBlocks(dest: Pages, D: nat, q: nat, data: Page, destRc: nat -> int): (r: (Pages, int))
    requires D > 0 && AllSized(dest, D)
    ensures AllSized(r.0, D) && ReturnedBy(destRc, r.1)
    decreases |data|
  {
    if |data| < D then (dest, 0)
    else
      DivUnique(q * D, D, q, 0);
      var (d, rc) := CopyBlock(dest, D, q * D, data[..D], destRc);
      if rc != 0 then (d, rc) else CopyBlocks(d, D, q + 1, data[D..], destRc)
  }

  lemma CopyBlockBytes(dest: Pages, D: nat, iOff: nat, block: Page, destRc: nat -> int, x: nat)
    requires IsPageSize(D) && AllSized(dest, D) && iOff % D + |block| <= D
    requires CopyBlock(dest, D, iOff, block, destRc).1 == 0
    ensures D > 0 && CopiedTo(CopyBlock(dest, D, iOff, block, destRc).0, dest, D, iOff, block, x)
  {
    WriteBlockBytes(dest, D, iOff, block, x);
    BlockPosition(iOff, |block|, D, x);
    PageOf(x, D);
    hide IsPageSize, ByteAt;
  }

  /** What a successful copy of data to offset base leaves at offset x: exactly the bytes of data,
      except those that fall on the pending page of the destination, and nothing else. */
  ghost predicate CopiedTo(r: Pages, dest: Pages, D: nat, base: nat, data: Page, x: nat)
    requires D > 0 && AllSized(r, D) && AllSized(dest, D)
  {
    && ByteAt(r, D, x) == (if base <= x < base + |data| && !InPending(x, D) then data[x - base] else ByteAt(dest, D, x))
    && r.nPage >= dest.nPage && (base <= x < base + |data| && !InPending(x, D) ==> x / D < r.nPage)
  }

  lemma CopiedInTwo(r: Pages, d: Pages, dest: Pages, D: nat, base: nat, data: Page, x: nat)
    requires 0 < D <= |data| && AllSized(r, D) && AllSized(d, D) && AllSized(dest, D)
    requires CopiedTo(d, dest, D, base, data[..D], x) && CopiedTo(r, d, D, base + D, data[D..], x)
    ensures CopiedTo(r, dest, D, base, data, x)
  {
    hide ByteAt, AllSized, InPending;
  }

  lemma CopiedNothing(dest: Pages, D: nat, base: nat, x: nat)
    requires D > 0 && AllSized(dest, D)
    ensures CopiedTo(dest, dest, D, base, [], x)
  {
  }

  lemma {:induction false} CopyBlocksBytes(dest: Pages, D: nat, q: nat, data: Page, destRc: nat -> int, x: nat)
    requires IsPageSize(D) && AllSized(dest, D) && |data| % D == 0
    requires CopyBlocks(dest, D, q, data, destRc).1 == 0
    ensures D > 0 && CopiedTo(CopyBlocks(dest, D, q, data, destRc).0, dest, D, q * D, data, x)
    decreases |data|
  {
    assert D > 0;
    CopyBlocksOn(dest, D, q, data, destRc);
    hide IsPageSize, CopyBlock, CopyBlocks, AllSized, ReturnedBy, CopiedTo;
    if |data| < D {
      DivUnique(|data|, D, 0, |data|);
      CopiedNothing(dest, D, q * D, x);
    } else {
      var d := CopyBlock(dest, D, q * D, data[..D], destRc).0;
      ShorterAligned(|data|, D);
      NextBlock(q, D);
      CopyBlockBytes(dest, D, q * D, data[..D], destRc, x);
      CopyBlocksBytes(d, D, q + 1, data[D..], destRc, x);
      CopiedInTwo(CopyBlocks(dest, D, q, data, destRc).0, d, dest, D, q * D, data, x);
    }
  }

  lemma NextBlock(q: nat, D: nat)
    ensures (q + 1) * D == q * D + D
  {
  }

  /** The loop takes one block and goes on, or stops at a failure. */
  lemma CopyBlocksOn(dest: Pages, D: nat, q: nat, data: Page, destRc: nat -> int)
    requires D > 0 && AllSized(dest, D)
    ensures |data| < D ==> CopyBlocks(dest, D, q, data, destRc) == (dest, 0)
    ensures q * D % D == 0
    ensures |data| >= D ==>
      var r := CopyBlock(dest, D, q * D, data[..D], destRc);
      CopyBlocks(dest, D, q, data, destRc) == if r.1 != 0 then r else CopyBlocks(r.0, D, q + 1, data[D..], destRc)
  {
    DivUnique(q * D, D, q, 0);
    hide CopyBlock;
  }

  lemma ShorterAligned(n: nat, d: nat)
    requires 0 < d <= n && n % d == 0
    ensures (n - d) % d == 0
  {
    Parts(n, d);
    assert n - d == (n / d - 1) * d;
    DivUnique(n - d, d, n / d - 1, 0);
  }

  // ---------------------------------------------------------------- one source page

  const SQLITE_OK: int := 0
  const SQLITE_BUSY: int := 5
  const SQLITE_LOCKED: int := 6
  const SQLITE_NOMEM: int := 7
  const SQLITE_READONLY: int := 8
  const SQLITE_DONE: int := 101

  predicate IsFatal(rc: int) {
    rc != SQLITE_OK && rc != SQLITE_BUSY && rc != SQLITE_LOCKED
  }

  /** Big-endian 32-bit value. */
  function Put4(n: nat): (r: Page)
    ensures |r| == 4
  {
    [(n / 0x100_0000 % 256) as byte, (n / 0x1_0000 % 256) as byte, (n / 0x100 % 256) as byte, (n % 256) as byte]
  }

  /** The big-endian 32-bit value at offset o of the database image. */
  function WordAt(dest: Pages, D: nat, o: nat): nat
    requires D > 0 && AllSized(dest, D)
  {
    Word(ByteAt(dest, D, o), ByteAt(dest, D, o + 1), ByteAt(dest, D, o + 2), ByteAt(dest, D, o + 3))
  }

  function Word(a: byte, b: byte, c: byte, d: byte): (r: nat)
    ensures r < 0x1_0000_0000
  {
    a as nat * 0x100_0000 + b as nat * 0x1_0000 + c as nat * 0x100 + d as nat
  }

  lemma Put4Reads(n: nat)
    ensures Word(Put4(n)[0], Put4(n)[1], Put4(n)[2], Put4(n)[3]) == n % 0x1_0000_0000
  {
    var a := n / 256;
    var b := a / 256;
    var c := b / 256;
    assert n / 0x1_0000 == b && n / 0x100_0000 == c;
    var low := c % 256 * 0x100_0000 + b % 256 * 0x1_0000 + a % 256 * 0x100 + n % 256;
    assert n == c / 256 * 0x1_0000_0000 + low;
    DivUnique(n, 0x1_0000_0000, c / 256, low);
  }

  /** The bytes copied for page k: a first copy of page 1 carries the current page count. */
  function Outgoing(data: Page, k: nat, bUpdate: bool, nSrcPage: nat): (r: Page)
    requires |data| >= 512
    ensures |r| == |data| && forall i :: 100 <= i < |data| ==> r[i] == data[i]
    ensures k != 1 || bUpdate ==> r == data
  {
    if k == 1 && !bUpdate then data[..28] + Put4(nSrcPage) + data[32..] else data
  }

  /** Offset of the first byte of page k. */
  function Base(k: nat, S: nat): nat
    requires k > 0
  {
    (k - 1) * S
  }

  /** backupOnePage: the new destination and the result code. */
  function OnePage(dest: Pages, D: nat, S: nat, k: nat, data: Page, bUpdate: bool, nSrcPage: nat, fixedSize: bool,
                   destRc: nat -> int): (r: (Pages, int))
    requires IsPageSize(S) && IsPageSize(D) && AllSized(dest, D) && |data| == S && k > 0
    ensures AllSized(r.0, D) && (ReturnedBy(destRc, r.1) || r.1 == SQLITE_READONLY)
  {
    if S != D && fixedSize then (dest, SQLITE_READONLY)
    else
      BaseAligned(k, S, D);
      var out := Outgoing(data, k, bUpdate, nSrcPage);
      if S < D then CopyBlock(dest, D, (k - 1) * S, out, destRc)
      else CopyBlocks(dest, D, (k - 1) * (S / D), out, destRc)
  }

  // ---------------------------------------------------------------- which code a page copy returns

  /** The first failure among the destination pages q+1 to q+n; the pending page is not touched. */
  function BlocksRc(D: nat, q: nat, n: nat, destRc: nat -> int): int
    requires D > 0
    decreases n
  {
    if n == 0 then SQLITE_OK
    else if q + 1 != PendingPage(D) && destRc(q + 1) != SQLITE_OK then destRc(q + 1)
    else BlocksRc(D, q + 1, n - 1, destRc)
  }

  /** The first failure among the destination pages that source page k covers. */
  function DestRc(D: nat, S: nat, k: nat, destRc: nat -> int): int
    requires D > 0 && S > 0 && k > 0
  {
    if S < D then BlocksRc(D, (k - 1) * S / D, 1, destRc) else BlocksRc(D, (k - 1) * (S / D), S / D, destRc)
  }

  lemma {:induction false} CopyBlocksRc(dest: Pages, D: nat, q: nat, data: Page, destRc: nat -> int)
    requires D > 0 && AllSized(dest, D)
    ensures CopyBlocks(dest, D, q, data, destRc).1 == BlocksRc(D, q, |data| / D, destRc)
    decreases |data|
  {
    CopyBlocksOn(dest, D, q, data, destRc);
    hide AllSized, ReturnedBy, WriteBlock, CopyBlocks;
    if |data| < D {
      DivUnique(|data|, D, 0, |data|);
    } else {
      DivUnique(q * D, D, q, 0);
      Parts(|data|, D);
      OneLess(|data|, D);
      CopyBlocksRc(CopyBlock(dest, D, q * D, data[..D], destRc).0, D, q + 1, data[D..], destRc);
    }
  }

  lemma OneLess(n: nat, d: nat)
    requires 0 < d <= n
    ensures n / d >= 1 && (n - d) / d == n / d - 1
  {
    Parts(n, d);
    if n / d < 1 { MulMono(n / d, 0, d); }
    assert (n / d - 1) * d == (n / d) * d - d;
    DivUnique(n - d, d, n / d - 1, n % d);
  }

  /** backupOnePage fails exactly when the size of the destination's pages cannot change but has to,
      or one of the destination pages fails. */
  lemma OnePageRc(dest: Pages, D: nat, S: nat, k: nat, data: Page, bUpdate: bool, nSrcPage: nat, fixedSize: bool,
                  destRc: nat -> int)
    requires IsPageSize(S) && IsPageSize(D) && AllSized(dest, D) && |data| == S && k > 0
    ensures D > 0 && S > 0
    ensures OnePage(dest, D, S, k, data, bUpdate, nSrcPage, fixedSize, destRc).1 ==
      if S != D && fixedSize then SQLITE_READONLY else DestRc(D, S, k, destRc)
  {
    BaseAligned(k, S, D);
    hide IsPageSize, AllSized, ReturnedBy, WriteBlock, CopyBlocks;
    if S >= D {
      CopyBlocksRc(dest, D, (k - 1) * (S / D), Outgoing(data, k, bUpdate, nSrcPage), destRc);
    }
  }

  /** A copy that stops at a failure leaves a byte of the page, off the pending page, as it was. */
  lemma {:induction false} CopyBlocksStop(dest: Pages, D: nat, q: nat, data: Page, destRc: nat -> int) returns (x: nat)
    requires IsPageSize(D) && AllSized(dest, D) && |data| % D == 0
    requires CopyBlocks(dest, D, q, data, destRc).1 != SQLITE_OK
    ensures q * D + 100 <= x < q * D + |data| && !InPending(x, D)
    ensures ByteAt(CopyBlocks(dest, D, q, data, destRc).0, D, x) == ByteAt(dest, D, x)
    decreases |data|
  {
    assert D >= 512;
    CopyBlocksOn(dest, D, q, data, destRc);
    hide IsPageSize, CopyBlocks, AllSized, ReturnedBy, ByteAt, WriteBlock;
    var (d, rc) := CopyBlock(dest, D, q * D, data[..D], destRc);
    if rc != SQLITE_OK {
      x := q * D + 100;
      DivUnique(q * D, D, q, 0);
      DivUnique(x, D, q, 100);
      PageOf(x, D);
    } else {
      ShorterAligned(|data|, D);
      NextBlock(q, D);
      hide CopyBlock;
      x := CopyBlocksStop(d, D, q + 1, data[D..], destRc);
      CopyBlockBytes(dest, D, q * D, data[..D], destRc, x);
    }
  }

  lemma OnePageStop(dest: Pages, D: nat, S: nat, k: nat, data: Page, nSrcPage: nat, destRc: nat -> int) returns (x: nat)
    requires IsPageSize(S) && IsPageSize(D) && AllSized(dest, D) && |data| == S && k > 0
    requires D > 0 && S > 0 && DestRc(D, S, k, destRc) != SQLITE_OK
    ensures Base(k, S) + 100 <= x < Base(k, S) + S && !InPending(x, D)
    ensures ByteAt(OnePage(dest, D, S, k, data, false, nSrcPage, false, destRc).0, D, x) == ByteAt(dest, D, x)
  {
    BaseAligned(k, S, D);
    OnePageRc(dest, D, S, k, data, false, nSrcPage, false, destRc);
    var base := Base(k, S);
    if S < D {
      x := base + 100;
      PageOf(base, D);
      DivUnique(base, S, k - 1, 0);
      OffPending(base, 100, S, D);
      hide IsPageSize, ByteAt, WriteBlock, PendingPage, AllSized;
    } else {
      hide IsPageSize, ByteAt, WriteBlock, PendingPage, AllSized;
      assert (k - 1) * (S / D) * D == base;
      x := CopyBlocksStop(dest, D, (k - 1) * (S / D), Outgoing(data, k, false, nSrcPage), destRc);
    }
  }

  /** An aligned page lies on the destination's pending page as a whole, or not at all. */
  lemma OffPending(base: nat, i: nat, S: nat, D: nat)
    requires IsPageSize(S) && IsPageSize(D) && S < D && base % S == 0 && i < S
    ensures InPending(base + i, D) <==> InPending(base, D)
  {
    SizesDivide(S, D);
    hide IsPageSize;
    Parts(base, S);
    Parts(D, S);
    Parts(PENDING_BYTE, S);
    Apart(base / S, PENDING_BYTE / S, S);
    Apart(base / S, PENDING_BYTE / S + D / S, S);
    assert (PENDING_BYTE / S + D / S) * S == PENDING_BYTE + D;
  }

  lemma Apart(a: nat, b: nat, S: nat)
    ensures a < b ==> a * S + S <= b * S
    ensures a >= b ==> a * S >= b * S
  {
    if a < b { MulMono(a + 1, b, S); assert (a + 1) * S == a * S + S; } else { MulMono(b, a, S); }
  }

  /** A page whose place in the destination is the pending page needs no page call there. */
  lemma PendingIsFree(D: nat, S: nat, k: nat, destRc: nat -> int)
    requires IsPageSize(S) && IsPageSize(D) && k > 0 && InPending(Base(k, S), D)
    ensures D > 0 && S > 0 && (k == PendingPage(S) || DestRc(D, S, k, destRc) == SQLITE_OK)
    ensures k == PendingPage(S) || forall x: nat {:trigger InPending(x, D)} :: Base(k, S) <= x < Base(k, S) + S ==>
      InPending(x, D)
  {
    BaseAligned(k, S, D);
    var base := Base(k, S);
    DivUnique(base, S, k - 1, 0);
    if S < D {
      PageOf(base, D);
      hide IsPageSize;
      forall x: nat {:trigger InPending(x, D)} | base <= x < base + S ensures InPending(x, D) {
        OffPending(base, x - base, S, D);
      }
    } else {
      PendingHolds(base, S, D);
      PageOf(base, S);
      hide IsPageSize, PendingPage;
    }
  }

  lemma PendingHolds(x: nat, S: nat, D: nat)
    requires S >= D && InPending(x, D)
    ensures InPending(x, S)
  {
  }

  /** A smaller source page fits inside one destination page; a larger one starts a page. */
  lemma BaseAligned(k: nat, S: nat, D: nat)
    requires IsPageSize(S) && IsPageSize(D) && k > 0
    ensures S >= 512 && D >= 512 && (k - 1) * S >= 0
    ensures S < D ==> (k - 1) * S % D + S <= D
    ensures S >= D ==> S % D == 0 && (k - 1) * (S / D) * D == (k - 1) * S && (k - 1) * (S / D) >= 0
  {
    SizesDivide(S, D);
    hide *;
    if S < D {
      SmallAligned(k - 1, S, D);
    } else {
      LargeAligned(k - 1, S, D);
    }
  }

  lemma SmallAligned(n: nat, S: nat, D: nat)
    requires 0 < S && 0 < D && D % S == 0
    ensures n * S >= 0 && n * S % D + S <= D
  {
    DivUnique(n * S, S, n, 0);
    BlockFits(n * S, S, D);
  }

  lemma LargeAligned(n: nat, S: nat, D: nat)
    requires 0 < D && S % D == 0
    ensures n * S >= 0 && n * (S / D) * D == n * S && n * (S / D) >= 0
  {
    var q := S / D;
    assert S == q * D;
    assert n * (q * D) == n * q * D;
  }

  /** The bytes of the destination after a successful copy of page k. */
  lemma OnePageBytes(dest: Pages, D: nat, S: nat, k: nat, data: Page, bUpdate: bool, nSrcPage: nat, fixedSize: bool,
                     destRc: nat -> int, x: nat)
    requires IsPageSize(S) && IsPageSize(D) && AllSized(dest, D) && |data| == S && k > 0
    requires OnePage(dest, D, S, k, data, bUpdate, nSrcPage, fixedSize, destRc).1 == SQLITE_OK
    ensures var r, base := OnePage(dest, D, S, k, data, bUpdate, nSrcPage, fixedSize, destRc).0, Base(k, S);
      && D > 0 && r.nPage >= dest.nPage
      && (if base <= x < base + S && !InPending(x, D)
          then x / D < r.nPage && ByteAt(r, D, x) == Outgoing(data, k, bUpdate, nSrcPage)[x - base]
          else ByteAt(r, D, x) == ByteAt(dest, D, x))
  {
    hide IsPageSize, ByteAt;
    BaseAligned(k, S, D);
    var out := Outgoing(data, k, bUpdate, nSrcPage);
    if S < D { CopyBlockBytes(dest, D, (k - 1) * S, out, destRc, x); }
    else { CopyBlocksBytes(dest, D, (k - 1) * (S / D), out, destRc, x); }
  }

  /** The destination holds source page k: every byte past the 100-byte header of the file and off
      the destination's own pending page. */
  ghost predicate PageCopied(dest: Pages, D: nat, base: int, data: Page)
    requires D > 0 && AllSized(dest, D)
  {
    forall x: nat {:trigger ByteAt(dest, D, x)} :: base <= x < base + |data| && 100 <= x && !InPending(x, D) ==>
      x / D < dest.nPage && ByteAt(dest, D, x) == data[x - base]
  }

  /** The same patch of bytes leaves a copy in place when it lies elsewhere. */
  lemma PatchKeepsPage(dest: Pages, D: nat, o: nat, block: Page, base: int, data: Page)
    requires D > 0 && AllSized(dest, D) && o % D + |block| <= D && o + |block| <= 100
    requires PageCopied(dest, D, base, data)
    ensures PageCopied(WriteBlock(dest, D, o, block), D, base, data)
  {
    var r := WriteBlock(dest, D, o, block);
    forall x: nat | base <= x < base + |data| && 100 <= x && !InPending(x, D)
      ensures x / D < r.nPage && ByteAt(r, D, x) == data[x - base]
    {
      WriteBlockBytes(dest, D, o, block, x);
      assert ByteAt(dest, D, x) == data[x - base];
    }
    hide ByteAt, WriteBlock;
  }

  lemma OnePageCopies(dest: Pages, D: nat, S: nat, k: nat, data: Page, bUpdate: bool, nSrcPage: nat, fixedSize: bool,
                      destRc: nat -> int)
    requires IsPageSize(S) && IsPageSize(D) && AllSized(dest, D) && |data| == S && k > 0
    requires OnePage(dest, D, S, k, data, bUpdate, nSrcPage, fixedSize, destRc).1 == SQLITE_OK
    ensures
      var r := OnePage(dest, D, S, k, data, bUpdate, nSrcPage, fixedSize, destRc).0;
      D > 0 && PageCopied(r, D, Base(k, S), data)
  {
    assert S >= 512 && D >= 512;
    hide IsPageSize, OnePage, ByteAt, InPending, Outgoing;
    var base := Base(k, S);
    var r := OnePage(dest, D, S, k, data, bUpdate, nSrcPage, fixedSize, destRc).0;
    var out := Outgoing(data, k, bUpdate, nSrcPage);
    forall x: nat | base <= x < base + S && 100 <= x && !InPending(x, D)
      ensures x / D < r.nPage && ByteAt(r, D, x) == data[x - base]
    {
      OnePageBytes(dest, D, S, k, data, bUpdate, nSrcPage, fixedSize, destRc, x);
      assert k == 1 ==> base == 0;
      assert out[x - base] == data[x - base];
    }
  }

  /** Copying one page leaves the copies of all other pages in place. */
  lemma OnePageKeeps(dest: Pages, D: nat, S: nat, k: nat, data: Page, bUpdate: bool, nSrcPage: nat, fixedSize: bool,
                     destRc: nat -> int, j: nat, other: Page)
    requires IsPageSize(S) && IsPageSize(D) && AllSized(dest, D) && |data| == S == |other| && k > 0 && j > 0 && j != k
    requires OnePage(dest, D, S, k, data, bUpdate, nSrcPage, fixedSize, destRc).1 == SQLITE_OK
    requires D > 0 && PageCopied(dest, D, Base(j, S), other)
    ensures PageCopied(OnePage(dest, D, S, k, data, bUpdate, nSrcPage, fixedSize, destRc).0, D, Base(j, S), other)
  {
    hide IsPageSize, OnePage, ByteAt, InPending;
    var base := Base(j, S);
    var r := OnePage(dest, D, S, k, data, bUpdate, nSrcPage, fixedSize, destRc).0;
    PagesApart(j, k, S);
    forall x: nat | base <= x < base + S && 100 <= x && !InPending(x, D)
      ensures x / D < r.nPage && ByteAt(r, D, x) == other[x - base]
    {
      OnePageBytes(dest, D, S, k, data, bUpdate, nSrcPage, fixedSize, destRc, x);
      assert ByteAt(dest, D, x) == other[x - base];
    }
  }

  lemma PagesApart(j: nat, k: nat, S: nat)
    requires j > 0 && k > 0 && j != k
    ensures Base(j, S) + S <= Base(k, S) || Base(k, S) + S <= Base(j, S)
  {
    assert j * S == (j - 1) * S + S && k * S == (k - 1) * S + S;
    if j < k { MulMono(j, k - 1, S); } else { MulMono(k, j - 1, S); }
  }
}
