/**
  The buffered (write-buffer) program operation. The byte length is a 16-bit
  unsigned counter that each page decrements by twice the page's word count;
  the loop runs until that counter is exactly 0. Every page is unlocked and
  commanded at the fixed address `base + addr`, while the data pointer
  advances word by word from `base + addr`.
 */
module BufferedWrite {
  import opened Bus
  import opened Sequencer

  /** Words the chip's write buffer takes per page. */
  const BufferSize: nat := 32

  // ---------------------------------------------------------------------------
  // The 16-bit length counter
  // ---------------------------------------------------------------------------

  /** Words in the next page: the remaining length rounded up to words, capped at the buffer size. */
  function Block(len: Word): (b: nat)
    ensures b <= BufferSize
    ensures len > 0 ==> b >= 1
    ensures 2 * b <= len + 1
    ensures len % 2 == 0 ==> 2 * b <= len
    ensures len % 2 == 0 && len <= 64 ==> 2 * b == len
    ensures len > 64 ==> b == 32
  {
    var words := (len + 1) / 2;
    if words >= BufferSize then BufferSize else words
  }

  /** The counter after one page: `len -= block * 2`, wrapping modulo 2^16. */
  function NextLen(len: Word): (r: Word)
    ensures r % 2 == len % 2
    ensures len % 2 == 0 ==> r == len - 2 * Block(len)
    ensures len > 64 ==> r == len - 64
  {
    (len - 2 * Block(len)) % 0x1_0000
  }

  /** The counter after `k` pages. */
  function LenAfter(len: Word, k: nat): Word
    decreases k
  {
    if k == 0 then len else LenAfter(NextLen(len), k - 1)
  }

  /** Pages of an even-length write: ceil(len / 64). */
  function PageCount(len: Word): nat {
    (len + 63) / 64
  }

  /** Words in page `k` of an even-length write: min(remaining words, 32). */
  function PageSize(len: Word, k: nat): (s: nat)
    requires len % 2 == 0 && k < PageCount(len)
    ensures 1 <= s <= BufferSize
    ensures 32 * k + s <= len / 2
    ensures s == BufferSize || 32 * k + s == len / 2
  {
    var rest := len / 2 - 32 * k;
    if rest >= BufferSize then BufferSize else rest
  }

  /** An odd length never brings the counter to 0, so the loop never exits. */
  lemma {:induction false} OddLengthNeverExits(len: Word, k: nat)
    requires len % 2 == 1
    ensures LenAfter(len, k) % 2 == 1
    ensures LenAfter(len, k) != 0
    decreases k
  {
    if k > 0 {
      OddLengthNeverExits(NextLen(len), k - 1);
    }
  }

  /**
    On the last page of an odd length, the subtraction takes away one byte
    more than is left, and the counter wraps to 0xFFFF.
   */
  lemma OddLastPageOvershoots(len: Word)
    requires len % 2 == 1 && len < 64
    ensures 2 * Block(len) == len + 1
    ensures 2 * Block(len) > len
    ensures NextLen(len) == 0xFFFF
  {
  }

  /** An even length counts down by 64 per page and reaches 0 after exactly PageCount pages. */
  lemma {:induction false} EvenLengthExits(len: Word)
    requires len % 2 == 0
    ensures LenAfter(len, PageCount(len)) == 0
    ensures forall k :: 0 <= k < PageCount(len) ==> LenAfter(len, k) != 0
    ensures forall k :: 0 <= k < PageCount(len) ==> LenAfter(len, k) == len - 64 * k
    decreases len
  {
    if len == 0 {
      return;
    }
    if len <= 64 {
      assert NextLen(len) == 0;
      assert PageCount(len) == 1;
      assert LenAfter(len, 1) == LenAfter(0, 0);
    } else {
      var next := NextLen(len);
      assert next == len - 64;
      assert PageCount(len) == PageCount(next) + 1;
      EvenLengthExits(next);
      forall k | 0 <= k < PageCount(len)
        ensures LenAfter(len, k) == len - 64 * k
      {
        if k > 0 {
          assert LenAfter(len, k) == LenAfter(next, k - 1);
        }
      }
    }
  }

  /** The write loop exits exactly when the length is even. */
  lemma LoopExitsIffEven(len: Word)
    ensures (exists k :: LenAfter(len, k) == 0) <==> len % 2 == 0
  {
    if len % 2 == 0 {
      EvenLengthExits(len);
    } else {
      forall k: nat
        ensures LenAfter(len, k) != 0
      {
        OddLengthNeverExits(len, k);
      }
    }
  }

  // ---------------------------------------------------------------------------
  // Bus events of the page loop
  // ---------------------------------------------------------------------------

  /** The stores of one page's data words, at consecutive 16-bit addresses. */
  function DataWrites(page: Address, src: seq<Word>, first: nat, size: nat): (t: seq<Event>)
    requires first + size <= |src|
    ensures |t| == size
  {
    seq(size, j requires 0 <= j < size => Write(page + 2 * (first + j), src[first + j]))
  }

  /** One page's stores: unlock, buffer-load, word count minus one, the data, confirm. */
  function PageEvents(page: Address, src: seq<Word>, first: nat, size: nat): (t: seq<Event>)
    requires 1 <= size <= BufferSize && first + size <= |src|
    ensures |t| == size + 5
  {
    Unlock(page)
    + [Write(page, WriteBufferLoadCmd), Write(page, size - 1)]
    + DataWrites(page, src, first, size)
    + [Write(page, WriteBufferConfirmCmd)]
  }

  /** One page's stores followed by its poll. */
  function PageImage(page: Address, src: seq<Word>, first: nat, size: nat): (t: seq<Event>)
    requires 1 <= size <= BufferSize && first + size <= |src|
    ensures |t| == size + 6
  {
    PageEvents(page, src, first, size) + [Poll(page + 2 * (first + size - 1), src[first + size - 1])]
  }

  /**
    What one page puts on the bus: a fresh unlock relative to the page
    address, the buffer-load command, the word count minus one (at most 31),
    the words `src[first .. first + size]` at consecutive 16-bit addresses
    from `page + 2 * first`, the confirm command, and a poll that targets the
    last address stored and waits for the last word stored.
   */
  lemma PageImageShape(page: Address, src: seq<Word>, first: nat, size: nat)
    requires 1 <= size <= BufferSize && first + size <= |src|
    ensures var t := PageImage(page, src, first, size);
      && UnlockAt(t, 0, page)
      && t[2] == Write(page, WriteBufferLoadCmd)
      && t[3] == Write(page, size - 1) && size - 1 <= 31
      && (forall i :: 4 <= i < 4 + size ==> t[i] == Write(page + 2 * (first + i - 4), src[first + i - 4]))
      && t[4 + size] == Write(page, WriteBufferConfirmCmd)
      && t[3 + size].Write?
      && t[5 + size] == Poll(t[3 + size].addr, t[3 + size].val)
  {
    var t := PageImage(page, src, first, size);
    forall i | 4 <= i < 4 + size
      ensures t[i] == Write(page + 2 * (first + i - 4), src[first + i - 4])
    {
      assert t[i] == DataWrites(page, src, first, size)[i - 4];
    }
    assert t[3 + size] == DataWrites(page, src, first, size)[size - 1];
  }

  /** Events `at` .. `at + size + 5` of `t` are one page, as `PageImage` describes it. */
  ghost predicate PageAt(t: seq<Event>, at: nat, page: Address, src: seq<Word>, first: nat, size: nat)
    requires 1 <= size <= BufferSize && first + size <= |src|
  {
    at + size + 6 <= |t| && t[at .. at + size + 6] == PageImage(page, src, first, size)
  }

  /**
    The page loop, from a remaining byte count `len` and `done` words already
    written. Each page is unlocked and commanded at `base + addr`; its poll
    targets the end address reached so far minus one word.
   */
  function WritePages(base: Address, addr: Address, src: seq<Word>, len: Word, done: nat): (r: Reply<Status>)
    requires len % 2 == 0 && done + len / 2 <= |src|
    ensures r.value == Success
    decreases len
  {
    if len == 0 then
      Reply([], Success)
    else
      var page := base + addr;
      var block := Block(len);
      var endAddress := page + 2 * (done + block);
      var events := PageEvents(page, src, done, block);
      var poll := PollStatus(endAddress - 2, src[done + block - 1]);
      if poll.value != 0 then
        Reply(events + poll.trace + Reset(base).trace, Failure)
      else
        var rest := WritePages(base, addr, src, NextLen(len), done + block);
        Reply(events + poll.trace + rest.trace, rest.value)
  }

  /** One step of the page loop: the first page, then the rest of the loop. */
  lemma FirstPage(base: Address, addr: Address, src: seq<Word>, len: Word, done: nat)
    requires len % 2 == 0 && len > 0 && done + len / 2 <= |src|
    ensures var block := Block(len);
      var t := WritePages(base, addr, src, len, done).trace;
      var rest := WritePages(base, addr, src, NextLen(len), done + block);
      && |t| == block + 6 + |rest.trace|
      && t == t[.. block + 6] + rest.trace
      && PageAt(t, 0, base + addr, src, done, block)
      && WritePages(base, addr, src, len, done).value == rest.value
  {
    var block := Block(len);
    var t := WritePages(base, addr, src, len, done).trace;
    var rest := WritePages(base, addr, src, NextLen(len), done + block);
    var head := PageImage(base + addr, src, done, block);
    assert t == head + rest.trace;
    assert t[.. block + 6] == head;
  }

  lemma PageAtShift(prefix: seq<Event>, t: seq<Event>, at: nat, page: Address, src: seq<Word>, first: nat, size: nat)
    requires 1 <= size <= BufferSize && first + size <= |src|
    requires PageAt(t, at, page, src, first, size)
    ensures PageAt(prefix + t, |prefix| + at, page, src, first, size)
  {
    assert (prefix + t)[|prefix| + at .. |prefix| + at + size + 6] == t[at .. at + size + 6];
  }

  /**
    The closed-form layout of an even-length buffered write whose data
    starts at word 32m: page k begins at event 38k, covers the words from
    32(m+k) on and holds min(remaining, 32) of them, and nothing else is
    emitted.
   */
  ghost predicate Layout(t: seq<Event>, page: Address, src: seq<Word>, len: Word, m: nat)
    requires len % 2 == 0 && 32 * m + len / 2 <= |src|
  {
    && |t| == 6 * PageCount(len) + len / 2
    && forall k :: 0 <= k < PageCount(len) ==>
         PageAt(t, 38 * k, page, src, 32 * (m + k), PageSize(len, k))
  }

  /** The page loop started on a page boundary follows the closed-form layout and reports success. */
  lemma {:induction false} PagesLayout(base: Address, addr: Address, src: seq<Word>, len: Word, done: nat, m: nat)
    requires done == 32 * m
    requires len % 2 == 0 && done + len / 2 <= |src|
    ensures WritePages(base, addr, src, len, done).value == Success
    ensures Layout(WritePages(base, addr, src, len, done).trace, base + addr, src, len, m)
    decreases len
  {
    if len == 0 {
      NoPagesLayout(base, addr, src, done, m);
    } else if len <= 64 {
      LastPageLayout(base, addr, src, len, done, m);
    } else {
      PagesLayout(base, addr, src, len - 64, done + 32, m + 1);
      FullPageLayout(base, addr, src, len, done, m);
    }
  }

  /** A loop with nothing left to write emits nothing. */
  lemma NoPagesLayout(base: Address, addr: Address, src: seq<Word>, done: nat, m: nat)
    requires done == 32 * m && done <= |src|
    ensures WritePages(base, addr, src, 0, done).value == Success
    ensures Layout(WritePages(base, addr, src, 0, done).trace, base + addr, src, 0, m)
  {
    assert PageCount(0) == 0;
  }

  /** A loop of at most one page emits exactly that page. */
  lemma LastPageLayout(base: Address, addr: Address, src: seq<Word>, len: Word, done: nat, m: nat)
    requires done == 32 * m
    requires len % 2 == 0 && 0 < len <= 64 && done + len / 2 <= |src|
    ensures WritePages(base, addr, src, len, done).value == Success
    ensures Layout(WritePages(base, addr, src, len, done).trace, base + addr, src, len, m)
  {
    var t := WritePages(base, addr, src, len, done).trace;
    var block := Block(len);
    FirstPage(base, addr, src, len, done);
    assert block == PageSize(len, 0);
    assert NextLen(len) == 0;
    assert PageCount(len) == 1;
    assert |t| == 6 * PageCount(len) + len / 2;
    assert PageAt(t, 38 * 0, base + addr, src, 32 * (m + 0), PageSize(len, 0));
    forall k | 0 <= k < PageCount(len)
      ensures PageAt(t, 38 * k, base + addr, src, 32 * (m + k), PageSize(len, k))
    {
      assert k == 0;
    }
  }

  /** A full first page in front of the layout of the remaining bytes gives the layout of the whole loop. */
  lemma FullPageLayout(base: Address, addr: Address, src: seq<Word>, len: Word, done: nat, m: nat)
    requires done == 32 * m
    requires len % 2 == 0 && len > 64 && done + len / 2 <= |src|
    requires WritePages(base, addr, src, len - 64, done + 32).value == Success
    requires Layout(WritePages(base, addr, src, len - 64, done + 32).trace, base + addr, src, len - 64, m + 1)
    ensures WritePages(base, addr, src, len, done).value == Success
    ensures Layout(WritePages(base, addr, src, len, done).trace, base + addr, src, len, m)
  {
    var t := WritePages(base, addr, src, len, done).trace;
    var next: Word := len - 64;
    var rest := WritePages(base, addr, src, next, done + 32);
    assert Block(len) == 32 && NextLen(len) == next;
    FirstPage(base, addr, src, len, done);
    CombineLayout(t, t[.. 38], rest.trace, base + addr, src, len, next, m);
  }

  /** A full first page in front of the layout of the remaining bytes, as a fact about traces. */
  lemma CombineLayout(t: seq<Event>, head: seq<Event>, rest: seq<Event>, page: Address, src: seq<Word>, len: Word, next: Word, m: nat)
    requires len % 2 == 0 && len > 64 && next == len - 64 && 32 * m + len / 2 <= |src|
    requires |head| == 38 && t == head + rest
    requires PageAt(t, 0, page, src, 32 * m, 32)
    requires Layout(rest, page, src, next, m + 1)
    ensures Layout(t, page, src, len, m)
  {
    assert PageSize(len, 0) == 32;
    ShiftLayout(head, rest, page, src, len, next, m);
    forall k | 0 <= k < PageCount(len)
      ensures PageAt(t, 38 * k, page, src, 32 * (m + k), PageSize(len, k))
    {
      if k == 0 {
        assert PageAt(t, 38 * k, page, src, 32 * (m + k), 32);
      }
    }
  }

  /**
    The induction step of `PagesLayout`: a full first page followed by the
    layout of the remaining `len - 64` bytes is the layout of `len` bytes
    from the second page on.
   */
  lemma ShiftLayout(head: seq<Event>, rest: seq<Event>, page: Address, src: seq<Word>, len: Word, next: Word, m: nat)
    requires len % 2 == 0 && len > 64 && next == len - 64 && 32 * m + len / 2 <= |src|
    requires |head| == 38
    requires Layout(rest, page, src, next, m + 1)
    ensures |head + rest| == 6 * PageCount(len) + len / 2
    ensures forall k :: 1 <= k < PageCount(len) ==>
      PageAt(head + rest, 38 * k, page, src, 32 * (m + k), PageSize(len, k))
  {
    assert PageCount(len) == PageCount(next) + 1;
    forall k | 1 <= k < PageCount(len)
      ensures PageAt(head + rest, 38 * k, page, src, 32 * (m + k), PageSize(len, k))
    {
      var j := k - 1;
      assert PageAt(rest, 38 * j, page, src, 32 * (m + 1 + j), PageSize(next, j));
      assert PageSize(len, k) == PageSize(next, j);
      assert 32 * (m + k) == 32 * (m + 1 + j);
      PageAtShift(head, rest, 38 * j, page, src, 32 * (m + k), PageSize(len, k));
    }
  }

  // ---------------------------------------------------------------------------
  // The operation
  // ---------------------------------------------------------------------------

  /** How a call ends: it returns with a trace and status, or it never returns. */
  datatype Run = Returns(trace: seq<Event>, status: Status) | Diverges

  /**
    Buffered write of `len` bytes of `src` (taken as 16-bit words) to
    `base + addr`. The call returns exactly when the 16-bit length counter
    reaches 0; it then reports success, having written every page in the
    closed-form layout. No reset follows the last page.
   */
  function WriteBuff(base: Address, addr: Address, src: seq<Word>, len: Word): (r: Run)
    requires len / 2 <= |src|
    ensures r.Diverges? <==> forall k :: LenAfter(len, k) != 0
    ensures r.Returns? ==>
      && len % 2 == 0
      && r.status == Success
      && Layout(r.trace, base + addr, src, len, 0)
  {
    LoopExitsIffEven(len);
    if len % 2 == 1 then
      Diverges
    else
      PagesLayout(base, addr, src, len, 0, 0);
      var pages := WritePages(base, addr, src, len, 0);
      Returns(pages.trace, pages.value)
  }

  // ---------------------------------------------------------------------------
  // Consequences for callers
  // ---------------------------------------------------------------------------

  /**
    Page k of a returning buffered write, in the driver's own terms: an
    unlock at `base + addr`, the buffer-load command, the word count minus
    one, the data words at consecutive addresses, the confirm command, and a
    poll on the last word stored.
   */
  lemma WriteBuffPage(base: Address, addr: Address, src: seq<Word>, len: Word, k: nat)
    requires len / 2 <= |src|
    requires len % 2 == 0 && k < PageCount(len)
    ensures WriteBuff(base, addr, src, len).Returns?
    ensures var t := WriteBuff(base, addr, src, len).trace;
      var page := base + addr;
      var size := PageSize(len, k);
      var at := 38 * k;
      && at + size + 6 <= |t|
      && UnlockAt(t, at, page)
      && t[at + 2] == Write(page, WriteBufferLoadCmd)
      && t[at + 3] == Write(page, size - 1) && size - 1 <= 31
      && (forall i :: at + 4 <= i < at + 4 + size ==>
            t[i] == Write(page + 2 * (32 * k + i - at - 4), src[32 * k + i - at - 4]))
      && t[at + 4 + size] == Write(page, WriteBufferConfirmCmd)
      && t[at + 5 + size] == Poll(t[at + 3 + size].addr, t[at + 3 + size].val)
  {
    LoopExitsIffEven(len);
    EvenLengthExits(len);
    LayoutPage(WriteBuff(base, addr, src, len).trace, base + addr, src, len, k);
  }

  /** Page k of a trace in the closed-form layout. */
  lemma LayoutPage(t: seq<Event>, page: Address, src: seq<Word>, len: Word, k: nat)
    requires len % 2 == 0 && len / 2 <= |src| && k < PageCount(len)
    requires Layout(t, page, src, len, 0)
    ensures var size := PageSize(len, k);
      var at := 38 * k;
      && at + size + 6 <= |t|
      && UnlockAt(t, at, page)
      && t[at + 2] == Write(page, WriteBufferLoadCmd)
      && t[at + 3] == Write(page, size - 1) && size - 1 <= 31
      && (forall i :: at + 4 <= i < at + 4 + size ==>
            t[i] == Write(page + 2 * (32 * k + i - at - 4), src[32 * k + i - at - 4]))
      && t[at + 4 + size] == Write(page, WriteBufferConfirmCmd)
      && t[at + 5 + size] == Poll(t[at + 3 + size].addr, t[at + 3 + size].val)
  {
    assert PageAt(t, 38 * k, page, src, 32 * (0 + k), PageSize(len, k));
    PageAtShape(t, 38 * k, page, src, 32 * k, PageSize(len, k));
  }

  /** The shape of `PageImageShape`, read off a trace that holds the page at `at`. */
  lemma PageAtShape(t: seq<Event>, at: nat, page: Address, src: seq<Word>, first: nat, size: nat)
    requires 1 <= size <= BufferSize && first + size <= |src|
    requires PageAt(t, at, page, src, first, size)
    ensures at + size + 6 <= |t|
    ensures UnlockAt(t, at, page)
    ensures t[at + 2] == Write(page, WriteBufferLoadCmd)
    ensures t[at + 3] == Write(page, size - 1) && size - 1 <= 31
    ensures forall i :: at + 4 <= i < at + 4 + size ==>
      t[i] == Write(page + 2 * (first + i - at - 4), src[first + i - at - 4])
    ensures t[at + 4 + size] == Write(page, WriteBufferConfirmCmd)
    ensures t[at + 5 + size] == Poll(t[at + 3 + size].addr, t[at + 3 + size].val)
  {
    var image := PageImage(page, src, first, size);
    PageImageShape(page, src, first, size);
    forall i | 0 <= i < size + 6
      ensures t[at + i] == image[i]
    {
      assert t[at .. at + size + 6][i] == t[at + i];
    }
    forall i | at + 4 <= i < at + 4 + size
      ensures t[i] == Write(page + 2 * (first + i - at - 4), src[first + i - at - 4])
    {
      assert t[i] == image[i - at];
    }
  }

  /**
    Every one of the `len / 2` words lands, in order, at its own address:
    word w is stored at `base + addr + 2w` as event `38 * (w / 32) + 4 + w % 32`.
   */
  lemma WordsLandInOrder(base: Address, addr: Address, src: seq<Word>, len: Word, w: nat)
    requires len / 2 <= |src|
    requires len % 2 == 0 && w < len / 2
    ensures WriteBuff(base, addr, src, len).Returns?
    ensures var t := WriteBuff(base, addr, src, len).trace;
      && 38 * (w / 32) + 4 + w % 32 < |t|
      && t[38 * (w / 32) + 4 + w % 32] == Write(base + addr + 2 * w, src[w])
  {
    LoopExitsIffEven(len);
    EvenLengthExits(len);
    LayoutWord(WriteBuff(base, addr, src, len).trace, base + addr, src, len, w);
  }

  /** Word w of a trace in the closed-form layout. */
  lemma LayoutWord(t: seq<Event>, page: Address, src: seq<Word>, len: Word, w: nat)
    requires len % 2 == 0 && len / 2 <= |src| && w < len / 2
    requires Layout(t, page, src, len, 0)
    ensures 38 * (w / 32) + 4 + w % 32 < |t|
    ensures t[38 * (w / 32) + 4 + w % 32] == Write(page + 2 * w, src[w])
  {
    var k := w / 32;
    var j := w % 32;
    assert w == 32 * k + j;
    assert k < PageCount(len);
    assert j < PageSize(len, k);
    LayoutPage(t, page, src, len, k);
    assert t[38 * k + 4 + j] == Write(page + 2 * (32 * k + j), src[32 * k + j]);
  }

  /**
    A returning buffered write with something to write ends on the poll of
    its last page: it does not put the chip back in read-array mode.
   */
  lemma WriteBuffEndsWithPoll(base: Address, addr: Address, src: seq<Word>, len: Word)
    requires len / 2 <= |src|
    requires len % 2 == 0 && len > 0
    ensures WriteBuff(base, addr, src, len).Returns?
    ensures var t := WriteBuff(base, addr, src, len).trace;
      && |t| > 0 && t[|t| - 1].Poll?
      && !EndsWithReset(t, base)
  {
    var t := WriteBuff(base, addr, src, len).trace;
    var k := PageCount(len) - 1;
    var size := PageSize(len, k);
    WriteBuffPage(base, addr, src, len, k);
    assert 32 * k + size == len / 2;
    assert |t| == 6 * PageCount(len) + len / 2;
    assert 38 * k + 5 + size == |t| - 1;
  }

  /** The number of polls in a trace. */
  function PollCount(t: seq<Event>): nat {
    if |t| == 0 then 0 else (if t[0].Poll? then 1 else 0) + PollCount(t[1..])
  }

  lemma {:induction false} PollCountAppend(a: seq<Event>, b: seq<Event>)
    ensures PollCount(a + b) == PollCount(a) + PollCount(b)
  {
    if |a| > 0 {
      assert (a + b)[1..] == a[1..] + b;
      PollCountAppend(a[1..], b);
    } else {
      assert a + b == b;
    }
  }

  lemma {:induction false} PollCountStores(t: seq<Event>)
    requires forall i :: 0 <= i < |t| ==> t[i].Write?
    ensures PollCount(t) == 0
  {
    if |t| > 0 {
      PollCountStores(t[1..]);
    }
  }

  /** A page holds exactly one poll. */
  lemma OnePollPerPage(page: Address, src: seq<Word>, first: nat, size: nat)
    requires 1 <= size <= BufferSize && first + size <= |src|
    ensures PollCount(PageImage(page, src, first, size)) == 1
  {
    var events := PageEvents(page, src, first, size);
    var data := DataWrites(page, src, first, size);
    assert forall i :: 0 <= i < |data| ==> data[i].Write?;
    assert forall i :: 0 <= i < |events| ==> events[i].Write?;
    PollCountStores(events);
    var p := [Poll(page + 2 * (first + size - 1), src[first + size - 1])];
    PollCountAppend(events, p);
    assert PollCount(p) == 1;
  }

  /** The page loop polls once per page: `PageCount(len)` times in all. */
  lemma {:induction false} PagesPollCount(base: Address, addr: Address, src: seq<Word>, len: Word, done: nat)
    requires len % 2 == 0 && done + len / 2 <= |src|
    ensures PollCount(WritePages(base, addr, src, len, done).trace) == PageCount(len)
    decreases len
  {
    if len > 0 {
      var block := Block(len);
      var t := WritePages(base, addr, src, len, done).trace;
      var rest := WritePages(base, addr, src, NextLen(len), done + block);
      FirstPage(base, addr, src, len, done);
      OnePollPerPage(base + addr, src, done, block);
      PagesPollCount(base, addr, src, NextLen(len), done + block);
      PollCountAppend(t[.. block + 6], rest.trace);
      if len > 64 {
        assert PageCount(len) == PageCount(NextLen(len)) + 1;
      } else {
        assert NextLen(len) == 0 && PageCount(len) == 1;
      }
    }
  }

  /** A returning buffered write polls once per page, and there are ceil(len / 64) pages. */
  lemma WriteBuffPollCount(base: Address, addr: Address, src: seq<Word>, len: Word)
    requires len / 2 <= |src|
    requires len % 2 == 0
    ensures WriteBuff(base, addr, src, len).Returns?
    ensures PollCount(WriteBuff(base, addr, src, len).trace) == (len + 63) / 64
  {
    LoopExitsIffEven(len);
    EvenLengthExits(len);
    PagesPollCount(base, addr, src, len, 0);
  }
}
