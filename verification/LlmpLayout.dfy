/** Sizes and address arithmetic of an LLMP page on a 64-bit target.

    A map starts at an address that is a multiple of `ALIGNMENT`, so every
    address below is written relative to the start of its map. */
module LlmpLayout {

  const ALIGNMENT: nat := 64
  const MSG_HEADER: nat := 40          // size_of::<LlmpMsg>()
  const PAGE_HEADER: nat := 48         // size_of::<LlmpPage>()
  const MAP_INFO_LEN: nat := 32        // size_of::<LlmpPayloadSharedMapInfo>()
  const EOP_MSG_SIZE: nat := Align(MSG_HEADER + MAP_INFO_LEN)
  const INITIAL_MAP_SIZE: nat := 0x1000_0000
  const USIZE_LIMIT: nat := 0x1_0000_0000_0000_0000

  /** The least multiple of `ALIGNMENT` that is not below `toAlign`. */
  function Align(toAlign: nat): (aligned: nat)
    ensures aligned % ALIGNMENT == 0
    ensures toAlign <= aligned < toAlign + ALIGNMENT
  {
    var modulo := toAlign % ALIGNMENT;
    if modulo == 0 then toAlign else toAlign + ALIGNMENT - modulo
  }

  /** Padding commutes with moving the whole map to another aligned base address. */
  lemma AlignShift(base: nat, n: nat)
    requires base % ALIGNMENT == 0
    ensures Align(base + n) == base + Align(n)
  {
  }

  predicate IsPowerOfTwo(n: nat)
    decreases n
  {
    n == 1 || (n > 1 && n % 2 == 0 && IsPowerOfTwo(n / 2))
  }

  /** usize::next_power_of_two, before the width of usize is taken into account. */
  function NextPowerOfTwo(n: nat): (p: nat)
    ensures IsPowerOfTwo(p) && n <= p
    ensures p == 1 || p < 2 * n
  {
    if n <= 1 then 1 else 2 * NextPowerOfTwo((n + 1) / 2)
  }

  /** No smaller power of two will do. */
  lemma {:induction false} NextPowerLeast(n: nat, q: nat)
    requires IsPowerOfTwo(q) && n <= q
    ensures NextPowerOfTwo(n) <= q
    decreases q
  {
    if n > 1 { NextPowerLeast((n + 1) / 2, q / 2); }
  }

  function Max(a: nat, b: nat): (m: nat) { if a < b then b else a }

  /** Size asked for when a page is full and the largest allocation so far was `maxAlloc`. */
  function NextShmemSize(maxAlloc: nat): (size: nat)
    ensures IsPowerOfTwo(size)
    ensures 2 * maxAlloc + EOP_MSG_SIZE + PAGE_HEADER <= size
    ensures INITIAL_MAP_SIZE - 1 <= size
  {
    NextPowerOfTwo(Max(maxAlloc * 2 + EOP_MSG_SIZE + PAGE_HEADER, INITIAL_MAP_SIZE - 1))
  }

  /** It is the least power of two with that room. */
  lemma NextShmemLeast(maxAlloc: nat, q: nat)
    requires IsPowerOfTwo(q) && 2 * maxAlloc + EOP_MSG_SIZE + PAGE_HEADER <= q && INITIAL_MAP_SIZE - 1 <= q
    ensures NextShmemSize(maxAlloc) <= q
  {
    NextPowerLeast(Max(maxAlloc * 2 + EOP_MSG_SIZE + PAGE_HEADER, INITIAL_MAP_SIZE - 1), q);
  }

  /** `buf_len_padded` of a message of `bufLen` bytes placed behind `sizeUsed` bytes of messages. */
  function PaddedLen(sizeUsed: nat, bufLen: nat): (padded: nat)
    ensures bufLen <= padded < bufLen + ALIGNMENT
    ensures (PAGE_HEADER + sizeUsed + MSG_HEADER + padded) % ALIGNMENT == 0
  {
    var msgStart := PAGE_HEADER + sizeUsed;
    Align(msgStart + bufLen + MSG_HEADER) - msgStart - MSG_HEADER
  }

  /** The room an allocation needs on a page: itself and the reserve for the EOP message. */
  predicate HasRoom(sizeUsed: nat, sizeTotal: nat, bufLen: nat) {
    sizeUsed + MSG_HEADER + PaddedLen(sizeUsed, bufLen) + EOP_MSG_SIZE <= sizeTotal
  }

  /** A message can end at `end`: aligned, not before its bytes do, and with an EOP still fitting behind it. */
  predicate CanEndAt(sizeUsed: nat, sizeTotal: nat, bufLen: nat, end: nat) {
    && sizeUsed + MSG_HEADER + bufLen <= end && (PAGE_HEADER + end) % ALIGNMENT == 0
    && end + EOP_MSG_SIZE <= sizeTotal
  }

  /** There is room exactly if it can end somewhere. */
  lemma RoomExact(sizeUsed: nat, sizeTotal: nat, bufLen: nat)
    ensures HasRoom(sizeUsed, sizeTotal, bufLen) <==> exists end: nat :: CanEndAt(sizeUsed, sizeTotal, bufLen, end)
  {
    hide Align;
    var least := sizeUsed + MSG_HEADER + PaddedLen(sizeUsed, bufLen);
    if HasRoom(sizeUsed, sizeTotal, bufLen) { assert CanEndAt(sizeUsed, sizeTotal, bufLen, least); }
    forall end: nat | CanEndAt(sizeUsed, sizeTotal, bufLen, end) ensures least <= end {
      if end < least { Apart(PAGE_HEADER + end, PAGE_HEADER + least); }
    }
  }

  lemma Apart(a: nat, b: nat)
    requires a % ALIGNMENT == 0 && b % ALIGNMENT == 0 && a < b
    ensures a + ALIGNMENT <= b
  {
  }

  lemma Multiple(a: nat, b: nat)
    requires a % ALIGNMENT == 0 && (a + b) % ALIGNMENT == 0
    ensures b % ALIGNMENT == 0
  {
  }

  /** Padding depends on where the message starts. A page sized for twice what the
      message took on the old page nevertheless has room for it at offset 0. */
  lemma RoomOnNextPage(oldUsed: nat, bufLen: nat, maxAlloc: nat, sizeTotal: nat)
    requires oldUsed == 0 || (PAGE_HEADER + oldUsed) % ALIGNMENT == 0
    requires MSG_HEADER + PaddedLen(oldUsed, bufLen) <= maxAlloc
    requires NextShmemSize(maxAlloc) - PAGE_HEADER <= sizeTotal
    ensures HasRoom(0, sizeTotal, bufLen)
  {
    hide NextShmemSize, Align;
    var p := MSG_HEADER + PaddedLen(oldUsed, bufLen);
    var q := MSG_HEADER + PaddedLen(0, bufLen);
    assert 2 * maxAlloc + EOP_MSG_SIZE <= sizeTotal;
    assert q < MSG_HEADER + bufLen + ALIGNMENT <= p + ALIGNMENT;
    if oldUsed == 0 {
      assert q == p;
    } else {
      Multiple(PAGE_HEADER + oldUsed, p);
      assert p >= ALIGNMENT;
    }
  }
}
