/** How large the next page is: what a run has asked for so far, and the size that follows from it. */
module LlmpSizing {
  import opened Base
  import opened LlmpLayout
  import opened LlmpPage
  import opened LlmpProtocol
  import opened LlmpInvariant
  import Safety = LlmpSafety
  import opened LlmpChannel

  // ------------------------------------------------------------- the requests of a run

  /** The bytes, header and padding included, that a step tries to allocate on the current page. */
  function Request(w: World, a: Action): (r: Option<nat>)
    requires CanStep(w)
  {
    var p := w.pages[Current(w)];
    if a.Alloc? && w.snd.pending.None? && !AllocOverflows(p, a.len) then
      Some(MSG_HEADER + PaddedLen(p.sizeUsed, a.len))
    else if a.AllocAgain? && w.snd.pc.Retry? then
      Some(MSG_HEADER + PaddedLen(p.sizeUsed, w.snd.pc.len))
    else None
  }

  function AsSeq(r: Option<nat>): (q: seq<nat>) { if r.Some? then [r.value] else [] }

  /** All allocations a run has tried, on whatever page, in order. */
  function Asked(w: World, run: seq<Action>): (rs: seq<nat>)
    requires ValidRun(w, run)
    decreases |run|
  {
    if run == [] then []
    else (if CanStep(w) then AsSeq(Request(w, run[0])) else []) + Asked(Apply(w, run[0]), run[1..])
  }

  // --------------------------------------------------------- what the pages remember

  /** The current page, and the one about to follow it, carry `max` and the sender's id. */
  ghost predicate Marks(w: World, max: nat) {
    && CanStep(w) && Marked(w, Current(w), max)
    && (w.snd.pc.Linked? || w.snd.pc.EopReady? ==>
          w.snd.pc.newId in w.pages && w.snd.pc.newId != Current(w) && Marked(w, w.snd.pc.newId, max))
  }

  ghost predicate Marked(w: World, id: nat, max: nat)
    requires id in w.pages
  {
    w.pages[id].maxAlloc == max && w.pages[id].senderId == w.snd.id
  }

  function Raise(max: nat, r: Option<nat>): (m: nat) { if r.Some? then Max(max, r.value) else max }

  lemma ReserveMarks(p: Page, lastMsg: Option<nat>, len: nat)
    ensures var q := Reserve(p, lastMsg, len); q.maxAlloc == p.maxAlloc && q.senderId == p.senderId
  {
    hide PaddedLen;
  }

  lemma MarksAlloc(w: World, len: nat, max: nat)
    requires Marks(w, max) && CanAlloc(w) && (w.snd.pending.None? ==> LastCommitted(w.pages[Current(w)], w.snd.lastMsg))
    ensures Marks(AllocStep(w, len), Raise(max, Request(w, Alloc(len))))
  {
    hide PaddedLen, HasRoom, AllocOverflows, LastCommitted, Reserve;
    ReserveMarks(NoteAlloc(w.pages[Current(w)], len), w.snd.lastMsg, len);
  }

  lemma MarksRetry(w: World, max: nat)
    requires Inv(w) && Marks(w, max) && CanRetry(w)
    ensures Marks(RetryStep(w), Raise(max, Request(w, AllocAgain)))
  {
    RetryWorks(w);
    hide Inv, PaddedLen, HasRoom, AllocOverflows, LastCommitted, Reserve;
    ReserveMarks(NoteAlloc(w.pages[Current(w)], w.snd.pc.len), w.snd.lastMsg, w.snd.pc.len);
  }

  /** Filling, copying, shrinking and committing the reserved message. */
  lemma MarksPending(w: World, a: Action, max: nat)
    requires Marks(w, max) && HasPending(w) && Enabled(w, a) && (a.Write? || a.Forward? || a.ShrinkTo? || a.Send?)
    ensures Marks(Apply(w, a), max)
  {
    hide PaddedLen;
  }

  lemma MarksScan(w: World, max: nat)
    requires Marks(w, max) && CanScan(w)
    ensures Marks(ScanStep(w), max)
  {
  }

  /** The page retired is not the current one. */
  lemma MarksMove(w: World, max: nat)
    requires Inv(w) && Marks(w, max) && CanMove(w)
    ensures Marks(MoveStep(w), max)
  {
    if w.snd.pc.k > 0 {
      RetiresOther(w);
      hide Inv;
      assert Current(MoveStep(w)) == Current(w);
    }
  }

  lemma RetiresOther(w: World)
    requires Inv(w) && CanMove(w) && w.snd.pc.k > 0
    ensures |w.snd.out| > 1 && w.snd.out[0] != Current(w)
  {
    hide LiveInv, ReceiversInv, DeadInv, ChainInv;
    var n := |w.snd.cache|;
    assert Held(w)[n] == w.snd.out[0] && Held(w)[n + |w.snd.out| - 1] == Current(w);
  }

  lemma CachedOther(w: World, e: nat)
    requires Inv(w) && e < |w.snd.cache|
    ensures w.snd.cache[e] != Current(w)
  {
    hide LiveInv, ReceiversInv, DeadInv, SenderInv;
    assert Held(w)[e] == w.snd.cache[e] && Held(w)[|w.snd.cache| + |w.snd.out| - 1] == Current(w);
  }

  lemma MarksProbe(w: World, answer: Option<(nat, nat)>, max: nat)
    requires Marks(w, max) && CanProbe(w, answer)
    ensures Marks(ProbeStep(w, answer), max)
  {
    hide NextShmemSize;
  }

  lemma MarksProbeLeft(w: World, max: nat)
    requires Inv(w) && Marks(w, max) && CanProbeLeft(w)
    ensures Marks(ProbeLeftStep(w), max)
  {
    CachedOther(w, w.snd.pc.e);
    hide Inv, NextShmemSize;
  }

  lemma MarksEop(w: World, max: nat)
    requires Marks(w, max)
    ensures CanWriteEop(w) ==> Marks(WriteEopStep(w), max)
    ensures CanSendEop(w) ==> Marks(SendEopStep(w), max)
  {
  }

  lemma MarksReader(w: World, a: Action, max: nat)
    requires Marks(w, max) && Enabled(w, a) && (a.Attach? || a.Load? || a.Read? || a.Leave? || a.MapNext? || a.Join?)
    ensures Marks(Apply(w, a), max)
  {
    hide LoadStep, ReadStep, MapStep;
  }

  lemma MarksStep(w: World, a: Action, max: nat)
    requires Inv(w) && Marks(w, max) && Enabled(w, a)
    ensures Marks(Apply(w, a), Raise(max, Request(w, a)))
  {
    hide Inv, Marks, PaddedLen, AllocOverflows;
    match a
    case Alloc(len) =>
      if w.snd.pending.None? { ReadyToAlloc(w, len); }
      MarksAlloc(w, len, max);
    case AllocAgain => MarksRetry(w, max);
    case Write(_, _, _) => MarksPending(w, a, max);
    case Forward(_) => MarksPending(w, a, max);
    case ShrinkTo(_) => MarksPending(w, a, max);
    case Send(_) => MarksPending(w, a, max);
    case ScanPage => MarksScan(w, max);
    case MovePage => MarksMove(w, max);
    case ProbeCache(answer) => MarksProbe(w, answer, max);
    case ProbeCacheLeft => MarksProbeLeft(w, max);
    case WriteEop => MarksEop(w, max);
    case SendEop => MarksEop(w, max);
    case _ => MarksReader(w, a, max);
  }

  // ------------------------------------------------------------------------- runs

  /** The largest of `rs`, or `m` if that is larger. */
  function MaxOver(m: nat, rs: seq<nat>): (r: nat)
    ensures m <= r && (r == m || r in rs) && forall i :: 0 <= i < |rs| ==> rs[i] <= r
    decreases |rs|
  {
    if rs == [] then m
    else
      var r := MaxOver(Max(m, rs[0]), rs[1..]);
      assert forall i :: 0 < i < |rs| ==> rs[i] == rs[1..][i - 1];
      r
  }

  lemma MaxOverAfter(m: nat, r: Option<nat>, rs: seq<nat>)
    ensures MaxOver(m, AsSeq(r) + rs) == MaxOver(Raise(m, r), rs)
  {
    if r.Some? { assert (AsSeq(r) + rs)[1..] == rs; } else { assert AsSeq(r) + rs == rs; }
  }

  lemma {:induction false} MarksRun(w: World, run: seq<Action>, max: nat)
    requires Inv(w) && Marks(w, max) && ValidRun(w, run)
    ensures Marks(After(w, run), MaxOver(max, Asked(w, run)))
    decreases |run|
  {
    hide Inv, Enabled, Apply, Request, Marked;
    if run != [] {
      var a := run[0];
      MarksStep(w, a, max);
      Safety.StepInv(w, a);
      MarksRun(Apply(w, a), run[1..], Raise(max, Request(w, a)));
      MaxOverAfter(max, Request(w, a), Asked(Apply(w, a), run[1..]));
    }
  }

  lemma InitMarks(w: World)
    requires Init(w)
    ensures Inv(w) && Marks(w, 0)
  {
    InitInv(w);
    hide Inv;
  }

  /** `max` is the largest of `rs`, or 0 if there is none. */
  ghost predicate IsLargest(max: nat, rs: seq<nat>) {
    (max == 0 || max in rs) && forall i :: 0 <= i < |rs| ==> rs[i] <= max
  }

  /** In every run, the current page notes the largest allocation tried so far on any page of the chain,
      and carries the sender's id. */
  lemma LargestIsNoted(w0: World, run: seq<Action>)
    requires Init(w0) && ValidRun(w0, run)
    ensures var w, asked := After(w0, run), Asked(w0, run);
            && CanStep(w)
            && var p := w.pages[Current(w)];
               IsLargest(p.maxAlloc, asked) && p.senderId == w.snd.id
  {
    hide Init, Inv, Asked, After, ValidRun;
    InitMarks(w0);
    MarksRun(w0, run, 0);
  }

  // ------------------------------------------------------------- the size asked for

  /** Not below the initial size, and with room for twice each request, an EOP and the page header. */
  ghost predicate Serves(size: nat, rs: seq<nat>) {
    INITIAL_MAP_SIZE <= size && forall i :: 0 <= i < |rs| ==> 2 * rs[i] + EOP_MSG_SIZE + PAGE_HEADER <= size
  }

  ghost predicate LeastSize(size: nat, rs: seq<nat>) {
    IsPowerOfTwo(size) && Serves(size, rs) && forall q: nat :: IsPowerOfTwo(q) && Serves(q, rs) ==> size <= q
  }

  lemma InitialIsPower(size: nat)
    requires IsPowerOfTwo(size) && INITIAL_MAP_SIZE - 1 <= size
    ensures INITIAL_MAP_SIZE <= size
  {
  }

  lemma NextIsLeast(max: nat, rs: seq<nat>)
    requires IsLargest(max, rs)
    ensures LeastSize(NextShmemSize(max), rs)
  {
    InitialIsPower(NextShmemSize(max));
    forall q: nat | IsPowerOfTwo(q) && Serves(q, rs) ensures NextShmemSize(max) <= q { NextShmemLeast(max, q); }
  }

  /** The size asked for at a page switch: the least power of two that serves every request so far. */
  lemma SwitchSize(w0: World, run: seq<Action>)
    requires Init(w0) && ValidRun(w0, run)
    ensures var w := After(w0, run);
            CanStep(w) && LeastSize(NextShmemSize(w.pages[Current(w)].maxAlloc), Asked(w0, run))
  {
    hide NextShmemSize, LeastSize, Asked, After, Init, IsLargest;
    LargestIsNoted(w0, run);
    var w := After(w0, run);
    NextIsLeast(w.pages[Current(w)].maxAlloc, Asked(w0, run));
  }

  lemma {:induction false} AskedSnoc(w: World, run: seq<Action>, a: Action)
    requires ValidRun(w, run) && Enabled(After(w, run), a) && CanStep(After(w, run))
    ensures ValidRun(w, run + [a]) && After(w, run + [a]) == Apply(After(w, run), a)
    ensures Asked(w, run + [a]) == Asked(w, run) + AsSeq(Request(After(w, run), a))
    decreases |run|
  {
    hide Enabled, Apply, Request;
    if run == [] {
      assert ([] + [a])[1..] == [];
    } else {
      assert (run + [a])[1..] == run[1..] + [a];
      AskedSnoc(Apply(w, run[0]), run[1..], a);
    }
  }

  lemma LeastUnique(a: nat, b: nat, rs: seq<nat>)
    requires LeastSize(a, rs) && LeastSize(b, rs)
    ensures a == b
  {
  }

  /** What becomes of a request that does not fit, after any run: everything but the least size that
      serves it and all requests before it is read off the pages. */
  lemma VerdictOfSize(w0: World, run: seq<Action>, len: nat, answered: bool, size: nat)
    requires Init(w0) && ValidRun(w0, run) && CanAlloc(After(w0, run))
    requires var w := After(w0, run); var p := w.pages[Current(w)];
             && w.snd.pending.None? && !AllocOverflows(p, len) && !HasRoom(p.sizeUsed, p.sizeTotal, len)
             && LeastSize(size, Asked(w0, run) + [MSG_HEADER + PaddedLen(p.sizeUsed, len)])
    ensures var w := After(w0, run);
            AllocVerdict(w, len, answered) ==
            if !w.snd.keep && Unread(w) then Stops(SlowReceiver)
            else if USIZE_LIMIT <= size then Stops(Overflow)
            else if answered || Reusable(w, size) then Granted
            else Refused
  {
    hide Init, LeastSize, Asked, After, HasRoom, NextShmemSize, PaddedLen, AllocOverflows, Reusable;
    var w := After(w0, run);
    var p, a := w.pages[Current(w)], Alloc(len);
    AskedSnoc(w0, run, a);
    SwitchSize(w0, run + [a]);
    var w1 := AllocStep(w, len);
    var p1 := NoteAlloc(p, len);
    assert w1.pages[Current(w1)] == p1;
    LeastUnique(size, NextShmemSize(p1.maxAlloc), Asked(w0, run + [a]));
    NoteFrame(w, p1, size);
  }

  lemma NoteFrame(w: World, q: Page, size: nat)
    requires CanStep(w)
    requires var p := w.pages[Current(w)]; q.left == p.left && q.mapLen == p.mapLen && q.joined == p.joined
    ensures var w1 := WithCurrent(w, q, w.snd);
            (Reusable(w1, size) <==> Reusable(w, size)) && (Unread(w1) <==> Unread(w))
  {
    var w1 := WithCurrent(w, q, w.snd);
    assert forall id :: Usable(w1, id, size) <==> Usable(w, id, size);
    hide Usable;
    assert forall k: nat :: LeadingJoined(w1, k) <==> LeadingJoined(w, k);
    hide LeadingJoined;
    assert Held(w1) == Held(w);
  }

  /** A request is stopped for overflow only if no page of less than 2^64 bytes has room for it behind
      what is there, and if it is not stopped, the end of the message is below 2^64. */
  lemma OverflowMeans(p: Page, len: nat, sizeTotal: nat)
    requires PAGE_HEADER + sizeTotal < USIZE_LIMIT
    ensures AllocOverflows(p, len) ==> !HasRoom(p.sizeUsed, sizeTotal, len)
    ensures !AllocOverflows(p, len) ==> PAGE_HEADER + p.sizeUsed + MSG_HEADER + PaddedLen(p.sizeUsed, len) < USIZE_LIMIT
  {
  }
}
