/** The sender and receiver objects of an LLMP channel.

    Each method carries out a run of the protocol: given the world `w` the object
    is in, it returns the world it reaches. The methods run undisturbed; other
    interleavings of their steps are covered by the state machine. */
module LlmpChannel {
  import opened Base
  import opened LlmpLayout
  import opened LlmpPage
  import opened LlmpProtocol
  import opened LlmpInvariant
  import Safety = LlmpSafety
  import SenderSteps = LlmpSenderSteps
  import ReceiverSteps = LlmpReceiverSteps

  // --------------------------------------------------------------------- runs

  /** Some run leads from `w` to `w'`. */
  ghost predicate Steps(w: World, w': World) {
    exists run: seq<Action> :: ValidRun(w, run) && After(w, run) == w'
  }

  lemma StepsRefl(w: World)
    ensures Steps(w, w)
  {
    assert ValidRun(w, []) && After(w, []) == w;
  }

  lemma {:induction false} RunConcat(w: World, run: seq<Action>, more: seq<Action>)
    requires ValidRun(w, run) && ValidRun(After(w, run), more)
    ensures ValidRun(w, run + more) && After(w, run + more) == After(After(w, run), more)
    decreases |run|
  {
    hide Apply;
    hide Enabled;
    if run == [] {
      assert run + more == more;
    } else {
      RunConcat(Apply(w, run[0]), run[1..], more);
      assert (run + more)[1..] == run[1..] + more;
    }
  }

  lemma StepsTrans(w: World, w1: World, w2: World)
    requires Steps(w, w1) && Steps(w1, w2)
    ensures Steps(w, w2)
  {
    hide Apply;
    hide Enabled;
    var run: seq<Action> :| ValidRun(w, run) && After(w, run) == w1;
    var more: seq<Action> :| ValidRun(w1, more) && After(w1, more) == w2;
    RunConcat(w, run, more);
  }

  /** One more step of a run. */
  lemma Extend(w: World, w1: World, a: Action)
    requires Steps(w, w1) && Inv(w1) && Enabled(w1, a)
    ensures Steps(w, Apply(w1, a)) && Inv(Apply(w1, a))
  {
    hide Apply;
    hide Enabled;
    hide Inv;
    assert ValidRun(Apply(w1, a), []);
    assert [a][1..] == [];
    assert ValidRun(w1, [a]) && After(w1, [a]) == Apply(w1, a);
    StepsTrans(w, w1, Apply(w1, a));
    Safety.StepInv(w1, a);
  }

  lemma ExtendScan(w: World, w1: World)
    requires Steps(w, w1) && Inv(w1) && CanScan(w1)
    ensures Steps(w, ScanStep(w1)) && Inv(ScanStep(w1))
  {
    hide Steps;
    hide Inv;
    Extend(w, w1, ScanPage);
  }

  lemma ExtendMove(w: World, w1: World)
    requires Steps(w, w1) && Inv(w1) && CanMove(w1)
    ensures Steps(w, MoveStep(w1)) && Inv(MoveStep(w1))
  {
    hide Steps;
    hide Inv;
    Extend(w, w1, MovePage);
  }

  lemma ExtendProbe(w: World, w1: World, answer: Option<(nat, nat)>)
    requires Steps(w, w1) && Inv(w1) && CanProbe(w1, answer)
    ensures Steps(w, ProbeStep(w1, answer)) && Inv(ProbeStep(w1, answer))
  {
    hide Steps;
    hide Inv;
    Extend(w, w1, ProbeCache(answer));
  }

  lemma ExtendProbeLeft(w: World, w1: World)
    requires Steps(w, w1) && Inv(w1) && CanProbeLeft(w1)
    ensures Steps(w, ProbeLeftStep(w1)) && Inv(ProbeLeftStep(w1))
  {
    hide Steps;
    hide Inv;
    Extend(w, w1, ProbeCacheLeft);
  }

  lemma ExtendWriteEop(w: World, w1: World)
    requires Steps(w, w1) && Inv(w1) && CanWriteEop(w1)
    ensures Steps(w, WriteEopStep(w1)) && Inv(WriteEopStep(w1))
  {
    hide Steps;
    hide Inv;
    Extend(w, w1, WriteEop);
  }

  lemma ExtendSendEop(w: World, w1: World)
    requires Steps(w, w1) && Inv(w1) && CanSendEop(w1)
    ensures Steps(w, SendEopStep(w1)) && Inv(SendEopStep(w1))
  {
    hide Steps;
    hide Inv;
    Extend(w, w1, SendEop);
  }

  lemma ExtendAlloc(w: World, w1: World, len: nat)
    requires Steps(w, w1) && Inv(w1) && CanAlloc(w1)
    ensures Steps(w, AllocStep(w1, len)) && Inv(AllocStep(w1, len))
  {
    hide Steps;
    hide Inv;
    Extend(w, w1, Alloc(len));
  }

  lemma ExtendRetry(w: World, w1: World)
    requires Steps(w, w1) && Inv(w1) && CanRetry(w1)
    ensures Steps(w, RetryStep(w1)) && Inv(RetryStep(w1))
  {
    hide Steps;
    hide Inv;
    Extend(w, w1, AllocAgain);
  }

  lemma ExtendSend(w: World, w1: World, over: bool)
    requires Steps(w, w1) && Inv(w1) && HasPending(w1)
    ensures Steps(w, SendStep(w1, over)) && Inv(SendStep(w1, over))
  {
    hide Steps;
    hide Inv;
    Extend(w, w1, Send(over));
  }

  lemma ExtendWrite(w: World, w1: World, tag: nat, flags: nat, body: Body)
    requires Steps(w, w1) && Inv(w1) && CanWrite(w1, tag, body)
    ensures Steps(w, WriteStep(w1, tag, flags, body)) && Inv(WriteStep(w1, tag, flags, body))
  {
    hide Steps;
    hide Inv;
    Extend(w, w1, Write(tag, flags, body));
  }

  lemma ExtendForward(w: World, w1: World, src: Msg)
    requires Steps(w, w1) && Inv(w1) && CanForward(w1, src)
    ensures Steps(w, ForwardStep(w1, src)) && Inv(ForwardStep(w1, src))
  {
    hide Steps;
    hide Inv;
    Extend(w, w1, Forward(src));
  }

  lemma ExtendLoad(w: World, w1: World, r: nat)
    requires Steps(w, w1) && Inv(w1) && CanLoad(w1, r)
    ensures var w2 := WithReceiver(w1, r, LoadStep(w1.rcvs[r], w1.pages[w1.rcvs[r].page]));
            Steps(w, w2) && Inv(w2)
  {
    hide Steps;
    hide Inv;
    Extend(w, w1, Load(r));
  }

  lemma ExtendRead(w: World, w1: World, r: nat)
    requires Steps(w, w1) && Inv(w1) && CanRead(w1, r)
    ensures var w2 := WithReceiver(w1, r, ReadStep(w1.rcvs[r], w1.pages[w1.rcvs[r].page]));
            Steps(w, w2) && Inv(w2)
  {
    hide Steps;
    hide Inv;
    Extend(w, w1, Read(r));
  }

  lemma ExtendLeave(w: World, w1: World, r: nat)
    requires Steps(w, w1) && Inv(w1) && CanLeave(w1, r)
    ensures Steps(w, LeaveStep(w1, r)) && Inv(LeaveStep(w1, r))
  {
    hide Steps;
    hide Inv;
    Extend(w, w1, Leave(r));
  }

  lemma ExtendMap(w: World, w1: World, r: nat)
    requires Steps(w, w1) && Inv(w1) && CanMap(w1, r)
    ensures var w2 := WithReceiver(w1, r, MapStep(w1.rcvs[r], w1.pages)); Steps(w, w2) && Inv(w2)
  {
    hide Steps;
    hide Inv;
    Extend(w, w1, MapNext(r));
  }

  lemma ExtendJoin(w: World, w1: World, r: nat)
    requires Steps(w, w1) && Inv(w1) && CanJoin(w1, r)
    ensures Steps(w, JoinStep(w1, r)) && Inv(JoinStep(w1, r))
  {
    hide Steps;
    hide Inv;
    Extend(w, w1, Join(r));
  }

  // ------------------------------------------------------------------ objects

  /** The shared memory both sides map: every page by its id. */
  class SharedMemory {
    var pages: map<nat, Page>
    constructor () ensures pages == map[] { pages := map[]; }
  }

  datatype Outcome<+T> = Ok(value: T) | Failed | Panicked(why: StopReason)

  class LlmpSender {
    const mem: SharedMemory
    var id: nat
    var lastMsgSent: Option<nat>
    var outShmems: seq<nat>
    var unusedShmemCache: seq<nat>
    var keepPagesForever: bool
    var hasUnsentMessage: bool

    /** The state machine's view of this object and its memory. */
    ghost predicate Models(w: World)
      reads this, mem
    {
      && mem.pages == w.pages && id == w.snd.id && lastMsgSent == w.snd.lastMsg
      && outShmems == w.snd.out && unusedShmemCache == w.snd.cache && keepPagesForever == w.snd.keep
      && hasUnsentMessage == w.snd.pending.Some?
    }

    /** LlmpSender::new on a map of `mapLen` bytes the provider filed under `shmId`. */
    constructor (mem: SharedMemory, senderId: nat, keep: bool, shmId: nat, mapLen: nat)
      requires shmId !in mem.pages && PAGE_HEADER + EOP_MSG_SIZE <= mapLen
      modifies mem
      ensures this.mem == mem
      ensures Init(World(mem.pages, Sender(senderId, None, [shmId], [], keep, None, Ready), map[], [shmId], [[]], []))
      ensures Models(World(mem.pages, Sender(senderId, None, [shmId], [], keep, None, Ready), map[], [shmId], [[]], []))
    {
      this.mem := mem;
      id, lastMsgSent, outShmems, unusedShmemCache := senderId, None, [shmId], [];
      keepPagesForever, hasUnsentMessage := keep, false;
      new;
      mem.pages := mem.pages[shmId := PageInit(FreshMap(mapLen), senderId)];
    }

    /** alloc_next_if_space */
    method AllocNextIfSpace(bufLen: nat) returns (r: Option<nat>)
      requires outShmems != [] && outShmems[|outShmems| - 1] in mem.pages && !hasUnsentMessage
      requires LastCommitted(mem.pages[outShmems[|outShmems| - 1]], lastMsgSent)
      modifies this`hasUnsentMessage, mem
      ensures var cur := outShmems[|outShmems| - 1];
              var p := old(mem.pages)[cur];
              && (r.Some? <==> HasRoom(p.sizeUsed, p.sizeTotal, bufLen))
              && (r.Some? ==> r.value == p.sizeUsed)
              && hasUnsentMessage == r.Some?
              && mem.pages == old(mem.pages)[cur := if r.Some? then Reserve(NoteAlloc(p, bufLen), lastMsgSent, bufLen)
                                                    else NoteAlloc(p, bufLen)]
    {
      var cur := outShmems[|outShmems| - 1];
      var page := mem.pages[cur];
      var msgStart := PAGE_HEADER + page.sizeUsed;
      var padded := Align(msgStart + bufLen + MSG_HEADER) - msgStart - MSG_HEADER;
      assert padded == PaddedLen(page.sizeUsed, bufLen);
      hide Align, PaddedLen;
      page := page.(maxAlloc := Max(page.maxAlloc, MSG_HEADER + padded));
      mem.pages := mem.pages[cur := page];
      if page.sizeUsed + MSG_HEADER + padded + EOP_MSG_SIZE > page.sizeTotal {
        return None;
      }
      var off := page.sizeUsed;
      var msgId := if lastMsgSent.None? then 1 else MsgAt(page, lastMsgSent.value).id + 1;
      page := SetMsg(page, off, MsgAt(page, off).(id := msgId, bufLen := bufLen, bufLenPadded := padded));
      page := page.(sizeUsed := page.sizeUsed + MSG_HEADER + padded);
      page := SetTag(page, NextMsgPtr(page, off), TAG_UNSET);
      page := SetTag(page, off, TAG_UNINITIALIZED);
      mem.pages := mem.pages[cur := page];
      hasUnsentMessage := true;
      r := Some(off);
    }

    /** send: commit the message at `off`. */
    method Send(off: nat, overwriteClientId: bool, ghost w: World) returns (ok: bool, ghost w': World)
      requires Models(w) && Inv(w) && HasPending(w) && w.snd.pending == Some(off)
      requires MsgAt(w.pages[Current(w)], off).tag != TAG_UNSET
      modifies this`lastMsgSent, this`hasUnsentMessage, mem
      ensures ok && w' == SendStep(w, overwriteClientId) && Models(w') && Inv(w')
      ensures w'.snd.pc.Ready? && w'.snd.pending.None?
      ensures w'.committed == w.committed + [Stamped(w.pages[Current(w)], off, if overwriteClientId then Some(id) else None)]
    {
      hide Inv;
      SenderSteps.SendInv(w, overwriteClientId);
      SendNeverFails(w);
      var cur := outShmems[|outShmems| - 1];
      var page := mem.pages[cur];
      var m := MsgAt(page, off);
      if overwriteClientId { m := m.(sender := id); }
      ok := MsgInPage(page, off);
      if !ok { return false, w; }
      var mid := page.currentMsgId + 1;
      m := m.(id := mid);
      page := SetMsg(page, off, m);
      page := page.(currentMsgId := mid);
      mem.pages := mem.pages[cur := page];
      lastMsgSent := Some(off);
      hasUnsentMessage := false;
      w' := SendStep(w, overwriteClientId);
    }

    /** prune_old_pages, first loop: how many leading pages has the receiver joined? */
    method CountJoined(len: nat, ghost w: World) returns (unmapUntilExcl: nat)
      requires Models(w) && Inv(w) && w.snd.pc == Scan(0, len)
      ensures unmapUntilExcl < |outShmems| && forall i :: 0 <= i < |outShmems| ==> outShmems[i] in mem.pages
      ensures forall i :: 0 <= i < unmapUntilExcl ==> mem.pages[outShmems[i]].joined != 0
      ensures unmapUntilExcl == |outShmems| - 1 || mem.pages[outShmems[unmapUntilExcl]].joined == 0
      ensures var w' := WithPc(w, if unmapUntilExcl == 0 && |outShmems| > MAX_PENDING_UNREAD_PAGES
                                  then Stopped(SlowReceiver) else Move(unmapUntilExcl, len));
              Models(w') && Inv(w') && Steps(w, w')
    {
      hide Inv;
      hide Steps;
      ghost var w' := w;
      StepsRefl(w);
      unmapUntilExcl := 0;
      PruneReady(w');
      while unmapUntilExcl < |outShmems| - 1
        invariant 0 <= unmapUntilExcl <= |outShmems| - 1
        invariant Models(w') && Inv(w') && Steps(w, w') && CanScan(w')
        invariant w' == WithPc(w, Scan(unmapUntilExcl, len))
        invariant forall i :: 0 <= i < |outShmems| ==> outShmems[i] in mem.pages
        invariant forall i :: 0 <= i < unmapUntilExcl ==> mem.pages[outShmems[i]].joined != 0
      {
        if mem.pages[outShmems[unmapUntilExcl]].joined == 0 { break; }
        ExtendScan(w, w');
        w' := ScanStep(w');
        unmapUntilExcl := unmapUntilExcl + 1;
        PruneReady(w');
      }
      ExtendScan(w, w');
      w' := ScanStep(w');
    }

    /** prune_old_pages, second loop: move one page to the cache. */
    method RetirePage(ghost w: World)
      requires Models(w) && w.snd.pc.Move? && w.snd.pc.k > 0 && CanMove(w)
      requires w.pages[w.snd.out[0]].magic == Initialized
      modifies this`outShmems, this`unusedShmemCache, mem
      ensures Models(MoveStep(w))
    {
      var shm := outShmems[0];
      mem.pages := mem.pages[shm := mem.pages[shm].(magic := Deinitialized)];
      outShmems := outShmems[1..];
      unusedShmemCache := unusedShmemCache + [shm];
    }

    /** prune_old_pages, second loop: move `k` pages to the cache. */
    method RetirePages(k: nat, len: nat, ghost w: World) returns (ghost w': World)
      requires Models(w) && Inv(w) && w.snd.pc == Move(k, len)
      modifies this`outShmems, this`unusedShmemCache, mem
      ensures Models(w') && Inv(w') && Steps(w, w') && Quiet(w, w') && SameCurrent(w, w')
      ensures w'.snd.pc == Probe(0, len) && Held(w') == Held(w) && SameMaps(w, w')
      ensures |w'.snd.out| == |w.snd.out| - k
    {
      hide Inv, Steps;
      w' := w;
      StepsRefl(w);
      PruneReady(w);
      var i := 0;
      while i < k
        invariant 0 <= i <= k && Models(w') && Inv(w') && Steps(w, w') && CanMove(w')
        invariant w'.snd.pc == Move(k - i, len) && w'.pages[w'.snd.out[0]].magic == Initialized
        invariant |w'.snd.out| == |w.snd.out| - i
        invariant Quiet(w, w') && SameCurrent(w, w') && Held(w') == Held(w) && SameMaps(w, w')
      {
        ExtendMove(w, w');
        PruneReady(w');
        RetirePage(w');
        MoveKeeps(w');
        w' := MoveStep(w');
        i := i + 1;
        PruneReady(w');
      }
      ExtendMove(w, w');
      w' := MoveStep(w');
    }

    /** prune_old_pages: retire every leading page the receiver has joined. */
    method PruneOldPages(len: nat, ghost w: World) returns (ok: bool, ghost w': World)
      requires Models(w) && Inv(w) && w.snd.pc == Scan(0, len)
      modifies this`outShmems, this`unusedShmemCache, mem
      ensures Models(w') && Inv(w') && Steps(w, w') && Quiet(w, w') && SameCurrent(w, w')
      ensures w'.snd.pc == if ok then Probe(0, len) else Stopped(SlowReceiver)
      ensures Held(w') == Held(w) && SameMaps(w, w')
      ensures CanStep(w) && (ok <==> !Unread(w))
      ensures ok ==> LeadingJoined(w, |w.snd.out| - |w'.snd.out|)
    {
      hide Inv, Steps;
      PruneReady(w);
      var unmapUntilExcl;
      unmapUntilExcl := CountJoined(len, w);
      if unmapUntilExcl == 0 && |outShmems| > MAX_PENDING_UNREAD_PAGES {
        return false, WithPc(w, Stopped(SlowReceiver));
      }
      ghost var w1 := WithPc(w, Move(unmapUntilExcl, len));
      w' := RetirePages(unmapUntilExcl, len, w1);
      StepsTrans(w, w1, w');
      ok := true;
    }

    /** new_or_unused_shmem, the search: the first cached page all of whose receivers have left. */
    method FindReleased(len: nat, ghost w: World) returns (e: nat)
      requires Models(w) && Inv(w) && w.snd.pc == Probe(0, len) && CanStep(w)
      requires NextShmemSize(w.pages[Current(w)].maxAlloc) < USIZE_LIMIT
      ensures e <= |unusedShmemCache| && forall i :: 0 <= i < |unusedShmemCache| ==> unusedShmemCache[i] in mem.pages
      ensures forall i :: 0 <= i < e ==> mem.pages[unusedShmemCache[i]].left != 1
      ensures e < |unusedShmemCache| ==> mem.pages[unusedShmemCache[e]].left == 1
      ensures var w' := WithPc(w, if e == |unusedShmemCache| then Probe(e, len) else ProbeLeft(e, 1, len));
              Models(w') && Inv(w') && Steps(w, w') && (e < |unusedShmemCache| ==> CanProbeLeft(w'))
    {
      hide Inv;
      hide Steps;
      e := 0;
      ghost var w' := w;
      StepsRefl(w);
      ProbeReady(w);
      while e < |unusedShmemCache|
        invariant e <= |unusedShmemCache|
        invariant Models(w') && Inv(w') && Steps(w, w') && w' == WithPc(w, Probe(e, len))
        invariant forall i :: 0 <= i < e ==> mem.pages[unusedShmemCache[i]].left != 1
      {
        ProbeReady(w');
        ExtendProbe(w, w', None);
        w' := ProbeStep(w', None);
        ProbeReady(w');
        if mem.pages[unusedShmemCache[e]].left == mem.pages[unusedShmemCache[e]].joined { return; }
        ExtendProbeLeft(w, w');
        w' := ProbeLeftStep(w');
        e := e + 1;
      }
    }

    /** Page `newId` is ready to follow the current one; only its header is still to be filled in. */
    ghost predicate HasLinked(w: World, newId: nat, len: nat)
      reads this, mem
    {
      && CanStep(w) && w.snd.pc == Linked(newId, len) && newId in mem.pages && newId != Current(w)
      && mem.pages[newId := mem.pages[newId].(currentMsgId := 0, maxAlloc := w.pages[Current(w)].maxAlloc)] == w.pages
      && unusedShmemCache == w.snd.cache
    }

    /** A released page leaves the cache, to be used again or, if too small, dropped. */
    method TakeReleased(e: nat, len: nat, size: nat, ghost w: World) returns (reuse: bool, cached: nat)
      requires Models(w) && CanProbeLeft(w) && w.snd.pc == ProbeLeft(e, 1, len) && w.snd.cache[e] != Current(w)
      requires var p := w.pages[w.snd.cache[e]]; p.left == 1 && p.joined == 1 && p.magic == Deinitialized
      requires size == NextShmemSize(w.pages[Current(w)].maxAlloc)
      modifies this`unusedShmemCache, mem
      ensures var w' := ProbeLeftStep(w);
              && Quiet(w, w') && SameCurrent(w, w') && w'.snd == w.snd.(cache := w'.snd.cache, pc := w'.snd.pc)
              && cached == w.snd.cache[e] && (reuse <==> size <= w.pages[cached].mapLen)
              && if reuse then HasLinked(w', cached, len)
                 else Models(w') && w'.snd.pc == Probe(0, len) && |w'.snd.cache| < |w.snd.cache| && w'.pages.Keys <= w.pages.Keys
    {
      hide NextShmemSize, PageInit;
      var cur := outShmems[|outShmems| - 1];
      cached := unusedShmemCache[e];
      unusedShmemCache := unusedShmemCache[..e] + unusedShmemCache[e + 1..];
      reuse := size <= mem.pages[cached].mapLen;
      if reuse {
        mem.pages := mem.pages[cached := PageInit(mem.pages[cached], mem.pages[cur].senderId)];
      } else {
        mem.pages := mem.pages - {cached};
      }
    }

    /** No cached page will do: the provider is asked. */
    method AskProvider(len: nat, answer: Option<(nat, nat)>, ghost w: World) returns (r: Outcome<nat>)
      requires Models(w) && CanProbe(w, answer) && w.snd.pc == Probe(|w.snd.cache|, len)
      requires NextShmemSize(w.pages[Current(w)].maxAlloc) < USIZE_LIMIT
      modifies mem
      ensures var w' := ProbeStep(w, answer);
              && Quiet(w, w') && SameCurrent(w, w') && w'.snd == w.snd.(cache := w'.snd.cache, pc := w'.snd.pc)
              && match answer
                 case Some(f) => r == Ok(f.0) && HasLinked(w', f.0, len)
                 case None => r == Failed && Models(w') && w'.snd.pc == Ready
    {
      hide NextShmemSize, PageInit;
      if answer.None? { return Failed; }
      var cur := outShmems[|outShmems| - 1];
      mem.pages := mem.pages[answer.value.0 := PageInit(FreshMap(answer.value.1), mem.pages[cur].senderId)];
      r := Ok(answer.value.0);
    }

    /** new_or_unused_shmem: an empty initialised page, from the cache if a released one is large enough.
        `answer` is what the provider says if it has to be asked. */
    method NewOrUnusedShmem(len: nat, answer: Option<(nat, nat)>, ghost w: World)
      returns (r: Outcome<nat>, ghost w': World)
      requires Models(w) && Inv(w) && w.snd.pc == Probe(0, len) && CanStep(w)
      requires answer.Some? ==> answer.value.0 !in w.pages
      requires answer.Some? ==> NextShmemSize(w.pages[Current(w)].maxAlloc) <= answer.value.1
      modifies this`unusedShmemCache, mem
      ensures Inv(w') && Steps(w, w') && Quiet(w, w') && SameCurrent(w, w')
      ensures w'.snd == w.snd.(cache := w'.snd.cache, pc := w'.snd.pc)
      ensures match r
              case Ok(newId) => HasLinked(w', newId, len)
              case Failed => w'.snd.pc == Ready && Models(w')
              case Panicked(why) => w'.snd.pc == Stopped(Overflow)
      ensures var size := NextShmemSize(w.pages[Current(w)].maxAlloc);
              Meets(r, if USIZE_LIMIT <= size then Stops(Overflow)
                       else if answer.Some? || CacheUsable(w, size) then Granted else Refused)
              && (r.Ok? ==> Picked(w, w.snd.cache, size, answer, r.value))
      decreases |w.snd.cache|
    {
      hide Inv, Steps, NextShmemSize, HasLinked, ProbeLeftStep, Picked;
      StepsRefl(w);
      ProbeReady(w);
      var cur := outShmems[|outShmems| - 1];
      var size := NextShmemSize(mem.pages[cur].maxAlloc);
      if USIZE_LIMIT <= size {
        ExtendProbe(w, w, None);
        return Panicked(Overflow), ProbeStep(w, None);
      }
      var e := FindReleased(len, w);
      w' := WithPc(w, if e == |unusedShmemCache| then Probe(e, len) else ProbeLeft(e, 1, len));
      ProbeReady(w');
      ProbeLinks(w', answer);
      if e < |unusedShmemCache| {
        ExtendProbeLeft(w, w');
        ghost var w1 := ProbeLeftStep(w');
        var reuse, cached := TakeReleased(e, len, size, w');
        if reuse {
          assert Usable(w, w.snd.cache[e], size);
          PickedAt(w, size, answer, e);
          r, w' := Ok(cached), w1;
        } else {
          ghost var w2 := w';
          DropUsable(w', size);
          assert CacheUsable(w', size) <==> CacheUsable(w, size) by { SameCacheUsable(w, w', size); }
          r, w' := NewOrUnusedShmem(len, answer, w1);
          StepsTrans(w, w1, w');
          if r.Ok? { DropPicked(w2, size, answer, r.value); PickedFrame(w, w2, size, answer, r.value); }
        }
      } else {
        PickedFresh(w, size, answer);
        ExtendProbe(w, w', answer);
        r := AskProvider(len, answer, w');
        w' := ProbeStep(w', answer);
      }
    }

    /** alloc_eop, and the page info handle_out_eop writes into the message. */
    method AllocEop(newId: nat, ghost w: World)
      requires Models(w) && Inv(w) && w.snd.pc.Linked? && w.snd.pc.newId == newId
      modifies mem
      ensures CanWriteEop(w) && Models(WriteEopStep(w))
    {
      hide Inv;
      EopReadyToWrite(w);
      var cur := outShmems[|outShmems| - 1];
      var page := mem.pages[cur];
      var off := if lastMsgSent.None? then 0 else NextMsgPtr(page, lastMsgSent.value);
      var msgId := if lastMsgSent.None? then 1 else MsgAt(page, lastMsgSent.value).id + 1;
      var m := MsgAt(page, off).(bufLen := MAP_INFO_LEN, bufLenPadded := MAP_INFO_LEN, id := msgId, tag := TAG_END_OF_PAGE);
      page := page.(sizeUsed := page.sizeUsed + EOP_MSG_SIZE);
      m := m.(body := MapInfo(mem.pages[newId].mapLen, newId));
      page := SetMsg(page, off, m);
      mem.pages := mem.pages[cur := page];
    }

    /** The rest of handle_out_eop: send the EOP and make the new page current. */
    method SendEop(newId: nat, off: nat, ghost w: World)
      requires Models(w) && Inv(w) && w.snd.pc.EopReady? && w.snd.pc.newId == newId && w.snd.pc.off == off
      modifies this, mem
      ensures CanSendEop(w) && Models(SendEopStep(w))
    {
      hide Inv;
      EopReadyToSend(w);
      var cur := outShmems[|outShmems| - 1];
      var page := mem.pages[cur];
      page := SetMsg(page, off, MsgAt(page, off).(sender := id, id := page.currentMsgId + 1));
      page := page.(currentMsgId := page.currentMsgId + 1);
      mem.pages := mem.pages[cur := page];
      hasUnsentMessage := false;
      outShmems := outShmems + [newId];
      lastMsgSent := None;
    }

    /** handle_out_eop, once it has the new page: announce it with an EOP and switch to it. */
    method AnnounceNewPage(newId: nat, len: nat, ghost w: World) returns (ghost w': World)
      requires Models(w) && Inv(w) && w.snd.pc == Linked(newId, len)
      modifies this, mem
      ensures Models(w') && Inv(w') && Steps(w, w') && w'.snd.pc == Retry(len) && CanStep(w')
      ensures w'.rcvs == w.rcvs && w'.committed == w.committed && w'.chain == w.chain + [newId] && w'.snd.id == w.snd.id
    {
      hide Inv;
      hide Steps;
      StepsRefl(w);
      EopReadyToWrite(w);
      var page := mem.pages[outShmems[|outShmems| - 1]];
      var off := if lastMsgSent.None? then 0 else NextMsgPtr(page, lastMsgSent.value);
      AllocEop(newId, w);
      ghost var w1 := WriteEopStep(w);
      ExtendWriteEop(w, w);
      EopReadyToSend(w1);
      SendEop(newId, off, w1);
      ExtendSendEop(w, w1);
      w' := SendEopStep(w1);
    }

    /** handle_out_eop, up to the point where it has a new page: prune, then look for one. */
    method ObtainPage(len: nat, answer: Option<(nat, nat)>, ghost w: World)
      returns (r: Outcome<nat>, ghost w': World)
      requires Models(w) && Inv(w) && CanStep(w)
      requires w.snd.pc == if w.snd.keep then Probe(0, len) else Scan(0, len)
      requires answer.Some? ==> answer.value.0 !in w.pages
      requires answer.Some? ==> NextShmemSize(w.pages[Current(w)].maxAlloc) <= answer.value.1
      modifies this`outShmems, this`unusedShmemCache, mem
      ensures Inv(w') && Steps(w, w') && Quiet(w, w') && SameCurrent(w, w') && w'.snd.id == w.snd.id
      ensures r.Ok? ==> && HasLinked(w', r.value, len) && id == w'.snd.id && lastMsgSent == w'.snd.lastMsg
                        && outShmems == w'.snd.out && keepPagesForever == w'.snd.keep
                        && hasUnsentMessage == w'.snd.pending.Some?
      ensures r.Failed? ==> w'.snd.pc == Ready && Models(w')
      ensures r.Panicked? ==> w'.snd.pc == Stopped(r.why)
      ensures Meets(r, SwitchVerdict(w, answer.Some?))
    {
      hide Inv, Steps, NextShmemSize, LeadingJoined, Held, CacheUsable, Reusable, Unread, HasLinked;
      StepsRefl(w);
      ghost var w1 := w;
      if !keepPagesForever {
        var ok;
        ok, w1 := PruneOldPages(len, w);
        if !ok { return Panicked(SlowReceiver), w1; }
        PruneUsable(w, w1, NextShmemSize(w.pages[Current(w)].maxAlloc));
      } else {
        KeptReusable(w, NextShmemSize(w.pages[Current(w)].maxAlloc));
      }
      r, w' := NewOrUnusedShmem(len, answer, w1);
      StepsTrans(w, w1, w');
    }

    /** handle_out_eop: link a new page behind the full one. */
    method HandleOutEop(len: nat, answer: Option<(nat, nat)>, ghost w: World)
      returns (r: Outcome<()>, ghost w': World)
      requires Models(w) && Inv(w) && CanStep(w)
      requires w.snd.pc == if w.snd.keep then Probe(0, len) else Scan(0, len)
      requires answer.Some? ==> answer.value.0 !in w.pages
      requires answer.Some? ==> NextShmemSize(w.pages[Current(w)].maxAlloc) <= answer.value.1
      modifies this, mem
      ensures Inv(w') && Steps(w, w') && w'.rcvs == w.rcvs && w'.committed == w.committed && w'.snd.id == w.snd.id
      ensures r.Ok? ==> w'.snd.pc == Retry(len) && Models(w') && CanStep(w')
      ensures r.Failed? ==> w'.snd.pc == Ready && Models(w')
      ensures r.Panicked? ==> w'.snd.pc == Stopped(r.why)
      ensures Meets(r, SwitchVerdict(w, answer.Some?))
    {
      hide Inv, Steps, NextShmemSize, SwitchVerdict;
      var maxAlloc := mem.pages[outShmems[|outShmems| - 1]].maxAlloc;
      var newPage;
      newPage, w' := ObtainPage(len, answer, w);
      if newPage.Failed? { return Failed, w'; }
      if newPage.Panicked? { return Panicked(newPage.why), w'; }
      var newId := newPage.value;
      mem.pages := mem.pages[newId := mem.pages[newId].(currentMsgId := 0, maxAlloc := maxAlloc)];
      ghost var w2 := AnnounceNewPage(newId, len, w');
      StepsTrans(w, w', w2);
      r, w' := Ok(()), w2;
    }

    /** alloc_next: reserve a message of `bufLen` bytes, switching pages when the current one is full. */
    method AllocNext(bufLen: nat, answer: Option<(nat, nat)>, ghost w: World)
      returns (r: Outcome<nat>, ghost w': World)
      requires Models(w) && Inv(w) && CanAlloc(w)
      requires AnswerFits(answer, w, bufLen)
      modifies this, mem
      ensures Inv(w') && Steps(w, w') && w'.rcvs == w.rcvs && w'.committed == w.committed
      ensures r.Ok? ==> && Models(w') && HasPending(w') && w'.snd.pending == Some(r.value) && w'.snd.id == w.snd.id
                        && MsgAt(w'.pages[Current(w')], r.value).bufLen == bufLen
      ensures r.Failed? ==> w'.snd.pc == Ready && Models(w')
      ensures r.Panicked? ==> w'.snd.pc == Stopped(r.why)
      ensures Meets(r, AllocVerdict(w, bufLen, answer.Some?))
    {
      hide Inv;
      hide Steps;
      hide NextShmemSize;
      hide Reserve;
      hide NoteAlloc;
      hide HasRoom;
      hide LastCommitted, SwitchVerdict;
      StepsRefl(w);
      ExtendAlloc(w, w, bufLen);
      w' := AllocStep(w, bufLen);
      var page := mem.pages[outShmems[|outShmems| - 1]];
      if hasUnsentMessage { return Panicked(Misuse), w'; }
      if AllocOverflows(page, bufLen) { return Panicked(Overflow), w'; }
      ReadyToAlloc(w, bufLen);
      var first := AllocNextIfSpace(bufLen);
      if first.Some? { return Ok(first.value), w'; }
      var switched;
      ghost var w1 := w';
      VerdictFrame(WithCurrent(w, NoteAlloc(w.pages[Current(w)], bufLen), w.snd), w1, answer.Some?);
      switched, w' := HandleOutEop(bufLen, answer, w1);
      StepsTrans(w, w1, w');
      if switched.Failed? { return Failed, w'; }
      if switched.Panicked? { return Panicked(switched.why), w'; }
      ghost var w2 := w';
      ExtendRetry(w, w2);
      w' := RetryStep(w2);
      RetryWorks(w2);
      var second := AllocNextIfSpace(bufLen);
      r := Ok(second.value);
    }

    /** send_buf_with_flags: exactly this message is committed, or nothing is. */
    method SendBufWithFlags(tag: nat, flags: nat, buf: seq<bv8>, answer: Option<(nat, nat)>, ghost w: World)
      returns (r: Outcome<()>, ghost w': World)
      requires Models(w) && Inv(w) && CanAlloc(w) && AnswerFits(answer, w, |buf|)
      modifies this, mem
      ensures Inv(w') && Steps(w, w') && w'.rcvs == w.rcvs
      ensures tag == TAG_NEW_SHM_CLIENT || tag == TAG_END_OF_PAGE || tag == TAG_UNINITIALIZED || tag == TAG_UNSET ==>
                r.Failed? && w' == w && Models(w)
      ensures r.Ok? ==> Models(w') && w'.snd.pc == Ready && w'.snd.pending.None?
      ensures r.Ok? ==> && |w'.committed| == |w.committed| + 1 && w.committed < w'.committed
                        && var m := w'.committed[|w.committed|];
                           m.tag == tag && m.flags == flags && m.sender == w.snd.id && m.body == Bytes(buf) && m.bufLen == |buf|
      ensures !r.Ok? ==> w'.committed == w.committed
      ensures r.Panicked? ==> w'.snd.pc == Stopped(r.why)
      ensures tag != TAG_NEW_SHM_CLIENT && tag != TAG_END_OF_PAGE && tag != TAG_UNINITIALIZED && tag != TAG_UNSET ==>
                Meets(r, AllocVerdict(w, |buf|, answer.Some?))
    {
      hide Inv;
      hide Steps;
      hide NextShmemSize, AllocVerdict;
      StepsRefl(w);
      if tag == TAG_NEW_SHM_CLIENT || tag == TAG_END_OF_PAGE || tag == TAG_UNINITIALIZED || tag == TAG_UNSET {
        return Failed, w;
      }
      var got;
      got, w' := AllocNext(|buf|, answer, w);
      if got.Failed? { return Failed, w'; }
      if got.Panicked? { return Panicked(got.why), w'; }
      var off := got.value;
      FillAndSend(off, tag, flags, buf, w');
      ghost var w1 := WriteStep(w', tag, flags, Bytes(buf));
      ExtendWrite(w, w', tag, flags, Bytes(buf));
      ExtendSend(w, w1, true);
      SendNeverFails(w1);
      w' := SendStep(w1, true);
      r := Ok(());
    }

    /** What send_buf does with the message alloc_next returned. */
    method FillAndSend(off: nat, tag: nat, flags: nat, buf: seq<bv8>, ghost w: World)
      requires Models(w) && Inv(w) && CanWrite(w, tag, Bytes(buf)) && w.snd.pending == Some(off) && tag != TAG_UNSET
      modifies this, mem
      ensures HasPending(WriteStep(w, tag, flags, Bytes(buf)))
      ensures Models(SendStep(WriteStep(w, tag, flags, Bytes(buf)), true))
    {
      hide Inv;
      var cur := outShmems[|outShmems| - 1];
      var page := mem.pages[cur];
      page := SetMsg(page, off, MsgAt(page, off).(tag := tag));
      page := SetMsg(page, off, MsgAt(page, off).(flags := flags));
      page := SetMsg(page, off, MsgAt(page, off).(body := Bytes(buf)));
      assert page.slots == Fill(mem.pages[cur], off, tag, flags, Bytes(buf)).slots;
      mem.pages := mem.pages[cur := page];
      ghost var w1 := WriteStep(w, tag, flags, Bytes(buf));
      SenderSteps.WriteInv(w, tag, flags, Bytes(buf));
      var ok;
      ghost var w2;
      ok, w2 := Send(off, true, w1);
    }

    /** forward_msg: commit a copy of the received message `src`, sender and all. */
    method ForwardMsg(src: Msg, answer: Option<(nat, nat)>, ghost w: World)
      returns (r: Outcome<()>, ghost w': World)
      requires Models(w) && Inv(w) && CanAlloc(w) && AnswerFits(answer, w, src.bufLenPadded)
      requires !IsEop(src) && src.tag != TAG_UNSET && src.bufLen <= src.bufLenPadded
      modifies this, mem
      ensures Inv(w') && Steps(w, w') && w'.rcvs == w.rcvs
      ensures r.Ok? ==> Models(w') && w'.snd.pc == Ready && w'.snd.pending.None?
      ensures r.Ok? ==> && |w'.committed| == |w.committed| + 1 && w.committed < w'.committed
                        && var m := w'.committed[|w.committed|];
                           m == src.(id := m.id, bufLenPadded := m.bufLenPadded)
      ensures !r.Ok? ==> w'.committed == w.committed
      ensures r.Panicked? ==> w'.snd.pc == Stopped(r.why)
      ensures Meets(r, AllocVerdict(w, src.bufLenPadded, answer.Some?))
    {
      hide Inv;
      hide Steps;
      hide NextShmemSize, AllocVerdict;
      StepsRefl(w);
      var got;
      got, w' := AllocNext(src.bufLenPadded, answer, w);
      if got.Failed? { return Failed, w'; }
      if got.Panicked? { return Panicked(got.why), w'; }
      var off := got.value;
      var cur := outShmems[|outShmems| - 1];
      var page := mem.pages[cur];
      var actualSize := MsgAt(page, off).bufLenPadded;
      mem.pages := mem.pages[cur := SetMsg(page, off, src.(bufLenPadded := actualSize))];
      ghost var w1 := ForwardStep(w', src);
      ExtendForward(w, w', src);
      ExtendSend(w, w1, false);
      var ok;
      ok, w' := Send(off, false, w1);
      r := Ok(());
    }

    /** shrink_alloced: give back part of the reserved message. */
    method ShrinkAlloced(msg: Option<nat>, shrinkedLen: nat, ghost w: World) returns (r: ShrinkResult, ghost w': World)
      requires Models(w) && Inv(w) && CanAlloc(w) && (msg.Some? && w.snd.pending.Some? ==> msg == w.snd.pending)
      modifies mem
      ensures Models(w') && Inv(w') && (r != Shrunk ==> w' == w)
      ensures r == NullMsg <==> msg.None?
      ensures r == NothingUnsent <==> msg.Some? && w.snd.pending.None?
      ensures r == TooLarge <==>
              (msg.Some? && w.snd.pending.Some? &&
               MsgAt(w.pages[Current(w)], msg.value).bufLenPadded < PaddedLen(msg.value, shrinkedLen))
      ensures r == Shrunk ==> && HasPending(w) && w' == ShrinkStep(w, shrinkedLen) && HasPending(w')
                              && MsgAt(w'.pages[Current(w')], msg.value).bufLen == shrinkedLen
                              && w'.pages[Current(w')].sizeUsed <= w.pages[Current(w)].sizeUsed
    {
      hide Inv;
      if msg.None? { return NullMsg, w; }
      if !hasUnsentMessage { return NothingUnsent, w; }
      var off := msg.value;
      w' := ShrinkStep(w, shrinkedLen);
      SenderSteps.ShrinkInv(w, shrinkedLen);
      PendingShape(w);
      var cur := outShmems[|outShmems| - 1];
      var page := mem.pages[cur];
      var oldLenPadded := MsgAt(page, off).bufLenPadded;
      var msgStart := PAGE_HEADER + off;
      var padded := Align(msgStart + shrinkedLen + MSG_HEADER) - msgStart - MSG_HEADER;
      if padded > oldLenPadded { return TooLarge, w'; }
      page := SetMsg(page, off, MsgAt(page, off).(bufLen := shrinkedLen, bufLenPadded := padded));
      page := page.(sizeUsed := page.sizeUsed - oldLenPadded);
      page := page.(sizeUsed := page.sizeUsed + padded);
      page := SetTag(page, NextMsgPtr(page, off), TAG_UNSET);
      mem.pages := mem.pages[cur := page];
      r := Shrunk;
    }
  }

  /** shrink_alloced succeeds, or refuses a null message, a call with nothing unsent, or a larger length. */
  datatype ShrinkResult = Shrunk | NullMsg | NothingUnsent | TooLarge

  datatype Received = NoMsg | GotMsg(m: Msg) | ExitSeen(why: HaltReason)

  class LlmpReceiver {
    const mem: SharedMemory
    var currentRecvShmem: nat
    var lastMsgRecvd: Option<nat>
    var highestMsgId: nat

    ghost predicate Models(w: World, r: nat)
      reads this, mem
    {
      && mem.pages == w.pages && r in w.rcvs
      && currentRecvShmem == w.rcvs[r].page && lastMsgRecvd == w.rcvs[r].lastMsg && highestMsgId == w.rcvs[r].highest
    }

    /** A receiver that starts to read at the first page of the chain. */
    constructor (mem: SharedMemory, firstPage: nat)
      ensures this.mem == mem && currentRecvShmem == firstPage && lastMsgRecvd == None && highestMsgId == 0
    {
      this.mem := mem;
      currentRecvShmem, lastMsgRecvd, highestMsgId := firstPage, None, 0;
    }

    /** recv, from entry to the point where it knows where the next message is. */
    method FindNext(ghost w: World, ghost r: nat) returns (ret: Option<nat>)
      requires Models(w, r) && Inv(w) && w.rcvs[r].pc.Idle?
      modifies this`highestMsgId
      ensures CanLoad(w, r)
      ensures var v' := LoadStep(w.rcvs[r], w.pages[w.rcvs[r].page]);
              Models(WithReceiver(w, r, v'), r) && v'.pc == if ret.None? then Idle else Reading(ret.value)
    {
      hide Inv;
      IdleLookup(w, r);
      var page := mem.pages[currentRecvShmem];
      var currentMsgId;
      if lastMsgRecvd.Some? && highestMsgId > MsgAt(page, lastMsgRecvd.value).id {
        currentMsgId := highestMsgId;
      } else {
        currentMsgId := page.currentMsgId;
        highestMsgId := currentMsgId;
      }
      if currentMsgId == 0 { return None; }
      if lastMsgRecvd.None? { return Some(0); }
      if MsgAt(page, lastMsgRecvd.value).id == currentMsgId { return None; }
      ret := NextMsgPtrChecked(page, lastMsgRecvd.value, MSG_HEADER);
    }

    /** recv's handling of an EOP whose page info is copied: leave, map the next page, join it. */
    method FollowEop(info: Body, ghost w: World, ghost r: nat) returns (ghost w': World)
      requires Models(w, r) && Inv(w) && w.rcvs[r].pc == Copied(info)
      modifies this, mem
      ensures Models(w', r) && Inv(w') && Steps(w, w') && SameHistory(w, w')
      ensures w'.rcvs[r].pc.Idle? && w'.rcvs[r].pos == w.rcvs[r].pos + 1 < |w.chain|
      ensures w'.rcvs[r].delivered == w.rcvs[r].delivered
    {
      hide Inv;
      hide Steps;
      StepsRefl(w);
      CopiedReady(w, r);
      ExtendLeave(w, w, r);
      mem.pages := mem.pages[currentRecvShmem := mem.pages[currentRecvShmem].(left := 1)];
      ghost var w1 := LeaveStep(w, r);
      ReceiverSteps.NextPageMappable(w1, r);
      ExtendMap(w, w1, r);
      currentRecvShmem := info.shmId;
      ghost var w2 := WithReceiver(w1, r, MapStep(w1.rcvs[r], w1.pages));
      ExtendJoin(w, w2, r);
      mem.pages := mem.pages[currentRecvShmem := mem.pages[currentRecvShmem].(joined := 1)];
      w' := JoinStep(w2, r);
    }

    /** recv: the next committed message, or the news that there is none. */
    method Recv(ghost w: World, ghost r: nat) returns (res: Received, ghost w': World)
      requires Models(w, r) && Inv(w) && w.rcvs[r].pc.Idle?
      modifies this, mem
      ensures Models(w', r) && Inv(w') && Steps(w, w') && SameHistory(w, w')
      ensures var d, d' := w.rcvs[r].delivered, w'.rcvs[r].delivered;
              match res
              case NoMsg => d' == d == w.committed && w'.rcvs[r].pc.Idle?
              case GotMsg(m) =>
                && |d| < |w.committed| && m == w.committed[|d|] && m.tag != TAG_EXITING
                && d' == d + [m] && w'.rcvs[r].pc.Idle?
              case ExitSeen(why) =>
                && |d| < |w.committed| && w.committed[|d|].tag == TAG_EXITING && d' == d
                && (why == ShuttingDown <==> w.committed[|d|].bufLen == 0)
      decreases |w.chain| - w.rcvs[r].pos
    {
      hide Inv;
      hide Steps;
      StepsRefl(w);
      IdleLookup(w, r);
      ExtendLoad(w, w, r);
      NothingLeft(w, r);
      var ret := FindNext(w, r);
      ghost var w1 := WithReceiver(w, r, LoadStep(w.rcvs[r], w.pages[w.rcvs[r].page]));
      if ret.None? { return NoMsg, w1; }
      var m := MsgAt(mem.pages[currentRecvShmem], ret.value);
      ReadsNext(w1, r);
      ExtendRead(w, w1, r);
      ghost var w2 := WithReceiver(w1, r, ReadStep(w1.rcvs[r], w1.pages[w1.rcvs[r].page]));
      if m.tag == TAG_EXITING {
        return ExitSeen(if m.bufLen == 0 then ShuttingDown else ExitWithPayload), w2;
      }
      if m.tag == TAG_END_OF_PAGE {
        lastMsgRecvd, highestMsgId := None, 0;
        ghost var w3 := FollowEop(m.body, w2, r);
        StepsTrans(w, w2, w3);
        res, w' := Recv(w3, r);
        StepsTrans(w, w3, w');
        return;
      }
      lastMsgRecvd := ret;
      res, w' := GotMsg(m), w2;
    }
  }

  lemma SendNeverFails(w: World)
    requires Inv(w) && HasPending(w) && MsgAt(w.pages[Current(w)], w.snd.pending.value).tag != TAG_UNSET
    ensures MsgInPage(w.pages[Current(w)], w.snd.pending.value) && w.snd.lastMsg != w.snd.pending && w.logs != []
  {
    hide LiveInv;
    hide ReceiversInv;
    hide Flat;
    hide Laid;
    var p, log := w.pages[Current(w)], w.logs[|w.logs| - 1];
    CommitWritable(p, log, w.snd.lastMsg, w.snd.pending.value, None);
    SenderSteps.NotLast(log, w.snd.pending.value);
  }

  /** The same maps are in memory, left by the same receivers. */
  ghost predicate SameMaps(w: World, w': World) {
    && w'.pages.Keys == w.pages.Keys
    && forall id :: id in w.pages ==> w'.pages[id].left == w.pages[id].left && w'.pages[id].mapLen == w.pages[id].mapLen
  }

  /** Too many pages are out and the receiver has not joined even the first: prune_old_pages gives up. */
  ghost predicate Unread(w: World) {
    && w.snd.out != [] && w.snd.out[0] in w.pages
    && |w.snd.out| > MAX_PENDING_UNREAD_PAGES && w.pages[w.snd.out[0]].joined == 0
  }

  /** All receivers have left the page, and it is large enough to be used again. */
  ghost predicate Usable(w: World, id: nat, size: nat) {
    id in w.pages && w.pages[id].left == 1 && size <= w.pages[id].mapLen
  }

  ghost predicate CacheUsable(w: World, size: nat) {
    exists i :: 0 <= i < |w.snd.cache| && Usable(w, w.snd.cache[i], size)
  }

  /** A page can be used again, of the cache or of those about to be retired into it. */
  ghost predicate Reusable(w: World, size: nat) {
    if w.snd.keep then CacheUsable(w, size)
    else exists k: nat, i :: LeadingJoined(w, k) && 0 <= i < |w.snd.cache| + k && Usable(w, Held(w)[i], size)
  }

  /** What becomes of a request for `len` bytes. */
  datatype Verdict = Granted | Refused | Stops(why: StopReason)

  ghost function SwitchVerdict(w: World, answered: bool): (v: Verdict)
    requires CanStep(w)
  {
    var size := NextShmemSize(w.pages[Current(w)].maxAlloc);
    if !w.snd.keep && Unread(w) then Stops(SlowReceiver)
    else if USIZE_LIMIT <= size then Stops(Overflow)
    else if answered || Reusable(w, size) then Granted
    else Refused
  }

  ghost function AllocVerdict(w: World, len: nat, answered: bool): (v: Verdict)
    requires CanStep(w)
  {
    var p := w.pages[Current(w)];
    if w.snd.pending.Some? then Stops(Misuse)
    else if AllocOverflows(p, len) then Stops(Overflow)
    else if HasRoom(p.sizeUsed, p.sizeTotal, len) then Granted
    else SwitchVerdict(WithCurrent(w, NoteAlloc(p, len), w.snd), answered)
  }

  ghost predicate Meets<T>(r: Outcome<T>, v: Verdict) {
    match v
    case Granted => r.Ok?
    case Refused => r.Failed?
    case Stops(why) => r == Panicked(why)
  }

  lemma SameCacheUsable(w: World, w': World, size: nat)
    requires w'.pages == w.pages && w'.snd.cache == w.snd.cache
    ensures CacheUsable(w', size) <==> CacheUsable(w, size)
  {
    if CacheUsable(w, size) {
      var i :| 0 <= i < |w.snd.cache| && Usable(w, w.snd.cache[i], size);
      assert Usable(w', w'.snd.cache[i], size);
    }
    if CacheUsable(w', size) {
      var i :| 0 <= i < |w'.snd.cache| && Usable(w', w'.snd.cache[i], size);
      assert Usable(w, w.snd.cache[i], size);
    }
  }

  lemma ReusableFrame(w: World, w': World, size: nat)
    requires w'.pages == w.pages && w'.snd.cache == w.snd.cache && w'.snd.out == w.snd.out && w'.snd.keep == w.snd.keep
    requires Reusable(w, size)
    ensures Reusable(w', size)
  {
    if w.snd.keep {
      SameCacheUsable(w, w', size);
    } else {
      var k: nat, i :| LeadingJoined(w, k) && 0 <= i < |w.snd.cache| + k && Usable(w, Held(w)[i], size);
      assert LeadingJoined(w', k) && Usable(w', Held(w')[i], size);
    }
  }

  /** Where the sender is in its code does not matter to what becomes of a request. */
  lemma VerdictFrame(w: World, w': World, answered: bool)
    requires CanStep(w) && w'.pages == w.pages && w'.snd.cache == w.snd.cache && w'.snd.out == w.snd.out
    requires w'.snd.keep == w.snd.keep
    ensures CanStep(w') && SwitchVerdict(w', answered) == SwitchVerdict(w, answered)
  {
    var size := NextShmemSize(w.pages[Current(w)].maxAlloc);
    hide NextShmemSize;
    if Reusable(w, size) { ReusableFrame(w, w', size); }
    if Reusable(w', size) { ReusableFrame(w', w, size); }
    hide Reusable;
  }

  lemma KeptReusable(w: World, size: nat)
    requires w.snd.keep
    ensures Reusable(w, size) <==> CacheUsable(w, size)
  {
  }

  lemma LeadingUnique(w: World, k: nat, k': nat)
    requires LeadingJoined(w, k) && LeadingJoined(w, k')
    ensures k == k'
  {
  }

  /** After pruning, the cache holds a usable page exactly if one was reusable before. */
  lemma PruneUsable(w: World, w': World, size: nat)
    requires !w.snd.keep && Held(w') == Held(w) && SameMaps(w, w')
    requires LeadingJoined(w, |w.snd.out| - |w'.snd.out|)
    ensures CacheUsable(w', size) <==> Reusable(w, size)
  {
    var k: nat := |w.snd.out| - |w'.snd.out|;
    var n := |w.snd.cache| + k;
    assert |w'.snd.cache| == n by { assert |Held(w')| == |w'.snd.cache| + |w'.snd.out|; }
    forall i | 0 <= i < n ensures w'.snd.cache[i] == Held(w)[i] { assert Held(w')[i] == w'.snd.cache[i]; }
    if CacheUsable(w', size) {
      var i :| 0 <= i < n && Usable(w', w'.snd.cache[i], size);
      assert Usable(w, Held(w)[i], size);
    }
    if Reusable(w, size) {
      var k': nat, i :| LeadingJoined(w, k') && 0 <= i < |w.snd.cache| + k' && Usable(w, Held(w)[i], size);
      LeadingUnique(w, k, k');
      assert Usable(w', w'.snd.cache[i], size);
    }
  }

  /** Dropping a page that is too small does not change whether some cached page can be used. */
  lemma DropUsable(w: World, size: nat)
    requires Inv(w) && CanProbeLeft(w) && size == NextShmemSize(w.pages[Current(w)].maxAlloc)
    requires var p := w.pages[w.snd.cache[w.snd.pc.e]]; p.left == 1 && p.joined == w.snd.pc.joined == 1 && p.mapLen < size
    ensures CacheUsable(ProbeLeftStep(w), size) <==> CacheUsable(w, size)
  {
    hide LiveInv, DeadInv, ReceiversInv, ChainInv, SenderInv, CachedOk, NextShmemSize;
    var e, w' := w.snd.pc.e, ProbeLeftStep(w);
    assert NoDup(w.snd.cache + w.snd.out);
    SenderSteps.WithoutHeld(w.snd.cache, w.snd.out, e);
    var id := w.snd.cache[e];
    hide OwnInv;
    if CacheUsable(w, size) {
      var i :| 0 <= i < |w.snd.cache| && Usable(w, w.snd.cache[i], size);
      var j := if i < e then i else i - 1;
      assert w'.snd.cache[j] == w.snd.cache[i];
    }
    if CacheUsable(w', size) {
      var j :| 0 <= j < |w'.snd.cache| && Usable(w', w'.snd.cache[j], size);
      assert w'.snd.cache[j] == w.snd.cache[if j < e then j else j + 1];
    }
  }

  /** The page new_or_unused_shmem settles on: the first usable one of `ids`, or else the provider's. */
  ghost predicate Picked(w: World, ids: seq<nat>, size: nat, answer: Option<(nat, nat)>, newId: nat) {
    || (exists i: nat :: FirstUsable(w, ids, size, i) && ids[i] == newId)
    || ((forall i :: 0 <= i < |ids| ==> !Usable(w, ids[i], size)) && answer.Some? && answer.value.0 == newId)
  }

  ghost predicate FirstUsable(w: World, ids: seq<nat>, size: nat, i: nat) {
    i < |ids| && Usable(w, ids[i], size) && forall j :: 0 <= j < i ==> !Usable(w, ids[j], size)
  }

  lemma PickedAt(w: World, size: nat, answer: Option<(nat, nat)>, e: nat)
    requires e < |w.snd.cache| && Usable(w, w.snd.cache[e], size)
    requires forall j :: 0 <= j < e ==> w.snd.cache[j] in w.pages && w.pages[w.snd.cache[j]].left != 1
    ensures Picked(w, w.snd.cache, size, answer, w.snd.cache[e])
  {
    assert FirstUsable(w, w.snd.cache, size, e);
  }

  lemma PickedFresh(w: World, size: nat, answer: Option<(nat, nat)>)
    requires forall j :: 0 <= j < |w.snd.cache| ==> w.snd.cache[j] in w.pages && w.pages[w.snd.cache[j]].left != 1
    ensures answer.Some? ==> Picked(w, w.snd.cache, size, answer, answer.value.0)
  {
  }

  lemma PickedFrame(w: World, w': World, size: nat, answer: Option<(nat, nat)>, newId: nat)
    requires w'.pages == w.pages && w'.snd.cache == w.snd.cache && Picked(w', w'.snd.cache, size, answer, newId)
    ensures Picked(w, w.snd.cache, size, answer, newId)
  {
    assert forall id :: Usable(w', id, size) <==> Usable(w, id, size);
    hide Usable;
    if i: nat :| FirstUsable(w', w'.snd.cache, size, i) && w'.snd.cache[i] == newId {
      assert FirstUsable(w, w.snd.cache, size, i);
    }
  }

  /** An unusable page makes no difference to which is picked. */
  lemma SkipUnusable(w: World, front: seq<nat>, id: nat, back: seq<nat>, size: nat, answer: Option<(nat, nat)>, newId: nat)
    requires !Usable(w, id, size) && Picked(w, front + back, size, answer, newId)
    ensures Picked(w, front + [id] + back, size, answer, newId)
  {
    hide Usable;
    var ids', ids, e := front + back, front + [id] + back, |front|;
    forall j | 0 <= j < |ids| && j != e ensures ids[j] == ids'[if j < e then j else j - 1] {}
    if i: nat :| FirstUsable(w, ids', size, i) && ids'[i] == newId {
      var k := if i < e then i else i + 1;
      assert ids[k] == newId;
      assert FirstUsable(w, ids, size, k);
    }
  }

  lemma UsableElsewhere(w: World, w': World, ids: seq<nat>, id: nat, size: nat, answer: Option<(nat, nat)>, newId: nat)
    requires w'.pages == w.pages - {id} && id !in ids && Picked(w', ids, size, answer, newId)
    ensures Picked(w, ids, size, answer, newId)
  {
    forall i | 0 <= i < |ids| ensures Usable(w', ids[i], size) <==> Usable(w, ids[i], size) { assert ids[i] != id; }
    hide Usable;
    if i: nat :| FirstUsable(w', ids, size, i) && ids[i] == newId {
      assert FirstUsable(w, ids, size, i);
    }
  }

  /** What is picked after dropping a page that is too small is picked before. */
  lemma DropPicked(w: World, size: nat, answer: Option<(nat, nat)>, newId: nat)
    requires Inv(w) && CanProbeLeft(w) && size == NextShmemSize(w.pages[Current(w)].maxAlloc)
    requires var p := w.pages[w.snd.cache[w.snd.pc.e]]; p.left == 1 && p.joined == w.snd.pc.joined == 1 && p.mapLen < size
    requires var w' := ProbeLeftStep(w); Picked(w', w'.snd.cache, size, answer, newId)
    ensures Picked(w, w.snd.cache, size, answer, newId)
  {
    hide LiveInv, DeadInv, ReceiversInv, ChainInv, SenderInv, CachedOk, NextShmemSize, Picked;
    var e, w', cache := w.snd.pc.e, ProbeLeftStep(w), w.snd.cache;
    var id, front, back := cache[e], cache[..e], cache[e + 1..];
    assert NoDup(cache + w.snd.out);
    NotElsewhere(cache, w.snd.out, e);
    hide Inv;
    UsableElsewhere(w, w', front + back, id, size, answer, newId);
    SkipUnusable(w, front, id, back, size, answer, newId);
    assert cache == front + [id] + back;
  }

  lemma NotElsewhere(cache: seq<nat>, out: seq<nat>, e: nat)
    requires NoDup(cache + out) && e < |cache|
    ensures cache[e] !in cache[..e] + cache[e + 1..]
  {
    var rest := cache[..e] + cache[e + 1..];
    forall i | 0 <= i < |rest| ensures rest[i] != cache[e] {
      var j := if i < e then i else i + 1;
      assert rest[i] == cache[j] == (cache + out)[j] && cache[e] == (cache + out)[e];
    }
  }

  /** Exactly the first `k` of the sender's pages, not counting the current one, have been joined. */
  ghost predicate LeadingJoined(w: World, k: int) {
    && 0 <= k < |w.snd.out| && (forall i :: 0 <= i < |w.snd.out| ==> w.snd.out[i] in w.pages)
    && (forall i :: 0 <= i < k ==> w.pages[w.snd.out[i]].joined != 0)
    && (k == |w.snd.out| - 1 || w.pages[w.snd.out[k]].joined == 0)
  }

  /** The same world with the sender at another point of its code. */
  ghost function WithPc(w: World, pc: SenderPc): (w': World) { w.(snd := w.snd.(pc := pc)) }

  /** Nothing a receiver or a user of the channel can see has changed. */
  ghost predicate Quiet(w: World, w': World) {
    w'.rcvs == w.rcvs && w'.chain == w.chain && w'.logs == w.logs && w'.committed == w.committed
  }

  /** The sender still writes to the same, unchanged page. */
  ghost predicate SameCurrent(w: World, w': World) {
    CanStep(w) && CanStep(w') && Current(w') == Current(w) && w'.pages[Current(w')] == w.pages[Current(w)]
  }

  lemma PruneReady(w: World)
    requires Inv(w) && (w.snd.pc.Scan? || w.snd.pc.Move?)
    ensures w.snd.pc.Scan? ==> CanScan(w) && w.snd.pc.n <= |w.snd.out| - 1
    ensures w.snd.pc.Move? ==> CanMove(w) && w.snd.pc.k <= |w.snd.out| - 1 && w.pages[w.snd.out[0]].magic == Initialized
    ensures |w.snd.out| >= 2 ==> w.snd.out[0] != Current(w)
    ensures forall i :: 0 <= i < |w.snd.out| ==> w.snd.out[i] in w.pages
  {
    hide LiveInv;
    hide ReceiversInv;
    hide Flat;
    hide Laid;
    var n := |w.snd.cache|;
    assert Held(w)[n] == w.snd.out[0] && Held(w)[n + |w.snd.out| - 1] == Current(w);
  }

  lemma MoveKeeps(w: World)
    requires CanMove(w) && w.snd.pc.k > 0 && w.pages[w.snd.out[0]].magic == Initialized
    requires |w.snd.out| >= 2 && w.snd.out[0] != Current(w)
    ensures var w' := MoveStep(w);
            Quiet(w, w') && SameCurrent(w, w') && Held(w') == Held(w) && SameMaps(w, w')
  {
  }

  lemma ProbeReady(w: World)
    requires Inv(w) && (w.snd.pc.Probe? || w.snd.pc.ProbeLeft?)
    ensures CanStep(w) && (w.snd.pc.Probe? ==> CanProbe(w, None) && w.snd.pc.e <= |w.snd.cache|)
    ensures w.snd.pc.ProbeLeft? ==> CanProbeLeft(w)
    ensures forall i :: 0 <= i < |w.snd.cache| ==>
              w.snd.cache[i] in w.pages && w.pages[w.snd.cache[i]].joined == 1 && w.pages[w.snd.cache[i]].left <= 1
  {
    hide LiveInv;
    hide ReceiversInv;
    hide Flat;
    hide Laid;
    forall i | 0 <= i < |w.snd.cache|
      ensures w.snd.cache[i] in w.pages && w.pages[w.snd.cache[i]].joined == 1 && w.pages[w.snd.cache[i]].left <= 1
    {
      assert CachedOk(w, w.snd.cache[i]);
    }
  }

  /** A cached page differs from the current one and is not marked initialised. */
  lemma ProbeLinks(w: World, answer: Option<(nat, nat)>)
    requires Inv(w) && (w.snd.pc.Probe? || w.snd.pc.ProbeLeft?)
    requires answer.Some? ==> answer.value.0 !in w.pages
    ensures CanStep(w) && (answer.Some? ==> answer.value.0 != Current(w))
    ensures forall i :: 0 <= i < |w.snd.cache| ==>
              w.snd.cache[i] in w.pages && w.snd.cache[i] != Current(w) && w.pages[w.snd.cache[i]].magic == Deinitialized
  {
    hide LiveInv;
    hide ReceiversInv;
    hide Flat;
    hide Laid;
    var n := |w.snd.cache|;
    assert Held(w)[n + |w.snd.out| - 1] == Current(w);
    forall i | 0 <= i < n
      ensures w.snd.cache[i] in w.pages && w.snd.cache[i] != Current(w) && w.pages[w.snd.cache[i]].magic == Deinitialized
    {
      assert CachedOk(w, w.snd.cache[i]);
      assert Held(w)[i] == w.snd.cache[i];
    }
  }

  lemma EopReadyToWrite(w: World)
    requires Inv(w) && w.snd.pc.Linked?
    ensures CanWriteEop(w) && WriteEopStep(w).snd.pc.EopReady? && w.snd.pc.newId != Current(w)
    ensures WriteEopStep(w).snd.pc.off ==
            if w.snd.lastMsg.None? then 0 else NextMsgPtr(w.pages[Current(w)], w.snd.lastMsg.value)
  {
    hide LiveInv;
    hide ReceiversInv;
    hide Flat;
    hide Laid;
    var newId := w.snd.pc.newId;
    assert Held(w)[|Held(w)| - 1] == Current(w);
    SenderSteps.EopPage(w.pages[Current(w)], w.logs[|w.logs| - 1], w.snd.lastMsg, w.pages[newId], newId, w.snd.pc.len);
  }

  lemma EopReadyToSend(w: World)
    requires Inv(w) && w.snd.pc.EopReady?
    ensures CanSendEop(w) && SendEopStep(w).snd.pc.Retry? && w.snd.pc.newId in w.pages && w.snd.pending.None?
  {
    hide LiveInv;
    hide ReceiversInv;
    hide Flat;
    hide Laid;
    var EopReady(newId, off, len) := w.snd.pc;
    EopCommit(w.pages[Current(w)], w.logs[|w.logs| - 1], off, w.pages[newId].mapLen, newId, w.snd.id);
  }

  /** The provider's answer, should it be asked while `len` bytes are allocated. */
  ghost predicate AnswerFits(answer: Option<(nat, nat)>, w: World, len: nat)
    requires CanStep(w)
  {
    answer.Some? ==>
      && answer.value.0 !in w.pages
      && NextShmemSize(NoteAlloc(w.pages[Current(w)], len).maxAlloc) <= answer.value.1
  }

  lemma ReadyToAlloc(w: World, len: nat)
    requires Inv(w) && CanAlloc(w) && w.snd.pending.None?
    ensures var p := w.pages[Current(w)];
            && LastCommitted(p, w.snd.lastMsg)
            && MsgAt(Reserve(NoteAlloc(p, len), w.snd.lastMsg, len), p.sizeUsed).bufLen == len
  {
    hide LiveInv;
    hide ReceiversInv;
    hide Flat;
    hide Laid;
    SenderSteps.CommittedLast(w.pages[Current(w)], w.logs[|w.logs| - 1], w.snd.lastMsg, None);
  }

  lemma RetryWorks(w: World)
    requires Inv(w) && CanRetry(w)
    ensures var p, len := w.pages[Current(w)], w.snd.pc.len;
            && w.snd.pending.None? && LastCommitted(p, w.snd.lastMsg) && HasRoom(p.sizeUsed, p.sizeTotal, len)
            && !AllocOverflows(p, len)
            && MsgAt(Reserve(NoteAlloc(p, len), w.snd.lastMsg, len), p.sizeUsed).bufLen == len
  {
    hide LiveInv;
    hide ReceiversInv;
    hide Flat;
    hide Laid;
    var p, log := w.pages[Current(w)], w.logs[|w.logs| - 1];
    SenderSteps.CommittedLast(p, log, w.snd.lastMsg, None);
    ReserveWritable(p, log, w.snd.lastMsg, w.snd.pc.len);
  }

  lemma PendingShape(w: World)
    requires Inv(w) && HasPending(w)
    ensures var p, off := w.pages[Current(w)], w.snd.pending.value;
            off in p.slots && p.sizeUsed == off + MSG_HEADER + p.slots[off].bufLenPadded
  {
    hide LiveInv;
    hide ReceiversInv;
    hide Flat;
    hide Laid;
  }

  /** The receivers moved; the sender and the history of the channel did not. */
  ghost predicate SameHistory(w: World, w': World) {
    && w'.snd == w.snd && w'.chain == w.chain && w'.logs == w.logs && w'.committed == w.committed
    && w'.rcvs.Keys == w.rcvs.Keys
  }

  lemma IdleLookup(w: World, r: nat)
    requires Inv(w) && r in w.rcvs && w.rcvs[r].pc.Idle?
    ensures CanLoad(w, r)
    ensures var v, p := w.rcvs[r], w.pages[w.rcvs[r].page]; !NextMessage(v, p, VisibleId(v, p)).OutOfBounds?
  {
    hide Inv;
    hide Flat;
    hide Laid;
    ReceiverSteps.OnPage(w, r);
    var v := w.rcvs[r];
    var p, log := w.pages[v.page], w.logs[v.pos];
    LaidShape(p, log);
    ReceiverSteps.VisibleBounds(p, log, v);
    ReceiverSteps.LookupExact(p, log, v, VisibleId(v, p));
  }

  /** If recv finds nothing, everything committed has been delivered. */
  lemma NothingLeft(w: World, r: nat)
    requires Inv(w) && CanLoad(w, r)
    ensures Safety.ReportsNone(w, r) ==> w.rcvs[r].delivered == w.committed
  {
    Safety.NoneMeansAllHere(w, r);
  }

  lemma CopiedReady(w: World, r: nat)
    requires Inv(w) && r in w.rcvs && w.rcvs[r].pc.Copied?
    ensures CanLeave(w, r)
  {
    hide Flat;
    hide Laid;
    hide SenderInv;
    assert ReceiverInv(w, w.rcvs[r]);
    assert Live(w, w.rcvs[r].pos);
  }

  /** What a receiver about to read finds at its offset. */
  lemma ReadsNext(w: World, r: nat)
    requires Inv(w) && r in w.rcvs && w.rcvs[r].pc.Reading?
    ensures CanRead(w, r)
    ensures var v, p := w.rcvs[r], w.pages[w.rcvs[r].page];
            var m, d := MsgAt(p, v.pc.off), v.delivered;
            && InShmem(p, v.pc.off) && m.tag != TAG_UNSET
            && (IsEop(m) ==> m.bufLen == MAP_INFO_LEN && m.body.MapInfo? && v.pos + 1 < |w.chain|)
            && (!IsEop(m) ==> |d| < |w.committed| && w.committed[|d|] == m)
  {
    hide Flat;
    hide Laid;
    hide SenderInv;
    hide OwnInv;
    hide LiveInv;
    ReceiverSteps.OnPage(w, r);
    var v := w.rcvs[r];
    var p, log := w.pages[v.page], w.logs[v.pos];
    ReceiverChecksPass(p, log, v.count);
    ReceiverSteps.ReadMessage(p, log, v.count);
    if !IsEop(log[v.count]) {
      assert log[..v.count + 1] == log[..v.count] + [log[v.count]];
      Safety.ReadIsPrefix(w.logs, v.pos, v.count + 1);
    }
  }
}
