/** What holds over every run of an LLMP channel. */
module LlmpSafety {
  import opened Base
  import opened LlmpLayout
  import opened LlmpPage
  import opened LlmpProtocol
  import opened LlmpInvariant
  import SenderSteps = LlmpSenderSteps
  import ReceiverSteps = LlmpReceiverSteps

  lemma StepInv(w: World, a: Action)
    requires Inv(w) && Enabled(w, a)
    ensures Inv(Apply(w, a))
  {
    hide Inv;
    hide Apply;
    hide Enabled;
    if a.Attach? || a.Load? || a.Read? || a.Leave? || a.MapNext? || a.Join? {
      ReceiverSteps.ReceiverStepInv(w, a);
    } else {
      SenderSteps.SenderStepInv(w, a);
    }
  }

  lemma {:induction false} RunInv(w: World, run: seq<Action>)
    requires Inv(w) && ValidRun(w, run)
    ensures Inv(After(w, run))
    decreases |run|
  {
    hide Inv;
    hide Apply;
    hide Enabled;
    if run != [] {
      StepInv(w, run[0]);
      RunInv(Apply(w, run[0]), run[1..]);
    }
  }

  /** A world some run leads to from a fresh sender. */
  ghost predicate Reachable(w: World) {
    exists w0: World, run: seq<Action> :: Init(w0) && ValidRun(w0, run) && After(w0, run) == w
  }

  lemma ReachableInv(w: World)
    requires Reachable(w)
    ensures Inv(w)
  {
    hide Inv;
    hide Init;
    var w0: World, run: seq<Action> :| Init(w0) && ValidRun(w0, run) && After(w0, run) == w;
    InitInv(w0);
    RunInv(w0, run);
  }

  // ----------------------------------------------------------------- delivery

  /** Reading `count` data messages of page `pos` yields a prefix of all data. */
  lemma {:induction false} ReadIsPrefix(logs: seq<seq<Msg>>, pos: nat, count: nat)
    requires pos < |logs| && count <= |logs[pos]| && DataOnly(logs[pos][..count])
    requires if pos < |logs| - 1 then ClosedLog(logs[pos]) else DataOnly(logs[pos])
    ensures Flat(logs[..pos]) + logs[pos][..count] <= Flat(logs)
    ensures pos == |logs| - 1 ==> (Flat(logs[..pos]) + logs[pos][..count] == Flat(logs) <==> count == |logs[pos]|)
    ensures pos < |logs| - 1 ==> count < |logs[pos]|
  {
    var front, log := logs[..pos], logs[pos];
    if pos < |logs| - 1 {
      ReceiverSteps.PageDone(logs, pos);
      FlatPrefix(logs, pos + 1);
    } else {
      assert logs == front + [log];
      SenderSteps.FlatSnoc(front, log);
    }
    hide Flat;
  }

  lemma DeliveredHere(w: World, r: nat)
    requires Inv(w) && r in w.rcvs
    ensures w.rcvs[r].delivered <= w.committed
  {
    hide Flat;
    hide SenderInv;
    hide LiveInv;
    hide OwnInv;
    var v := w.rcvs[r];
    assert ReceiverInv(w, v);
    ReadIsPrefix(w.logs, v.pos, v.count);
  }

  /** In every run, what a receiver was given is a prefix of what was committed, unchanged and in order. */
  lemma DeliveredIsPrefix(w: World, r: nat)
    requires Reachable(w) && r in w.rcvs
    ensures w.rcvs[r].delivered <= w.committed
  {
    hide Reachable, Inv;
    ReachableInv(w);
    DeliveredHere(w, r);
  }

  /** Does recv, called now, report that there is nothing to read? */
  predicate ReportsNone(w: World, r: nat) {
    && CanLoad(w, r)
    && var v, p := w.rcvs[r], w.pages[w.rcvs[r].page];
       NextMessage(v, p, VisibleId(v, p)).NoMessage?
  }

  /** recv reports no message exactly when everything committed has been delivered. */
  lemma NoneMeansAll(w: World, r: nat)
    requires Reachable(w) && r in w.rcvs && w.rcvs[r].pc.Idle?
    ensures ReportsNone(w, r) <==> w.rcvs[r].delivered == w.committed && w.rcvs[r].pos == |w.chain| - 1
  {
    hide Inv;
    hide Reachable;
    ReachableInv(w);
    NoneMeansAllHere(w, r);
  }

  lemma NoneMeansAllHere(w: World, r: nat)
    requires Inv(w) && r in w.rcvs && w.rcvs[r].pc.Idle?
    ensures ReportsNone(w, r) <==> w.rcvs[r].delivered == w.committed && w.rcvs[r].pos == |w.chain| - 1
  {
    hide Flat;
    hide Laid;
    hide SenderInv;
    hide LiveInv;
    hide OwnInv;
    hide ReceiversInv;
    ReceiverSteps.OnPage(w, r);
    var v := w.rcvs[r];
    var p, log := w.pages[v.page], w.logs[v.pos];
    LaidShape(p, log);
    ReceiverSteps.VisibleBounds(p, log, v);
    ReceiverSteps.LookupExact(p, log, v, VisibleId(v, p));
    ReadIsPrefix(w.logs, v.pos, v.count);
  }

  /** The cached id changes nothing: recv looks up the same message with the id read afresh. */
  lemma CacheIsTransparent(w: World, r: nat)
    requires Reachable(w) && CanLoad(w, r)
    ensures var v, p := w.rcvs[r], w.pages[w.rcvs[r].page];
            NextMessage(v, p, VisibleId(v, p)) == NextMessage(v, p, p.currentMsgId)
  {
    hide Reachable;
    ReachableInv(w);
    hide Flat;
    hide Laid;
    hide Inv;
    ReceiverSteps.OnPage(w, r);
    var v := w.rcvs[r];
    var p, log := w.pages[v.page], w.logs[v.pos];
    LaidShape(p, log);
    ReceiverSteps.VisibleBounds(p, log, v);
    ReceiverSteps.LookupExact(p, log, v, VisibleId(v, p));
    ReceiverSteps.LookupExact(p, log, v, p.currentMsgId);
  }

  /** No bounds check, magic check or bookkeeping assertion of either side ever fails. */
  lemma NothingBreaks(w: World)
    requires Reachable(w)
    ensures w.snd.pc != Stopped(BrokenPage)
    ensures forall r :: r in w.rcvs ==> w.rcvs[r].pc != Halted(Corrupt)
  {
    hide Reachable, LiveInv, DeadInv, Flat, Laid, Writable;
    ReachableInv(w);
    forall r | r in w.rcvs ensures w.rcvs[r].pc != Halted(Corrupt) { assert ReceiverInv(w, w.rcvs[r]); }
  }

  // ------------------------------------------------------------ page lifetime

  /** The page is gone, or has been initialised again. */
  predicate Reused(w: World, w': World, id: nat) {
    && id in w.pages
    && (id !in w'.pages || (w.pages[id].magic != Initialized && w'.pages[id].magic == Initialized))
  }

  /** Is this receiver still going to look at page `id`? */
  predicate Holds(v: Receiver, id: nat) { v.page == id && !v.pc.Departed? }

  /** A page is dropped or initialised again only after every receiver that read it has left it,
      and no page still to be read is touched. */
  lemma ReuseIsSafe(w: World, a: Action, id: nat)
    requires Reachable(w) && Enabled(w, a) && Reused(w, Apply(w, a), id)
    ensures a == ProbeCacheLeft && w.pages[id].left == 1 && w.pages[id].joined == 1
    ensures forall r :: r in w.rcvs ==> !Holds(w.rcvs[r], id)
    ensures forall r, i :: r in w.rcvs && w.rcvs[r].pos < i < |w.chain| ==> w.chain[i] != id
  {
    hide Reachable;
    ReachableInv(w);
    ReuseOnlyInProbe(w, a, id);
    ReuseProbe(w, id);
  }

  lemma ReuseOnlyInProbe(w: World, a: Action, id: nat)
    requires Enabled(w, a) && Reused(w, Apply(w, a), id)
    ensures a == ProbeCacheLeft
  {
  }

  lemma ReuseProbe(w: World, id: nat)
    requires Inv(w) && CanProbeLeft(w) && Reused(w, ProbeLeftStep(w), id)
    ensures w.pages[id].left == 1 && w.pages[id].joined == 1
    ensures forall r :: r in w.rcvs ==> !Holds(w.rcvs[r], id)
    ensures forall r, i :: r in w.rcvs && w.rcvs[r].pos < i < |w.chain| ==> w.chain[i] != id
  {
    hide Flat;
    hide Laid;
    hide Writable;
    var e := w.snd.pc.e;
    assert CachedOk(w, w.snd.cache[e]);
    assert id == w.snd.cache[e];
    SenderSteps.LeftIsDead(w, e);
    forall r | r in w.rcvs ensures !Holds(w.rcvs[r], id) { assert ReceiverInv(w, w.rcvs[r]); }
  }

  /** A page a receiver looks at is in memory. A sender that drops pages may not take it: it is marked joined
      and not left. A sender that keeps its pages forever leaves it initialised. */
  lemma ReadsOnlyJoinedPages(w: World, r: nat)
    requires Reachable(w) && r in w.rcvs
    requires var pc := w.rcvs[r].pc; pc.Idle? || pc.Reading? || pc.Copied?
    ensures var v := w.rcvs[r];
            && v.page in w.pages
            && if w.snd.keep then w.pages[v.page].magic == Initialized
               else w.pages[v.page].joined == 1 && w.pages[v.page].left == 0
  {
    hide Reachable;
    ReachableInv(w);
    hide Flat;
    hide Laid;
    hide SenderInv;
    var v := w.rcvs[r];
    assert ReceiverInv(w, v);
    assert Live(w, v.pos);
    if w.snd.keep {
      assert w.snd.out == w.chain;
      assert OutOk(w, w.snd.out[v.pos]);
    }
  }

  /** Whenever the sender looks at a cached page, it has been joined, and left at most as often:
      the debug assertions of new_or_unused_shmem hold at each of its reads, the repeated one included. */
  lemma CachedCounts(w: World, id: nat)
    requires Reachable(w) && id in w.snd.cache
    ensures id in w.pages && w.pages[id].joined == 1 && w.pages[id].left <= w.pages[id].joined
  {
    hide Reachable;
    ReachableInv(w);
    hide ChainInv, LiveInv, DeadInv, SenderInv, ReceiversInv;
    var i :| 0 <= i < |w.snd.cache| && w.snd.cache[i] == id;
    assert CachedOk(w, w.snd.cache[i]);
  }

  /** The page an EOP names is in memory, initialised and of the announced size when it is mapped. */
  lemma NamedPageIsReady(w: World, r: nat)
    requires Reachable(w) && CanMap(w, r)
    ensures var v, v' := w.rcvs[r], MapStep(w.rcvs[r], w.pages);
            v'.pc == Mapped && v.pos + 1 < |w.chain| && v'.page == w.chain[v.pos + 1]
  {
    hide Reachable;
    ReachableInv(w);
    hide Inv;
    ReceiverSteps.NextPageMappable(w, r);
  }

  // -------------------------------------------------------------- allocation

  /** The page a sender may allocate on: contiguous aligned messages numbered from 1, with room for an EOP. */
  lemma CurrentPageLayout(w: World)
    requires Reachable(w) && w.snd.pc.Ready? && w.snd.pending.None?
    ensures w.snd.out != [] && Current(w) in w.pages && w.logs != []
    ensures var p, log := w.pages[Current(w)], w.logs[|w.logs| - 1];
            && Laid(p, log) && p.currentMsgId == |log| && p.sizeUsed == End(log)
            && (p.sizeUsed == 0 || (PAGE_HEADER + p.sizeUsed) % ALIGNMENT == 0)
            && p.sizeUsed + EOP_MSG_SIZE <= p.sizeTotal
  {
    hide Reachable;
    ReachableInv(w);
    hide LiveInv;
    hide ReceiversInv;
    SenderSteps.AlignedEnd(w.pages[Current(w)], w.logs[|w.logs| - 1], w.snd.lastMsg);
  }

  /** After a page switch the message fits, whatever length the first attempt accepted. */
  lemma SecondAllocSucceeds(w: World)
    requires Reachable(w) && CanRetry(w)
    ensures var w' := RetryStep(w);
            && w'.snd.pc == Ready && w'.snd.pending.Some? && CanStep(w')
            && MsgAt(w'.pages[Current(w')], w'.snd.pending.value).bufLen == w.snd.pc.len
  {
    hide Reachable;
    ReachableInv(w);
    hide LiveInv;
    hide ReceiversInv;
    hide Flat;
    hide Laid;
    var p, log, len := w.pages[Current(w)], w.logs[|w.logs| - 1], w.snd.pc.len;
    assert LastCommitted(p, w.snd.lastMsg);
    ReserveWritable(p, log, w.snd.lastMsg, len);
  }

  // ------------------------------------------------------------------ history

  /** A step commits at most one message, and hands each receiver at most the next message it lacks. */
  lemma StepHistory(w: World, a: Action, r: nat)
    requires Reachable(w) && Enabled(w, a) && r in w.rcvs
    ensures r in Apply(w, a).rcvs
    ensures var w' := Apply(w, a);
            var d, d' := w.rcvs[r].delivered, w'.rcvs[r].delivered;
            && (w'.committed == w.committed || (|w'.committed| == |w.committed| + 1 && w.committed < w'.committed))
            && (d' == d || (|d| < |w.committed| && d' == d + [w.committed[|d|]]))
  {
    hide Reachable, Inv;
    ReachableInv(w);
    StepAppends(w, a, r);
    if a == Read(r) { ReadDelivers(w, r); }
    hide Enabled, Apply;
  }

  /** A step of the sender that commits nothing and leaves every receiver alone. */
  ghost predicate Silent(w: World, w': World) { w'.committed == w.committed && w'.rcvs == w.rcvs }

  lemma StepAppends(w: World, a: Action, r: nat)
    requires Enabled(w, a) && r in w.rcvs
    ensures r in Apply(w, a).rcvs
    ensures var w' := Apply(w, a);
            && (w'.committed == w.committed || (|w'.committed| == |w.committed| + 1 && w.committed < w'.committed))
            && (a != Read(r) ==> w'.rcvs[r].delivered == w.rcvs[r].delivered)
  {
    if a.Alloc? || a.Write? || a.Forward? || a.ShrinkTo? || a.ScanPage? || a.MovePage? || a.ProbeCache? ||
       a.ProbeCacheLeft? || a.WriteEop? || a.SendEop? || a.AllocAgain? {
      SenderSilent(w, a);
    }
  }

  lemma SenderSilent(w: World, a: Action)
    requires Enabled(w, a)
    requires a.Alloc? || a.Write? || a.Forward? || a.ShrinkTo? || a.ScanPage? || a.MovePage? || a.ProbeCache? ||
             a.ProbeCacheLeft? || a.WriteEop? || a.SendEop? || a.AllocAgain?
    ensures Silent(w, Apply(w, a))
  {
  }

  lemma ReadDelivers(w: World, r: nat)
    requires Inv(w) && CanRead(w, r)
    ensures var d, d' := w.rcvs[r].delivered, ReadStep(w.rcvs[r], w.pages[w.rcvs[r].page]).delivered;
            d' == d || (|d| < |w.committed| && d' == d + [w.committed[|d|]])
  {
    hide Flat;
    hide Laid;
    hide SenderInv;
    hide LiveInv;
    hide OwnInv;
    ReceiverSteps.OnPage(w, r);
    var v := w.rcvs[r];
    var log := w.logs[v.pos];
    ReceiverChecksPass(w.pages[v.page], log, v.count);
    if !IsEop(log[v.count]) {
      assert log[..v.count + 1] == log[..v.count] + [log[v.count]];
      ReadIsPrefix(w.logs, v.pos, v.count + 1);
    }
  }

  // --------------------------------------------------------------- forwarding

  /** forward_msg copies as many bytes as the copy is padded to, possibly more than the source
      message has; they still lie on the source page, inside the room reserved for its EOP. */
  lemma CopyStaysInside(p: Page, log: seq<Msg>, i: nat, outUsed: nat)
    requires Laid(p, log) && i < |log| && !IsEop(log[i])
    ensures End(log[..i]) + MSG_HEADER + PaddedLen(outUsed, log[i].bufLenPadded) < p.sizeTotal
  {
    assert Placed(p, log, i);
  }

  /** Forwarding commits the received message under the next id, otherwise unchanged up to padding. */
  lemma ForwardPreserves(w: World, src: Msg)
    requires Reachable(w) && CanForward(w, src) && src.tag != TAG_UNSET
    ensures var w1 := ForwardStep(w, src);
            && HasPending(w1)
            && var w2, p := SendStep(w1, false), w.pages[Current(w)];
               && CanStep(w2) && w2.snd.pending.None? && w2.snd.pc.Ready? && w2.logs != []
               && w2.committed == w.committed + [src.(id := p.currentMsgId + 1,
                                                     bufLenPadded := MsgAt(p, w.snd.pending.value).bufLenPadded)]
               && Laid(w2.pages[Current(w2)], w2.logs[|w2.logs| - 1])
  {
    hide Reachable;
    ReachableInv(w);
    ForwardCommits(w, src);
  }

  lemma ForwardCommits(w: World, src: Msg)
    requires Inv(w) && CanForward(w, src) && src.tag != TAG_UNSET
    ensures var w1 := ForwardStep(w, src);
            && HasPending(w1)
            && var w2, p := SendStep(w1, false), w.pages[Current(w)];
               && CanStep(w2) && w2.snd.pending.None? && w2.snd.pc.Ready? && w2.logs != []
               && w2.committed == w.committed + [src.(id := p.currentMsgId + 1,
                                                     bufLenPadded := MsgAt(p, w.snd.pending.value).bufLenPadded)]
               && Laid(w2.pages[Current(w2)], w2.logs[|w2.logs| - 1])
  {
    hide Flat;
    hide Laid;
    hide LiveInv;
    hide ReceiversInv;
    var p, off, w1 := w.pages[Current(w)], w.snd.pending.value, ForwardStep(w, src);
    var log := w.logs[|w.logs| - 1];
    var m := src.(bufLenPadded := MsgAt(p, off).bufLenPadded);
    FillWritable(p, log, w.snd.lastMsg, off, m);
    CommitWritable(w1.pages[Current(w)], log, w.snd.lastMsg, off, None);
    SenderSteps.NotLast(log, off);
  }

  /** What forward_msg asks of the message it is given. */
  ghost predicate Forwardable(m: Msg) {
    !IsEop(m) && m.tag != TAG_UNSET && m.bufLen <= m.bufLenPadded
  }

  ghost predicate AllForwardable(ms: seq<Msg>) {
    forall i :: 0 <= i < |ms| ==> Forwardable(ms[i])
  }

  lemma SendForwardable(w: World, over: bool)
    requires Inv(w) && HasPending(w) && AllForwardable(w.committed)
    ensures AllForwardable(SendStep(w, over).committed)
  {
    hide LiveInv, ReceiversInv, Flat, Laid, OwnInv, DataOnly;
  }

  lemma CommitsOnlyInSend(w: World, a: Action)
    requires Enabled(w, a) && !a.Send?
    ensures Apply(w, a).committed == w.committed
  {
    if !(a.Attach? || a.Load? || a.Read? || a.Leave? || a.MapNext? || a.Join?) { SenderSilent(w, a); }
  }

  lemma {:induction false} RunForwardable(w: World, run: seq<Action>)
    requires Inv(w) && ValidRun(w, run) && AllForwardable(w.committed)
    ensures AllForwardable(After(w, run).committed)
    decreases |run|
  {
    hide Inv, AllForwardable;
    if run != [] {
      var a := run[0];
      StepInv(w, a);
      if a.Send? { SendForwardable(w, a.overwriteSender); } else { CommitsOnlyInSend(w, a); }
      hide Apply, Enabled;
      RunForwardable(Apply(w, a), run[1..]);
    }
  }

  /** Every message a receiver is given can be forwarded. */
  lemma DeliveredForwardable(w: World, r: nat, i: nat)
    requires Reachable(w) && r in w.rcvs && i < |w.rcvs[r].delivered|
    ensures Forwardable(w.rcvs[r].delivered[i])
  {
    hide Inv, Forwardable;
    DeliveredIsPrefix(w, r);
    var w0: World, run: seq<Action> :| Init(w0) && ValidRun(w0, run) && After(w0, run) == w;
    InitInv(w0);
    RunForwardable(w0, run);
  }
}
