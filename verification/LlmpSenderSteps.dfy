/** Every step of the sender keeps the invariant. */
module LlmpSenderSteps {
  import opened Base
  import opened LlmpLayout
  import opened LlmpPage
  import opened LlmpProtocol
  import opened LlmpInvariant

  lemma StopInv(w: World, why: StopReason)
    requires Inv(w) && why != BrokenPage
    ensures Inv(Stop(w, why))
  {
    hide Laid;
    hide Flat;
    hide LiveInv;
    hide DeadInv;
    hide ReceiversInv;
    SenderFrame(w, w.snd.(pc := Stopped(why)));
  }

  lemma AllocInv(w: World, len: nat)
    requires Inv(w) && CanAlloc(w)
    ensures Inv(AllocStep(w, len))
  {
    var p := w.pages[Current(w)];
    if w.snd.pending.Some? {
      StopInv(w, Misuse);
    } else if AllocOverflows(p, len) {
      StopInv(w, Overflow);
    } else {
      CommittedLast(p, w.logs[|w.logs| - 1], w.snd.lastMsg, w.snd.pending);
      if HasRoom(p.sizeUsed, p.sizeTotal, len) { AllocRoomInv(w, len); } else { AllocFullInv(w, len); }
    }
  }

  lemma AllocRoomInv(w: World, len: nat)
    requires Inv(w) && CanAlloc(w) && w.snd.pending.None?
    requires var p := w.pages[Current(w)]; HasRoom(p.sizeUsed, p.sizeTotal, len)
    ensures var p := w.pages[Current(w)];
            Inv(WithCurrent(w, Reserve(NoteAlloc(p, len), w.snd.lastMsg, len),
                            w.snd.(pending := Some(p.sizeUsed))))
  {
    hide Laid;
    hide Flat;
    hide LiveInv;
    hide DeadInv;
    hide ReceiversInv;
    var p, log := w.pages[Current(w)], w.logs[|w.logs| - 1];
    ReserveWritable(p, log, w.snd.lastMsg, len);
    CurrentFrame(w, Reserve(NoteAlloc(p, len), w.snd.lastMsg, len), w.snd.(pending := Some(p.sizeUsed)));
  }

  lemma AllocFullInv(w: World, len: nat)
    requires Inv(w) && CanAlloc(w) && w.snd.pending.None? && LenFits(len)
    ensures Inv(WithCurrent(w, NoteAlloc(w.pages[Current(w)], len),
                            w.snd.(pc := if w.snd.keep then Probe(0, len) else Scan(0, len))))
  {
    hide Laid;
    hide Flat;
    hide LiveInv;
    hide DeadInv;
    hide ReceiversInv;
    var p, log := w.pages[Current(w)], w.logs[|w.logs| - 1];
    AlignedEnd(p, log, w.snd.lastMsg);
    LaidFrame(p, NoteAlloc(p, len), log);
    CurrentFrame(w, NoteAlloc(p, len), w.snd.(pc := if w.snd.keep then Probe(0, len) else Scan(0, len)));
  }

  lemma CommittedLast(p: Page, log: seq<Msg>, lastMsg: Option<nat>, pending: Option<nat>)
    requires Writable(p, log, lastMsg, pending)
    ensures LastCommitted(p, lastMsg)
  {
    if log != [] { LastMsgId(p, log); }
  }

  lemma AlignedEnd(p: Page, log: seq<Msg>, lastMsg: Option<nat>)
    requires Writable(p, log, lastMsg, None)
    ensures p.sizeUsed == 0 || (PAGE_HEADER + p.sizeUsed) % ALIGNMENT == 0
  {
    if log != [] { assert Placed(p, log, |log| - 1); }
  }

  lemma PendingWriteInv(w: World, m: Msg)
    requires Inv(w) && w.snd.pc.Ready? && w.snd.pending.Some?
    requires m.bufLenPadded == MsgAt(w.pages[Current(w)], w.snd.pending.value).bufLenPadded
    requires m.bufLen <= m.bufLenPadded && !IsEop(m)
    ensures Inv(WithCurrent(w, SetMsg(w.pages[Current(w)], w.snd.pending.value, m), w.snd))
  {
    hide Laid;
    hide Flat;
    hide LiveInv;
    hide DeadInv;
    hide ReceiversInv;
    var p := w.pages[Current(w)];
    FillWritable(p, w.logs[|w.logs| - 1], w.snd.lastMsg, w.snd.pending.value, m);
    CurrentFrame(w, SetMsg(p, w.snd.pending.value, m), w.snd);
  }

  lemma ShrinkInv(w: World, newLen: nat)
    requires Inv(w) && HasPending(w)
    ensures Inv(ShrinkStep(w, newLen))
  {
    hide Laid;
    hide Flat;
    hide LiveInv;
    hide DeadInv;
    hide ReceiversInv;
    var p := w.pages[Current(w)];
    var q := Shrink(p, w.snd.pending.value, newLen);
    if q.Some? {
      ShrinkWritable(p, w.logs[|w.logs| - 1], w.snd.lastMsg, w.snd.pending.value, newLen);
      CurrentFrame(w, q.value, w.snd);
    }
  }

  // ------------------------------------------------------------------- commit

  /** `q` carries one more committed message than the current page does in `w`. */
  ghost predicate Published(w: World, q: Page, m: Msg)
    requires ChainInv(w) && OwnInv(w)
  {
    var p := w.pages[Current(w)];
    && q.magic == p.magic && q.joined == p.joined && q.left == p.left && q.mapLen == p.mapLen
    && Laid(q, w.logs[|w.logs| - 1] + [m])
  }

  lemma {:induction false} AppendFlat(logs: seq<seq<Msg>>, m: Msg)
    requires logs != [] && DataOnly(logs[|logs| - 1])
    ensures Flat(Append(logs, m)) == if IsEop(m) then Flat(logs) else Flat(logs) + [m]
  {
    var logs' := Append(logs, m);
    assert logs'[..|logs| - 1] == logs[..|logs| - 1];
    assert (logs[|logs| - 1] + [m])[..|logs[|logs| - 1]|] == logs[|logs| - 1];
  }

  lemma SendLive(w: World, q: Page, m: Msg, snd: Sender)
    requires ChainInv(w) && OwnInv(w) && LiveInv(w) && Published(w, q, m)
    requires snd.out == w.snd.out && snd.cache == w.snd.cache && snd.keep == w.snd.keep
    ensures LiveInv(WithCurrent(w, q, snd).(logs := Append(w.logs, m), committed := w.committed + [m]))
  {
    hide Laid;
    hide Flat;
    var w' := WithCurrent(w, q, snd).(logs := Append(w.logs, m), committed := w.committed + [m]);
    var last := |w.chain| - 1;
    assert w.chain[last] == Current(w);
    forall i | Low(w) <= i < |w.chain| ensures Live(w', i) {
      assert Live(w, i);
      if i < last { assert w.chain[i] != w.chain[last]; }
      LiveFrame(w, w', i);
    }
  }

  /** A receiver anywhere on the chain does not notice messages added behind it. */
  lemma AppendReceiver(w: World, w': World, v: Receiver, m: Msg)
    requires |w.chain| == |w.logs| >= 1 && ReceiverInv(w, v)
    requires w.chain <= w'.chain && |w'.chain| == |w'.logs| && Append(w.logs, m) <= w'.logs
    requires Low(w') == Low(w)
    requires v.pos + 1 < |w.chain| && w.chain[v.pos + 1] in w.pages ==>
               && w.chain[v.pos + 1] in w'.pages
               && w'.pages[w.chain[v.pos + 1]].mapLen == w.pages[w.chain[v.pos + 1]].mapLen
    ensures ReceiverInv(w', v)
  {
    hide Flat;
    assert w'.logs[..v.pos] == w.logs[..v.pos];
    assert w'.logs[v.pos][..v.count] == w.logs[v.pos][..v.count];
  }

  lemma SendReceivers(w: World, q: Page, m: Msg, snd: Sender)
    requires ChainInv(w) && OwnInv(w) && ReceiversInv(w) && Published(w, q, m)
    requires snd.keep == w.snd.keep
    ensures ReceiversInv(WithCurrent(w, q, snd).(logs := Append(w.logs, m), committed := w.committed + [m]))
  {
    hide Laid;
    hide Flat;
    var w' := WithCurrent(w, q, snd).(logs := Append(w.logs, m), committed := w.committed + [m]);
    forall r | r in w'.rcvs ensures ReceiverInv(w', w'.rcvs[r]) { AppendReceiver(w, w', w.rcvs[r], m); }
  }

  lemma SendInv(w: World, over: bool)
    requires Inv(w) && HasPending(w)
    ensures Inv(SendStep(w, over))
  {
    hide LiveInv;
    hide DeadInv;
    hide ReceiversInv;
    var p := w.pages[Current(w)];
    if MsgAt(p, w.snd.pending.value).tag == TAG_UNSET { StopInv(w, Misuse); } else { SendTaggedInv(w, over); }
  }

  lemma SendChain(w: World, w': World, m: Msg)
    requires ChainInv(w) && !IsEop(m)
    requires w'.snd.out == w.snd.out && w'.chain == w.chain
    requires w'.logs == Append(w.logs, m) && w'.committed == w.committed + [m]
    ensures ChainInv(w')
  {
    hide Flat;
    AppendFlat(w.logs, m);
    AppendLogs(w.logs, m);
    hide ClosedLog, DataOnly;
  }

  lemma AppendLogs(logs: seq<seq<Msg>>, m: Msg)
    requires logs != [] && !IsEop(m) && DataOnly(logs[|logs| - 1])
    requires forall i :: 0 <= i < |logs| - 1 ==> ClosedLog(logs[i])
    ensures var logs' := Append(logs, m);
            DataOnly(logs'[|logs| - 1]) && forall i :: 0 <= i < |logs| - 1 ==> ClosedLog(logs'[i])
  {
    hide ClosedLog;
    forall i | 0 <= i < |logs| - 1 ensures ClosedLog(Append(logs, m)[i]) { assert Append(logs, m)[i] == logs[i]; }
  }

  lemma SendOwn(w: World, q: Page, m: Msg, snd: Sender)
    requires ChainInv(w) && OwnInv(w) && DeadInv(w) && Published(w, q, m)
    requires snd.out == w.snd.out && snd.cache == w.snd.cache && snd.keep == w.snd.keep
    ensures var w' := WithCurrent(w, q, snd).(logs := Append(w.logs, m), committed := w.committed + [m]);
            OwnInv(w') && DeadInv(w')
  {
    hide Laid;
    hide Flat;
  }

  lemma SendTaggedInv(w: World, over: bool)
    requires Inv(w) && HasPending(w)
    requires MsgAt(w.pages[Current(w)], w.snd.pending.value).tag != TAG_UNSET
    ensures Inv(SendStep(w, over))
  {
    hide Laid;
    hide Flat;
    hide LiveInv;
    hide DeadInv;
    hide ReceiversInv;
    hide End;
    var p, log, off := w.pages[Current(w)], w.logs[|w.logs| - 1], w.snd.pending.value;
    var who := if over then Some(w.snd.id) else None;
    var m, q := Stamped(p, off, who), Commit(p, off, who);
    var snd := w.snd.(lastMsg := Some(off), pending := None);
    CommitWritable(p, log, w.snd.lastMsg, off, who);
    NotLast(log, off);
    var w' := SendStep(w, over);
    assert w' == WithCurrent(w, q, snd).(logs := Append(w.logs, m), committed := w.committed + [m]);
    SendChain(w, w', m);
    SendOwn(w, q, m, snd);
    SendLive(w, q, m, snd);
    SendReceivers(w, q, m, snd);
  }

  lemma NotLast(log: seq<Msg>, off: nat)
    requires off == End(log)
    ensures LastOffset(log) != Some(off)
  {
  }

  // -------------------------------------------------------------- page switch

  /** The world right after the EOP `m` naming `newId` is published as page content `q`. */
  ghost predicate Switched(w: World, w': World, newId: nat, q: Page, m: Msg)
    requires ChainInv(w)
  {
    && w'.pages == w.pages[Current(w) := q]
    && w'.snd.out == w.snd.out + [newId] && w'.snd.cache == w.snd.cache && w'.snd.keep == w.snd.keep
    && w'.rcvs == w.rcvs && w'.chain == w.chain + [newId] && w'.logs == Append(w.logs, m) + [[]]
    && w'.committed == w.committed
  }

  lemma EopLiveOld(w: World, w': World, newId: nat, q: Page, m: Msg, i: nat)
    requires ChainInv(w) && OwnInv(w) && i < |w.chain| - 1 && Live(w, i) && w.chain[i] != Current(w)
    requires Published(w, q, m) && Switched(w, w', newId, q, m)
    ensures Live(w', i)
  {
    hide Laid;
    hide Flat;
    hide OwnInv;
    assert Held(w') == Held(w) + [newId];
    assert w'.logs[i] == w.logs[i] && w'.chain[i + 1] == w.chain[i + 1];
  }

  lemma EopLiveLast(w: World, w': World, newId: nat, q: Page, m: Msg)
    requires ChainInv(w) && OwnInv(w) && Live(w, |w.chain| - 1) && newId in w.pages && newId != Current(w)
    requires Published(w, q, m) && Switched(w, w', newId, q, m)
    requires m.body == MapInfo(w.pages[newId].mapLen, newId)
    ensures Live(w', |w.chain| - 1)
  {
    hide Laid;
    hide Flat;
    hide OwnInv;
    var last := |w.chain| - 1;
    assert w.chain[last] == Current(w);
    assert Held(w') == Held(w) + [newId];
    assert w'.logs[last] == w.logs[last] + [m];
  }

  lemma EopLive(w: World, w': World, newId: nat, q: Page, m: Msg)
    requires ChainInv(w) && OwnInv(w) && LiveInv(w) && ReceiversInv(w) && NextPage(w, newId) && Published(w, q, m)
    requires m.body == MapInfo(w.pages[newId].mapLen, newId) && Switched(w, w', newId, q, m)
    ensures LiveInv(w')
  {
    hide Laid;
    hide Flat;
    var last := |w.chain| - 1;
    assert w.chain[last] == Current(w);
    forall i | Low(w) <= i < |w'.chain| ensures Live(w', i) {
      if i < |w.chain| { assert Live(w, i); }
      if i < last { EopLiveOld(w, w', newId, q, m, i); }
      else if i == last { EopLiveLast(w, w', newId, q, m); }
      else if 0 in w.rcvs { assert ReceiverInv(w, w.rcvs[0]); }
    }
  }

  lemma EopReceivers(w: World, w': World, newId: nat, q: Page, m: Msg)
    requires ChainInv(w) && OwnInv(w) && ReceiversInv(w) && Published(w, q, m) && Switched(w, w', newId, q, m)
    ensures ReceiversInv(w')
  {
    hide Laid;
    hide Flat;
    forall r | r in w'.rcvs ensures ReceiverInv(w', w'.rcvs[r]) { AppendReceiver(w, w', w.rcvs[r], m); }
  }

  lemma EopChain(w: World, w': World, newId: nat, q: Page, m: Msg)
    requires ChainInv(w) && IsEop(m) && Switched(w, w', newId, q, m)
    ensures ChainInv(w')
  {
    hide Flat, ClosedLog, DataOnly;
    AppendFlat(w.logs, m);
    FlatSnoc(Append(w.logs, m), []);
    CloseLog(w.logs, m);
    TailSnoc(w.chain, w.snd.out, newId);
  }

  lemma {:induction false} FlatSnoc(logs: seq<seq<Msg>>, log: seq<Msg>)
    ensures Flat(logs + [log]) == Flat(logs) + Data(log)
  {
    assert (logs + [log])[..|logs|] == logs;
  }

  /** Committing an EOP closes the last log and opens an empty one. */
  lemma {:induction false} CloseLog(logs: seq<seq<Msg>>, m: Msg)
    requires logs != [] && IsEop(m) && DataOnly(logs[|logs| - 1])
    requires forall i :: 0 <= i < |logs| - 1 ==> ClosedLog(logs[i])
    ensures var logs' := Append(logs, m) + [[]];
            DataOnly(logs'[|logs|]) && forall i :: 0 <= i < |logs| ==> ClosedLog(logs'[i])
  {
    var n, logs' := |logs| - 1, Append(logs, m) + [[]];
    assert logs'[n][..|logs[n]|] == logs[n];
    assert ClosedLog(logs'[n]);
    hide ClosedLog, DataOnly;
    forall i | 0 <= i < n ensures ClosedLog(logs'[i]) { assert logs'[i] == logs[i]; }
  }

  lemma TailSnoc(chain: seq<nat>, out: seq<nat>, id: nat)
    requires IsTail(out, chain)
    ensures IsTail(out + [id], chain + [id])
  {
  }

  lemma EopOwn(w: World, w': World, newId: nat, q: Page, m: Msg)
    requires ChainInv(w) && OwnInv(w) && NextPage(w, newId) && Published(w, q, m) && Switched(w, w', newId, q, m)
    ensures OwnInv(w')
  {
    hide Laid;
    hide Flat;
    assert Held(w') == Held(w) + [newId];
  }

  lemma EopDead(w: World, w': World, newId: nat, q: Page, m: Msg)
    requires ChainInv(w) && OwnInv(w) && DeadInv(w) && LiveInv(w) && Published(w, q, m) && Switched(w, w', newId, q, m)
    ensures DeadInv(w')
  {
    hide Laid;
    hide Flat;
  }

  lemma SendEopInv(w: World)
    requires Inv(w) && CanSendEop(w)
    ensures Inv(SendEopStep(w))
  {
    hide Laid;
    hide Flat;
    hide LiveInv;
    hide DeadInv;
    hide ReceiversInv;
    var EopReady(newId, off, len) := w.snd.pc;
    var p, log, w' := w.pages[Current(w)], w.logs[|w.logs| - 1], SendEopStep(w);
    EopCommit(p, log, off, w.pages[newId].mapLen, newId, w.snd.id);
    var m, q := Stamped(p, off, Some(w.snd.id)), Commit(p, off, Some(w.snd.id));
    assert Switched(w, w', newId, q, m);
    EopChain(w, w', newId, q, m);
    EopOwn(w, w', newId, q, m);
    EopDead(w, w', newId, q, m);
    EopLive(w, w', newId, q, m);
    EopReceivers(w, w', newId, q, m);
  }

  // -------------------------------------------------------- pruning and reuse

  lemma ScanFacts(w: World)
    requires Inv(w) && CanScan(w)
    ensures w.snd.pc.n <= |w.snd.out| - 1 && OwnInv(w) && PruneInv(w, w.snd.pc.n)
  {
    hide ChainInv, LiveInv, DeadInv, ReceiversInv, OwnInv;
  }

  lemma ScanMoves(w: World, pc: SenderPc)
    requires Inv(w) && w.snd.pc.Scan? && (pc.Scan? || pc.Move?) && pc.len == w.snd.pc.len
    requires PruneInv(w, if pc.Scan? then pc.n else pc.k)
    ensures Inv(w.(snd := w.snd.(pc := pc)))
  {
    hide ChainInv, LiveInv, DeadInv, ReceiversInv, Writable, Noted, CachedOk, OutOk, NoDup;
    SenderFrame(w, w.snd.(pc := pc));
  }

  lemma ScanInv(w: World)
    requires Inv(w) && CanScan(w)
    ensures Inv(ScanStep(w))
  {
    hide Inv, OwnInv;
    var Scan(n, len) := w.snd.pc;
    ScanFacts(w);
    if n < |w.snd.out| - 1 && w.pages[w.snd.out[n]].joined != 0 {
      ScanMoves(w, Scan(n + 1, len));
    } else if n == 0 && |w.snd.out| > MAX_PENDING_UNREAD_PAGES {
      StopInv(w, SlowReceiver);
    } else {
      ScanMoves(w, Move(n, len));
    }
  }

  /** Moving only the program counter. */
  lemma PcInv(w: World, pc: SenderPc)
    requires Inv(w) && SenderInv(w.(snd := w.snd.(pc := pc)))
    ensures Inv(w.(snd := w.snd.(pc := pc)))
  {
    hide Laid;
    hide Flat;
    hide LiveInv;
    hide DeadInv;
    hide ReceiversInv;
    SenderFrame(w, w.snd.(pc := pc));
  }

  /** A page found joined is marked with exactly one receiver. */
  lemma JoinedIsOne(w: World)
    requires ChainInv(w) && OwnInv(w) && LiveInv(w) && DeadInv(w) && !w.snd.keep
    requires w.pages[w.snd.out[0]].joined != 0
    ensures w.pages[w.snd.out[0]].joined == 1
  {
    hide Laid;
    hide Flat;
    var base := |w.chain| - |w.snd.out|;
    assert w.chain[base] == w.snd.out[0];
    if Low(w) <= base { assert Live(w, base); }
  }

  ghost predicate Retired(w: World, w': World)
    requires ChainInv(w) && OwnInv(w)
  {
    var id := w.snd.out[0];
    && w'.pages == w.pages[id := w.pages[id].(magic := Deinitialized)]
    && w'.snd.out == w.snd.out[1..] && w'.snd.cache == w.snd.cache + [id] && w'.snd.keep == w.snd.keep
    && w'.rcvs == w.rcvs && w'.chain == w.chain && w'.logs == w.logs && w'.committed == w.committed
  }

  lemma MoveLive(w: World, w': World)
    requires ChainInv(w) && OwnInv(w) && LiveInv(w) && Retired(w, w')
    ensures LiveInv(w')
  {
    hide Flat;
    hide OwnInv;
    hide Laid;
    assert Held(w') == Held(w);
    forall i | Low(w) <= i < |w.chain| ensures Live(w', i) {
      assert Live(w, i);
      LaidFrame(w.pages[w.chain[i]], w'.pages[w.chain[i]], w.logs[i]);
      LiveFrame(w, w', i);
    }
  }

  lemma MoveReceivers(w: World, w': World)
    requires ChainInv(w) && OwnInv(w) && ReceiversInv(w) && Retired(w, w')
    ensures ReceiversInv(w')
  {
    hide Flat;
    hide OwnInv;
    forall r | r in w'.rcvs ensures ReceiverInv(w', w'.rcvs[r]) { ReceiverFrame(w, w', w.rcvs[r]); }
  }

  lemma MoveChain(w: World, w': World)
    requires ChainInv(w) && OwnInv(w) && Retired(w, w') && |w.snd.out| >= 2
    ensures ChainInv(w')
  {
    hide Flat, OwnInv, ClosedLog, DataOnly;
    var k := |w.chain| - |w.snd.out|;
    assert w.chain[k..][1..] == w.chain[k + 1..];
  }

  lemma MoveHeld(w: World, w': World)
    requires ChainInv(w) && OwnInv(w) && Retired(w, w')
    requires !w.snd.keep && w.pages[w.snd.out[0]].joined == 1 && |w.snd.out| >= 2
    ensures OwnInv(w')
  {
    hide ChainInv;
    assert Held(w') == Held(w);
    FirstOnce(w);
    var n, id := |w.snd.cache|, w.snd.out[0];
    forall i | 0 <= i < n ensures w.snd.cache[i] != id {
      assert Held(w)[i] == w.snd.cache[i] && Held(w)[n] == id;
    }
    hide NoDup;
    forall i | 0 <= i < |w'.snd.out|
      ensures w'.snd.out[i] in w'.pages && w'.pages[w'.snd.out[i]].magic == Initialized
    {
      assert w'.snd.out[i] == w.snd.out[i + 1];
    }
    forall i | 0 <= i < |w'.snd.cache| ensures CachedOk(w', w'.snd.cache[i]) {
      if i < n { assert CachedOk(w, w.snd.cache[i]); }
    }
  }

  lemma MoveOwn(w: World, w': World)
    requires ChainInv(w) && OwnInv(w) && LiveInv(w) && DeadInv(w) && Retired(w, w')
    requires !w.snd.keep && w.pages[w.snd.out[0]].joined != 0 && |w.snd.out| >= 2
    ensures ChainInv(w') && OwnInv(w') && DeadInv(w')
  {
    JoinedIsOne(w);
    MoveChain(w, w');
    MoveHeld(w, w');
    hide OwnInv, LiveInv, ClosedLog, DataOnly, Flat;
  }

  lemma FirstOnce(w: World)
    requires OwnInv(w) && w.snd.out != []
    ensures forall i :: 1 <= i < |w.snd.out| ==> w.snd.out[i] != w.snd.out[0]
  {
    var n := |w.snd.cache|;
    forall i | 1 <= i < |w.snd.out| ensures w.snd.out[i] != w.snd.out[0] {
      assert Held(w)[n + i] == w.snd.out[i] && Held(w)[n] == w.snd.out[0];
    }
  }

  lemma MovePrune(w: World, k: nat)
    requires OwnInv(w) && PruneInv(w, k) && k > 0 && CanMove(w) && w.snd.pc.k == k && OwnInv(MoveStep(w))
    requires w.pages[w.snd.out[0]].magic == Initialized
    requires forall i :: 1 <= i < |w.snd.out| ==> w.snd.out[i] != w.snd.out[0]
    ensures PruneInv(MoveStep(w), k - 1)
  {
    hide NoDup, CachedOk;
    var w' := MoveStep(w);
    forall i | 0 <= i < k - 1 ensures w'.pages[w'.snd.out[i]].joined != 0 {
      assert w'.snd.out[i] == w.snd.out[i + 1] && w.pages[w.snd.out[i + 1]].joined != 0;
    }
  }

  /** Retiring the first page leaves the sender's own page alone and one page less to retire. */
  lemma MoveSender(w: World)
    requires ChainInv(w) && OwnInv(w) && SenderInv(w) && CanMove(w) && w.snd.pc.k > 0
    requires w.pages[w.snd.out[0]].magic == Initialized && ChainInv(MoveStep(w)) && OwnInv(MoveStep(w))
    ensures SenderInv(MoveStep(w))
  {
    hide ChainInv, Writable, Noted;
    FirstOnce(w);
    MovePrune(w, w.snd.pc.k);
    assert PruneInv(w, w.snd.pc.k);
    hide OwnInv;
  }

  lemma MoveFacts(w: World)
    requires Inv(w) && CanMove(w) && w.snd.pc.k > 0
    ensures w.pages[w.snd.out[0]].joined != 0 && w.pages[w.snd.out[0]].magic == Initialized
    ensures !w.snd.keep && |w.snd.out| >= 2 && Retired(w, MoveStep(w))
  {
    hide LiveInv, DeadInv, ReceiversInv, Flat, Writable, Noted;
  }

  lemma MoveInv(w: World)
    requires Inv(w) && CanMove(w)
    ensures Inv(MoveStep(w))
  {
    hide ChainInv, OwnInv, LiveInv, DeadInv, SenderInv, ReceiversInv, Retired;
    var w' := MoveStep(w);
    if w.snd.pc.k == 0 {
      MoveDone(w);
    } else {
      MoveFacts(w);
      MoveOwn(w, w');
      MoveLive(w, w');
      MoveReceivers(w, w');
      MoveSender(w);
    }
  }

  lemma MoveDone(w: World)
    requires Inv(w) && CanMove(w) && w.snd.pc.k == 0
    ensures Inv(MoveStep(w))
  {
    hide LiveInv, DeadInv, ReceiversInv, Flat, Writable;
    PcInv(w, Probe(0, w.snd.pc.len));
  }

  /** Only page `id` changed, and neither the sender's pages nor the live chain contain it. */
  ghost predicate Recycled(w: World, w': World, id: nat)
    requires ChainInv(w)
  {
    && (forall k :: k != id ==> (k in w'.pages <==> k in w.pages))
    && (forall k :: k != id && k in w.pages ==> w'.pages[k] == w.pages[k])
    && w'.snd.out == w.snd.out && w'.snd.keep == w.snd.keep
    && w'.rcvs == w.rcvs && w'.chain == w.chain && w'.logs == w.logs && w'.committed == w.committed
    && NoDup(Held(w')) && id !in Held(w')
    && (forall k :: k in w'.snd.cache ==> k in w.snd.cache)
    && (forall k :: k in Held(w) && k != id ==> k in Held(w'))
    && (forall i :: Low(w) <= i < |w.chain| ==> w.chain[i] != id)
  }

  lemma RecycleLive(w: World, w': World, id: nat)
    requires ChainInv(w) && LiveInv(w) && Recycled(w, w', id)
    ensures LiveInv(w')
  {
    hide Flat;
    hide Laid;
    forall i | Low(w) <= i < |w.chain| ensures Live(w', i) {
      assert Live(w, i);
    }
  }

  lemma RecycleReceivers(w: World, w': World, id: nat)
    requires ChainInv(w) && LiveInv(w) && ReceiversInv(w) && Recycled(w, w', id)
    ensures ReceiversInv(w')
  {
    hide Flat;
    hide Laid;
    forall r | r in w'.rcvs ensures ReceiverInv(w', w'.rcvs[r]) {
      assert ReceiverInv(w, w.rcvs[r]);
      ReceiverFrame(w, w', w.rcvs[r]);
    }
  }

  lemma RecycleOwn(w: World, w': World, id: nat)
    requires ChainInv(w) && OwnInv(w) && Recycled(w, w', id)
    ensures ChainInv(w') && OwnInv(w')
  {
    hide Laid;
    hide Flat;
    assert forall i :: 0 <= i < |w.snd.out| ==> w.snd.out[i] in Held(w');
    forall i | 0 <= i < |w'.snd.cache| ensures CachedOk(w', w'.snd.cache[i]) {
      var k := w'.snd.cache[i];
      assert k in Held(w') && k in w.snd.cache;
      assert CachedOk(w, k);
    }
    assert w'.snd.cache != [] ==> w'.snd.cache[0] in w.snd.cache;
  }

  lemma RecycleDead(w: World, w': World, id: nat)
    requires ChainInv(w) && DeadInv(w) && Recycled(w, w', id)
    ensures DeadInv(w')
  {
    hide Laid;
    hide Flat;
    var base := |w.chain| - |w.snd.out|;
    forall i | base <= i < |w.chain| ensures w.chain[i] != id {
      assert w.chain[i] == w.snd.out[i - base] && w.snd.out[i - base] in Held(w');
    }
  }

  lemma RecycleShared(w: World, w': World, id: nat)
    requires SharedInv(w) && Recycled(w, w', id)
    ensures SharedInv(w')
  {
    hide LiveInv;
    hide ReceiversInv;
    hide DeadInv;
    hide OwnInv;
    hide Flat;
    RecycleOwn(w, w', id);
    RecycleDead(w, w', id);
    RecycleLive(w, w', id);
    RecycleReceivers(w, w', id);
  }

  /** Taking page `id` out of circulation, (re)initialised and empty, as the next page. */
  lemma LinkInv(w: World, id: nat, q: Page, cache: seq<nat>, len: nat)
    requires Inv(w) && w.snd.pending.None? && !w.snd.pc.EopReady? && !w.snd.pc.Stopped?
    requires Noted(w.pages[Current(w)], len) && LenFits(len)
    requires Recycled(w, LinkStep(w, id, q, cache, len), id)
    requires Writable(q, [], None, None) && q.magic == Initialized && q.joined == 0 && q.left == 0
    requires NextShmemSize(w.pages[Current(w)].maxAlloc) <= q.mapLen
    ensures Inv(LinkStep(w, id, q, cache, len))
  {
    var w', size := LinkStep(w, id, q, cache, len), w.pages[Current(w)].maxAlloc;
    hide ChainInv, OwnInv, LiveInv, DeadInv, SenderInv, ReceiversInv, Recycled, Writable, LinkStep, Noted;
    RecycleShared(w, w', id);
    EmptyPage(q, size);
    CurrentStays(w, w', id);
    LinkSender(w, id, q, cache, len);
  }

  lemma LinkSender(w: World, id: nat, q: Page, cache: seq<nat>, len: nat)
    requires ChainInv(w) && OwnInv(w) && SenderInv(w)
    requires w.snd.pending.None? && !w.snd.pc.EopReady? && !w.snd.pc.Stopped?
    requires Noted(w.pages[Current(w)], len) && LenFits(len)
    requires var w' := LinkStep(w, id, q, cache, len);
             && Recycled(w, w', id) && ChainInv(w') && OwnInv(w')
             && Current(w') == Current(w) && w'.pages[Current(w)] == w.pages[Current(w)]
    requires Writable(q.(currentMsgId := 0, maxAlloc := w.pages[Current(w)].maxAlloc), [], None, None)
    requires q.magic == Initialized && q.joined == 0 && q.left == 0
    requires NextShmemSize(w.pages[Current(w)].maxAlloc) <= q.mapLen
    ensures SenderInv(LinkStep(w, id, q, cache, len))
  {
    hide ChainInv, OwnInv, Writable, NextShmemSize, Noted;
  }

  lemma EmptyPage(q: Page, maxAlloc: nat)
    requires Writable(q, [], None, None)
    ensures Writable(q.(currentMsgId := 0, maxAlloc := maxAlloc), [], None, None)
  {
  }

  /** Removing entry `e` from the cache. */
  function Without(cache: seq<nat>, e: nat): (r: seq<nat>)
    requires e < |cache|
  {
    cache[..e] + cache[e + 1..]
  }

  lemma WithoutHeld(cache: seq<nat>, out: seq<nat>, e: nat)
    requires e < |cache| && NoDup(cache + out)
    ensures NoDup(Without(cache, e) + out) && cache[e] !in Without(cache, e) + out
    ensures forall k :: k in Without(cache, e) ==> k in cache
    ensures forall k :: k in cache + out && k != cache[e] ==> k in Without(cache, e) + out
  {
    var all, rest := cache + out, Without(cache, e) + out;
    forall i, j | 0 <= i < j < |rest| ensures rest[i] != rest[j] {
      assert rest[i] == all[if i < e then i else i + 1] && rest[j] == all[if j < e then j else j + 1];
    }
    forall i | 0 <= i < |rest| ensures rest[i] != cache[e] {
      assert rest[i] == all[if i < e then i else i + 1] && cache[e] == all[e];
    }
    forall k | k in all && k != cache[e] ensures k in rest {
      var i :| 0 <= i < |all| && all[i] == k;
      assert rest[if i < e then i else i - 1] == k;
    }
  }

  /** A cached page whose receivers have all left is not part of the live chain. */
  lemma LeftIsDead(w: World, e: nat)
    requires ChainInv(w) && OwnInv(w) && LiveInv(w) && e < |w.snd.cache| && w.pages[w.snd.cache[e]].left == 1
    ensures forall i :: Low(w) <= i < |w.chain| ==> w.chain[i] != w.snd.cache[e]
  {
    hide Laid;
    hide Flat;
    forall i | Low(w) <= i < |w.chain| ensures w.chain[i] != w.snd.cache[e] { assert Live(w, i); }
  }

  lemma FreshInv(w: World, f: (nat, nat), len: nat)
    requires Inv(w) && w.snd.pc.Probe? && w.snd.pc.len == len
    requires f.0 !in w.pages && NextShmemSize(w.pages[Current(w)].maxAlloc) <= f.1
    ensures Inv(LinkStep(w, f.0, PageInit(FreshMap(f.1), w.pages[Current(w)].senderId), w.snd.cache, len))
  {
    hide Laid;
    hide Flat;
    hide DeadInv;
    hide ReceiversInv;
    var q := PageInit(FreshMap(f.1), w.pages[Current(w)].senderId);
    PageInitWritable(FreshMap(f.1), w.pages[Current(w)].senderId);
    var w' := LinkStep(w, f.0, q, w.snd.cache, len);
    assert Held(w') == Held(w);
    forall k | k in w.snd.cache ensures k in w.pages { assert CachedOk(w, k); }
    forall i | Low(w) <= i < |w.chain| ensures w.chain[i] != f.0 { assert Live(w, i); }
    LinkInv(w, f.0, q, w.snd.cache, len);
  }

  lemma ProbeInv(w: World, answer: Option<(nat, nat)>)
    requires Inv(w) && CanProbe(w, answer)
    ensures Inv(ProbeStep(w, answer))
  {
    hide Laid;
    hide Flat;
    hide LiveInv;
    hide DeadInv;
    hide ReceiversInv;
    var Probe(e, len) := w.snd.pc;
    if USIZE_LIMIT <= NextShmemSize(w.pages[Current(w)].maxAlloc) {
      StopInv(w, Overflow);
    } else if e < |w.snd.cache| {
      assert CachedOk(w, w.snd.cache[e]);
      PcInv(w, ProbeLeft(e, 1, len));
    } else if answer.None? {
      PcInv(w, Ready);
    } else {
      FreshInv(w, answer.value, len);
    }
  }

  lemma ReuseInv(w: World, e: nat, len: nat)
    requires Inv(w) && w.snd.pc == ProbeLeft(e, 1, len) && w.pages[w.snd.cache[e]].left == 1
    requires NextShmemSize(w.pages[Current(w)].maxAlloc) <= w.pages[w.snd.cache[e]].mapLen
    ensures Inv(LinkStep(w, w.snd.cache[e], PageInit(w.pages[w.snd.cache[e]], w.pages[Current(w)].senderId),
                         Without(w.snd.cache, e), len))
  {
    hide Laid;
    hide Flat;
    hide LiveInv;
    hide DeadInv;
    hide ReceiversInv;
    var id := w.snd.cache[e];
    var q := PageInit(w.pages[id], w.pages[Current(w)].senderId);
    PageInitWritable(w.pages[id], w.pages[Current(w)].senderId);
    WithoutHeld(w.snd.cache, w.snd.out, e);
    LeftIsDead(w, e);
    LinkInv(w, id, q, Without(w.snd.cache, e), len);
  }

  function Dropped(w: World, e: nat, len: nat): (w': World)
    requires e < |w.snd.cache|
  {
    w.(pages := w.pages - {w.snd.cache[e]}, snd := w.snd.(cache := Without(w.snd.cache, e), pc := Probe(0, len)))
  }

  lemma DropRecycles(w: World, e: nat, len: nat)
    requires ChainInv(w) && OwnInv(w) && LiveInv(w) && e < |w.snd.cache| && w.pages[w.snd.cache[e]].left == 1
    ensures Recycled(w, Dropped(w, e, len), w.snd.cache[e])
  {
    hide ChainInv, OwnInv, LiveInv, Without, Low;
    assert NoDup(w.snd.cache + w.snd.out) by { HeldOnce(w); }
    WithoutHeld(w.snd.cache, w.snd.out, e);
    LeftIsDead(w, e);
    assert Low(Dropped(w, e, len)) == Low(w) by { LowFrame(w, Dropped(w, e, len)); }
  }

  lemma HeldOnce(w: World)
    requires OwnInv(w)
    ensures NoDup(w.snd.cache + w.snd.out)
  {
  }

  lemma LowFrame(w: World, w': World)
    requires w'.snd.keep == w.snd.keep && w'.rcvs == w.rcvs
    ensures Low(w') == Low(w)
  {
  }

  lemma CurrentStays(w: World, w': World, id: nat)
    requires ChainInv(w) && OwnInv(w) && Recycled(w, w', id)
    ensures Current(w') == Current(w) && Current(w) in w'.pages && w'.pages[Current(w)] == w.pages[Current(w)]
  {
    hide Flat, Low;
    assert Current(w) in Held(w');
  }

  /** The sender goes back to the start of its cache with its own page untouched. */
  lemma ProbeAgain(w: World, w': World, len: nat)
    requires ChainInv(w) && OwnInv(w) && SenderInv(w) && w.snd.pc.ProbeLeft? && w.snd.pc.len == len
    requires ChainInv(w') && OwnInv(w') && Current(w') == Current(w) && w'.logs == w.logs
    requires w'.pages[Current(w)] == w.pages[Current(w)]
    requires w'.snd == w.snd.(cache := w'.snd.cache, pc := Probe(0, len))
    ensures SenderInv(w')
  {
    hide ChainInv, Writable, Noted;
  }

  lemma DropInv(w: World, e: nat, len: nat)
    requires Inv(w) && w.snd.pc == ProbeLeft(e, 1, len) && w.pages[w.snd.cache[e]].left == 1
    ensures Inv(Dropped(w, e, len))
  {
    var id, w' := w.snd.cache[e], Dropped(w, e, len);
    hide ChainInv, OwnInv, LiveInv, DeadInv, SenderInv, ReceiversInv, Recycled, Without;
    DropRecycles(w, e, len);
    RecycleShared(w, w', id);
    CurrentStays(w, w', id);
    ProbeAgain(w, w', len);
  }

  /** What the sender knows about the cached page it looks at. */
  lemma ProbedPage(w: World)
    requires Inv(w) && CanProbeLeft(w)
    ensures var p := w.pages[w.snd.cache[w.snd.pc.e]];
            w.snd.pc.joined == 1 && p.joined == 1 && p.left <= 1 && p.magic == Deinitialized
  {
    hide ChainInv, LiveInv, DeadInv, ReceiversInv;
    assert CachedOk(w, w.snd.cache[w.snd.pc.e]);
  }

  lemma ProbeOn(w: World)
    requires Inv(w) && CanProbeLeft(w)
    ensures Inv(w.(snd := w.snd.(pc := Probe(w.snd.pc.e + 1, w.snd.pc.len))))
  {
    hide ChainInv, LiveInv, DeadInv, ReceiversInv, Writable, Noted, CachedOk, OutOk, NoDup;
    var pc := Probe(w.snd.pc.e + 1, w.snd.pc.len);
    SenderFrame(w, w.snd.(pc := pc));
  }

  lemma ProbeLeftInv(w: World)
    requires Inv(w) && CanProbeLeft(w)
    ensures Inv(ProbeLeftStep(w))
  {
    hide Inv, NextShmemSize;
    var ProbeLeft(e, joined, len) := w.snd.pc;
    var p := w.pages[w.snd.cache[e]];
    ProbedPage(w);
    if p.left != joined {
      ProbeOn(w);
    } else if p.mapLen < NextShmemSize(w.pages[Current(w)].maxAlloc) {
      DropInv(w, e, len);
    } else {
      ReuseInv(w, e, len);
    }
  }

  lemma EopPage(p: Page, log: seq<Msg>, lastMsg: Option<nat>, q: Page, newId: nat, len: nat)
    requires Writable(p, log, lastMsg, None) && Noted(p, len)
    requires Writable(q, [], None, None) && NextShmemSize(p.maxAlloc) <= q.mapLen
    ensures EopPlace(p, lastMsg) == Some(p.sizeUsed) && p.sizeUsed + EOP_MSG_SIZE <= p.sizeTotal
    ensures MsgAt(p, p.sizeUsed).tag != TAG_UNINITIALIZED && lastMsg == LastOffset(log)
    ensures EopWritten(ReserveEop(p, lastMsg, p.sizeUsed, q.mapLen, newId), log, p.sizeUsed, q.mapLen, newId)
    ensures HasRoom(0, q.sizeTotal, len)
  {
    LaidShape(q, []);
    EopFits(p, log, lastMsg, q.mapLen, newId);
    RoomOnNextPage(p.sizeUsed, len, p.maxAlloc, q.sizeTotal);
  }

  lemma EopSender(w: World, q: Page, newId: nat, len: nat)
    requires ChainInv(w) && OwnInv(w) && w.snd.pc == Linked(newId, len) && NextPage(w, newId) && w.snd.pending.None?
    requires LenFits(len)
    requires var p, log := w.pages[Current(w)], w.logs[|w.logs| - 1];
             && q.maxAlloc == p.maxAlloc && w.snd.lastMsg == LastOffset(log)
             && EopWritten(q, log, p.sizeUsed, w.pages[newId].mapLen, newId) && HasRoom(0, w.pages[newId].sizeTotal, len)
    requires var w' := WithCurrent(w, q, w.snd.(pc := EopReady(newId, w.pages[Current(w)].sizeUsed, len)));
             ChainInv(w') && OwnInv(w')
    ensures SenderInv(WithCurrent(w, q, w.snd.(pc := EopReady(newId, w.pages[Current(w)].sizeUsed, len))))
  {
    hide OwnInv, ClosedLog, Flat, Writable, HasRoom, EopWritten, NextShmemSize;
    assert Current(w) in Held(w);
  }

  lemma WriteEopInv(w: World)
    requires Inv(w) && CanWriteEop(w)
    ensures Inv(WriteEopStep(w))
  {
    hide LiveInv, DeadInv, ReceiversInv, Laid, Flat, Writable, HasRoom, Noted, EopPlace, NextPage, EopWritten;
    var Linked(newId, len) := w.snd.pc;
    var p, log := w.pages[Current(w)], w.logs[|w.logs| - 1];
    assert NextPage(w, newId);
    NextIsEmpty(w, newId);
    EopPage(p, log, w.snd.lastMsg, w.pages[newId], newId, len);
    var q := ReserveEop(p, w.snd.lastMsg, p.sizeUsed, w.pages[newId].mapLen, newId);
    EopKeepsLaid(q, log, p.sizeUsed, w.pages[newId].mapLen, newId);
    hide ReserveEop;
    CurrentFrame(w, q, w.snd.(pc := EopReady(newId, p.sizeUsed, len)));
    EopSender(w, q, newId, len);
  }

  lemma NextIsEmpty(w: World, newId: nat)
    requires w.snd.out != [] && Current(w) in w.pages && NextPage(w, newId)
    ensures newId in w.pages && Writable(w.pages[newId], [], None, None)
    ensures NextShmemSize(w.pages[Current(w)].maxAlloc) <= w.pages[newId].mapLen
  {
  }

  lemma EopKeepsLaid(q: Page, log: seq<Msg>, off: nat, mapLen: nat, newId: nat)
    requires EopWritten(q, log, off, mapLen, newId)
    ensures Laid(q, log)
  {
  }

  lemma RetryInv(w: World)
    requires Inv(w) && CanRetry(w)
    ensures Inv(RetryStep(w))
  {
    hide Laid;
    hide Flat;
    hide LiveInv;
    hide DeadInv;
    hide ReceiversInv;
    var p := w.pages[Current(w)];
    if AllocOverflows(p, w.snd.pc.len) { StopInv(w, Overflow); } else { RetryRoomInv(w, w.snd.pc.len); }
  }

  lemma RetryRoomInv(w: World, len: nat)
    requires Inv(w) && w.snd.pc == Retry(len)
    ensures var p := w.pages[Current(w)];
            Inv(WithCurrent(w, Reserve(NoteAlloc(p, len), w.snd.lastMsg, len),
                            w.snd.(pending := Some(p.sizeUsed), pc := Ready)))
  {
    hide Laid;
    hide Flat;
    hide LiveInv;
    hide DeadInv;
    hide ReceiversInv;
    var p, log := w.pages[Current(w)], w.logs[|w.logs| - 1];
    ReserveWritable(p, log, w.snd.lastMsg, len);
    CurrentFrame(w, Reserve(NoteAlloc(p, len), w.snd.lastMsg, len),
                 w.snd.(pending := Some(p.sizeUsed), pc := Ready));
  }

  /** Every sender step keeps the invariant. */
  lemma SenderStepInv(w: World, a: Action)
    requires Inv(w) && Enabled(w, a)
    requires !a.Attach? && !a.Load? && !a.Read? && !a.Leave? && !a.MapNext? && !a.Join?
    ensures Inv(Apply(w, a))
  {
    hide Inv;
    match a
    case Alloc(len) => AllocInv(w, len);
    case Write(tag, flags, body) => WriteInv(w, tag, flags, body);
    case Forward(src) => ForwardInv(w, src);
    case ShrinkTo(newLen) => ShrinkInv(w, newLen);
    case Send(over) => SendInv(w, over);
    case ScanPage => ScanInv(w);
    case MovePage => MoveInv(w);
    case ProbeCache(answer) => ProbeInv(w, answer);
    case ProbeCacheLeft => ProbeLeftInv(w);
    case WriteEop => WriteEopInv(w);
    case SendEop => SendEopInv(w);
    case AllocAgain => RetryInv(w);
  }

  lemma WriteInv(w: World, tag: nat, flags: nat, body: Body)
    requires Inv(w) && CanWrite(w, tag, body)
    ensures Inv(WriteStep(w, tag, flags, body))
  {
    PendingWriteInv(w, MsgAt(w.pages[Current(w)], w.snd.pending.value).(tag := tag, flags := flags, body := body));
  }

  lemma ForwardInv(w: World, src: Msg)
    requires Inv(w) && CanForward(w, src)
    ensures Inv(ForwardStep(w, src))
  {
    PendingWriteInv(w, src.(bufLenPadded := MsgAt(w.pages[Current(w)], w.snd.pending.value).bufLenPadded));
  }
}
