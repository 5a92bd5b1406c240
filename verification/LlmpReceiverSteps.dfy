/** Every step of a receiver keeps the invariant. */
module LlmpReceiverSteps {
  import opened Base
  import opened LlmpLayout
  import opened LlmpPage
  import opened LlmpProtocol
  import opened LlmpInvariant

  /** Most steps of a receiver do not move the bounds its progress puts on the chain. */
  ghost predicate SamePlace(v: Receiver, v': Receiver) {
    LowOf(v') == LowOf(v) && JoinedOf(v') == JoinedOf(v)
  }

  lemma WalkLive(w: World, r: nat, v': Receiver)
    requires |w.chain| == |w.logs| && LiveInv(w) && r in w.rcvs && SamePlace(w.rcvs[r], v')
    ensures LiveInv(WithReceiver(w, r, v'))
  {
    hide Laid;
    forall i | Low(w) <= i < |w.chain| ensures Live(WithReceiver(w, r, v'), i) { assert Live(w, i); }
  }

  lemma WalkReceivers(w: World, r: nat, v': Receiver)
    requires |w.chain| == |w.logs| && ReceiversInv(w) && r in w.rcvs && SamePlace(w.rcvs[r], v')
    requires ReceiverInv(w, v')
    ensures ReceiversInv(WithReceiver(w, r, v'))
  {
    hide Flat;
    var w' := WithReceiver(w, r, v');
    forall k | k in w'.rcvs ensures ReceiverInv(w', w'.rcvs[k]) { ReceiverFrame(w, w', w'.rcvs[k]); }
  }

  lemma WalkInv(w: World, r: nat, v': Receiver)
    requires Inv(w) && r in w.rcvs && SamePlace(w.rcvs[r], v') && ReceiverInv(w, v')
    ensures Inv(WithReceiver(w, r, v'))
  {
    hide Laid;
    hide Flat;
    hide LiveInv;
    hide ReceiversInv;
    hide OwnInv;
    hide SenderInv;
    WalkLive(w, r, v');
    WalkReceivers(w, r, v');
    SenderUnaware(w, w.rcvs[r := v']);
  }

  /** The messages on the page a receiver walks. */
  lemma OnPage(w: World, r: nat)
    requires Inv(w) && r in w.rcvs && (w.rcvs[r].pc.Idle? || w.rcvs[r].pc.Reading?)
    ensures var v := w.rcvs[r];
            && v.page in w.pages && v.pos < |w.chain| == |w.logs| && v.page == w.chain[v.pos]
            && Laid(w.pages[v.page], w.logs[v.pos])
            && ReceiverInv(w, v)
            && (v.pos + 1 < |w.chain| ==>
                  && ClosedLog(w.logs[v.pos]) && w.chain[v.pos + 1] in w.pages
                  && w.logs[v.pos][|w.logs[v.pos]| - 1].body ==
                     MapInfo(w.pages[w.chain[v.pos + 1]].mapLen, w.chain[v.pos + 1]))
            && (v.pos + 1 == |w.chain| ==> DataOnly(w.logs[v.pos]))
  {
    hide Laid;
    hide Flat;
    hide SenderInv;
    hide OwnInv;
    hide DeadInv;
    assert ReceiverInv(w, w.rcvs[r]);
    assert Live(w, w.rcvs[r].pos);
  }

  /** What recv finds: nothing exactly when the page is exhausted, else the next message. */
  lemma LookupExact(p: Page, log: seq<Msg>, v: Receiver, id: nat)
    requires Laid(p, log) && v.count <= |log| && v.lastMsg == LastOffset(log[..v.count])
    requires v.count <= id <= |log|
    ensures NextMessage(v, p, id) == if v.count == id then NoMessage else Found(End(log[..v.count]))
  {
    var read := log[..v.count];
    if v.count > 0 {
      assert read[..v.count - 1] == log[..v.count - 1];
      ReceiverChecksPass(p, log, v.count - 1);
      assert Placed(p, log, v.count - 1);
      if v.count < |log| { ReceiverChecksPass(p, log, v.count); }
    }
  }

  lemma VisibleBounds(p: Page, log: seq<Msg>, v: Receiver)
    requires Laid(p, log) && v.count <= |log| && v.lastMsg == LastOffset(log[..v.count])
    requires v.highest <= |log|
    ensures v.count <= VisibleId(v, p) <= |log|
    ensures VisibleId(v, p) == v.count ==> v.count == |log|
  {
    if v.count > 0 {
      assert log[..v.count][..v.count - 1] == log[..v.count - 1];
      ReceiverChecksPass(p, log, v.count - 1);
      assert Placed(p, log, v.count - 1);
    }
  }

  lemma LoadInv(w: World, r: nat)
    requires Inv(w) && CanLoad(w, r)
    ensures Inv(WithReceiver(w, r, LoadStep(w.rcvs[r], w.pages[w.rcvs[r].page])))
  {
    hide Laid;
    hide Flat;
    hide Inv;
    OnPage(w, r);
    var v := w.rcvs[r];
    var p, log := w.pages[v.page], w.logs[v.pos];
    LaidShape(p, log);
    VisibleBounds(p, log, v);
    LookupExact(p, log, v, VisibleId(v, p));
    WalkInv(w, r, LoadStep(v, p));
  }

  lemma ReadInv(w: World, r: nat)
    requires Inv(w) && CanRead(w, r)
    ensures Inv(WithReceiver(w, r, ReadStep(w.rcvs[r], w.pages[w.rcvs[r].page])))
  {
    hide Laid;
    hide Flat;
    hide Inv;
    OnPage(w, r);
    var v := w.rcvs[r];
    var p, log := w.pages[v.page], w.logs[v.pos];
    ReceiverChecksPass(p, log, v.count);
    ReadMessage(p, log, v.count);
    if log[v.count].tag != TAG_EXITING && !IsEop(log[v.count]) { DeliverInv(w, v, ReadStep(v, p)); }
    WalkInv(w, r, ReadStep(v, p));
  }

  /** Delivering the next message advances the receiver by one message of its log. */
  lemma DeliverInv(w: World, v: Receiver, v': Receiver)
    requires |w.chain| == |w.logs| && ReceiverInv(w, v) && v.pc.Reading?
    requires var m := w.logs[v.pos][v.count];
             !IsEop(m) && v' == v.(lastMsg := Some(End(w.logs[v.pos][..v.count])), pc := Idle,
                                   count := v.count + 1, delivered := v.delivered + [m])
    ensures ReceiverInv(w, v')
  {
    hide Flat;
    hide End;
    var log := w.logs[v.pos];
    assert log[..v.count + 1] == log[..v.count] + [log[v.count]];
    assert log[..v.count + 1][..v.count] == log[..v.count];
  }

  lemma ReadMessage(p: Page, log: seq<Msg>, i: nat)
    requires Laid(p, log) && i < |log|
    ensures log[i].tag != TAG_UNSET
    ensures IsEop(log[i]) ==> i == |log| - 1 && log[i].bufLen == MAP_INFO_LEN && log[i].body.MapInfo?
  {
    assert Placed(p, log, i);
  }

  // ------------------------------------------------------------ changing page

  /** `q` is `p` up to the two receiver counters. */
  ghost predicate SameButCounters(p: Page, q: Page) {
    q == p.(joined := q.joined, left := q.left)
  }

  lemma CountersWritable(p: Page, q: Page, log: seq<Msg>, lastMsg: Option<nat>, pending: Option<nat>)
    requires SameButCounters(p, q) && Writable(p, log, lastMsg, pending)
    ensures Writable(q, log, lastMsg, pending)
  {
    LaidFrame(p, q, log);
  }

  lemma CountersEop(p: Page, q: Page, log: seq<Msg>, off: nat, mapSize: nat, shmId: nat)
    requires SameButCounters(p, q) && EopWritten(p, log, off, mapSize, shmId)
    ensures EopWritten(q, log, off, mapSize, shmId)
  {
    LaidFrame(p, q, log);
  }

  /** Receiver `r` becomes `v'` and page `id` gets new counters. */
  ghost predicate Flagged(w: World, w': World, r: nat, v': Receiver, id: nat, q: Page) {
    && r in w.rcvs && id in w.pages && SameButCounters(w.pages[id], q)
    && w' == w.(rcvs := w.rcvs[r := v'], pages := w.pages[id := q])
  }

  lemma FlagSender(w: World, w': World, r: nat, v': Receiver, id: nat, q: Page)
    requires ChainInv(w) && OwnInv(w) && SenderInv(w) && ChainInv(w') && OwnInv(w')
    requires Flagged(w, w', r, v', id, q) && Low(w) <= Low(w')
    requires w.pages[id].joined != 0 ==> q.joined != 0
    requires exists i :: Low(w) <= i < |w.chain| && w.chain[i] == id
    ensures SenderInv(w')
  {
    hide Laid;
    hide Flat;
    hide Writable;
    hide EopWritten;
    hide HasRoom;
    hide PaddedLen;
    hide NextShmemSize;
    var p, p', log := w.pages[Current(w)], w'.pages[Current(w)], w.logs[|w.logs| - 1];
    assert SameButCounters(p, p');
    if !w.snd.pc.EopReady? && !w.snd.pc.Stopped? {
      CountersWritable(p, p', log, w.snd.lastMsg, w.snd.pending);
    }
    if w.snd.pc.EopReady? {
      CountersEop(p, p', log, w.snd.pc.off, w.pages[w.snd.pc.newId].mapLen, w.snd.pc.newId);
    }
  }

  lemma FlagOwn(w: World, w': World, r: nat, v': Receiver, id: nat, q: Page)
    requires ChainInv(w) && OwnInv(w) && Flagged(w, w', r, v', id, q)
    requires q.joined == w.pages[id].joined || q.joined == 1
    requires q.left == w.pages[id].left || q.left == 1
    ensures ChainInv(w') && OwnInv(w')
  {
    hide Flat;
    forall i | 0 <= i < |w.snd.out| ensures OutOk(w', w.snd.out[i]) { assert OutOk(w, w.snd.out[i]); }
    forall i | 0 <= i < |w.snd.cache| ensures CachedOk(w', w.snd.cache[i]) { assert CachedOk(w, w.snd.cache[i]); }
  }

  lemma FlagReceivers(w: World, w': World, r: nat, v': Receiver, id: nat, q: Page)
    requires |w.chain| == |w.logs| && ReceiversInv(w) && Flagged(w, w', r, v', id, q)
    requires ReceiverInv(w', v')
    requires forall k :: k in w.rcvs && k != r ==> Low(w') == Low(w)
    ensures ReceiversInv(w')
  {
    hide Flat;
    forall k | k in w'.rcvs ensures ReceiverInv(w', w'.rcvs[k]) {
      if k != r { ReceiverFrame(w, w', w.rcvs[k]); }
    }
  }

  /** The counters of the live pages record how far the one receiver has come. */
  ghost predicate CountersInv(w: World) {
    !w.snd.keep ==> forall i :: Low(w) <= i < |w.chain| ==> w.chain[i] in w.pages && CountersAt(w, i)
  }

  ghost predicate CountersAt(w: World, i: nat)
    requires i < |w.chain| && w.chain[i] in w.pages
  {
    w.pages[w.chain[i]].left == 0 && w.pages[w.chain[i]].joined == if i < JoinedTo(w) then 1 else 0
  }

  lemma FlagLive(w: World, w': World, r: nat, v': Receiver, id: nat, q: Page)
    requires |w.chain| == |w.logs| && LiveInv(w) && Flagged(w, w', r, v', id, q)
    requires Low(w) <= Low(w') < |w.chain|
    requires CountersInv(w')
    ensures LiveInv(w')
  {
    hide Laid;
    forall i | Low(w') <= i < |w.chain| ensures Live(w', i) {
      assert Live(w, i);
      LaidFrame(w.pages[w.chain[i]], w'.pages[w.chain[i]], w.logs[i]);
    }
  }

  /** What the last two steps of a page change have in common. */
  lemma FlagInv(w: World, w': World, r: nat, v': Receiver, id: nat, q: Page)
    requires Inv(w) && Flagged(w, w', r, v', id, q)
    requires (q.joined == w.pages[id].joined || q.joined == 1) && (q.left == w.pages[id].left || q.left == 1)
    requires exists i :: Low(w) <= i < |w.chain| && w.chain[i] == id
    requires ReceiverInv(w', v') && (forall k :: k in w.rcvs && k != r ==> Low(w') == Low(w))
    requires Low(w) <= Low(w') < |w.chain| && DeadInv(w')
    requires CountersInv(w')
    ensures Inv(w')
  {
    hide Laid;
    hide Flat;
    hide SenderInv;
    hide LiveInv;
    hide ReceiversInv;
    hide ReceiverInv;
    hide DeadInv;
    FlagOwn(w, w', r, v', id, q);
    FlagLive(w, w', r, v', id, q);
    FlagReceivers(w, w', r, v', id, q);
    FlagSender(w, w', r, v', id, q);
  }

  lemma LeaveInv(w: World, r: nat)
    requires Inv(w) && CanLeave(w, r)
    ensures Inv(LeaveStep(w, r))
  {
    hide Laid;
    hide Flat;
    hide SenderInv;
    hide LiveInv;
    hide DeadInv;
    hide OwnInv;
    var v := w.rcvs[r];
    var v', q, w' := v.(pc := Departed(v.pc.info)), w.pages[v.page].(left := 1), LeaveStep(w, r);
    assert ReceiverInv(w, v);
    LeaveBounds(w, w', r);
    FlagInv(w, w', r, v', v.page, q);
  }

  /** After leaving page `pos` the sender may treat it as dead, and only it. */
  lemma LeaveBounds(w: World, w': World, r: nat)
    requires Inv(w) && CanLeave(w, r) && w' == LeaveStep(w, r)
    ensures Low(w) <= Low(w') < |w.chain| && DeadInv(w') && CountersInv(w')
  {
    hide Laid;
    hide Flat;
    hide SenderInv;
    hide OwnInv;
    var v := w.rcvs[r];
    assert ReceiverInv(w, v);
    assert Live(w, v.pos);
    if !w.snd.keep {
      forall i | Low(w') <= i < |w.chain|
        ensures w'.chain[i] in w'.pages && CountersAt(w', i)
      {
        assert Live(w, i);
        assert w.chain[i] != w.chain[v.pos];
      }
    }
  }

  lemma JoinInv(w: World, r: nat)
    requires Inv(w) && CanJoin(w, r)
    ensures Inv(JoinStep(w, r))
  {
    hide Laid;
    hide Flat;
    hide SenderInv;
    hide LiveInv;
    hide DeadInv;
    hide OwnInv;
    var v := w.rcvs[r];
    var v', q, w' := v.(pc := Idle), w.pages[v.page].(joined := 1), JoinStep(w, r);
    assert ReceiverInv(w, v);
    assert w.logs[v.pos][..0] == [];
    JoinBounds(w, w', r);
    FlagInv(w, w', r, v', v.page, q);
  }

  lemma JoinBounds(w: World, w': World, r: nat)
    requires Inv(w) && CanJoin(w, r) && w' == JoinStep(w, r)
    ensures Low(w) <= Low(w') < |w.chain| && DeadInv(w') && CountersInv(w')
  {
    hide Laid;
    hide Flat;
    hide SenderInv;
    hide OwnInv;
    var v := w.rcvs[r];
    assert ReceiverInv(w, v);
    assert Live(w, v.pos);
    if !w.snd.keep {
      forall i | Low(w') <= i < |w.chain|
        ensures w'.chain[i] in w'.pages && CountersAt(w', i)
      {
        assert Live(w, i);
        if i != v.pos { assert w.chain[i] != w.chain[v.pos]; }
      }
    }
  }

  /** The page an EOP names is still initialised when the receiver maps it. */
  lemma NextPageMappable(w: World, r: nat)
    requires Inv(w) && r in w.rcvs && w.rcvs[r].pc.Departed?
    ensures var v := w.rcvs[r];
            && v.pos + 1 < |w.chain| && w.chain[v.pos + 1] in w.pages
            && v.pc.info == MapInfo(w.pages[w.chain[v.pos + 1]].mapLen, w.chain[v.pos + 1])
            && w.pages[w.chain[v.pos + 1]].magic == Initialized
            && (!w.snd.keep ==> w.pages[w.chain[v.pos + 1]].joined == 0)
  {
    hide Laid;
    hide Flat;
    hide SenderInv;
    var v := w.rcvs[r];
    assert ReceiverInv(w, v);
    assert Live(w, v.pos + 1);
    var id := w.chain[v.pos + 1];
    forall k | k in w.snd.cache ensures w.pages[k].joined == 1 { assert CachedOk(w, k); }
    assert !w.snd.keep ==> w.pages[id].joined == 0;
    assert id !in w.snd.cache;
  }

  /** Everything delivered up to an EOP is all the data of the pages up to it. */
  lemma PageDone(logs: seq<seq<Msg>>, pos: nat)
    requires pos < |logs| && ClosedLog(logs[pos])
    ensures Flat(logs[..pos + 1]) == Flat(logs[..pos]) + logs[pos][..|logs[pos]| - 1]
  {
    assert logs[..pos + 1][..pos] == logs[..pos];
  }

  lemma MapInv(w: World, r: nat)
    requires Inv(w) && CanMap(w, r)
    ensures Inv(WithReceiver(w, r, MapStep(w.rcvs[r], w.pages)))
  {
    hide Laid;
    hide Flat;
    hide SenderInv;
    hide LiveInv;
    hide DeadInv;
    hide OwnInv;
    var v := w.rcvs[r];
    assert ReceiverInv(w, v);
    NextPageMappable(w, r);
    PageDone(w.logs, v.pos);
    assert w.logs[v.pos + 1][..0] == [];
    WalkInv(w, r, MapStep(v, w.pages));
  }

  lemma AttachInv(w: World, r: nat, mark: bool)
    requires Inv(w) && CanAttach(w, r, mark)
    ensures Inv(AttachStep(w, r, mark))
  {
    hide Laid;
    hide Flat;
    hide Writable;
    hide LiveInv;
    hide ReceiversInv;
    hide OwnInv;
    hide SenderInv;
    var w' := AttachStep(w, r, mark);
    assert Low(w') == Low(w);
    AttachLive(w, r, mark);
    AttachReceivers(w, r, mark);
    SenderUnaware(w, w'.rcvs);
  }

  /** The sender's invariant sees the receivers only through Low. */
  lemma SenderUnaware(w: World, rcvs: map<nat, Receiver>)
    requires ChainInv(w) && OwnInv(w) && SenderInv(w) && Low(w.(rcvs := rcvs)) == Low(w)
    ensures ChainInv(w.(rcvs := rcvs)) && OwnInv(w.(rcvs := rcvs)) && SenderInv(w.(rcvs := rcvs))
  {
    hide Writable, EopWritten, Noted, HasRoom, NextShmemSize, Low, Flat, CachedOk;
    var w' := w.(rcvs := rcvs);
    OwnUnaware(w, rcvs);
    hide ChainInv, OwnInv;
    if w.snd.pc.Linked? || w.snd.pc.EopReady? { NextUnaware(w, rcvs, w.snd.pc.newId); }
    hide NextPage;
  }

  lemma OwnUnaware(w: World, rcvs: map<nat, Receiver>)
    requires ChainInv(w) && OwnInv(w)
    ensures ChainInv(w.(rcvs := rcvs)) && OwnInv(w.(rcvs := rcvs))
  {
    hide Flat;
    var w' := w.(rcvs := rcvs);
    forall i | 0 <= i < |w.snd.cache| ensures CachedOk(w', w.snd.cache[i]) { assert CachedOk(w, w.snd.cache[i]); }
  }

  lemma NextUnaware(w: World, rcvs: map<nat, Receiver>, newId: nat)
    requires w.snd.out != [] && Current(w) in w.pages && NextPage(w, newId) && Low(w.(rcvs := rcvs)) == Low(w)
    ensures NextPage(w.(rcvs := rcvs), newId)
  {
    hide Writable, NextShmemSize, Low;
  }

  lemma AttachLive(w: World, r: nat, mark: bool)
    requires |w.chain| == |w.logs| && LiveInv(w) && CanAttach(w, r, mark)
    ensures LiveInv(AttachStep(w, r, mark))
  {
    hide Laid;
    var w' := AttachStep(w, r, mark);
    forall i | Low(w') <= i < |w.chain| ensures Live(w', i) { assert Live(w, i); }
  }

  lemma AttachReceivers(w: World, r: nat, mark: bool)
    requires |w.chain| == |w.logs| && ReceiversInv(w) && CanAttach(w, r, mark)
    ensures ReceiversInv(AttachStep(w, r, mark))
  {
    var w' := AttachStep(w, r, mark);
    assert w.logs[0][..0] == [] && Flat(w.logs[..0]) == [];
    forall k | k in w'.rcvs ensures ReceiverInv(w', w'.rcvs[k]) {
      if k != r { ReceiverFrame(w, w', w.rcvs[k]); }
    }
  }

  /** Every receiver step keeps the invariant. */
  lemma ReceiverStepInv(w: World, a: Action)
    requires Inv(w) && Enabled(w, a)
    requires a.Attach? || a.Load? || a.Read? || a.Leave? || a.MapNext? || a.Join?
    ensures Inv(Apply(w, a))
  {
    hide Inv;
    match a
    case Attach(r, mark) => AttachInv(w, r, mark);
    case Load(r) => LoadInv(w, r);
    case Read(r) => ReadInv(w, r);
    case Leave(r) => LeaveInv(w, r);
    case MapNext(r) => MapInv(w, r);
    case Join(r) => JoinInv(w, r);
  }
}
