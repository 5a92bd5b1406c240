/** What every run of the LLMP channel keeps. */
module LlmpInvariant {
  import opened Base
  import opened LlmpLayout
  import opened LlmpPage
  import opened LlmpProtocol

  // ------------------------------------------------------- committed messages

  /** The messages of a page a user sees: all but a closing EOP. */
  function Data(log: seq<Msg>): (d: seq<Msg>) {
    if log != [] && IsEop(log[|log| - 1]) then log[..|log| - 1] else log
  }

  function Flat(logs: seq<seq<Msg>>): (d: seq<Msg>) {
    if logs == [] then [] else Flat(logs[..|logs| - 1]) + Data(logs[|logs| - 1])
  }

  ghost predicate ClosedLog(log: seq<Msg>) {
    log != [] && IsEop(log[|log| - 1]) && DataOnly(log[..|log| - 1])
  }

  lemma {:induction false} FlatPrefix(logs: seq<seq<Msg>>, n: nat)
    requires n <= |logs|
    ensures Flat(logs[..n]) <= Flat(logs)
  {
    if n == |logs| {
      assert logs[..n] == logs;
    } else {
      assert logs[..|logs| - 1][..n] == logs[..n];
      FlatPrefix(logs[..|logs| - 1], n);
    }
  }

  // --------------------------------------------------------------- invariants

  /** The first page of the chain whose content still matters to this receiver. */
  function LowOf(v: Receiver): (i: nat) { if v.pc.Departed? then v.pos + 1 else v.pos }

  /** How many pages of the chain this receiver has marked joined. */
  function JoinedOf(v: Receiver): (i: nat) { if v.pc.Mapped? then v.pos else v.pos + 1 }

  function Low(w: World): (i: nat) {
    if w.snd.keep || 0 !in w.rcvs then 0 else LowOf(w.rcvs[0])
  }

  function JoinedTo(w: World): (i: nat) {
    if 0 !in w.rcvs then 0 else JoinedOf(w.rcvs[0])
  }

  function Held(w: World): (ids: seq<nat>) { w.snd.cache + w.snd.out }

  /** The chain ends in `out`. */
  ghost predicate IsTail(out: seq<nat>, chain: seq<nat>) {
    |out| <= |chain| && forall i :: 0 <= i < |out| ==> out[i] == chain[|chain| - |out| + i]
  }

  ghost predicate ChainInv(w: World) {
    && |w.chain| == |w.logs| && 1 <= |w.snd.out| <= |w.chain|
    && IsTail(w.snd.out, w.chain)
    && (forall i :: 0 <= i < |w.logs| - 1 ==> ClosedLog(w.logs[i]))
    && DataOnly(w.logs[|w.logs| - 1])
    && w.committed == Flat(w.logs)
  }

  ghost predicate OwnInv(w: World) {
    && NoDup(Held(w))
    && (forall i :: 0 <= i < |w.snd.out| ==> OutOk(w, w.snd.out[i]))
    && (forall i :: 0 <= i < |w.snd.cache| ==> CachedOk(w, w.snd.cache[i]))
    && (w.snd.keep ==> w.snd.cache == [] && |w.snd.out| == |w.chain|)
  }

  ghost predicate OutOk(w: World, id: nat) {
    id in w.pages && w.pages[id].left <= 1 && w.pages[id].magic == Initialized
  }

  ghost predicate CachedOk(w: World, id: nat) {
    id in w.pages && w.pages[id].joined == 1 && w.pages[id].left <= 1 && w.pages[id].magic == Deinitialized
  }

  /** Page `i` of the chain is in memory, holds log `i`, and its EOP names page `i + 1`. */
  ghost predicate Live(w: World, i: nat)
    requires i < |w.chain| == |w.logs|
  {
    && w.chain[i] in w.pages && w.chain[i] in Held(w)
    && Laid(w.pages[w.chain[i]], w.logs[i])
    && (i + 1 < |w.chain| ==>
          && w.chain[i + 1] in w.pages && w.logs[i] != []
          && w.logs[i][|w.logs[i]| - 1].body == MapInfo(w.pages[w.chain[i + 1]].mapLen, w.chain[i + 1]))
    && (!w.snd.keep ==>
          && w.pages[w.chain[i]].left == 0
          && w.pages[w.chain[i]].joined == if i < JoinedTo(w) then 1 else 0)
  }

  ghost predicate LiveInv(w: World)
    requires |w.chain| == |w.logs|
  {
    && Low(w) < |w.chain|
    && (forall i :: Low(w) <= i < |w.chain| ==> Live(w, i))
    && (forall i, j :: Low(w) <= i < j < |w.chain| ==> w.chain[i] != w.chain[j])
  }

  /** Pages the receiver is done with but the sender has not retired are marked joined. */
  ghost predicate DeadInv(w: World) {
    !w.snd.keep ==>
      forall i :: |w.chain| - |w.snd.out| <= i < Low(w) && 0 <= i < |w.chain| ==>
        w.chain[i] in w.pages && w.pages[w.chain[i]].joined == 1
  }

  /** The page size the sender asks for next covers a message of `len` bytes. */
  ghost predicate Noted(p: Page, len: nat) {
    && MSG_HEADER + PaddedLen(p.sizeUsed, len) <= p.maxAlloc
    && (p.sizeUsed == 0 || (PAGE_HEADER + p.sizeUsed) % ALIGNMENT == 0)
  }

  /** `newId` is an empty initialised page nobody else knows, large enough to go on with. */
  ghost predicate NextPage(w: World, newId: nat)
    requires w.snd.out != [] && Current(w) in w.pages
  {
    && newId in w.pages && newId !in Held(w)
    && (forall i :: Low(w) <= i < |w.chain| ==> w.chain[i] != newId)
    && var q := w.pages[newId];
       && Writable(q, [], None, None)
       && q.magic == Initialized && q.joined == 0 && q.left == 0
       && NextShmemSize(w.pages[Current(w)].maxAlloc) <= q.mapLen
  }

  ghost predicate SenderInv(w: World)
    requires ChainInv(w) && OwnInv(w)
  {
    var p, log, pc := w.pages[Current(w)], w.logs[|w.logs| - 1], w.snd.pc;
    && (!pc.EopReady? && !pc.Stopped? ==> Writable(p, log, w.snd.lastMsg, w.snd.pending))
    && (!pc.Ready? && !pc.Stopped? ==> w.snd.pending == None)
    && (pc.Scan? || pc.Move? || pc.Probe? || pc.ProbeLeft? || pc.Linked? ==> Noted(p, pc.len))
    && (!pc.Ready? && !pc.Stopped? ==> LenFits(pc.len))
    && (pc.Scan? ==> PruneInv(w, pc.n))
    && (pc.Move? ==> PruneInv(w, pc.k))
    && (pc.Probe? ==> pc.e <= |w.snd.cache|)
    && (pc.ProbeLeft? ==> pc.e < |w.snd.cache| && pc.joined == 1)
    && (pc.Linked? || pc.EopReady? ==> NextPage(w, pc.newId))
    && (pc.EopReady? ==> EopInv(w, p, log, pc))
    && (pc.Retry? ==> log == [] && HasRoom(0, p.sizeTotal, pc.len))
    && (pc.Stopped? ==> pc.why != BrokenPage)
  }

  /** The first `n` of the sender's pages, not the current one, have been joined. */
  ghost predicate PruneInv(w: World, n: nat)
    requires OwnInv(w)
  {
    && !w.snd.keep && n <= |w.snd.out| - 1
    && forall i :: 0 <= i < n ==> w.pages[w.snd.out[i]].joined != 0
  }

  ghost predicate EopInv(w: World, p: Page, log: seq<Msg>, pc: SenderPc)
    requires pc.EopReady? && pc.newId in w.pages
  {
    && HasRoom(0, w.pages[pc.newId].sizeTotal, pc.len)
    && EopWritten(p, log, pc.off, w.pages[pc.newId].mapLen, pc.newId)
    && w.snd.lastMsg == LastOffset(log)
  }

  ghost predicate ReceiverInv(w: World, v: Receiver)
    requires |w.chain| == |w.logs|
  {
    && v.pos < |w.chain| && v.page == w.chain[v.pos]
    && v.count <= |w.logs[v.pos]|
    && DataOnly(w.logs[v.pos][..v.count])
    && v.delivered == Flat(w.logs[..v.pos]) + w.logs[v.pos][..v.count]
    && (!v.pc.Departed? ==> Low(w) <= v.pos)
    && (v.pc.Copied? ==> AtEop(w, v, v.pc.info))
    && (v.pc.Departed? ==> AtEop(w, v, v.pc.info))
    && (v.pc.Mapped? ==> v.count == 0 && v.lastMsg == None && v.highest == 0)
    && (v.pc.Halted? ==> v.pc.why != Corrupt)
    && (v.pc.Idle? || v.pc.Reading? ==> Walking(w, v))
    && (v.pc.Reading? ==> v.count < v.highest && v.pc.off == End(w.logs[v.pos][..v.count]))
  }

  /** The receiver has consumed exactly `count` messages of its page. */
  ghost predicate Walking(w: World, v: Receiver)
    requires |w.chain| == |w.logs| && v.pos < |w.chain| && v.count <= |w.logs[v.pos]|
  {
    && v.lastMsg == LastOffset(w.logs[v.pos][..v.count])
    && v.highest <= |w.logs[v.pos]|
    && (v.count > 0 ==> v.count <= v.highest)
  }

  ghost predicate AtEop(w: World, v: Receiver, info: Body)
    requires |w.chain| == |w.logs| && v.pos < |w.chain|
  {
    && v.pos + 1 < |w.chain| && v.count == |w.logs[v.pos]| - 1
    && v.lastMsg == None && v.highest == 0
    && w.chain[v.pos + 1] in w.pages
    && info == MapInfo(w.pages[w.chain[v.pos + 1]].mapLen, w.chain[v.pos + 1])
  }

  ghost predicate ReceiversInv(w: World)
    requires |w.chain| == |w.logs|
  {
    && (forall r :: r in w.rcvs ==> ReceiverInv(w, w.rcvs[r]))
    && (!w.snd.keep ==> w.rcvs.Keys <= {0})
  }

  ghost predicate Inv(w: World) {
    && ChainInv(w) && OwnInv(w) && LiveInv(w) && DeadInv(w) && SenderInv(w) && ReceiversInv(w)
  }

  lemma InitInv(w: World)
    requires Init(w)
    ensures Inv(w)
  {
    assert Flat(w.logs) == [];
    PageInitWritable(FreshMap(w.pages[w.chain[0]].mapLen), w.snd.id);
    assert Live(w, 0);
  }

  // ------------------------------------------------------------------- frames

  /** All of the invariant that does not look at the sender's own progress. */
  ghost predicate SharedInv(w: World) {
    ChainInv(w) && OwnInv(w) && LiveInv(w) && DeadInv(w) && ReceiversInv(w)
  }

  /** Two worlds that differ, on the pages, only in what live pages may change. */
  lemma LiveFrame(w: World, w': World, i: nat)
    requires i < |w.chain| == |w.logs| && Live(w, i)
    requires w'.chain == w.chain && w'.snd.keep == w.snd.keep && JoinedTo(w') == JoinedTo(w)
    requires |w'.logs| == |w.logs| && (i + 1 < |w.chain| ==> w'.logs[i] == w.logs[i])
    requires w.chain[i] in Held(w')
    requires forall k :: i <= k <= i + 1 && k < |w.chain| && w.chain[k] in w.pages ==>
               w.chain[k] in w'.pages && w'.pages[w.chain[k]].mapLen == w.pages[w.chain[k]].mapLen
    requires var p, q := w.pages[w.chain[i]], w'.pages[w.chain[i]];
             q.joined == p.joined && q.left == p.left && Laid(q, w'.logs[i])
    ensures Live(w', i)
  {
  }

  /** A receiver does not notice changes outside its log and the size of the page it goes to. */
  lemma ReceiverFrame(w: World, w': World, v: Receiver)
    requires |w.chain| == |w.logs| && ReceiverInv(w, v)
    requires w'.chain == w.chain && w'.logs == w.logs && Low(w') == Low(w)
    requires v.pos + 1 < |w.chain| && w.chain[v.pos + 1] in w.pages ==>
               w.chain[v.pos + 1] in w'.pages
               && w'.pages[w.chain[v.pos + 1]].mapLen == w.pages[w.chain[v.pos + 1]].mapLen
    ensures ReceiverInv(w', v)
  {
  }

  ghost predicate PrivateWrite(w: World, q: Page, snd: Sender)
    requires ChainInv(w) && OwnInv(w)
  {
    var p := w.pages[Current(w)];
    && q.magic == p.magic && q.joined == p.joined && q.left == p.left && q.mapLen == p.mapLen
    && Laid(q, w.logs[|w.logs| - 1])
    && snd.out == w.snd.out && snd.cache == w.snd.cache && snd.keep == w.snd.keep
  }

  lemma CurrentFrameLive(w: World, q: Page, snd: Sender)
    requires ChainInv(w) && OwnInv(w) && LiveInv(w) && PrivateWrite(w, q, snd)
    ensures LiveInv(WithCurrent(w, q, snd))
  {
    hide Laid;
    hide Flat;
    var w' := WithCurrent(w, q, snd);
    var last := |w.chain| - 1;
    assert w.chain[last] == Current(w);
    forall i | Low(w) <= i < |w.chain| ensures Live(w', i) {
      assert Live(w, i);
      if i < last { assert w.chain[i] != w.chain[last]; }
      LiveFrame(w, w', i);
    }
  }

  lemma CurrentFrameReceivers(w: World, q: Page, snd: Sender)
    requires ChainInv(w) && OwnInv(w) && ReceiversInv(w) && PrivateWrite(w, q, snd)
    ensures ReceiversInv(WithCurrent(w, q, snd))
  {
    hide Laid;
    hide Flat;
    var w' := WithCurrent(w, q, snd);
    forall r | r in w'.rcvs ensures ReceiverInv(w', w'.rcvs[r]) {
      ReceiverFrame(w, w', w.rcvs[r]);
    }
  }

  /** Writes to the current page behind its committed messages are invisible to everyone else. */
  lemma CurrentFrame(w: World, q: Page, snd: Sender)
    requires SharedInv(w) && PrivateWrite(w, q, snd)
    ensures SharedInv(WithCurrent(w, q, snd))
  {
    hide Laid;
    hide Flat;
    hide LiveInv;
    hide ReceiversInv;
    CurrentFrameLive(w, q, snd);
    CurrentFrameReceivers(w, q, snd);
  }

  lemma SenderFrameLive(w: World, snd: Sender)
    requires |w.chain| == |w.logs| && LiveInv(w)
    requires snd.out == w.snd.out && snd.cache == w.snd.cache && snd.keep == w.snd.keep
    ensures LiveInv(w.(snd := snd))
  {
    hide Laid;
    forall i | Low(w) <= i < |w.chain| ensures Live(w.(snd := snd), i) { assert Live(w, i); }
  }

  lemma SenderFrameReceivers(w: World, snd: Sender)
    requires |w.chain| == |w.logs| && ReceiversInv(w)
    requires snd.keep == w.snd.keep
    ensures ReceiversInv(w.(snd := snd))
  {
    hide Flat;
    var w' := w.(snd := snd);
    forall r | r in w'.rcvs ensures ReceiverInv(w', w'.rcvs[r]) { ReceiverFrame(w, w', w.rcvs[r]); }
  }

  /** The sender's program counter and private pointers matter to nobody else. */
  lemma SenderFrame(w: World, snd: Sender)
    requires SharedInv(w)
    requires snd.out == w.snd.out && snd.cache == w.snd.cache && snd.keep == w.snd.keep
    ensures SharedInv(w.(snd := snd))
  {
    hide LiveInv;
    hide ReceiversInv;
    hide Flat;
    SenderFrameLive(w, snd);
    SenderFrameReceivers(w, snd);
  }
}
