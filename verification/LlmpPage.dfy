/** One shared page: its header, the messages on it, and what sender and receiver do to it.

    Pointers into a page are offsets from its first message. Memory is kept per
    message start, and `Laid` shows that the messages it names do not overlap. */
module LlmpPage {
  import opened Base
  import opened LlmpLayout

  const TAG_UNSET: nat := 0xDEADAF
  const TAG_UNINITIALIZED: nat := 0xA143AF11
  const TAG_END_OF_PAGE: nat := 0xAF1E0F1
  const TAG_NEW_SHM_CLIENT: nat := 0xC11E471
  const TAG_EXITING: nat := 0x13C5171

  datatype Body = Bytes(data: seq<bv8>) | MapInfo(mapSize: nat, shmId: nat)

  datatype Msg = Msg(tag: nat, sender: nat, broker: nat, flags: nat, id: nat,
                     bufLen: nat, bufLenPadded: nat, body: Body)

  datatype Magic = Unknown | Initialized | Deinitialized

  datatype Page = Page(magic: Magic, senderId: nat, joined: nat, left: nat, currentMsgId: nat,
                       sizeTotal: nat, sizeUsed: nat, maxAlloc: nat, mapLen: nat,
                       slots: map<nat, Msg>)

  const BLANK_MSG := Msg(0, 0, 0, 0, 0, 0, 0, Bytes([]))

  /** Zeroed memory, as a provider hands it out. */
  function FreshMap(mapLen: nat): (p: Page) {
    Page(Unknown, 0, 0, 0, 0, 0, 0, 0, mapLen, map[])
  }

  function MsgAt(p: Page, off: nat): (m: Msg) {
    if off in p.slots then p.slots[off] else BLANK_MSG
  }

  function SetMsg(p: Page, off: nat, m: Msg): (p': Page) {
    p.(slots := p.slots[off := m])
  }

  function SetTag(p: Page, off: nat, tag: nat): (p': Page) {
    SetMsg(p, off, MsgAt(p, off).(tag := tag))
  }

  // ---------------------------------------------------------------- operations

  /** llmp_page_init; old messages stay in memory. */
  function PageInit(p: Page, senderId: nat): (p': Page)
    requires p.mapLen > PAGE_HEADER
  {
    SetMsg(p, 0, MsgAt(p, 0).(id := 0, tag := TAG_UNSET))
      .(magic := Initialized, senderId := senderId, currentMsgId := 0, maxAlloc := 0,
        sizeTotal := p.mapLen - PAGE_HEADER, sizeUsed := 0, joined := 0, left := 0)
  }

  function NextMsgPtr(p: Page, off: nat): (next: nat) {
    off + MSG_HEADER + MsgAt(p, off).bufLenPadded
  }

  /** llmp_next_msg_ptr_checked */
  function NextMsgPtrChecked(p: Page, lastMsg: nat, allocSize: nat): (r: Option<nat>) {
    var next := NextMsgPtr(p, lastMsg);
    if PAGE_HEADER + next + allocSize <= p.mapLen then Some(next) else None
  }

  /** LlmpMsg::in_shmem */
  predicate InShmem(p: Page, off: nat) {
    var bufPtr := PAGE_HEADER + off + MSG_HEADER;
    var len := MsgAt(p, off).bufLenPadded + MSG_HEADER;
    bufPtr > PAGE_HEADER && bufPtr + len - PAGE_HEADER <= p.mapLen
  }

  /** llmp_msg_in_page */
  predicate MsgInPage(p: Page, off: nat) {
    PAGE_HEADER + off < p.sizeTotal
  }

  /** The bookkeeping alloc_next_if_space does whether or not there is room. */
  function NoteAlloc(p: Page, bufLen: nat): (p': Page) {
    p.(maxAlloc := Max(p.maxAlloc, MSG_HEADER + PaddedLen(p.sizeUsed, bufLen)))
  }

  /** The rest of alloc_next_if_space when there is room: reserve the next message. */
  function Reserve(p: Page, lastMsg: Option<nat>, bufLen: nat): (p': Page) {
    var off := p.sizeUsed;
    var padded := PaddedLen(off, bufLen);
    var id := if lastMsg.None? then 1 else MsgAt(p, lastMsg.value).id + 1;
    var p1 := SetMsg(p, off, MsgAt(p, off).(id := id, bufLen := bufLen, bufLenPadded := padded))
      .(sizeUsed := off + MSG_HEADER + padded);
    SetTag(SetTag(p1, NextMsgPtr(p1, off), TAG_UNSET), off, TAG_UNINITIALIZED)
  }

  /** shrink_alloced on the reserved message at `off`; None is the illegal_argument error. */
  function Shrink(p: Page, off: nat, newLen: nat): (r: Option<Page>) {
    var m := MsgAt(p, off);
    var padded := PaddedLen(off, newLen);
    if padded > m.bufLenPadded || p.sizeUsed < m.bufLenPadded then None else
    var p1 := SetMsg(p, off, m.(bufLen := newLen, bufLenPadded := padded))
      .(sizeUsed := p.sizeUsed - m.bufLenPadded + padded);
    Some(SetTag(p1, NextMsgPtr(p1, off), TAG_UNSET))
  }

  /** What a caller writes between alloc_next and send. */
  function Fill(p: Page, off: nat, tag: nat, flags: nat, body: Body): (p': Page) {
    SetMsg(p, off, MsgAt(p, off).(tag := tag, flags := flags, body := body))
  }

  /** What forward_msg writes: the whole source message, with the padding of the copy. */
  function CopyOver(p: Page, off: nat, src: Msg): (p': Page) {
    SetMsg(p, off, src.(bufLenPadded := MsgAt(p, off).bufLenPadded))
  }

  /** The message as send leaves it on the page. */
  function Stamped(p: Page, off: nat, overwriteSender: Option<nat>): (m: Msg) {
    var m := MsgAt(p, off);
    m.(id := p.currentMsgId + 1,
       sender := if overwriteSender.Some? then overwriteSender.value else m.sender)
  }

  /** send: number the message and publish it. */
  function Commit(p: Page, off: nat, overwriteSender: Option<nat>): (p': Page) {
    SetMsg(p, off, Stamped(p, off, overwriteSender)).(currentMsgId := p.currentMsgId + 1)
  }

  /** Where alloc_eop places its message. */
  function EopPlace(p: Page, lastMsg: Option<nat>): (r: Option<nat>) {
    if lastMsg.None? then Some(0) else NextMsgPtrChecked(p, lastMsg.value, EOP_MSG_SIZE)
  }

  /** alloc_eop at `off`, and the map description handle_out_eop writes into it. */
  function ReserveEop(p: Page, lastMsg: Option<nat>, off: nat, mapSize: nat, shmId: nat): (p': Page) {
    var id := if lastMsg.None? then 1 else MsgAt(p, lastMsg.value).id + 1;
    SetMsg(p, off, MsgAt(p, off).(bufLen := MAP_INFO_LEN, bufLenPadded := MAP_INFO_LEN, id := id,
                                  tag := TAG_END_OF_PAGE, body := MapInfo(mapSize, shmId)))
      .(sizeUsed := p.sizeUsed + EOP_MSG_SIZE)
  }

  // -------------------------------------------------------------------- layout

  /** Where the message behind all of `log` starts. */
  function End(log: seq<Msg>): (off: nat)
    decreases |log|
  {
    if log == [] then 0
    else End(log[..|log| - 1]) + MSG_HEADER + log[|log| - 1].bufLenPadded
  }

  predicate IsEop(m: Msg) { m.tag == TAG_END_OF_PAGE }

  /** Message `i` of `log` lies where its predecessors end, inside the page, with an aligned end. */
  ghost predicate Placed(p: Page, log: seq<Msg>, i: nat)
    requires i < |log|
  {
    var off := End(log[..i]);
    var m := log[i];
    && off in p.slots && p.slots[off] == m
    && m.id == i + 1 && m.tag != TAG_UNSET
    && if IsEop(m) then
         && i == |log| - 1
         && m.bufLen == MAP_INFO_LEN && m.bufLenPadded == MAP_INFO_LEN && m.body.MapInfo?
         && off + EOP_MSG_SIZE <= p.sizeTotal
       else
         && m.bufLen <= m.bufLenPadded
         && (PAGE_HEADER + off + MSG_HEADER + m.bufLenPadded) % ALIGNMENT == 0
         && off + MSG_HEADER + m.bufLenPadded + EOP_MSG_SIZE <= p.sizeTotal
  }

  /** The page holds exactly the committed messages `log`. */
  ghost predicate Laid(p: Page, log: seq<Msg>) {
    && p.mapLen == p.sizeTotal + PAGE_HEADER
    && EOP_MSG_SIZE <= p.sizeTotal
    && p.currentMsgId == |log|
    && forall i :: 0 <= i < |log| ==> Placed(p, log, i)
  }

  function LastOffset(log: seq<Msg>): (r: Option<nat>) {
    if log == [] then None else Some(End(log[..|log| - 1]))
  }

  ghost predicate DataOnly(log: seq<Msg>) {
    forall i :: 0 <= i < |log| ==> !IsEop(log[i])
  }

  /** The page the sender writes to: `log` is committed, `pending` is reserved and unsent. */
  ghost predicate Writable(p: Page, log: seq<Msg>, lastMsg: Option<nat>, pending: Option<nat>) {
    && Laid(p, log) && DataOnly(log)
    && lastMsg == LastOffset(log)
    && p.sizeUsed + EOP_MSG_SIZE <= p.sizeTotal
    && MsgAt(p, p.sizeUsed).tag == TAG_UNSET
    && match pending
       case None => p.sizeUsed == End(log)
       case Some(off) =>
         var m := MsgAt(p, off);
         && off == End(log) && off in p.slots
         && p.sizeUsed == off + MSG_HEADER + m.bufLenPadded
         && (PAGE_HEADER + p.sizeUsed) % ALIGNMENT == 0
         && m.bufLen <= m.bufLenPadded && !IsEop(m)
  }

  // -------------------------------------------------------------- layout lemmas

  lemma EndSnoc(log: seq<Msg>, m: Msg)
    ensures End(log + [m]) == End(log) + MSG_HEADER + m.bufLenPadded
  {
    assert (log + [m])[..|log|] == log;
  }

  lemma {:induction false} EndStrict(log: seq<Msg>, i: nat, j: nat)
    requires i < j <= |log|
    ensures End(log[..i]) + MSG_HEADER + log[i].bufLenPadded <= End(log[..j])
    decreases j
  {
    assert log[..j][..j - 1] == log[..j - 1];
    if i < j - 1 { EndStrict(log, i, j - 1); }
  }

  /** Messages of a laid page occupy disjoint stretches, in order, all below the EOP reserve. */
  lemma MessagesDisjoint(p: Page, log: seq<Msg>, i: nat, j: nat)
    requires Laid(p, log) && i < j < |log|
    ensures End(log[..i]) + MSG_HEADER + log[i].bufLenPadded <= End(log[..j])
    ensures End(log[..j]) + EOP_MSG_SIZE <= p.sizeTotal
  {
    EndStrict(log, i, j);
    assert Placed(p, log, j);
  }

  lemma LaidShape(p: Page, log: seq<Msg>)
    requires Laid(p, log)
    ensures p.mapLen == p.sizeTotal + PAGE_HEADER && EOP_MSG_SIZE <= p.sizeTotal && p.currentMsgId == |log|
  {
  }

  /** Writing at or behind the end of the committed messages does not disturb them. */
  lemma LaidFrame(p: Page, q: Page, log: seq<Msg>)
    requires Laid(p, log)
    requires q.mapLen == p.mapLen && q.sizeTotal == p.sizeTotal && q.currentMsgId == p.currentMsgId
    requires forall off :: off in p.slots && off < End(log) ==> off in q.slots && q.slots[off] == p.slots[off]
    ensures Laid(q, log)
  {
    forall i | 0 <= i < |log| ensures Placed(q, log, i) {
      assert Placed(p, log, i);
      EndStrict(log, i, |log|);
      assert log[..|log|] == log;
    }
  }

  /** Adding a committed message behind the others keeps the page laid. */
  lemma {:induction false} LaidSnoc(p: Page, q: Page, log: seq<Msg>, m: Msg)
    requires Laid(p, log) && DataOnly(log)
    requires q.mapLen == p.mapLen && q.sizeTotal == p.sizeTotal && q.currentMsgId == |log| + 1
    requires forall off :: off in p.slots && off < End(log) ==> off in q.slots && q.slots[off] == p.slots[off]
    requires Placed(q, log + [m], |log|)
    ensures Laid(q, log + [m])
  {
    forall i | 0 <= i < |log| + 1 ensures Placed(q, log + [m], i) {
      if i < |log| {
        assert Placed(p, log, i);
        EndStrict(log, i, |log|);
        assert log[..|log|] == log;
        assert (log + [m])[..i] == log[..i];
      }
    }
  }

  lemma PageInitWritable(p: Page, senderId: nat)
    requires p.mapLen >= EOP_MSG_SIZE + PAGE_HEADER
    ensures Writable(PageInit(p, senderId), [], None, None)
  {
  }

  lemma LastMsgId(p: Page, log: seq<Msg>)
    requires Laid(p, log) && log != []
    ensures LastOffset(log).value in p.slots
    ensures MsgAt(p, LastOffset(log).value) == log[|log| - 1]
    ensures MsgAt(p, LastOffset(log).value).id == p.currentMsgId
    ensures NextMsgPtr(p, LastOffset(log).value) == End(log)
  {
    assert Placed(p, log, |log| - 1);
  }

  lemma ReserveWritable(p: Page, log: seq<Msg>, lastMsg: Option<nat>, bufLen: nat)
    requires Writable(p, log, lastMsg, None)
    requires HasRoom(p.sizeUsed, p.sizeTotal, bufLen)
    ensures Writable(Reserve(NoteAlloc(p, bufLen), lastMsg, bufLen), log, lastMsg, Some(p.sizeUsed))
    ensures MsgAt(Reserve(NoteAlloc(p, bufLen), lastMsg, bufLen), p.sizeUsed).bufLen == bufLen
  {
    LaidFrame(p, Reserve(NoteAlloc(p, bufLen), lastMsg, bufLen), log);
  }

  lemma FillWritable(p: Page, log: seq<Msg>, lastMsg: Option<nat>, off: nat, m: Msg)
    requires Writable(p, log, lastMsg, Some(off))
    requires m.bufLenPadded == MsgAt(p, off).bufLenPadded && m.bufLen <= m.bufLenPadded && !IsEop(m)
    ensures Writable(SetMsg(p, off, m), log, lastMsg, Some(off))
  {
    LaidFrame(p, SetMsg(p, off, m), log);
  }

  lemma ShrinkWritable(p: Page, log: seq<Msg>, lastMsg: Option<nat>, off: nat, newLen: nat)
    requires Writable(p, log, lastMsg, Some(off))
    requires Shrink(p, off, newLen).Some?
    ensures Writable(Shrink(p, off, newLen).value, log, lastMsg, Some(off))
    ensures MsgAt(Shrink(p, off, newLen).value, off).bufLen == newLen
  {
    LaidFrame(p, Shrink(p, off, newLen).value, log);
  }

  /** Committing the reserved message extends the log by that message. */
  lemma CommitWritable(p: Page, log: seq<Msg>, lastMsg: Option<nat>, off: nat, over: Option<nat>)
    requires Writable(p, log, lastMsg, Some(off)) && MsgAt(p, off).tag != TAG_UNSET
    ensures Writable(Commit(p, off, over), log + [Stamped(p, off, over)], Some(off), None)
    ensures MsgInPage(p, off)
  {
    var m, q := Stamped(p, off, over), Commit(p, off, over);
    EndSnoc(log, m);
    assert (log + [m])[..|log|] == log;
    LaidSnoc(p, q, log, m);
  }

  /** An EOP message naming map `shmId` is written behind `log` and not yet committed. */
  ghost predicate EopWritten(p: Page, log: seq<Msg>, off: nat, mapSize: nat, shmId: nat) {
    && Laid(p, log) && DataOnly(log)
    && off == End(log) && off in p.slots && off + EOP_MSG_SIZE <= p.sizeTotal
    && var m := p.slots[off];
       && IsEop(m) && m.bufLen == MAP_INFO_LEN && m.bufLenPadded == MAP_INFO_LEN
       && m.body == MapInfo(mapSize, shmId)
  }

  /** The EOP always fits behind the committed messages. */
  lemma EopFits(p: Page, log: seq<Msg>, lastMsg: Option<nat>, mapSize: nat, shmId: nat)
    requires Writable(p, log, lastMsg, None)
    ensures EopPlace(p, lastMsg) == Some(p.sizeUsed)
    ensures MsgAt(p, p.sizeUsed).tag != TAG_UNINITIALIZED
    ensures EopWritten(ReserveEop(p, lastMsg, p.sizeUsed, mapSize, shmId), log, p.sizeUsed, mapSize, shmId)
  {
    if log != [] { LastMsgId(p, log); }
    LaidFrame(p, ReserveEop(p, lastMsg, p.sizeUsed, mapSize, shmId), log);
  }

  /** Committing the EOP closes the page. */
  lemma EopCommit(p: Page, log: seq<Msg>, off: nat, mapSize: nat, shmId: nat, sender: nat)
    requires EopWritten(p, log, off, mapSize, shmId)
    ensures MsgInPage(p, off) && MsgAt(p, off).tag != TAG_UNSET
    ensures LastOffset(log) != Some(off)
    ensures Laid(Commit(p, off, Some(sender)), log + [Stamped(p, off, Some(sender))])
    ensures IsEop(Stamped(p, off, Some(sender)))
    ensures Stamped(p, off, Some(sender)).body == MapInfo(mapSize, shmId)
  {
    var m := Stamped(p, off, Some(sender));
    assert (log + [m])[..|log|] == log;
    LaidSnoc(p, Commit(p, off, Some(sender)), log, m);
  }

  /** Every bounds check of the receiver passes on a laid page. */
  lemma ReceiverChecksPass(p: Page, log: seq<Msg>, i: nat)
    requires Laid(p, log) && i < |log|
    ensures End(log[..i]) in p.slots && MsgAt(p, End(log[..i])) == log[i]
    ensures InShmem(p, End(log[..i]))
    ensures i > 0 ==> NextMsgPtrChecked(p, End(log[..i - 1]), MSG_HEADER) == Some(End(log[..i]))
    ensures i > 0 ==> MsgAt(p, End(log[..i - 1])) == log[i - 1]
  {
    assert Placed(p, log, i);
    if i > 0 {
      assert Placed(p, log, i - 1);
      assert log[..i][..i - 1] == log[..i - 1];
    }
  }
}
