/** The LLMP channel as a state machine over its atomic steps.

    One sender and its receivers share pages. A step is one access of one side to
    memory the other side also touches, together with the private work up to the
    next such access; a run is any interleaving of the steps of all sides
    (sequential consistency). `chain`, `logs`, `committed`, `pos`, `count` and
    `delivered` record history and steer nothing. */
module LlmpProtocol {
  import opened Base
  import opened LlmpLayout
  import opened LlmpPage

  const MAX_PENDING_UNREAD_PAGES: nat := 3

  // ------------------------------------------------------------------- state

  datatype StopReason = SlowReceiver | Overflow | Misuse | BrokenPage

  /** Where the sender is inside alloc_next(len). */
  datatype SenderPc =
    | Ready
    | Scan(n: nat, len: nat)                  // prune_old_pages: n pages found joined
    | Move(k: nat, len: nat)                  // prune_old_pages: k pages still to retire
    | Probe(e: nat, len: nat)                 // new_or_unused_shmem: about to look at cache entry e
    | ProbeLeft(e: nat, joined: nat, len: nat) // ... its joined count is read
    | Linked(newId: nat, len: nat)            // handle_out_eop: the next page is initialised
    | EopReady(newId: nat, off: nat, len: nat) // ... the EOP is written, not committed
    | Retry(len: nat)                         // ... done; allocate on the new page
    | Stopped(why: StopReason)

  datatype Sender = Sender(id: nat, lastMsg: Option<nat>, out: seq<nat>, cache: seq<nat>,
                           keep: bool, pending: Option<nat>, pc: SenderPc)

  datatype HaltReason = ShuttingDown | ExitWithPayload | Corrupt

  /** Where the receiver is inside recv. */
  datatype ReceiverPc =
    | Idle
    | Reading(off: nat)       // a message is known to be at off
    | Copied(info: Body)      // the EOP's page info is copied
    | Departed(info: Body)    // the old page is marked left
    | Mapped                  // the new page is mapped, not yet marked joined
    | Halted(why: HaltReason)

  datatype Receiver = Receiver(page: nat, lastMsg: Option<nat>, highest: nat, pc: ReceiverPc,
                               pos: nat, count: nat, delivered: seq<Msg>)

  datatype World = World(pages: map<nat, Page>, snd: Sender, rcvs: map<nat, Receiver>,
                         chain: seq<nat>, logs: seq<seq<Msg>>, committed: seq<Msg>)

  /** LlmpSender::new, with no receiver attached yet. */
  predicate Init(w: World) {
    && |w.chain| == 1 && w.rcvs == map[] && w.logs == [[]] && w.committed == []
    && w.snd == Sender(w.snd.id, None, w.chain, [], w.snd.keep, None, Ready)
    && var id := w.chain[0];
       && id in w.pages
       && PAGE_HEADER + EOP_MSG_SIZE <= w.pages[id].mapLen
       && w.pages[id] == PageInit(FreshMap(w.pages[id].mapLen), w.snd.id)
  }

  // ------------------------------------------------------------------ actions

  datatype Action =
    | Alloc(len: nat)
    | Write(tag: nat, flags: nat, body: Body)
    | Forward(src: Msg)
    | ShrinkTo(newLen: nat)
    | Send(overwriteSender: bool)
    | ScanPage
    | MovePage
    | ProbeCache(answer: Option<(nat, nat)>)   // what the provider answers when asked: an id and a size
    | ProbeCacheLeft
    | WriteEop
    | SendEop
    | AllocAgain
    | Attach(r: nat, mark: bool)
    | Load(r: nat)
    | Read(r: nat)
    | Leave(r: nat)
    | MapNext(r: nat)
    | Join(r: nat)

  function Current(w: World): (id: nat)
    requires w.snd.out != []
  {
    w.snd.out[|w.snd.out| - 1]
  }

  predicate Enabled(w: World, a: Action) {
    match a
    case Alloc(_) => CanAlloc(w)
    case Write(tag, _, body) => CanWrite(w, tag, body)
    case Forward(src) => CanForward(w, src)
    case ShrinkTo(_) => HasPending(w)
    case Send(_) => HasPending(w)
    case ScanPage => CanScan(w)
    case MovePage => CanMove(w)
    case ProbeCache(answer) => CanProbe(w, answer)
    case ProbeCacheLeft => CanProbeLeft(w)
    case WriteEop => CanWriteEop(w)
    case SendEop => CanSendEop(w)
    case AllocAgain => CanRetry(w)
    case Attach(r, mark) => CanAttach(w, r, mark)
    case Load(r) => CanLoad(w, r)
    case Read(r) => CanRead(w, r)
    case Leave(r) => CanLeave(w, r)
    case MapNext(r) => CanMap(w, r)
    case Join(r) => CanJoin(w, r)
  }

  function Apply(w: World, a: Action): (w': World)
    requires Enabled(w, a)
  {
    match a
    case Alloc(len) => AllocStep(w, len)
    case Write(tag, flags, body) => WriteStep(w, tag, flags, body)
    case Forward(src) => ForwardStep(w, src)
    case ShrinkTo(newLen) => ShrinkStep(w, newLen)
    case Send(over) => SendStep(w, over)
    case ScanPage => ScanStep(w)
    case MovePage => MoveStep(w)
    case ProbeCache(answer) => ProbeStep(w, answer)
    case ProbeCacheLeft => ProbeLeftStep(w)
    case WriteEop => WriteEopStep(w)
    case SendEop => SendEopStep(w)
    case AllocAgain => RetryStep(w)
    case Attach(r, mark) => AttachStep(w, r, mark)
    case Load(r) => WithReceiver(w, r, LoadStep(w.rcvs[r], w.pages[w.rcvs[r].page]))
    case Read(r) => WithReceiver(w, r, ReadStep(w.rcvs[r], w.pages[w.rcvs[r].page]))
    case Leave(r) => LeaveStep(w, r)
    case MapNext(r) => WithReceiver(w, r, MapStep(w.rcvs[r], w.pages))
    case Join(r) => JoinStep(w, r)
  }

  // ------------------------------------------------------ when a step can happen

  predicate CanStep(w: World) { w.snd.out != [] && Current(w) in w.pages }

  predicate CanAlloc(w: World) { CanStep(w) && w.snd.pc.Ready? }

  predicate HasPending(w: World) { CanAlloc(w) && w.snd.pending.Some? }

  /** The caller fills the buffer it was given; EOP tags are for handle_out_eop alone. */
  predicate CanWrite(w: World, tag: nat, body: Body) {
    && HasPending(w) && tag != TAG_END_OF_PAGE
    && BodyFits(body, MsgAt(w.pages[Current(w)], w.snd.pending.value).bufLen)
  }

  predicate BodyFits(body: Body, bufLen: nat) {
    match body
    case Bytes(data) => |data| == bufLen
    case MapInfo(_, _) => MAP_INFO_LEN <= bufLen
  }

  /** forward_msg: the buffer was allocated with the padded length of the source. */
  predicate CanForward(w: World, src: Msg) {
    && HasPending(w) && !IsEop(src)
    && src.bufLen <= src.bufLenPadded == MsgAt(w.pages[Current(w)], w.snd.pending.value).bufLen
  }

  predicate CanScan(w: World) {
    CanStep(w) && w.snd.pc.Scan? && (w.snd.pc.n < |w.snd.out| - 1 ==> w.snd.out[w.snd.pc.n] in w.pages)
  }

  predicate CanMove(w: World) { CanStep(w) && w.snd.pc.Move? && w.snd.out[0] in w.pages }

  /** A provider hands out an unused id and at least the bytes asked for, or fails. */
  predicate CanProbe(w: World, answer: Option<(nat, nat)>) {
    && CanStep(w) && w.snd.pc.Probe?
    && (w.snd.pc.e < |w.snd.cache| ==> w.snd.cache[w.snd.pc.e] in w.pages)
    && (answer.Some? ==> answer.value.0 !in w.pages)
    && (answer.Some? ==> NextShmemSize(w.pages[Current(w)].maxAlloc) <= answer.value.1)
  }

  predicate CanProbeLeft(w: World) {
    CanStep(w) && w.snd.pc.ProbeLeft? && w.snd.pc.e < |w.snd.cache| && w.snd.cache[w.snd.pc.e] in w.pages
  }

  predicate CanWriteEop(w: World) { CanStep(w) && w.snd.pc.Linked? && w.snd.pc.newId in w.pages }

  predicate CanSendEop(w: World) { CanStep(w) && w.snd.pc.EopReady? && w.logs != [] }

  predicate CanRetry(w: World) { CanStep(w) && w.snd.pc.Retry? }

  /** Without keep_pages_forever a chain has one receiver, filed as 0, and it marks the first page. */
  predicate CanAttach(w: World, r: nat, mark: bool) {
    w.chain != [] && r !in w.rcvs && (w.snd.keep || (r == 0 && mark))
  }

  predicate CanLoad(w: World, r: nat) { r in w.rcvs && w.rcvs[r].pc.Idle? && w.rcvs[r].page in w.pages }

  predicate CanRead(w: World, r: nat) { r in w.rcvs && w.rcvs[r].pc.Reading? && w.rcvs[r].page in w.pages }

  predicate CanLeave(w: World, r: nat) { r in w.rcvs && w.rcvs[r].pc.Copied? && w.rcvs[r].page in w.pages }

  predicate CanMap(w: World, r: nat) { r in w.rcvs && w.rcvs[r].pc.Departed? }

  predicate CanJoin(w: World, r: nat) { r in w.rcvs && w.rcvs[r].pc.Mapped? && w.rcvs[r].page in w.pages }

  function WithCurrent(w: World, q: Page, snd: Sender): (w': World)
    requires w.snd.out != []
  {
    w.(pages := w.pages[Current(w) := q], snd := snd)
  }

  function WithReceiver(w: World, r: nat, v: Receiver): (w': World) {
    w.(rcvs := w.rcvs[r := v])
  }

  function Stop(w: World, why: StopReason): (w': World) {
    w.(snd := w.snd.(pc := Stopped(why)))
  }

  // ------------------------------------------------------------- sender steps

  /** The id the page's counters promise for the next message, or a broken page. */
  predicate LastCommitted(p: Page, lastMsg: Option<nat>) {
    lastMsg.None? || p.currentMsgId == MsgAt(p, lastMsg.value).id
  }

  predicate AllocOverflows(p: Page, len: nat) {
    USIZE_LIMIT <= PAGE_HEADER + p.sizeUsed + len + MSG_HEADER + ALIGNMENT
  }

  /** The length of a message fits the address arithmetic of a page that is still empty. */
  predicate LenFits(len: nat) { PAGE_HEADER + len + MSG_HEADER + ALIGNMENT < USIZE_LIMIT }

  /** alloc_next, up to the point where it has the message or must switch pages. */
  function AllocStep(w: World, len: nat): (w': World)
    requires CanStep(w)
  {
    var p := w.pages[Current(w)];
    if w.snd.pending.Some? then Stop(w, Misuse)
    else if AllocOverflows(p, len) then Stop(w, Overflow)
    else
      var p1 := NoteAlloc(p, len);
      if !HasRoom(p.sizeUsed, p.sizeTotal, len) then
        WithCurrent(w, p1, w.snd.(pc := if w.snd.keep then Probe(0, len) else Scan(0, len)))
      else if !LastCommitted(p, w.snd.lastMsg) then Stop(w, BrokenPage)
      else WithCurrent(w, Reserve(p1, w.snd.lastMsg, len), w.snd.(pending := Some(p.sizeUsed)))
  }

  function WriteStep(w: World, tag: nat, flags: nat, body: Body): (w': World)
    requires HasPending(w)
  {
    WithCurrent(w, Fill(w.pages[Current(w)], w.snd.pending.value, tag, flags, body), w.snd)
  }

  function ForwardStep(w: World, src: Msg): (w': World)
    requires HasPending(w)
  {
    WithCurrent(w, CopyOver(w.pages[Current(w)], w.snd.pending.value, src), w.snd)
  }

  function ShrinkStep(w: World, newLen: nat): (w': World)
    requires HasPending(w)
  {
    var q := Shrink(w.pages[Current(w)], w.snd.pending.value, newLen);
    if q.Some? then WithCurrent(w, q.value, w.snd) else w
  }

  /** send */
  function SendStep(w: World, over: bool): (w': World)
    requires HasPending(w)
  {
    var p := w.pages[Current(w)];
    var off := w.snd.pending.value;
    if MsgAt(p, off).tag == TAG_UNSET then Stop(w, Misuse)
    else if w.snd.lastMsg == Some(off) || !MsgInPage(p, off) || w.logs == [] then Stop(w, BrokenPage)
    else
      var m := Stamped(p, off, if over then Some(w.snd.id) else None);
      WithCurrent(w, Commit(p, off, if over then Some(w.snd.id) else None),
                  w.snd.(lastMsg := Some(off), pending := None))
        .(logs := Append(w.logs, m), committed := w.committed + [m])
  }

  function Append(logs: seq<seq<Msg>>, m: Msg): (logs': seq<seq<Msg>>)
    requires logs != []
  {
    logs[|logs| - 1 := logs[|logs| - 1] + [m]]
  }

  /** prune_old_pages looks at one more page, or has seen enough. */
  function ScanStep(w: World): (w': World)
    requires CanScan(w)
  {
    var Scan(n, len) := w.snd.pc;
    if n < |w.snd.out| - 1 && w.pages[w.snd.out[n]].joined != 0 then
      w.(snd := w.snd.(pc := Scan(n + 1, len)))
    else if n == 0 && |w.snd.out| > MAX_PENDING_UNREAD_PAGES then Stop(w, SlowReceiver)
    else w.(snd := w.snd.(pc := Move(n, len)))
  }

  /** prune_old_pages retires one page into the cache. */
  function MoveStep(w: World): (w': World)
    requires CanMove(w)
  {
    var Move(k, len) := w.snd.pc;
    var id := w.snd.out[0];
    if k == 0 then w.(snd := w.snd.(pc := Probe(0, len)))
    else if w.pages[id].magic != Initialized then Stop(w, BrokenPage)
    else w.(pages := w.pages[id := w.pages[id].(magic := Deinitialized)],
            snd := w.snd.(out := w.snd.out[1..], cache := w.snd.cache + [id], pc := Move(k - 1, len)))
  }

  /** Hand the initialised page `q` to handle_out_eop. */
  function LinkStep(w: World, id: nat, q: Page, cache: seq<nat>, len: nat): (w': World)
    requires CanStep(w)
  {
    w.(pages := w.pages[id := q.(currentMsgId := 0, maxAlloc := w.pages[Current(w)].maxAlloc)],
       snd := w.snd.(cache := cache, pc := Linked(id, len)))
  }

  /** new_or_unused_shmem: read a cached page's joined count, or ask the provider. */
  function ProbeStep(w: World, answer: Option<(nat, nat)>): (w': World)
    requires CanProbe(w, answer)
  {
    var Probe(e, len) := w.snd.pc;
    var size := NextShmemSize(w.pages[Current(w)].maxAlloc);
    if USIZE_LIMIT <= size then Stop(w, Overflow)
    else if e < |w.snd.cache| then
      var joined := w.pages[w.snd.cache[e]].joined;
      if joined == 0 then Stop(w, BrokenPage)           // debug_assert_ne
      else w.(snd := w.snd.(pc := ProbeLeft(e, joined, len)))
    else match answer
      case None => w.(snd := w.snd.(pc := Ready))       // the provider failed; alloc_next returns its error
      case Some(f) =>
        LinkStep(w, f.0, PageInit(FreshMap(f.1), w.pages[Current(w)].senderId), w.snd.cache, len)
  }

  /** new_or_unused_shmem: reuse, drop or skip the cached page. */
  function ProbeLeftStep(w: World): (w': World)
    requires CanProbeLeft(w)
  {
    var ProbeLeft(e, joined, len) := w.snd.pc;
    var id := w.snd.cache[e];
    var p := w.pages[id];
    var cache := w.snd.cache[..e] + w.snd.cache[e + 1..];
    if joined < p.left || p.joined != joined then Stop(w, BrokenPage)      // debug_assert, debug_assert_eq
    else if p.left != joined then w.(snd := w.snd.(pc := Probe(e + 1, len)))
    else if p.mapLen < NextShmemSize(w.pages[Current(w)].maxAlloc) then
      w.(pages := w.pages - {id}, snd := w.snd.(cache := cache, pc := Probe(0, len)))
    else if p.magic == Initialized then Stop(w, BrokenPage)
    else LinkStep(w, id, PageInit(p, w.pages[Current(w)].senderId), cache, len)
  }

  /** handle_out_eop: write the EOP that names the new page. */
  function WriteEopStep(w: World): (w': World)
    requires CanWriteEop(w)
  {
    var Linked(newId, len) := w.snd.pc;
    var p := w.pages[Current(w)];
    var place := EopPlace(p, w.snd.lastMsg);
    if p.sizeTotal < p.sizeUsed + EOP_MSG_SIZE || place.None? then Stop(w, BrokenPage)
    else if MsgAt(p, place.value).tag == TAG_UNINITIALIZED then Stop(w, BrokenPage)
    else WithCurrent(w, ReserveEop(p, w.snd.lastMsg, place.value, w.pages[newId].mapLen, newId),
                     w.snd.(pc := EopReady(newId, place.value, len)))
  }

  /** handle_out_eop: commit the EOP and make the new page current. */
  function SendEopStep(w: World): (w': World)
    requires CanSendEop(w)
  {
    var EopReady(newId, off, len) := w.snd.pc;
    var p := w.pages[Current(w)];
    if w.snd.lastMsg == Some(off) || !MsgInPage(p, off) || MsgAt(p, off).tag == TAG_UNSET then Stop(w, BrokenPage)
    else
      WithCurrent(w, Commit(p, off, Some(w.snd.id)),
                  w.snd.(lastMsg := None, out := w.snd.out + [newId], pending := None, pc := Retry(len)))
        .(logs := Append(w.logs, Stamped(p, off, Some(w.snd.id))) + [[]], chain := w.chain + [newId])
  }

  /** alloc_next: the allocation on the new page. In a run it always succeeds (LlmpSafety.SecondAllocSucceeds);
      the other branches are where alloc_next would panic or fail a second time. */
  function RetryStep(w: World): (w': World)
    requires CanRetry(w)
  {
    var len := w.snd.pc.len;
    var p := w.pages[Current(w)];
    if w.snd.pending.Some? || !HasRoom(p.sizeUsed, p.sizeTotal, len) || !LastCommitted(p, w.snd.lastMsg) then
      Stop(w, BrokenPage)
    else if AllocOverflows(p, len) then Stop(w, Overflow)
    else WithCurrent(w, Reserve(NoteAlloc(p, len), w.snd.lastMsg, len),
                     w.snd.(pending := Some(p.sizeUsed), pc := Ready))
  }

  // ----------------------------------------------------------- receiver steps

  /** The id recv works with: the cached one while it is ahead of the last message. */
  function VisibleId(v: Receiver, p: Page): (id: nat) {
    if v.lastMsg.Some? && v.highest > MsgAt(p, v.lastMsg.value).id then v.highest else p.currentMsgId
  }

  datatype Lookup = NoMessage | Found(off: nat) | OutOfBounds

  /** Where recv finds its next message when `id` is the newest it knows of. */
  function NextMessage(v: Receiver, p: Page, id: nat): (r: Lookup) {
    if id == 0 then NoMessage
    else if v.lastMsg.None? then Found(0)
    else if MsgAt(p, v.lastMsg.value).id == id then NoMessage
    else match NextMsgPtrChecked(p, v.lastMsg.value, MSG_HEADER)
      case None => OutOfBounds
      case Some(off) => Found(off)
  }

  function LoadStep(v: Receiver, p: Page): (v': Receiver) {
    var id := VisibleId(v, p);
    match NextMessage(v, p, id)
    case NoMessage => v.(highest := id)
    case Found(off) => v.(highest := id, pc := Reading(off))
    case OutOfBounds => v.(highest := id, pc := Halted(Corrupt))
  }

  function ReadStep(v: Receiver, p: Page): (v': Receiver)
    requires v.pc.Reading?
  {
    var off := v.pc.off;
    var m := MsgAt(p, off);
    if !InShmem(p, off) || m.tag == TAG_UNSET then v.(pc := Halted(Corrupt))
    else if m.tag == TAG_EXITING then v.(pc := Halted(if m.bufLen == 0 then ShuttingDown else ExitWithPayload))
    else if IsEop(m) then
      if m.bufLen < MAP_INFO_LEN || !m.body.MapInfo? then v.(pc := Halted(Corrupt))
      else v.(lastMsg := None, highest := 0, pc := Copied(m.body))
    else v.(lastMsg := Some(off), pc := Idle, count := v.count + 1, delivered := v.delivered + [m])
  }

  function AttachStep(w: World, r: nat, mark: bool): (w': World)
    requires w.chain != []
  {
    WithReceiver(w, r, Receiver(w.chain[0], None, 0, if mark then Mapped else Idle, 0, 0, []))
  }

  /** Mark the old page safe to reuse. */
  function LeaveStep(w: World, r: nat): (w': World)
    requires CanLeave(w, r)
  {
    var v := w.rcvs[r];
    WithReceiver(w, r, v.(pc := Departed(v.pc.info)))
      .(pages := w.pages[v.page := w.pages[v.page].(left := 1)])
  }

  /** Mark the new page safe to retire. */
  function JoinStep(w: World, r: nat): (w': World)
    requires CanJoin(w, r)
  {
    var v := w.rcvs[r];
    WithReceiver(w, r, v.(pc := Idle)).(pages := w.pages[v.page := w.pages[v.page].(joined := 1)])
  }

  /** Map the page the EOP names; an uninitialised page trips the assertion in LlmpSharedMap::existing. */
  function MapStep(v: Receiver, pages: map<nat, Page>): (v': Receiver)
    requires v.pc.Departed?
  {
    match v.pc.info
    case Bytes(_) => v.(pc := Halted(Corrupt))
    case MapInfo(size, id) =>
      if id in pages && pages[id].mapLen == size && pages[id].magic == Initialized
      then v.(page := id, pc := Mapped, pos := v.pos + 1, count := 0)
      else v.(pc := Halted(Corrupt))
  }

  // --------------------------------------------------------------------- runs

  predicate ValidRun(w: World, run: seq<Action>)
    decreases |run|
  {
    run == [] || (Enabled(w, run[0]) && ValidRun(Apply(w, run[0]), run[1..]))
  }

  function After(w: World, run: seq<Action>): (w': World)
    requires ValidRun(w, run)
    decreases |run|
  {
    if run == [] then w else After(Apply(w, run[0]), run[1..])
  }
}
