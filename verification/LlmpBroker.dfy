/** The broker's client table: ids, lookup, one brokering pass, and lazy removal. */
module LlmpBroker {
  import opened Base
  import opened LlmpPage

  const MAX_CLIENTS: nat := 0x1_0000_0000   // client ids are u32

  /** What recv on a client's page yields, in order, before it reports no message.
      Announced clients come with what they will have sent. */
  datatype Event =
    | Data(m: Msg, forward: bool, extra: seq<Msg>)   // the hooks' verdict and the messages they add
    | ClientExit(client: nat)
    | NewClient(opens: bool, inbox: seq<Event>)
    | Exiting
    | SlowReceiver
    | HookFails                                      // on_new_message_all returns an error

  /** handle_new_msgs gives up on this message with an error. */
  predicate Failing(ev: Event) { ev.SlowReceiver? || ev.HookFails? }

  datatype Client = Client(id: nat, inbox: seq<Event>)

  datatype Status = Done | ShuttingDown | Error | TooManyClients

  // ---------------------------------------------------------- reading one client

  /** The effect of reading a client until recv reports none or fails. */
  datatype Drained = Drained(added: seq<seq<Event>>, exits: seq<nat>, sent: seq<Msg>, rest: seq<Event>, status: Status)

  /** The effect of one message that does not end the reading. */
  datatype Effect = Effect(added: seq<seq<Event>>, exits: seq<nat>, sent: seq<Msg>)

  function EffectOf(ev: Event): (e: Effect)
    ensures |e.added| <= 1
  {
    match ev
    case ClientExit(id) => Effect([], [id], [])
    case Data(m, forward, extra) => Effect([], [], (if forward then [m] else []) + extra)
    case NewClient(opens, theirs) => Effect(if opens then [theirs] else [], [], [])
    case Exiting => Effect([], [], [])
    case SlowReceiver => Effect([], [], [])
    case HookFails => Effect([], [], [])
  }

  function Prepend(e: Effect, d: Drained): (r: Drained) {
    Drained(e.added + d.added, e.exits + d.exits, e.sent + d.sent, d.rest, d.status)
  }

  function Then(e: Effect, e': Effect): (r: Effect) {
    Effect(e.added + e'.added, e.exits + e'.exits, e.sent + e'.sent)
  }

  lemma EmptyEffect(d: Drained)
    ensures Prepend(Effect([], [], []), d) == d
  {
  }

  /** `room` is how many more clients can be given an id. */
  function Drain(inbox: seq<Event>, room: nat): (d: Drained)
    ensures |d.added| <= room
  {
    if inbox == [] then Drained([], [], [], [], Done)
    else if inbox[0].Exiting? then Drained([], [], [], inbox, ShuttingDown)
    else if Failing(inbox[0]) then Drained([], [], [], inbox[1..], Error)
    else if |EffectOf(inbox[0]).added| > room then Drained([], [], [], inbox[1..], TooManyClients)
    else Prepend(EffectOf(inbox[0]), Drain(inbox[1..], room - |EffectOf(inbox[0]).added|))
  }

  /** Reading on after `e`: either the inbox ends the reading here, or its head joins `e`. */
  lemma {:induction false} DrainCases(e: Effect, inbox: seq<Event>, room: nat)
    ensures var d := Prepend(e, Drain(inbox, room));
            if inbox == [] then d == Drained(e.added, e.exits, e.sent, [], Done)
            else if inbox[0].Exiting? then d == Drained(e.added, e.exits, e.sent, inbox, ShuttingDown)
            else if Failing(inbox[0]) then d == Drained(e.added, e.exits, e.sent, inbox[1..], Error)
            else if |EffectOf(inbox[0]).added| > room then d == Drained(e.added, e.exits, e.sent, inbox[1..], TooManyClients)
            else d == Prepend(Then(e, EffectOf(inbox[0])), Drain(inbox[1..], room - |EffectOf(inbox[0]).added|))
  {
    if inbox != [] && |EffectOf(inbox[0]).added| <= room {
      PrependTwice(e, EffectOf(inbox[0]), Drain(inbox[1..], room - |EffectOf(inbox[0]).added|));
    }
  }

  lemma PrependTwice(e: Effect, e': Effect, d: Drained)
    ensures Prepend(e, Prepend(e', d)) == Prepend(Then(e, e'), d)
  {
  }

  // ------------------------------------------- what is read, in terms of the inbox

  /** The clients announced by these messages whose maps open, in order. */
  function Opened(evs: seq<Event>): (inboxes: seq<seq<Event>>) {
    if evs == [] then []
    else (if evs[0].NewClient? && evs[0].opens then [evs[0].inbox] else []) + Opened(evs[1..])
  }

  /** The ids these messages name for removal, in order. */
  function Exits(evs: seq<Event>): (ids: seq<nat>) {
    if evs == [] then [] else (if evs[0].ClientExit? then [evs[0].client] else []) + Exits(evs[1..])
  }

  /** What these messages put on the broadcast page, in order. */
  function Sends(evs: seq<Event>): (ms: seq<Msg>) {
    if evs == [] then []
    else (if evs[0].Data? then (if evs[0].forward then [evs[0].m] else []) + evs[0].extra else []) + Sends(evs[1..])
  }

  /** The reading cannot go past message `i`: it ends the reading, or its client would get no id. */
  predicate StopsAt(inbox: seq<Event>, room: nat, i: nat) {
    && i < |inbox|
    && (inbox[i].Exiting? || Failing(inbox[i]) ||
        (inbox[i].NewClient? && inbox[i].opens && |Opened(inbox[..i])| >= room))
  }

  /** `k` messages are read to the end: up to the first that stops the reading, or all. */
  ghost predicate ReadsUpTo(inbox: seq<Event>, room: nat, k: nat) {
    && k <= |inbox| && (forall i :: 0 <= i < k ==> !StopsAt(inbox, room, i))
    && (k == |inbox| || StopsAt(inbox, room, k))
  }

  /** How the reading ends after `k` messages. */
  function StatusAfter(inbox: seq<Event>, k: nat): (status: Status)
    requires k <= |inbox|
  {
    if k == |inbox| then Done
    else if inbox[k].Exiting? then ShuttingDown
    else if Failing(inbox[k]) then Error
    else TooManyClients
  }

  /** An EXITING message stays the next one to be read; every other was consumed. */
  function RestAfter(inbox: seq<Event>, k: nat): (rest: seq<Event>)
    requires k <= |inbox|
  {
    if k == |inbox| then [] else if inbox[k].Exiting? then inbox[k..] else inbox[k + 1..]
  }

  lemma ReadsUnique(inbox: seq<Event>, room: nat, k: nat, k': nat)
    requires ReadsUpTo(inbox, room, k) && ReadsUpTo(inbox, room, k')
    ensures k == k'
  {
    hide StopsAt;
  }

  lemma {:induction false} ExitsExact(evs: seq<Event>, id: nat)
    ensures id in Exits(evs) <==> ClientExit(id) in evs
    decreases |evs|
  {
    if evs != [] {
      ExitsExact(evs[1..], id);
      assert evs == [evs[0]] + evs[1..];
    }
  }

  /** Moving one message further into the inbox. */
  lemma {:induction false} StopsShift(inbox: seq<Event>, room: nat, i: nat)
    requires inbox != [] && !StopsAt(inbox, room, 0)
    ensures |Opened(inbox[..1])| <= room
    ensures StopsAt(inbox, room, i + 1) <==> StopsAt(inbox[1..], room - |Opened(inbox[..1])|, i)
  {
    assert inbox[..1][1..] == [];
    if i + 1 < |inbox| { assert inbox[..i + 1][1..] == inbox[1..][..i]; }
  }

  /** Reading one message is reading its effect and then the rest. */
  lemma {:induction false} HeadRead(inbox: seq<Event>, j: nat)
    requires j < |inbox|
    ensures Opened(inbox[..1]) == EffectOf(inbox[0]).added
    ensures Opened(inbox[..j + 1]) == EffectOf(inbox[0]).added + Opened(inbox[1..][..j])
    ensures Exits(inbox[..j + 1]) == EffectOf(inbox[0]).exits + Exits(inbox[1..][..j])
    ensures Sends(inbox[..j + 1]) == EffectOf(inbox[0]).sent + Sends(inbox[1..][..j])
  {
    assert inbox[..1][1..] == [] && inbox[..j + 1][1..] == inbox[1..][..j];
    assert inbox[..1][0] == inbox[0] && inbox[..j + 1][0] == inbox[0];
  }

  lemma ShiftReads(inbox: seq<Event>, room: nat, left: nat, j: nat)
    requires inbox != [] && !StopsAt(inbox, room, 0) && left == room - |Opened(inbox[..1])|
    requires ReadsUpTo(inbox[1..], left, j)
    ensures ReadsUpTo(inbox, room, j + 1)
  {
    hide StopsAt, Opened;
    forall i | 0 <= i < j + 1 ensures !StopsAt(inbox, room, i) {
      if i > 0 {
        StopsShift(inbox, room, i - 1);
        assert !StopsAt(inbox[1..], left, i - 1);
      }
    }
    StopsShift(inbox, room, j);
  }

  /** What the reading loop does, said of the messages it reads. */
  lemma {:induction false} DrainExact(inbox: seq<Event>, room: nat) returns (k: nat)
    ensures ReadsUpTo(inbox, room, k)
    ensures Drain(inbox, room) ==
            Drained(Opened(inbox[..k]), Exits(inbox[..k]), Sends(inbox[..k]), RestAfter(inbox, k), StatusAfter(inbox, k))
    decreases |inbox|
  {
    if inbox == [] || StopsAt(inbox, room, 0) {
      k := 0;
      assert inbox[..0] == [];
    } else {
      HeadRead(inbox, 0);
      StopsShift(inbox, room, 0);
      hide Opened, Exits, Sends;
      var left := room - |Opened(inbox[..1])|;
      var j := DrainExact(inbox[1..], left);
      k := j + 1;
      HeadRead(inbox, j);
      ShiftReads(inbox, room, left, j);
      DrainHead(inbox, room, left);
      hide Drain, EffectOf, StopsAt;
      assert RestAfter(inbox, k) == RestAfter(inbox[1..], j) && StatusAfter(inbox, k) == StatusAfter(inbox[1..], j);
    }
  }

  lemma DrainHead(inbox: seq<Event>, room: nat, left: nat)
    requires inbox != [] && !StopsAt(inbox, room, 0)
    requires |EffectOf(inbox[0]).added| <= room && left == room - |EffectOf(inbox[0]).added|
    ensures Drain(inbox, room) == Prepend(EffectOf(inbox[0]), Drain(inbox[1..], left))
  {
  }

  /** Clients as add_client files them, from id `first` on. */
  function Filed(inboxes: seq<seq<Event>>, first: nat): (cs: seq<Client>)
    ensures |cs| == |inboxes|
    ensures forall k :: 0 <= k < |cs| ==> cs[k] == Client(first + k, inboxes[k])
  {
    seq(|inboxes|, k requires 0 <= k < |inboxes| => Client(first + k, inboxes[k]))
  }

  // ------------------------------------------------------------------- the table

  ghost predicate Sorted(cs: seq<Client>) {
    forall i, j :: 0 <= i < j < |cs| ==> cs[i].id < cs[j].id
  }

  ghost predicate Below(cs: seq<Client>, bound: nat) {
    forall i :: 0 <= i < |cs| ==> cs[i].id < bound
  }

  /** Sorted ids below `seen`: what add_client's documentation promises of the table. */
  ghost predicate WellFiled(cs: seq<Client>, seen: nat) {
    Sorted(cs) && Below(cs, seen) && seen <= MAX_CLIENTS
  }

  lemma ConsumeValid(cs: seq<Client>, i: nat, rest: seq<Event>, seen: nat)
    requires WellFiled(cs, seen) && i < |cs|
    ensures WellFiled(cs[i := Client(cs[i].id, rest)], seen)
  {
  }

  function Ids(ids: seq<nat>): (r: set<nat>) { set id | id in ids }

  /** Entries whose id was not asked to go, in order. */
  function Keep(cs: seq<Client>, gone: set<nat>): (kept: seq<Client>) {
    if cs == [] then []
    else
      var kept := Keep(cs[..|cs| - 1], gone);
      if cs[|cs| - 1].id in gone then kept else kept + [cs[|cs| - 1]]
  }

  lemma {:induction false} KeepBelow(cs: seq<Client>, gone: set<nat>, bound: nat)
    requires Below(cs, bound)
    ensures Below(Keep(cs, gone), bound)
    decreases |cs|
  {
    if cs != [] { KeepBelow(cs[..|cs| - 1], gone, bound); }
  }

  lemma {:induction false} KeepSorted(cs: seq<Client>, gone: set<nat>)
    requires Sorted(cs)
    ensures Sorted(Keep(cs, gone))
    decreases |cs|
  {
    if cs != [] {
      var front, last := cs[..|cs| - 1], cs[|cs| - 1];
      KeepSorted(front, gone);
      KeepBelow(front, gone, last.id);
    }
  }

  lemma {:induction false} KeepConcat(a: seq<Client>, b: seq<Client>, gone: set<nat>)
    ensures Keep(a + b, gone) == Keep(a, gone) + Keep(b, gone)
    decreases |b|
  {
    if b == [] {
      assert a + b == a;
    } else {
      assert (a + b)[..|a + b| - 1] == a + b[..|b| - 1];
      KeepConcat(a, b[..|b| - 1], gone);
    }
  }

  // ------------------------------------------------------------------- one pass

  /** The clients announced to the first `i` entries during one pass. */
  function Announced(cs: seq<Client>, seen: nat, i: nat): (inboxes: seq<seq<Event>>)
    requires i <= |cs| && seen <= MAX_CLIENTS
    ensures seen + |inboxes| <= MAX_CLIENTS
  {
    if i == 0 then []
    else
      var before := Announced(cs, seen, i - 1);
      before + Drain(cs[i - 1].inbox, MAX_CLIENTS - seen - |before|).added
  }

  /** What entry `i` yields in the pass. */
  function DrainOf(cs: seq<Client>, seen: nat, i: nat): (d: Drained)
    requires i < |cs| && seen <= MAX_CLIENTS
  {
    Drain(cs[i].inbox, MAX_CLIENTS - seen - |Announced(cs, seen, i)|)
  }

  /** The ids the first `i` entries asked to remove, themselves included when they shut down. */
  function Requested(cs: seq<Client>, seen: nat, i: nat): (ids: seq<nat>)
    requires i <= |cs| && seen <= MAX_CLIENTS
  {
    if i == 0 then []
    else
      var d := DrainOf(cs, seen, i - 1);
      Requested(cs, seen, i - 1) + d.exits + if d.status.ShuttingDown? then [cs[i - 1].id] else []
  }

  function Sent(cs: seq<Client>, seen: nat, i: nat): (ms: seq<Msg>)
    requires i <= |cs| && seen <= MAX_CLIENTS
  {
    if i == 0 then [] else Sent(cs, seen, i - 1) + DrainOf(cs, seen, i - 1).sent
  }

  /** The table after the first `i` entries were read: those entries, then the others, then the new clients. */
  function TableAfter(cs: seq<Client>, seen: nat, i: nat): (after: seq<Client>)
    requires i <= |cs| && seen <= MAX_CLIENTS
    ensures |after| == |cs| + |Announced(cs, seen, i)|
    ensures forall k :: 0 <= k < |cs| ==> after[k].id == cs[k].id
    ensures forall k :: i <= k < |cs| ==> after[k] == cs[k]
  {
    Front(cs, seen, i) + Filed(Announced(cs, seen, i), seen)
  }

  /** The old entries, the first `i` of them read. */
  function Front(cs: seq<Client>, seen: nat, i: nat): (front: seq<Client>)
    requires i <= |cs| && seen <= MAX_CLIENTS
    ensures |front| == |cs|
    ensures forall k :: 0 <= k < |cs| ==> front[k] == if k < i then Client(cs[k].id, DrainOf(cs, seen, k).rest) else cs[k]
  {
    seq(|cs|, k requires 0 <= k < |cs| => if k < i then Client(cs[k].id, DrainOf(cs, seen, k).rest) else cs[k])
  }

  lemma FrontStep(cs: seq<Client>, seen: nat, i: nat)
    requires i < |cs| && seen <= MAX_CLIENTS
    ensures Front(cs, seen, i + 1) == Front(cs, seen, i)[i := Client(cs[i].id, DrainOf(cs, seen, i).rest)]
  {
    hide DrainOf;
  }

  lemma UpdateThenAppend(t0: seq<Client>, t1: seq<Client>, a: seq<Client>, b: seq<Client>, d: seq<Client>, i: nat, c: Client)
    requires i < |a| && t0 == a + b && t1 == a[i := c] + (b + d)
    ensures t1 == t0[i := c] + d
  {
  }

  lemma AnnouncedStep(cs: seq<Client>, seen: nat, i: nat)
    requires i < |cs| && seen <= MAX_CLIENTS
    ensures Announced(cs, seen, i + 1) == Announced(cs, seen, i) + DrainOf(cs, seen, i).added
  {
    hide Drain;
  }

  lemma TableParts(cs: seq<Client>, seen: nat, i: nat)
    requires i <= |cs| && seen <= MAX_CLIENTS
    ensures TableAfter(cs, seen, i) == Front(cs, seen, i) + Filed(Announced(cs, seen, i), seen)
  {
  }

  lemma TableStep(cs: seq<Client>, seen: nat, i: nat)
    requires i < |cs| && seen <= MAX_CLIENTS
    ensures TableAfter(cs, seen, i + 1) ==
            TableAfter(cs, seen, i)[i := Client(cs[i].id, DrainOf(cs, seen, i).rest)]
            + Filed(DrainOf(cs, seen, i).added, seen + |Announced(cs, seen, i)|)
  {
    hide TableAfter, DrainOf, Announced, Filed, Front;
    var before, d := Announced(cs, seen, i), DrainOf(cs, seen, i);
    AnnouncedStep(cs, seen, i);
    FiledConcat(before, d.added, seen);
    FrontStep(cs, seen, i);
    TableParts(cs, seen, i);
    TableParts(cs, seen, i + 1);
    UpdateThenAppend(TableAfter(cs, seen, i), TableAfter(cs, seen, i + 1), Front(cs, seen, i), Filed(before, seen),
                     Filed(d.added, seen + |before|), i, Client(cs[i].id, d.rest));
  }

  lemma FiledConcat(a: seq<seq<Event>>, b: seq<seq<Event>>, first: nat)
    ensures Filed(a + b, first) == Filed(a, first) + Filed(b, first + |a|)
  {
  }

  lemma {:induction false} TableWellFiled(cs: seq<Client>, seen: nat, i: nat)
    requires WellFiled(cs, seen) && i <= |cs|
    ensures WellFiled(TableAfter(cs, seen, i), seen + |Announced(cs, seen, i)|)
  {
    var after := TableAfter(cs, seen, i);
    forall k | 0 <= k < |after| ensures after[k].id == if k < |cs| then cs[k].id else seen + k - |cs| {
    }
  }

  /** The table while entry `i` is being read: its remaining inbox and the clients it has announced. */
  ghost function Extended(cs: seq<Client>, i: nat, inbox: seq<Event>, added: seq<seq<Event>>, seen: nat): (r: seq<Client>)
    requires i < |cs|
  {
    cs[i := Client(cs[i].id, inbox)] + Filed(added, seen)
  }

  lemma ExtendedStart(cs: seq<Client>, i: nat, seen: nat)
    requires i < |cs|
    ensures Extended(cs, i, cs[i].inbox, [], seen) == cs
  {
    assert Client(cs[i].id, cs[i].inbox) == cs[i];
  }

  lemma ExtendedAt(cs: seq<Client>, i: nat, inbox: seq<Event>, added: seq<seq<Event>>, seen: nat)
    requires i < |cs|
    ensures |Extended(cs, i, inbox, added, seen)| == |cs| + |added|
    ensures Extended(cs, i, inbox, added, seen)[i] == Client(cs[i].id, inbox)
  {
  }

  lemma ExtendedConsume(cs: seq<Client>, i: nat, inbox: seq<Event>, rest: seq<Event>, added: seq<seq<Event>>, seen: nat)
    requires i < |cs|
    ensures |Extended(cs, i, inbox, added, seen)| == |cs| + |added|
    ensures Extended(cs, i, inbox, added, seen)[i := Client(cs[i].id, rest)] == Extended(cs, i, rest, added, seen)
  {
  }

  lemma ExtendedAdd(cs: seq<Client>, i: nat, inbox: seq<Event>, added: seq<seq<Event>>, more: seq<seq<Event>>, seen: nat)
    requires i < |cs|
    ensures Extended(cs, i, inbox, added, seen) + Filed(more, seen + |added|) == Extended(cs, i, inbox, added + more, seen)
  {
    FiledConcat(added, more, seen);
  }

  /** Is `id` among the ids of these clients? */
  predicate Has(cs: seq<Client>, id: nat) { exists k :: 0 <= k < |cs| && cs[k].id == id }

  // ------------------------------------- one pass, in terms of what the clients sent

  /** Entry `i`, of which `ks[i]` messages are read, asked for client `id` to go, or is that client and shuts down. */
  ghost predicate Asks(cs: seq<Client>, ks: seq<nat>, i: nat, id: nat) {
    && i < |ks| && i < |cs| && ks[i] <= |cs[i].inbox|
    && var inbox := cs[i].inbox;
       ClientExit(id) in inbox[..ks[i]] || (ks[i] < |inbox| && inbox[ks[i]].Exiting? && cs[i].id == id)
  }

  /** The clients announced in the messages read of the first entries, in order. */
  ghost function AllOpened(cs: seq<Client>, ks: seq<nat>): (inboxes: seq<seq<Event>>)
    requires |ks| <= |cs| && forall i :: 0 <= i < |ks| ==> ks[i] <= |cs[i].inbox|
  {
    if ks == [] then []
    else AllOpened(cs, ks[..|ks| - 1]) + Opened(cs[|ks| - 1].inbox[..ks[|ks| - 1]])
  }

  ghost function AllSends(cs: seq<Client>, ks: seq<nat>): (ms: seq<Msg>)
    requires |ks| <= |cs| && forall i :: 0 <= i < |ks| ==> ks[i] <= |cs[i].inbox|
  {
    if ks == [] then []
    else AllSends(cs, ks[..|ks| - 1]) + Sends(cs[|ks| - 1].inbox[..ks[|ks| - 1]])
  }

  /** `ks[i]` messages of entry `i` are read in the pass, ids being given out in the order of the table. */
  ghost predicate IsReading(cs: seq<Client>, seen: nat, ks: seq<nat>)
    decreases |ks|
  {
    && |ks| <= |cs| && (forall i :: 0 <= i < |ks| ==> ks[i] <= |cs[i].inbox|)
    && (ks == [] ||
        var n := |ks| - 1;
        && IsReading(cs, seen, ks[..n]) && seen + |AllOpened(cs, ks[..n])| <= MAX_CLIENTS
        && ReadsUpTo(cs[n].inbox, MAX_CLIENTS - seen - |AllOpened(cs, ks[..n])|, ks[n]))
  }

  /** The pass announces and sends exactly what the messages read say. */
  lemma {:induction false} ReadingExact(cs: seq<Client>, seen: nat, ks: seq<nat>)
    requires IsReading(cs, seen, ks) && seen <= MAX_CLIENTS
    ensures Announced(cs, seen, |ks|) == AllOpened(cs, ks) && Sent(cs, seen, |ks|) == AllSends(cs, ks)
    decreases |ks|
  {
    hide Drain, ReadsUpTo, Opened, Sends;
    if ks != [] {
      var n := |ks| - 1;
      ReadingExact(cs, seen, ks[..n]);
      ReadOne(cs, seen, ks, n);
    }
  }

  /** What reading entry `i` yields, said of its inbox. */
  lemma {:induction false} ReadOne(cs: seq<Client>, seen: nat, ks: seq<nat>, i: nat)
    requires IsReading(cs, seen, ks) && seen <= MAX_CLIENTS && i == |ks| - 1
    requires Announced(cs, seen, i) == AllOpened(cs, ks[..i])
    ensures var inbox, k := cs[i].inbox, ks[i];
            DrainOf(cs, seen, i) ==
            Drained(Opened(inbox[..k]), Exits(inbox[..k]), Sends(inbox[..k]), RestAfter(inbox, k), StatusAfter(inbox, k))
  {
    hide Drain, ReadsUpTo, Opened, Sends, Exits;
    var room := MAX_CLIENTS - seen - |AllOpened(cs, ks[..i])|;
    var k := DrainExact(cs[i].inbox, room);
    ReadsUnique(cs[i].inbox, room, k, ks[i]);
  }

  lemma {:induction false} ReadAt(cs: seq<Client>, seen: nat, ks: seq<nat>, i: nat)
    requires IsReading(cs, seen, ks) && seen <= MAX_CLIENTS && i < |ks|
    ensures var inbox, k := cs[i].inbox, ks[i];
            && k <= |inbox|
            && DrainOf(cs, seen, i) ==
               Drained(Opened(inbox[..k]), Exits(inbox[..k]), Sends(inbox[..k]), RestAfter(inbox, k), StatusAfter(inbox, k))
    decreases |ks|
  {
    hide Drain, DrainOf, ReadsUpTo, Opened, Sends, Exits;
    var n := |ks| - 1;
    if i == n {
      ReadingExact(cs, seen, ks[..n]);
      ReadOne(cs, seen, ks, n);
    } else {
      ReadAt(cs, seen, ks[..n], i);
    }
  }

  /** There is only one way the pass reads, */
  lemma {:induction false} ReadingUnique(cs: seq<Client>, seen: nat, ks: seq<nat>, ks': seq<nat>)
    requires IsReading(cs, seen, ks) && IsReading(cs, seen, ks') && |ks| == |ks'|
    ensures ks == ks'
    decreases |ks|
  {
    hide ReadsUpTo, AllOpened;
    if ks != [] {
      var n := |ks| - 1;
      ReadingUnique(cs, seen, ks[..n], ks'[..n]);
      ReadsUnique(cs[n].inbox, MAX_CLIENTS - seen - |AllOpened(cs, ks[..n])|, ks[n], ks'[n]);
      assert ks == ks[..n] + [ks[n]] && ks' == ks'[..n] + [ks'[n]];
    }
  }

  /** and there is one. */
  lemma {:induction false} ReadingExists(cs: seq<Client>, seen: nat, n: nat) returns (ks: seq<nat>)
    requires n <= |cs| && seen <= MAX_CLIENTS
    ensures |ks| == n && IsReading(cs, seen, ks)
    decreases n
  {
    hide Drain, ReadsUpTo, Opened;
    if n == 0 {
      ks := [];
    } else {
      var front := ReadingExists(cs, seen, n - 1);
      ReadingExact(cs, seen, front);
      var k := DrainExact(cs[n - 1].inbox, MAX_CLIENTS - seen - |AllOpened(cs, front)|);
      ks := front + [k];
      assert ks[..n - 1] == front;
      ReadsBound(cs[n - 1].inbox, MAX_CLIENTS - seen - |AllOpened(cs, front)|, k);
    }
  }

  lemma ReadsBound(inbox: seq<Event>, room: nat, k: nat)
    requires ReadsUpTo(inbox, room, k)
    ensures k <= |inbox|
  {
  }

  lemma {:induction false} RequestedStep(cs: seq<Client>, seen: nat, ks: seq<nat>, n: nat, id: nat)
    requires n < |ks| && IsReading(cs, seen, ks) && seen <= MAX_CLIENTS
    ensures n < |cs| && (id in Requested(cs, seen, n + 1) <==> id in Requested(cs, seen, n) || Asks(cs, ks, n, id))
  {
    hide DrainOf, ReadsUpTo, Opened, Sends, Exits, IsReading;
    ReadingBounds(cs, seen, ks);
    ReadAt(cs, seen, ks, n);
    ExitsExact(cs[n].inbox[..ks[n]], id);
    var d, before := DrainOf(cs, seen, n), Requested(cs, seen, n);
    var own := if d.status.ShuttingDown? then [cs[n].id] else [];
    assert Requested(cs, seen, n + 1) == before + d.exits + own;
    hide Requested;
    assert id in before + d.exits + own <==> id in before || id in d.exits || id in own;
  }

  lemma {:induction false} RequestedExact(cs: seq<Client>, seen: nat, ks: seq<nat>, n: nat, id: nat)
    requires n <= |ks| && IsReading(cs, seen, ks) && seen <= MAX_CLIENTS
    ensures n <= |cs| && (id in Requested(cs, seen, n) <==> exists i :: 0 <= i < n && Asks(cs, ks, i, id))
    decreases n
  {
    hide IsReading, Asks, Requested;
    ReadingBounds(cs, seen, ks);
    if n == 0 {
      PassStart(cs, seen);
    } else {
      RequestedExact(cs, seen, ks, n - 1, id);
      RequestedStep(cs, seen, ks, n - 1, id);
    }
  }

  lemma ReadingBounds(cs: seq<Client>, seen: nat, ks: seq<nat>)
    requires IsReading(cs, seen, ks)
    ensures |ks| <= |cs| && forall i :: 0 <= i < |ks| ==> ks[i] <= |cs[i].inbox|
  {
    hide ReadsUpTo;
  }

  /** A client stops the pass exactly if its reading ends in a message that is not an EXITING. */
  lemma FailsExact(cs: seq<Client>, seen: nat, ks: seq<nat>, i: nat)
    requires IsReading(cs, seen, ks) && seen <= MAX_CLIENTS && i < |ks|
    ensures i < |cs| && ks[i] <= |cs[i].inbox|
    ensures FailsAt(cs, seen, i) <==> ks[i] < |cs[i].inbox| && !cs[i].inbox[ks[i]].Exiting?
  {
    hide Drain, DrainOf, ReadsUpTo, Opened, Sends, Exits, IsReading;
    ReadingBounds(cs, seen, ks);
    ReadAt(cs, seen, ks, i);
  }

  /** After a pass that got through: a client is in the table exactly if it was there before or was
      announced in a message read in the pass, and nobody, before or in the messages read, asked for it
      to go. The order is kept. */
  lemma PassExact(cs: seq<Client>, seen: nat, toRemove: seq<nat>, ks: seq<nat>, id: nat)
    requires WellFiled(cs, seen) && IsReading(cs, seen, ks) && |ks| == |cs|
    ensures forall i :: 0 <= i < |ks| ==> ks[i] <= |cs[i].inbox|
    ensures var n := |cs|;
            var after := Keep(TableAfter(cs, seen, n), Ids(toRemove + Requested(cs, seen, n)));
            && Sorted(after)
            && (Has(after, id) <==>
                  && (Has(cs, id) || seen <= id < seen + |AllOpened(cs, ks)|)
                  && id !in toRemove && !exists i :: 0 <= i < n && Asks(cs, ks, i, id))
  {
    hide Drain, Requested, Announced, TableAfter, Asks, IsReading, AllOpened;
    var n := |cs|;
    ReadingBounds(cs, seen, ks);
    ReadingExact(cs, seen, ks);
    var table, gone := TableAfter(cs, seen, n), Ids(toRemove + Requested(cs, seen, n));
    RequestedExact(cs, seen, ks, n, id);
    TableWellFiled(cs, seen, n);
    KeepSorted(table, gone);
    KeepHas(table, gone, id);
    TableHas(cs, seen, id);
  }

  /** Every client is read to its end or to an EXITING. */
  ghost predicate GetsThrough(cs: seq<Client>, ks: seq<nat>) {
    forall i :: 0 <= i < |cs| && i < |ks| ==>
      ks[i] >= |cs[i].inbox| || cs[i].inbox[ks[i]].Exiting?
  }

  /** Was in the table or announced in the pass, and nobody asked for it to go. */
  ghost predicate Stays(cs: seq<Client>, seen: nat, toRemove: seq<nat>, ks: seq<nat>, id: nat)
    requires |ks| <= |cs| && forall i :: 0 <= i < |ks| ==> ks[i] <= |cs[i].inbox|
  {
    && (Has(cs, id) || seen <= id < seen + |AllOpened(cs, ks)|)
    && id !in toRemove && !exists i :: 0 <= i < |cs| && Asks(cs, ks, i, id)
  }

  lemma PassMeaning(cs: seq<Client>, seen: nat, toRemove: seq<nat>) returns (ks: seq<nat>)
    requires WellFiled(cs, seen)
    ensures |ks| == |cs| && IsReading(cs, seen, ks) && forall i :: 0 <= i < |ks| ==> ks[i] <= |cs[i].inbox|
    ensures (forall i :: 0 <= i < |cs| ==> !FailsAt(cs, seen, i)) <==> GetsThrough(cs, ks)
    ensures Sent(cs, seen, |cs|) == AllSends(cs, ks) && Announced(cs, seen, |cs|) == AllOpened(cs, ks)
    ensures forall id :: Has(Keep(TableAfter(cs, seen, |cs|), Ids(toRemove + Requested(cs, seen, |cs|))), id) <==>
                         Stays(cs, seen, toRemove, ks, id)
  {
    hide Drain, Requested, Announced, TableAfter, Asks, IsReading, AllOpened, AllSends, FailsAt, Keep, Sent, Has;
    ks := ReadingExists(cs, seen, |cs|);
    ReadingBounds(cs, seen, ks);
    ReadingExact(cs, seen, ks);
    forall i | 0 <= i < |cs|
      ensures FailsAt(cs, seen, i) <==> ks[i] < |cs[i].inbox| && !cs[i].inbox[ks[i]].Exiting?
    {
      FailsExact(cs, seen, ks, i);
    }
    forall id
      ensures Has(Keep(TableAfter(cs, seen, |cs|), Ids(toRemove + Requested(cs, seen, |cs|))), id) <==>
              Stays(cs, seen, toRemove, ks, id)
    {
      PassExact(cs, seen, toRemove, ks, id);
    }
  }

  lemma {:induction false} KeepHas(cs: seq<Client>, gone: set<nat>, id: nat)
    ensures Has(Keep(cs, gone), id) <==> Has(cs, id) && id !in gone
    decreases |cs|
  {
    if cs != [] {
      var front, last := cs[..|cs| - 1], cs[|cs| - 1];
      KeepHas(front, gone, id);
      HasSnoc(front, last, id);
      HasSnoc(Keep(front, gone), last, id);
      assert cs == front + [last];
    }
  }

  lemma HasSnoc(cs: seq<Client>, c: Client, id: nat)
    ensures Has(cs + [c], id) <==> Has(cs, id) || c.id == id
  {
    assert (cs + [c])[|cs|] == c;
    assert forall k :: 0 <= k < |cs| ==> (cs + [c])[k] == cs[k];
  }

  lemma {:induction false} TableHas(cs: seq<Client>, seen: nat, id: nat)
    requires seen <= MAX_CLIENTS
    ensures Has(TableAfter(cs, seen, |cs|), id) <==> Has(cs, id) || seen <= id < seen + |Announced(cs, seen, |cs|)|
  {
    hide Drain;
    hide Announced;
    var table, m := TableAfter(cs, seen, |cs|), |Announced(cs, seen, |cs|)|;
    assert forall k :: 0 <= k < |table| ==> table[k].id == if k < |cs| then cs[k].id else seen + k - |cs|;
    if seen <= id < seen + m { assert table[|cs| + id - seen].id == id; }
  }

  predicate FailsAt(cs: seq<Client>, seen: nat, i: nat)
    requires i < |cs| && seen <= MAX_CLIENTS
  {
    DrainOf(cs, seen, i).status in {Error, TooManyClients}
  }

  class Broker {
    var llmpClients: seq<Client>
    var numClientsSeen: nat
    var clientsToRemove: seq<nat>
    var broadcast: seq<Msg>

    ghost predicate Valid() reads this { WellFiled(llmpClients, numClientsSeen) }

    constructor ()
      ensures Valid() && llmpClients == [] && numClientsSeen == 0 && clientsToRemove == [] && broadcast == []
    {
      llmpClients, numClientsSeen, clientsToRemove, broadcast := [], 0, [], [];
    }

    /** add_client */
    method AddClient(inbox: seq<Event>) returns (id: nat)
      requires Valid() && numClientsSeen < MAX_CLIENTS
      modifies this`llmpClients, this`numClientsSeen
      ensures Valid() && id == old(numClientsSeen) && numClientsSeen == id + 1
      ensures llmpClients == old(llmpClients) + [Client(id, inbox)]
    {
      id := numClientsSeen;
      llmpClients := llmpClients + [Client(id, inbox)];
      numClientsSeen := numClientsSeen + 1;
    }

    /** binary_search_by_key on the ids. */
    method BinarySearch(clientId: nat) returns (pos: Option<nat>)
      requires Sorted(llmpClients)
      ensures pos.Some? ==> pos.value < |llmpClients| && llmpClients[pos.value].id == clientId
      ensures pos.None? ==> forall i :: 0 <= i < |llmpClients| ==> llmpClients[i].id != clientId
    {
      var lo, hi := 0, |llmpClients|;
      while lo < hi
        invariant 0 <= lo <= hi <= |llmpClients|
        invariant forall i :: 0 <= i < lo ==> llmpClients[i].id < clientId
        invariant forall i :: hi <= i < |llmpClients| ==> clientId < llmpClients[i].id
      {
        var mid := (lo + hi) / 2;
        if llmpClients[mid].id == clientId { return Some(mid); }
        if llmpClients[mid].id < clientId { lo := mid + 1; } else { hi := mid; }
      }
      pos := None;
    }

    /** The lookup of handle_new_msgs: the index fast path, else a binary search. */
    method FindClient(clientId: nat) returns (pos: Option<nat>)
      requires Sorted(llmpClients)
      ensures pos.Some? ==> pos.value < |llmpClients| && llmpClients[pos.value].id == clientId
      ensures pos.None? ==> forall i :: 0 <= i < |llmpClients| ==> llmpClients[i].id != clientId
      ensures forall i :: 0 <= i < |llmpClients| && llmpClients[i].id == clientId ==> pos == Some(i)
    {
      if clientId < |llmpClients| && llmpClients[clientId].id == clientId {
        pos := Some(clientId);
      } else {
        pos := BinarySearch(clientId);
      }
    }

    /** The arms of handle_new_msgs for messages that let it go on reading. */
    method HandleEvent(ev: Event)
      requires Valid() && !ev.Exiting? && !Failing(ev)
      requires numClientsSeen + |EffectOf(ev).added| <= MAX_CLIENTS
      modifies this
      ensures Valid() && numClientsSeen == old(numClientsSeen) + |EffectOf(ev).added|
      ensures llmpClients == old(llmpClients) + Filed(EffectOf(ev).added, old(numClientsSeen))
      ensures clientsToRemove == old(clientsToRemove) + EffectOf(ev).exits
      ensures broadcast == old(broadcast) + EffectOf(ev).sent
    {
      match ev {
        case ClientExit(id) =>
          clientsToRemove := clientsToRemove + [id];
        case NewClient(opens, theirs) =>
          if opens { var newId := AddClient(theirs); }
        case Data(m, forward, extra) =>
          if forward { broadcast := broadcast + [m]; }
          broadcast := broadcast + extra;
      }
    }

    /** handle_new_msgs for the client at index `i`: read it until it has nothing more to say. */
    method HandleNewMsgs(clientId: nat, ghost i: nat) returns (status: Status, ghost k: nat)
      requires Valid() && i < |llmpClients| && llmpClients[i].id == clientId
      modifies this
      ensures Valid()
      ensures var inbox := old(llmpClients[i].inbox);
              && ReadsUpTo(inbox, MAX_CLIENTS - old(numClientsSeen), k) && status == StatusAfter(inbox, k)
              && llmpClients == Extended(old(llmpClients), i, RestAfter(inbox, k), Opened(inbox[..k]), old(numClientsSeen))
              && clientsToRemove == old(clientsToRemove) + Exits(inbox[..k])
              && broadcast == old(broadcast) + Sends(inbox[..k])
      ensures var d := Drain(old(llmpClients[i].inbox), MAX_CLIENTS - old(numClientsSeen));
              && status == d.status
              && llmpClients == Extended(old(llmpClients), i, d.rest, d.added, old(numClientsSeen))
              && numClientsSeen == old(numClientsSeen) + |d.added|
              && clientsToRemove == old(clientsToRemove) + d.exits
              && broadcast == old(broadcast) + d.sent
    {
      hide Extended;
      hide Filed;
      hide Drain;
      hide EffectOf;
      hide Prepend;
      hide Below;
      ghost var cs, seen := llmpClients, numClientsSeen;
      ghost var d0 := Drain(cs[i].inbox, MAX_CLIENTS - seen);
      ghost var e, left := Effect([], [], []), cs[i].inbox;
      k := DrainExact(cs[i].inbox, MAX_CLIENTS - seen);
      hide ReadsUpTo, Opened, Exits, Sends, RestAfter, StatusAfter;
      ExtendedStart(cs, i, seen);
      EmptyEffect(d0);
      while true
        invariant Valid() && numClientsSeen == seen + |e.added|
        invariant llmpClients == Extended(cs, i, left, e.added, seen)
        invariant clientsToRemove == old(clientsToRemove) + e.exits && broadcast == old(broadcast) + e.sent
        invariant d0 == Prepend(e, Drain(left, MAX_CLIENTS - numClientsSeen))
        decreases |left|
      {
        ExtendedAt(cs, i, left, e.added, seen);
        var found := FindClient(clientId);
        var pos := found.value;
        assert pos == i;
        var inbox := llmpClients[pos].inbox;
        DrainCases(e, inbox, MAX_CLIENTS - numClientsSeen);
        if inbox == [] { return Done, k; }
        var ev := inbox[0];
        if ev.Exiting? { return ShuttingDown, k; }
        ExtendedConsume(cs, i, left, inbox[1..], e.added, seen);
        ConsumeValid(llmpClients, pos, inbox[1..], numClientsSeen);
        llmpClients := llmpClients[pos := Client(clientId, inbox[1..])];
        if Failing(ev) { return Error, k; }
        if numClientsSeen + |EffectOf(ev).added| > MAX_CLIENTS { return TooManyClients, k; }
        HandleEvent(ev);
        ExtendedAdd(cs, i, inbox[1..], e.added, EffectOf(ev).added, seen);
        e, left := Then(e, EffectOf(ev)), inbox[1..];
      }
    }

    /** The removal loop of broker_once, from the back so that indices stay good. */
    method RemoveRequested()
      requires Valid()
      modifies this`llmpClients, this`clientsToRemove
      ensures Valid() && clientsToRemove == []
      ensures llmpClients == Keep(old(llmpClients), Ids(old(clientsToRemove)))
    {
      hide Keep;
      hide Sorted;
      hide Below;
      ghost var cs, gone := llmpClients, Ids(clientsToRemove);
      var idx := |llmpClients|;
      KeepTailStart(cs, gone);
      while idx > 0
        invariant 0 <= idx <= |cs| && clientsToRemove == old(clientsToRemove)
        invariant llmpClients == cs[..idx] + Keep(cs[idx..], gone)
      {
        idx := idx - 1;
        KeepTailStep(cs, gone, idx);
        if llmpClients[idx].id in clientsToRemove {
          llmpClients := llmpClients[..idx] + llmpClients[idx + 1..];
        }
      }
      assert cs[0..] == cs && cs[..0] == [];
      assert llmpClients == Keep(cs, gone);
      KeepSorted(cs, gone);
      KeepBelow(cs, gone, numClientsSeen);
      clientsToRemove := [];
    }

    /** The first `i` of the clients `cs` have been read. */
    ghost predicate HasRead(cs: seq<Client>, seen: nat, i: nat, gone: seq<nat>, sent: seq<Msg>)
      requires i <= |cs| && seen <= MAX_CLIENTS
      reads this
    {
      && llmpClients == TableAfter(cs, seen, i)
      && numClientsSeen == seen + |Announced(cs, seen, i)|
      && clientsToRemove == gone + Requested(cs, seen, i)
      && broadcast == sent + Sent(cs, seen, i)
    }

    /** The first loop of broker_once: read the clients that are there at the start, until one fails. */
    method ReadClients() returns (ok: bool)
      requires Valid()
      modifies this
      ensures Valid()
      ensures var cs, seen, gone, sent := old(llmpClients), old(numClientsSeen), old(clientsToRemove), old(broadcast);
              if ok then (forall i :: 0 <= i < |cs| ==> !FailsAt(cs, seen, i)) && HasRead(cs, seen, |cs|, gone, sent)
              else exists i :: 0 <= i < |cs| && FailsAt(cs, seen, i) && (forall k :: 0 <= k < i ==> !FailsAt(cs, seen, k))
                               && HasRead(cs, seen, i + 1, gone, sent)
    {
      hide TableAfter, Announced, Requested, Sent, Drain, Extended, Sorted, Below, FailsAt;
      hide Opened, Exits, Sends, ReadsUpTo, RestAfter, StatusAfter;
      ghost var cs, seen := llmpClients, numClientsSeen;
      var n := |llmpClients|;
      PassStart(cs, seen);
      var i := 0;
      while i < n
        invariant 0 <= i <= n && Valid()
        invariant HasRead(cs, seen, i, old(clientsToRemove), old(broadcast))
        invariant forall k :: 0 <= k < i ==> !FailsAt(cs, seen, k)
      {
        var clientId := llmpClients[i].id;
        PassStep(cs, seen, i);
        FailsWith(cs, seen, i);
        var status;
        ghost var k;
        status, k := HandleNewMsgs(clientId, i);
        assert llmpClients == TableAfter(cs, seen, i + 1);
        if status == Error || status == TooManyClients { return false; }
        if status == ShuttingDown { clientsToRemove := clientsToRemove + [clientId]; }
        i := i + 1;
      }
      ok := true;
    }

    /** broker_once. A pass that gets through removes exactly the clients that were asked to go. */
    method BrokerOnce() returns (ok: bool, ghost ks: seq<nat>)
      requires Valid()
      modifies this
      ensures Valid()
      ensures var cs, seen := old(llmpClients), old(numClientsSeen);
              && |ks| == |cs| && IsReading(cs, seen, ks) && (ok <==> GetsThrough(cs, ks))
              && (ok ==> && broadcast == old(broadcast) + AllSends(cs, ks) && numClientsSeen == seen + |AllOpened(cs, ks)|
                         && forall id :: Has(llmpClients, id) <==> Stays(cs, seen, old(clientsToRemove), ks, id))
      ensures var cs, seen, gone, sent := old(llmpClients), old(numClientsSeen), old(clientsToRemove), old(broadcast);
              var n := |cs|;
              if ok then
                && llmpClients == Keep(TableAfter(cs, seen, n), Ids(gone + Requested(cs, seen, n))) && clientsToRemove == []
              else
                exists i :: 0 <= i < n && FailsAt(cs, seen, i) && (forall k :: 0 <= k < i ==> !FailsAt(cs, seen, k))
                            && HasRead(cs, seen, i + 1, gone, sent)
    {
      hide TableAfter, Announced, Requested, Sent, Drain, Keep, Extended, Sorted, Below, FailsAt;
      hide IsReading, GetsThrough, Stays, AllSends, AllOpened, Has;
      ks := PassMeaning(llmpClients, numClientsSeen, clientsToRemove);
      ok := ReadClients();
      if !ok { return; }
      if |clientsToRemove| > 0 {
        RemoveRequested();
      } else {
        KeepNothingGone(llmpClients);
        assert Ids(clientsToRemove) == {};
      }
      clientsToRemove := [];
    }
  }

  lemma FailsWith(cs: seq<Client>, seen: nat, i: nat)
    requires i < |cs| && seen <= MAX_CLIENTS
    ensures FailsAt(cs, seen, i) <==> DrainOf(cs, seen, i).status == Error || DrainOf(cs, seen, i).status == TooManyClients
  {
  }

  lemma PassStart(cs: seq<Client>, seen: nat)
    requires seen <= MAX_CLIENTS
    ensures TableAfter(cs, seen, 0) == cs && Announced(cs, seen, 0) == []
    ensures Requested(cs, seen, 0) == [] && Sent(cs, seen, 0) == []
  {
  }

  /** Reading entry `i` turns the table after `i` entries into the table after `i + 1`. */
  lemma {:induction false} PassStep(cs: seq<Client>, seen: nat, i: nat)
    requires i < |cs| && seen <= MAX_CLIENTS
    ensures var d, t := DrainOf(cs, seen, i), TableAfter(cs, seen, i);
            && t[i] == cs[i]
            && d == Drain(t[i].inbox, MAX_CLIENTS - (seen + |Announced(cs, seen, i)|))
            && TableAfter(cs, seen, i + 1) == Extended(t, i, d.rest, d.added, seen + |Announced(cs, seen, i)|)
            && |Announced(cs, seen, i + 1)| == |Announced(cs, seen, i)| + |d.added|
            && Sent(cs, seen, i + 1) == Sent(cs, seen, i) + d.sent
            && Requested(cs, seen, i + 1) ==
               Requested(cs, seen, i) + d.exits + if d.status.ShuttingDown? then [cs[i].id] else []
  {
    hide Drain;
    hide Filed;
    hide TableAfter;
    TableStep(cs, seen, i);
  }

  lemma KeepTailStart(cs: seq<Client>, gone: set<nat>)
    ensures cs == cs[..|cs|] + Keep(cs[|cs|..], gone)
  {
    assert cs[|cs|..] == [];
  }

  lemma {:induction false} KeepTailStep(cs: seq<Client>, gone: set<nat>, i: nat)
    requires i < |cs|
    ensures var t := cs[..i + 1] + Keep(cs[i + 1..], gone);
            && t[i] == cs[i]
            && cs[..i] + Keep(cs[i..], gone) == if cs[i].id in gone then t[..i] + t[i + 1..] else t
  {
    assert cs[i..] == [cs[i]] + cs[i + 1..];
    KeepConcat([cs[i]], cs[i + 1..], gone);
    assert Keep([cs[i]], gone) == if cs[i].id in gone then [] else [cs[i]];
    assert cs[..i + 1] == cs[..i] + [cs[i]];
  }

  lemma {:induction false} KeepNothingGone(cs: seq<Client>)
    ensures Keep(cs, {}) == cs
    decreases |cs|
  {
    if cs != [] { KeepNothingGone(cs[..|cs| - 1]); }
  }
}
