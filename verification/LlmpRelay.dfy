/** Clients, broker and listeners together: what a client commits on its own chain, the broker
    reads, forwards and commits on the broadcast chain, and every reader of that chain is given.

    Each chain is a channel of its own. The broker is receiver 0 of every client's chain and the
    sender of the broadcast chain. Its handling of one message (read, allocate, copy, commit) is
    split into the steps of those channels, and everybody else's steps may come in between. */
module LlmpRelay {
  import opened Base
  import opened LlmpLayout
  import opened LlmpPage
  import opened LlmpProtocol
  import opened LlmpInvariant
  import Safety = LlmpSafety
  import Channel = LlmpChannel

  /** The message the broker is dealing with, and whether forward_msg has copied it yet. */
  datatype Hand = Empty | Taken(client: nat, m: Msg) | Cloned(client: nat, m: Msg)

  /** Clients are kept under the id they are filed under, which need not be the id they stamp their
      messages with. `verdicts[c]` records, message by message, whether the hooks let it pass;
      `origins` records, message by message of the broadcast chain, the client it was forwarded from,
      or None for a message of the broker itself. */
  datatype System =
    System(clients: map<nat, World>, out: World, hand: Hand, verdicts: map<nat, seq<bool>>, origins: seq<Option<nat>>)

  datatype Event =
    | Enter(c: nat, w: World)         // a client's new chain, filed under id c; it stamps w.snd.id
    | ClientStep(c: nat, a: Action)   // the client as a sender
    | Poll(c: nat, a: Action)         // the broker as the reader of the client's chain
    | Drop                            // the hooks do not forward the message in hand
    | OutStep(a: Action)              // the broker as a sender: allocation, and messages of its own
    | Copy                            // forward_msg copies the message in hand
    | Publish                         // forward_msg commits the copy
    | Listen(a: Action)               // a reader of the broadcast chain

  function Delivered(w: World): (ms: seq<Msg>) { if 0 in w.rcvs then w.rcvs[0].delivered else [] }

  /** What a sender does on its own account: it writes its own messages and stamps them with its id. */
  predicate OwnAction(a: Action) {
    a.Alloc? || a.Write? || a.ShrinkTo? || a == Send(true) || AllocAction(a)
  }

  /** The rest of alloc_next, once it has found the page full. */
  predicate AllocAction(a: Action) {
    a.ScanPage? || a.MovePage? || a.ProbeCache? || a.ProbeCacheLeft? || a.WriteEop? || a.SendEop? || a.AllocAgain?
  }

  predicate ReaderAction(a: Action) {
    a.Attach? || a.Load? || a.Read? || a.Leave? || a.MapNext? || a.Join?
  }

  /** The broker is between two messages: nothing reserved on the broadcast page. */
  predicate OutIdle(s: System) { s.out.snd.pc.Ready? && s.out.snd.pending.None? }

  predicate CanHappen(s: System, e: Event) {
    match e
    case Enter(c, w) => c !in s.clients && Init(w)
    case ClientStep(c, a) => c in s.clients && OwnAction(a) && Enabled(s.clients[c], a)
    case Poll(c, a) =>
      && c in s.clients && s.hand.Empty? && OutIdle(s) && Enabled(s.clients[c], a)
      && (a == Attach(0, true) || a == Load(0) || a == Read(0) || a == Leave(0) || a == MapNext(0) || a == Join(0))
    case Drop => s.hand.Taken? && OutIdle(s)
    case OutStep(a) =>
      && Enabled(s.out, a)
      && (s.hand.Empty? ==> OwnAction(a))
      && (s.hand.Taken? ==> AllocAction(a) || a == Alloc(s.hand.m.bufLenPadded))
      && !s.hand.Cloned?
    case Copy => s.hand.Taken? && CanForward(s.out, s.hand.m)
    case Publish => s.hand.Cloned? && HasPending(s.out)
    case Listen(a) => ReaderAction(a) && Enabled(s.out, a)
  }

  function AfterPoll(s: System, c: nat, w: World): (s': System)
    requires c in s.clients
  {
    var d, d' := Delivered(s.clients[c]), Delivered(w);
    s.(clients := s.clients[c := w],
       hand := if |d| < |d'| then Taken(c, d'[|d'| - 1]) else s.hand)
  }

  function Decided(s: System, pass: bool): (vs: map<nat, seq<bool>>)
    requires !s.hand.Empty?
  {
    var c := s.hand.client;
    s.verdicts[c := (if c in s.verdicts then s.verdicts[c] else []) + [pass]]
  }

  /** The broadcast chain moves on to `w`; should that add a message, its origin is `o`. */
  function Traced(s: System, w: World, o: Option<nat>): (os: seq<Option<nat>>) {
    if |s.out.committed| < |w.committed| then s.origins + [o] else s.origins
  }

  function Happen(s: System, e: Event): (s': System)
    requires CanHappen(s, e)
  {
    match e
    case Enter(c, w) => s.(clients := s.clients[c := w], verdicts := s.verdicts[c := []])
    case ClientStep(c, a) => s.(clients := s.clients[c := Apply(s.clients[c], a)])
    case Poll(c, a) => AfterPoll(s, c, Apply(s.clients[c], a))
    case Drop => s.(hand := Empty, verdicts := Decided(s, false))
    case OutStep(a) =>
      var w := Apply(s.out, a);
      s.(out := w, origins := Traced(s, w, None))
    case Copy => s.(out := ForwardStep(s.out, s.hand.m), hand := Cloned(s.hand.client, s.hand.m))
    case Publish =>
      var w := SendStep(s.out, false);
      s.(out := w, hand := Empty, verdicts := Decided(s, true), origins := Traced(s, w, Some(s.hand.client)))
    case Listen(a) => s.(out := Apply(s.out, a))
  }

  predicate Start(s: System) {
    s.clients == map[] && s.verdicts == map[] && s.hand == Empty && s.origins == [] && Init(s.out)
  }

  predicate CanRun(s: System, es: seq<Event>)
    decreases |es|
  {
    es == [] || (CanHappen(s, es[0]) && CanRun(Happen(s, es[0]), es[1..]))
  }

  function RunAll(s: System, es: seq<Event>): (s': System)
    requires CanRun(s, es)
    decreases |es|
  {
    if es == [] then s else RunAll(Happen(s, es[0]), es[1..])
  }

  // ------------------------------------------------------------ what is promised

  /** A message up to what forwarding may change: its id and its padding. */
  function Plain(m: Msg): (p: Msg) { m.(id := 0, bufLenPadded := 0) }

  /** The messages stamped with `id`, in order: all a reader can go by. */
  function By(ms: seq<Msg>, id: nat): (ps: seq<Msg>) {
    if ms == [] then []
    else
      var n := |ms| - 1;
      By(ms[..n], id) + if ms[n].sender == id then [Plain(ms[n])] else []
  }

  /** The messages forwarded from client `c`, in order. */
  function From(ms: seq<Msg>, os: seq<Option<nat>>, c: nat): (ps: seq<Msg>)
    requires |ms| == |os|
  {
    if ms == [] then []
    else
      var n := |ms| - 1;
      From(ms[..n], os[..n], c) + if os[n] == Some(c) then [Plain(ms[n])] else []
  }

  /** The messages that were let pass, of the first `|vs|`. */
  function Chosen(ms: seq<Msg>, vs: seq<bool>): (ps: seq<Msg>)
    requires |vs| <= |ms|
    decreases |vs|
  {
    if vs == [] then []
    else
      var n := |vs| - 1;
      Chosen(ms, vs[..n]) + if vs[n] then [Plain(ms[n])] else []
  }

  // -------------------------------------------------------------------- invariant

  ghost predicate Stamps(id: nat, ms: seq<Msg>) {
    forall i :: 0 <= i < |ms| ==> ms[i].sender == id
  }

  predicate Holds(h: Hand, c: nat) { !h.Empty? && h.client == c }

  ghost predicate ClientOk(s: System, c: nat) {
    && c in s.clients && c in s.verdicts
    && var w := s.clients[c];
       && Inv(w) && Stamps(w.snd.id, w.committed) && Safety.AllForwardable(w.committed)
       && Delivered(w) <= w.committed
       && |Delivered(w)| == |s.verdicts[c]| + if Holds(s.hand, c) then 1 else 0
  }

  /** What of client `c` the broker has let pass so far. */
  ghost function Passed(s: System, c: nat): (ps: seq<Msg>) {
    if ClientOk(s, c) then Chosen(Delivered(s.clients[c]), s.verdicts[c]) else []
  }

  /** Message `i` of the broadcast chain carries the stamp of where it came from. */
  ghost predicate Sourced(s: System, i: nat)
    requires i < |s.origins| == |s.out.committed|
  {
    match s.origins[i]
    case None => s.out.committed[i].sender == s.out.snd.id
    case Some(c) => c in s.clients && s.out.committed[i].sender == s.clients[c].snd.id
  }

  ghost predicate AllSourced(s: System) {
    |s.origins| == |s.out.committed| && forall i :: 0 <= i < |s.origins| ==> Sourced(s, i)
  }

  ghost predicate Relayed(s: System, c: nat)
    requires |s.origins| == |s.out.committed|
  {
    From(s.out.committed, s.origins, c) == Passed(s, c)
  }

  /** The broker holds the newest message it was given; a copy of it is what is reserved on the page. */
  ghost predicate HandOk(s: System) {
    !s.hand.Empty? ==>
      && s.hand.client in s.clients
      && var d := Delivered(s.clients[s.hand.client]);
         && d != [] && s.hand.m == d[|d| - 1]
         && (s.hand.Cloned? ==> CopyReserved(s.out, s.hand.m))
  }

  ghost predicate CopyReserved(w: World, m: Msg) {
    && HasPending(w)
    && var slot := MsgAt(w.pages[Current(w)], w.snd.pending.value);
       slot == m.(bufLenPadded := slot.bufLenPadded)
  }

  ghost predicate RelayInv(s: System) {
    && Inv(s.out) && s.verdicts.Keys == s.clients.Keys && AllSourced(s)
    && (forall c :: c in s.clients ==> ClientOk(s, c))
    && (forall c :: Relayed(s, c))
    && HandOk(s)
  }

  // ------------------------------------------------------------ steps of one chain

  lemma IdStays(w: World, a: Action)
    requires Enabled(w, a) && OwnAction(a)
    ensures Apply(w, a).snd.id == w.snd.id
  {
  }

  /** At most one message is added, stamped with the sender's id. */
  ghost predicate CommitsOwn(w: World, w': World) {
    w'.committed == w.committed ||
    (|w'.committed| == |w.committed| + 1 && w.committed <= w'.committed && w'.committed[|w.committed|].sender == w.snd.id)
  }

  /** A sender's own step: its receivers see nothing of it, and what it commits carries its id. */
  lemma OwnStep(w: World, a: Action)
    requires Inv(w) && OwnAction(a) && Enabled(w, a)
    ensures var w' := Apply(w, a);
            && Inv(w') && w'.snd.id == w.snd.id && w'.rcvs == w.rcvs
            && CommitsOwn(w, w')
  {
    hide Inv;
    Safety.StepInv(w, a);
    IdStays(w, a);
    if a != Send(true) {
      Safety.SenderSilent(w, a);
    } else {
      OwnSend(w);
    }
  }

  lemma OwnSend(w: World)
    requires HasPending(w)
    ensures var w' := SendStep(w, true);
            && w'.rcvs == w.rcvs
            && CommitsOwn(w, w')
  {
  }

  lemma OwnForwardable(w: World, a: Action)
    requires Inv(w) && OwnAction(a) && Enabled(w, a) && Safety.AllForwardable(w.committed)
    ensures Safety.AllForwardable(Apply(w, a).committed)
  {
    hide Inv;
    if a == Send(true) { Safety.SendForwardable(w, true); } else { Safety.CommitsOnlyInSend(w, a); }
  }

  /** The messages on all pages stay as they are. */
  ghost predicate SameSlots(w: World, w': World) {
    w'.pages.Keys == w.pages.Keys && forall id :: id in w.pages ==> w'.pages[id].slots == w.pages[id].slots
  }

  /** A reader's step leaves sender, messages and history alone. */
  lemma ReaderStep(w: World, a: Action)
    requires ReaderAction(a) && Enabled(w, a)
    ensures var w' := Apply(w, a); w'.snd == w.snd && w'.committed == w.committed && SameSlots(w, w')
  {
  }

  /** What the broker's reading does to the messages it has been given from this chain. */
  lemma PollStep(w: World, a: Action)
    requires Inv(w) && Enabled(w, a) && Delivered(w) <= w.committed
    requires a == Attach(0, true) || a == Load(0) || a == Read(0) || a == Leave(0) || a == MapNext(0) || a == Join(0)
    ensures var w' := Apply(w, a); var d, d' := Delivered(w), Delivered(w');
            && (d' == d || (|d| < |w.committed| && d' == d + [w.committed[|d|]]))
            && Inv(w') && w'.snd == w.snd && w'.committed == w.committed && d' <= w'.committed
  {
    hide Inv;
    Safety.StepInv(w, a);
    ReaderStep(w, a);
    if a.Attach? {
      assert 0 !in w.rcvs;
    } else {
      Safety.StepAppends(w, a, 0);
      if a == Read(0) { Safety.ReadDelivers(w, 0); }
    }
  }

  // ------------------------------------------------------------------- projections

  lemma {:induction false} ByPrefix(ms: seq<Msg>, all: seq<Msg>, id: nat)
    requires ms <= all
    ensures By(ms, id) <= By(all, id)
    decreases |all|
  {
    if |ms| < |all| {
      ByPrefix(ms, all[..|all| - 1], id);
    } else {
      assert ms == all;
    }
  }

  lemma {:induction false} FromSnoc(ms: seq<Msg>, os: seq<Option<nat>>, m: Msg, o: Option<nat>, c: nat)
    requires |ms| == |os|
    ensures From(ms + [m], os + [o], c) == From(ms, os, c) + if o == Some(c) then [Plain(m)] else []
  {
    assert (ms + [m])[..|ms|] == ms && (os + [o])[..|os|] == os;
  }

  lemma {:induction false} FromPrefix(ms: seq<Msg>, all: seq<Msg>, os: seq<Option<nat>>, c: nat)
    requires ms <= all && |all| == |os|
    ensures From(ms, os[..|ms|], c) <= From(all, os, c)
    decreases |all|
  {
    if |ms| < |all| {
      var n := |all| - 1;
      assert os[..n][..|ms|] == os[..|ms|];
      FromPrefix(ms, all[..n], os[..n], c);
    } else {
      assert ms == all && os[..|ms|] == os;
    }
  }

  /** The stamp tells the origin: what carries `id` comes from `c` and what comes from `c` carries `id`. */
  ghost predicate Tells(ms: seq<Msg>, os: seq<Option<nat>>, id: nat, c: nat)
    requires |ms| == |os|
  {
    forall i :: 0 <= i < |ms| ==> (ms[i].sender == id <==> os[i] == Some(c))
  }

  lemma {:induction false} ByIsFrom(ms: seq<Msg>, os: seq<Option<nat>>, id: nat, c: nat)
    requires |ms| == |os| && Tells(ms, os, id, c)
    ensures By(ms, id) == From(ms, os, c)
    decreases |ms|
  {
    if ms != [] { ByIsFrom(ms[..|ms| - 1], os[..|ms| - 1], id, c); }
  }

  /** A message that carries `id` and comes from elsewhere is one too many. */
  lemma {:induction false} ByExceedsFrom(ms: seq<Msg>, os: seq<Option<nat>>, id: nat, c: nat)
    requires |ms| == |os| && forall i :: 0 <= i < |ms| && os[i] == Some(c) ==> ms[i].sender == id
    ensures |From(ms, os, c)| <= |By(ms, id)|
    ensures !Tells(ms, os, id, c) ==> |From(ms, os, c)| < |By(ms, id)|
    decreases |ms|
  {
    if ms != [] { ByExceedsFrom(ms[..|ms| - 1], os[..|ms| - 1], id, c); }
  }

  lemma {:induction false} FromSome(ms: seq<Msg>, os: seq<Option<nat>>, c: nat)
    requires |ms| == |os|
    ensures From(ms, os, c) != [] <==> Some(c) in os
    decreases |ms|
  {
    if ms != [] {
      var n := |ms| - 1;
      FromSome(ms[..n], os[..n], c);
      assert os == os[..n] + [os[n]];
    }
  }

  lemma {:induction false} ChosenSnoc(ms: seq<Msg>, vs: seq<bool>, v: bool)
    requires |vs| < |ms|
    ensures Chosen(ms, vs + [v]) == Chosen(ms, vs) + if v then [Plain(ms[|vs|])] else []
  {
    assert (vs + [v])[..|vs|] == vs;
  }

  /** Only the messages decided on matter. */
  lemma {:induction false} ChosenPrefix(ms: seq<Msg>, all: seq<Msg>, vs: seq<bool>)
    requires |vs| <= |ms| && ms <= all
    ensures Chosen(ms, vs) == Chosen(all, vs)
    decreases |vs|
  {
    if vs != [] { ChosenPrefix(ms, all, vs[..|vs| - 1]); }
  }

  lemma {:induction false} ChosenSome(ms: seq<Msg>, vs: seq<bool>)
    requires |vs| <= |ms|
    ensures Chosen(ms, vs) != [] <==> true in vs
    decreases |vs|
  {
    if vs != [] {
      var n := |vs| - 1;
      ChosenSome(ms, vs[..n]);
      assert vs == vs[..n] + [vs[n]];
    }
  }

  // ---------------------------------------------------------------- every step keeps it

  /** Whatever `s'` does to other clients, client `c` and its record are as they were. */
  ghost predicate SameClient(s: System, s': System, c: nat) {
    && (c in s'.clients <==> c in s.clients) && (c in s'.verdicts <==> c in s.verdicts)
    && (c in s.clients ==> s'.clients[c] == s.clients[c])
    && (c in s.verdicts ==> s'.verdicts[c] == s.verdicts[c])
    && (Holds(s'.hand, c) <==> Holds(s.hand, c))
  }

  lemma ClientFrame(s: System, s': System, c: nat)
    requires SameClient(s, s', c)
    ensures (ClientOk(s', c) <==> ClientOk(s, c)) && Passed(s', c) == Passed(s, c)
  {
    hide Inv, Chosen, Stamps, Safety.AllForwardable;
  }

  /** No client is lost and none changes its stamp. */
  ghost predicate SameStamps(s: System, s': System) {
    && s'.out.snd.id == s.out.snd.id
    && forall c :: c in s.clients ==> c in s'.clients && s'.clients[c].snd.id == s.clients[c].snd.id
  }

  lemma SourcedFrame(s: System, s': System)
    requires AllSourced(s) && SameStamps(s, s') && s'.out.committed == s.out.committed && s'.origins == s.origins
    ensures AllSourced(s')
  {
    forall i | 0 <= i < |s'.origins| ensures Sourced(s', i) { assert Sourced(s, i); }
  }

  /** The broadcast chain got one more message, from `o`. */
  ghost predicate OneMore(s: System, s': System, o: Option<nat>) {
    && |s'.out.committed| == |s.out.committed| + 1 && s.out.committed <= s'.out.committed
    && s'.origins == s.origins + [o]
  }

  lemma SourcedSnoc(s: System, s': System, o: Option<nat>)
    requires AllSourced(s) && SameStamps(s, s') && OneMore(s, s', o)
    requires var m := s'.out.committed[|s.out.committed|];
             match o
             case None => m.sender == s.out.snd.id
             case Some(c) => c in s'.clients && m.sender == s'.clients[c].snd.id
    ensures AllSourced(s')
  {
    forall i | 0 <= i < |s'.origins| ensures Sourced(s', i) {
      if i < |s.origins| { assert Sourced(s, i); }
    }
  }

  lemma FromOneMore(s: System, s': System, o: Option<nat>, c: nat)
    requires |s.origins| == |s.out.committed| && OneMore(s, s', o)
    ensures |s'.origins| == |s'.out.committed|
    ensures From(s'.out.committed, s'.origins, c) == From(s.out.committed, s.origins, c) +
              if o == Some(c) then [Plain(s'.out.committed[|s.out.committed|])] else []
  {
    hide From;
    var ms, m := s.out.committed, s'.out.committed[|s.out.committed|];
    assert s'.out.committed == ms + [m];
    FromSnoc(ms, s.origins, m, o, c);
  }

  /** Only client `c` is affected, and its record is in order. */
  lemma OthersKeep(s: System, s': System, c: nat)
    requires RelayInv(s) && Inv(s'.out) && HandOk(s') && AllSourced(s') && ClientOk(s', c) && Relayed(s', c)
    requires s'.clients.Keys == s.clients.Keys + {c} && s'.verdicts.Keys == s'.clients.Keys
    requires forall x :: x != c ==> SameClient(s, s', x)
    requires forall x :: x != c ==> From(s'.out.committed, s'.origins, x) == From(s.out.committed, s.origins, x)
    ensures RelayInv(s')
  {
    hide Inv, From, ClientOk, HandOk, SameClient, Passed, Sourced;
    forall x ensures (x in s'.clients ==> ClientOk(s', x)) && Relayed(s', x) {
      if x != c {
        ClientFrame(s, s', x);
        assert Relayed(s, x);
      }
    }
  }

  lemma InitFacts(w: World)
    requires Init(w)
    ensures Inv(w) && w.committed == [] && w.rcvs == map[] && Delivered(w) == []
  {
    InitInv(w);
  }

  lemma EnterRecord(s: System, s': System, c: nat, w: World)
    requires |s.origins| == |s.out.committed| && Relayed(s, c) && c !in s.clients && !Holds(s.hand, c)
    requires Inv(w) && w.committed == [] && Delivered(w) == []
    requires s' == s.(clients := s.clients[c := w], verdicts := s.verdicts[c := []])
    ensures ClientOk(s', c) && Relayed(s', c)
  {
    hide Inv, From, Delivered;
    assert !ClientOk(s, c);
  }

  lemma EnterKeeps(s: System, c: nat, w: World)
    requires RelayInv(s) && CanHappen(s, Enter(c, w))
    ensures RelayInv(Happen(s, Enter(c, w)))
  {
    hide Inv, From, Init, Enabled, Apply, ClientOk, Delivered, Passed, Sourced;
    var s' := Happen(s, Enter(c, w));
    InitFacts(w);
    assert Relayed(s, c);
    EnterRecord(s, s', c, w);
    SourcedFrame(s, s');
    OthersKeep(s, s', c);
  }

  /** Only the chain of client `c` has moved, by what its owner or its reader does. */
  ghost predicate ChainMoved(s: System, s': System, c: nat, w': World)
    requires c in s.clients
  {
    && s' == s.(clients := s.clients[c := w'], hand := s'.hand) && w'.snd.id == s.clients[c].snd.id
    && Inv(w') && Stamps(w'.snd.id, w'.committed) && Safety.AllForwardable(w'.committed)
    && Delivered(s.clients[c]) <= Delivered(w') <= w'.committed
    && |Delivered(w')| == |Delivered(s.clients[c])| + (if s'.hand == s.hand then 0 else 1)
    && (s'.hand != s.hand ==> s.hand.Empty? && s'.hand == Taken(c, Delivered(w')[|Delivered(w')| - 1]))
  }

  lemma ChainRecord(s: System, s': System, c: nat, w': World)
    requires |s.origins| == |s.out.committed| && ClientOk(s, c) && Relayed(s, c) && ChainMoved(s, s', c, w')
    ensures ClientOk(s', c) && Relayed(s', c)
  {
    hide Inv, From, Chosen, Stamps, Safety.AllForwardable, Delivered;
    ChosenPrefix(Delivered(s.clients[c]), Delivered(w'), s.verdicts[c]);
  }

  lemma ChainHand(s: System, s': System, c: nat, w': World)
    requires HandOk(s) && c in s.clients && ChainMoved(s, s', c, w')
    requires s.hand.Empty? || s.hand.client != c || Delivered(w') == Delivered(s.clients[c])
    ensures HandOk(s')
  {
    hide Inv, Stamps, Safety.AllForwardable, Delivered, CopyReserved;
  }

  lemma ChainKeeps(s: System, s': System, c: nat, w': World)
    requires RelayInv(s) && c in s.clients && ChainMoved(s, s', c, w')
    ensures RelayInv(s')
  {
    hide Inv, From, Chosen, Stamps, Safety.AllForwardable, Passed, Sourced, HandOk, ClientOk, Relayed, Delivered;
    ChainRecord(s, s', c, w');
    ChainHand(s, s', c, w');
    SourcedFrame(s, s');
    OthersKeep(s, s', c);
  }

  lemma ClientStepKeeps(s: System, c: nat, a: Action)
    requires RelayInv(s) && CanHappen(s, ClientStep(c, a))
    ensures RelayInv(Happen(s, ClientStep(c, a)))
  {
    hide Inv, From, Chosen, Enabled, Apply, OwnAction, Safety.AllForwardable, Init, Sourced, HandOk, Relayed;
    var s', w, w' := Happen(s, ClientStep(c, a)), s.clients[c], Apply(s.clients[c], a);
    assert ClientOk(s, c);
    OwnStep(w, a);
    OwnForwardable(w, a);
    assert ChainMoved(s, s', c, w');
    hide RelayInv, ChainMoved;
    ChainKeeps(s, s', c, w');
  }

  lemma PollKeeps(s: System, c: nat, a: Action)
    requires RelayInv(s) && CanHappen(s, Poll(c, a))
    ensures RelayInv(Happen(s, Poll(c, a)))
  {
    hide Inv, From, Chosen, Enabled, Apply, Safety.AllForwardable, Stamps, Init, Sourced, HandOk, Relayed;
    var s', w, w' := Happen(s, Poll(c, a)), s.clients[c], Apply(s.clients[c], a);
    assert ClientOk(s, c);
    PollStep(w, a);
    assert ChainMoved(s, s', c, w');
    hide RelayInv, ChainMoved;
    ChainKeeps(s, s', c, w');
  }

  lemma DropKeeps(s: System)
    requires RelayInv(s) && CanHappen(s, Drop)
    ensures RelayInv(Happen(s, Drop))
  {
    hide Inv, From, Chosen, Safety.AllForwardable, Stamps, Enabled, Apply, Init, Sourced;
    var s', c := Happen(s, Drop), s.hand.client;
    assert ClientOk(s, c) && Relayed(s, c);
    ChosenSnoc(Delivered(s.clients[c]), s.verdicts[c], false);
    assert ClientOk(s', c) && Relayed(s', c);
    SourcedFrame(s, s');
    hide ClientOk, Relayed, Passed;
    OthersKeep(s, s', c);
  }

  /** The broadcast chain moved on without adding a message of any client. */
  lemma OutFrame(s: System, s': System)
    requires RelayInv(s) && s'.clients == s.clients && s'.verdicts == s.verdicts
    requires Inv(s'.out) && HandOk(s') && AllSourced(s')
    requires forall c :: Holds(s'.hand, c) <==> Holds(s.hand, c)
    requires forall c :: From(s'.out.committed, s'.origins, c) == From(s.out.committed, s.origins, c)
    ensures RelayInv(s')
  {
    hide Inv, From, ClientOk, HandOk, Passed, Sourced;
    forall x ensures (x in s'.clients ==> ClientOk(s', x)) && Relayed(s', x) {
      ClientFrame(s, s', x);
      assert Relayed(s, x);
    }
  }

  lemma OutStepKeeps(s: System, a: Action)
    requires RelayInv(s) && CanHappen(s, OutStep(a))
    ensures RelayInv(Happen(s, OutStep(a)))
  {
    hide Inv, From, Enabled, Apply, ClientOk, Passed, Sourced;
    var s', w, w' := Happen(s, OutStep(a)), s.out, Apply(s.out, a);
    OwnStep(w, a);
    if |w.committed| < |w'.committed| {
      SourcedSnoc(s, s', None);
      forall c ensures From(w'.committed, s'.origins, c) == From(w.committed, s.origins, c) {
        FromOneMore(s, s', None, c);
      }
    } else {
      SourcedFrame(s, s');
    }
    OutFrame(s, s');
  }

  lemma CopyKeeps(s: System)
    requires RelayInv(s) && CanHappen(s, Copy)
    ensures RelayInv(Happen(s, Copy))
  {
    hide Inv, From, ClientOk, Relayed, Passed, Sourced;
    var s' := Happen(s, Copy);
    CopyStep(s.out, s.hand.m);
    SourcedFrame(s, s');
    OutFrame(s, s');
  }

  lemma CopyStep(w: World, m: Msg)
    requires Inv(w) && CanForward(w, m)
    ensures var w' := ForwardStep(w, m);
            Inv(w') && w'.snd == w.snd && w'.committed == w.committed && CopyReserved(w', m)
  {
    hide Inv;
    Safety.StepInv(w, Forward(m));
  }

  lemma ListenKeeps(s: System, a: Action)
    requires RelayInv(s) && CanHappen(s, Listen(a))
    ensures RelayInv(Happen(s, Listen(a)))
  {
    hide Inv, From, Enabled, Apply, ClientOk, Relayed, ReaderAction, Passed, Sourced;
    var s' := Happen(s, Listen(a));
    Safety.StepInv(s.out, a);
    ReaderStep(s.out, a);
    SourcedFrame(s, s');
    OutFrame(s, s');
  }

  /** The copy commits as the message it was made of, under the next id. */
  lemma PublishStep(w: World, m: Msg)
    requires Inv(w) && CopyReserved(w, m) && Safety.Forwardable(m)
    ensures var w' := SendStep(w, false);
            && Inv(w') && w'.snd.id == w.snd.id && |w'.committed| == |w.committed| + 1 && w.committed <= w'.committed
            && var x := w'.committed[|w.committed|];
               x.sender == m.sender && Plain(x) == Plain(m)
  {
    hide Inv;
    Safety.StepInv(w, Send(false));
    Channel.SendNeverFails(w);
  }

  /** The message in hand is the next of its client's to be decided on, and carries its stamp. */
  lemma HandFacts(s: System)
    requires RelayInv(s) && !s.hand.Empty?
    ensures var c := s.hand.client; ClientOk(s, c) && Relayed(s, c)
    ensures var c := s.hand.client; var d := Delivered(s.clients[c]);
            && |d| == |s.verdicts[c]| + 1 && s.hand.m == d[|d| - 1] && s.hand.m.sender == s.clients[c].snd.id
            && Safety.Forwardable(s.hand.m)
  {
    hide Inv, From, Chosen, Sourced, Safety.Forwardable, CopyReserved;
    var c := s.hand.client;
    assert ClientOk(s, c) && Relayed(s, c);
    var d := Delivered(s.clients[c]);
    assert d[|d| - 1] == s.clients[c].committed[|d| - 1];
  }

  lemma PublishRecord(s: System, s': System)
    requires RelayInv(s) && s.hand.Cloned? && CanHappen(s, Publish) && s' == Happen(s, Publish)
    requires Inv(s'.out) && s'.out.snd.id == s.out.snd.id && OneMore(s, s', Some(s.hand.client))
    requires Plain(s'.out.committed[|s.out.committed|]) == Plain(s.hand.m)
    ensures s'.hand.Empty? && s'.clients == s.clients && s'.verdicts.Keys == s.verdicts.Keys
    ensures |s'.origins| == |s'.out.committed| && ClientOk(s', s.hand.client) && Relayed(s', s.hand.client)
  {
    hide Inv, From, Chosen, Safety.Forwardable, Enabled, Apply, SendStep, Init, Sourced, Stamps, CopyReserved;
    hide RelayInv, HasPending, Plain, Traced;
    var c := s.hand.client;
    HandFacts(s);
    AllTraced(s);
    ChosenSnoc(Delivered(s.clients[c]), s.verdicts[c], true);
    FromOneMore(s, s', Some(c), c);
  }

  lemma AllTraced(s: System)
    requires RelayInv(s)
    ensures AllSourced(s) && s.verdicts.Keys == s.clients.Keys && Inv(s.out) && HandOk(s)
  {
    hide Inv, ClientOk, Relayed, Sourced, HandOk;
  }

  lemma PublishKeeps(s: System)
    requires RelayInv(s) && CanHappen(s, Publish)
    ensures RelayInv(Happen(s, Publish))
  {
    hide Inv, From, Chosen, Safety.Forwardable, Enabled, Apply, SendStep, Init, ClientOk, Relayed, Passed, Sourced, RelayInv;
    var s', c, w' := Happen(s, Publish), s.hand.client, SendStep(s.out, false);
    HandFacts(s);
    AllTraced(s);
    PublishStep(s.out, s.hand.m);
    PublishRecord(s, s');
    SourcedSnoc(s, s', Some(c));
    forall y | y != c ensures From(s'.out.committed, s'.origins, y) == From(s.out.committed, s.origins, y) {
      FromOneMore(s, s', Some(c), y);
    }
    OthersKeep(s, s', c);
  }

  /** Every step of a client, of the broker or of a reader keeps the record straight. */
  lemma StepKeeps(s: System, e: Event)
    requires RelayInv(s) && CanHappen(s, e)
    ensures RelayInv(Happen(s, e))
  {
    hide RelayInv, CanHappen, Happen;
    match e
    case Enter(c, w) => EnterKeeps(s, c, w);
    case ClientStep(c, a) => ClientStepKeeps(s, c, a);
    case Poll(c, a) => PollKeeps(s, c, a);
    case Drop => DropKeeps(s);
    case OutStep(a) => OutStepKeeps(s, a);
    case Copy => CopyKeeps(s);
    case Publish => PublishKeeps(s);
    case Listen(a) => ListenKeeps(s, a);
  }

  lemma StartKeeps(s: System)
    requires Start(s)
    ensures RelayInv(s)
  {
    hide Inv;
    InitInv(s.out);
  }

  lemma {:induction false} RunKeeps(s: System, es: seq<Event>)
    requires RelayInv(s) && CanRun(s, es)
    ensures RelayInv(RunAll(s, es))
    decreases |es|
  {
    hide RelayInv, CanHappen, Happen;
    if es != [] {
      StepKeeps(s, es[0]);
      RunKeeps(Happen(s, es[0]), es[1..]);
    }
  }

  /** Some run leads here. */
  ghost predicate Reached(s: System) {
    exists s0: System, es: seq<Event> :: Start(s0) && CanRun(s0, es) && RunAll(s0, es) == s
  }

  lemma ReachedKeeps(s: System)
    requires Reached(s)
    ensures RelayInv(s)
  {
    hide RelayInv, CanRun, RunAll, Start;
    var s0: System, es: seq<Event> :| Start(s0) && CanRun(s0, es) && RunAll(s0, es) == s;
    StartKeeps(s0);
    RunKeeps(s0, es);
  }

  // ------------------------------------------------------------------ end to end

  /** In every run: what a reader of the broadcast chain has been given of the messages forwarded from
      client `c` is a prefix of the messages `c` committed and the hooks let pass: in order, once each,
      unchanged up to id and padding. It does not matter which ids clients and broker stamp. */
  lemma ForwardedInOrder(s: System, r: nat, c: nat)
    requires Reached(s) && r in s.out.rcvs && c in s.clients
    ensures var given := s.out.rcvs[r].delivered;
            && |given| <= |s.origins| && c in s.verdicts && |s.verdicts[c]| <= |s.clients[c].committed|
            && From(given, s.origins[..|given|], c) <= Chosen(s.clients[c].committed, s.verdicts[c])
  {
    hide Inv, From, Chosen, Reached, Stamps, Safety.AllForwardable, Sourced;
    ReachedKeeps(s);
    assert ClientOk(s, c) && Relayed(s, c);
    Safety.DeliveredHere(s.out, r);
    FromPrefix(s.out.rcvs[r].delivered, s.out.committed, s.origins, c);
    ChosenPrefix(Delivered(s.clients[c]), s.clients[c].committed, s.verdicts[c]);
  }

  /** Once the broker finds nothing more from `c` and the reader nothing more from the broker, nothing
      that was let pass is missing. */
  lemma ForwardedAll(s: System, r: nat, c: nat)
    requires Reached(s) && r in s.out.rcvs && c in s.clients && s.hand.Empty?
    requires Safety.ReportsNone(s.out, r) && Safety.ReportsNone(s.clients[c], 0)
    ensures var given := s.out.rcvs[r].delivered;
            && |given| == |s.origins| && c in s.verdicts && |s.verdicts[c]| == |s.clients[c].committed|
            && From(given, s.origins, c) == Chosen(s.clients[c].committed, s.verdicts[c])
  {
    hide Inv, From, Chosen, Reached, Stamps, Safety.AllForwardable, Sourced;
    ReachedKeeps(s);
    assert ClientOk(s, c) && Relayed(s, c);
    Safety.NoneMeansAllHere(s.out, r);
    Safety.NoneMeansAllHere(s.clients[c], 0);
  }

  /** Every message on the broadcast chain comes from a client and carries its stamp, or from the broker
      and carries the broker's. */
  lemma EveryMessageSourced(s: System, i: nat)
    requires Reached(s) && i < |s.out.committed|
    ensures |s.origins| == |s.out.committed| && Sourced(s, i)
  {
    hide Reached, Sourced;
    ReachedKeeps(s);
    AllTraced(s);
  }

  /** If the hooks let everything pass, the messages chosen are all those decided on. */
  lemma {:induction false} ChosenAll(ms: seq<Msg>, vs: seq<bool>)
    requires |vs| <= |ms| && forall i :: 0 <= i < |vs| ==> vs[i]
    ensures |Chosen(ms, vs)| == |vs| && forall i :: 0 <= i < |vs| ==> Chosen(ms, vs)[i] == Plain(ms[i])
    decreases |vs|
  {
    if vs != [] { ChosenAll(ms, vs[..|vs| - 1]); }
  }

  /** A message in hand can always be copied into the space allocated for it. */
  lemma HandCanBeCopied(s: System)
    requires Reached(s) && s.hand.Taken? && HasPending(s.out)
    requires MsgAt(s.out.pages[Current(s.out)], s.out.snd.pending.value).bufLen == s.hand.m.bufLenPadded
    ensures CanHappen(s, Copy)
  {
    hide Reached, RelayInv, ClientOk, Relayed, Enabled, Apply, Init;
    ReachedKeeps(s);
    HandFacts(s);
  }

  // --------------------------------------------------------- telling by the stamp

  /** Nothing but messages of client `c` was let onto the broadcast chain under the id `c` stamps: the
      broker, if it stamps that id, sent nothing of its own, and no message of another client that
      stamps it was let pass. */
  ghost predicate Unmixed(s: System, c: nat)
    requires c in s.clients
  {
    && (s.out.snd.id == s.clients[c].snd.id ==> None !in s.origins)
    && forall d :: d in s.clients && d in s.verdicts && d != c && s.clients[d].snd.id == s.clients[c].snd.id ==>
         true !in s.verdicts[d]
  }

  /** Client `d` has had a message let pass exactly if one of the broadcast chain comes from it. */
  lemma PassedShows(s: System, d: nat)
    requires RelayInv(s) && d in s.clients
    ensures d in s.verdicts && (true in s.verdicts[d] <==> Some(d) in s.origins)
  {
    hide Inv, From, Chosen, Stamps, Safety.AllForwardable, Sourced, HandOk;
    assert ClientOk(s, d) && Relayed(s, d);
    FromSome(s.out.committed, s.origins, d);
    ChosenSome(Delivered(s.clients[d]), s.verdicts[d]);
  }

  /** Otherwise some message under that id comes from elsewhere. */
  lemma MixedShows(s: System, c: nat) returns (i: nat)
    requires RelayInv(s) && c in s.clients && !Unmixed(s, c)
    ensures i < |s.out.committed| == |s.origins|
    ensures s.out.committed[i].sender == s.clients[c].snd.id && s.origins[i] != Some(c)
  {
    hide RelayInv;
    AllTraced(s);
    var os, id := s.origins, s.clients[c].snd.id;
    if s.out.snd.id == id && None in os {
      i :| 0 <= i < |os| && os[i] == None;
    } else {
      var d :| d in s.clients && d in s.verdicts && d != c && s.clients[d].snd.id == id && true in s.verdicts[d];
      PassedShows(s, d);
      i :| 0 <= i < |os| && os[i] == Some(d);
    }
    assert Sourced(s, i);
  }

  lemma UnmixedTells(s: System, c: nat)
    requires RelayInv(s) && c in s.clients
    ensures |s.origins| == |s.out.committed|
    ensures Unmixed(s, c) <==> Tells(s.out.committed, s.origins, s.clients[c].snd.id, c)
  {
    hide RelayInv;
    AllTraced(s);
    var ms, os, id := s.out.committed, s.origins, s.clients[c].snd.id;
    if Unmixed(s, c) {
      forall i | 0 <= i < |ms| ensures ms[i].sender == id <==> os[i] == Some(c) {
        assert Sourced(s, i) && os[i] in os;
        if os[i].Some? { PassedShows(s, os[i].value); }
      }
    } else {
      var i := MixedShows(s, c);
    }
  }

  /** In every run: the messages on the broadcast chain under the id client `c` stamps are a prefix of
      what `c` committed and the hooks let pass if and only if nothing else was let onto it under that id. */
  lemma SharedIdsMix(s: System, c: nat)
    requires Reached(s) && c in s.clients
    ensures c in s.verdicts && |s.verdicts[c]| <= |s.clients[c].committed|
    ensures By(s.out.committed, s.clients[c].snd.id) <= Chosen(s.clients[c].committed, s.verdicts[c]) <==> Unmixed(s, c)
  {
    hide Inv, By, From, Chosen, Reached, Stamps, Safety.AllForwardable, Unmixed, Tells;
    ReachedKeeps(s);
    UnmixedTells(s, c);
    var ms, os, id := s.out.committed, s.origins, s.clients[c].snd.id;
    assert ClientOk(s, c) && Relayed(s, c);
    ChosenPrefix(Delivered(s.clients[c]), s.clients[c].committed, s.verdicts[c]);
    if Unmixed(s, c) {
      ByIsFrom(ms, os, id, c);
    } else {
      forall i | 0 <= i < |ms| && os[i] == Some(c) ensures ms[i].sender == id { assert Sourced(s, i); }
      ByExceedsFrom(ms, os, id, c);
    }
  }

  /** So a reader that goes by the stamp is given, in order, what `c` committed and the hooks let pass, */
  lemma RelayedInOrder(s: System, r: nat, c: nat)
    requires Reached(s) && r in s.out.rcvs && c in s.clients && Unmixed(s, c)
    ensures c in s.verdicts && |s.verdicts[c]| <= |s.clients[c].committed|
    ensures By(s.out.rcvs[r].delivered, s.clients[c].snd.id) <= Chosen(s.clients[c].committed, s.verdicts[c])
  {
    hide Inv, By, Chosen, Reached, Unmixed, RelayInv;
    SharedIdsMix(s, c);
    ReachedKeeps(s);
    AllTraced(s);
    Safety.DeliveredHere(s.out, r);
    ByPrefix(s.out.rcvs[r].delivered, s.out.committed, s.clients[c].snd.id);
  }

  /** and all of it once broker and reader have caught up; should anything else have been let onto the
      chain under that id, it then has been given too much. */
  lemma RelayedAll(s: System, r: nat, c: nat)
    requires Reached(s) && r in s.out.rcvs && c in s.clients && s.hand.Empty?
    requires Safety.ReportsNone(s.out, r) && Safety.ReportsNone(s.clients[c], 0)
    ensures c in s.verdicts && |s.verdicts[c]| == |s.clients[c].committed|
    ensures By(s.out.rcvs[r].delivered, s.clients[c].snd.id) == Chosen(s.clients[c].committed, s.verdicts[c])
            <==> Unmixed(s, c)
  {
    hide Inv, By, From, Chosen, Reached, Unmixed, RelayInv, Tells, Sourced;
    ForwardedAll(s, r, c);
    SharedIdsMix(s, c);
    ReachedKeeps(s);
    AllTraced(s);
    Safety.NoneMeansAllHere(s.out, r);
    if Unmixed(s, c) {
      UnmixedTells(s, c);
      ByIsFrom(s.out.committed, s.origins, s.clients[c].snd.id, c);
    }
  }

  // ------------------------------------------------------- runs in which ids mix

  lemma {:induction false} RunSnoc(s: System, es: seq<Event>, e: Event)
    requires CanRun(s, es) && CanHappen(RunAll(s, es), e)
    ensures CanRun(s, es + [e]) && RunAll(s, es + [e]) == Happen(RunAll(s, es), e)
    decreases |es|
  {
    hide CanHappen, Happen;
    if es == [] {
      assert ([] + [e])[1..] == [];
    } else {
      assert (es + [e])[1..] == es[1..] + [e];
      RunSnoc(Happen(s, es[0]), es[1..], e);
    }
  }

  lemma ReachedStart(s: System)
    requires Start(s)
    ensures Reached(s)
  {
    hide Start;
    assert CanRun(s, []) && RunAll(s, []) == s;
  }

  lemma ReachedStep(s: System, e: Event)
    requires Reached(s) && CanHappen(s, e)
    ensures Reached(Happen(s, e))
  {
    hide CanRun, RunAll, Start, CanHappen, Happen;
    var s0: System, es: seq<Event> :| Start(s0) && CanRun(s0, es) && RunAll(s0, es) == s;
    RunSnoc(s0, es, e);
  }

  const EMPTY_MSG := Write(1, 0, Bytes([]))

  /** `m`, an empty message, is the one message on the first page of the chain. */
  predicate OnlyHolds(w: World, m: Msg) {
    && w.chain != [] && w.chain[0] in w.pages && w.rcvs == map[] && w.committed == [m]
    && var p := w.pages[w.chain[0]];
       p.currentMsgId == 1 && MsgAt(p, 0) == m && InShmem(p, 0) && m.tag == 1 && m.bufLenPadded == PaddedLen(0, 0)
  }

  predicate HasSpace(w: World, len: nat) { Init(w) && HasRoom(0, w.pages[w.chain[0]].sizeTotal, len) }

  /** A new chain with room for an empty message takes one. */
  lemma FirstMessage(w: World) returns (w1: World, w2: World, w3: World)
    requires HasSpace(w, 0)
    ensures Enabled(w, Alloc(0)) && w1 == Apply(w, Alloc(0)) && w1.committed == []
    ensures Enabled(w1, EMPTY_MSG) && w2 == Apply(w1, EMPTY_MSG) && w2.committed == []
    ensures Enabled(w2, Send(true)) && w3 == Apply(w2, Send(true)) && |w3.committed| == 1 && OnlyHolds(w3, w3.committed[0])
    ensures w3.snd.id == w.snd.id
  {
    assert Current(w) == w.chain[0];
    w1 := AllocStep(w, 0);
    assert w1.snd.pending == Some(0) && Current(w1) == w.chain[0] && MsgAt(w1.pages[w.chain[0]], 0).bufLen == 0;
    w2 := WriteStep(w1, 1, 0, Bytes([]));
    w3 := SendStep(w2, true);
  }

  /** The broker finds it. */
  lemma FirstRead(w: World, m: Msg) returns (w1: World, w2: World, w3: World, w4: World)
    requires OnlyHolds(w, m)
    ensures Enabled(w, Attach(0, true)) && w1 == Apply(w, Attach(0, true)) && Delivered(w1) == []
    ensures Enabled(w1, Join(0)) && w2 == Apply(w1, Join(0)) && Delivered(w2) == []
    ensures Enabled(w2, Load(0)) && w3 == Apply(w2, Load(0)) && Delivered(w3) == []
    ensures Enabled(w3, Read(0)) && w4 == Apply(w3, Read(0)) && Delivered(w4) == [m] && w4.snd.id == w.snd.id
  {
    w1 := AttachStep(w, 0, true);
    w2 := JoinStep(w1, 0);
    w3 := WithReceiver(w2, 0, LoadStep(w2.rcvs[0], w2.pages[w2.rcvs[0].page]));
    assert w3.rcvs[0].pc == Reading(0);
    w4 := WithReceiver(w3, 0, ReadStep(w3.rcvs[0], w3.pages[w3.rcvs[0].page]));
  }

  /** `base` with client `c` at `w`. */
  function At(base: System, c: nat, w: World): (s: System) { base.(clients := base.clients[c := w]) }

  lemma ClientMoves(base: System, c: nat, w: World, a: Action)
    requires Reached(At(base, c, w)) && OwnAction(a) && Enabled(w, a)
    ensures Reached(At(base, c, Apply(w, a)))
  {
    hide Reached, Enabled, Apply, OwnAction;
    ReachedStep(At(base, c, w), ClientStep(c, a));
    assert base.clients[c := w][c := Apply(w, a)] == base.clients[c := Apply(w, a)];
  }

  lemma BrokerPolls(base: System, c: nat, w: World, a: Action)
    requires Reached(At(base, c, w)) && base.hand.Empty? && OutIdle(base) && Enabled(w, a)
    requires a == Attach(0, true) || a == Load(0) || a == Read(0) || a == Join(0)
    ensures var w' := Apply(w, a); var d, d' := Delivered(w), Delivered(w');
            && (d' == d ==> Reached(At(base, c, w')))
            && (|d'| > |d| ==> Reached(At(base, c, w').(hand := Taken(c, d'[|d'| - 1]))))
  {
    hide Reached, Enabled, Apply, Delivered;
    ReachedStep(At(base, c, w), Poll(c, a));
    assert base.clients[c := w][c := Apply(w, a)] == base.clients[c := Apply(w, a)];
  }

  lemma BrokerSends(s: System, a: Action)
    requires Reached(s) && s.hand.Empty? && OwnAction(a) && Enabled(s.out, a)
    ensures var w := Apply(s.out, a); Reached(s.(out := w, origins := Traced(s, w, None)))
  {
    hide Reached, Enabled, Apply, OwnAction, Traced;
    ReachedStep(s, OutStep(a));
  }

  lemma Enters(s: System, c: nat, w: World)
    requires Reached(s) && c !in s.clients && Init(w)
    ensures Reached(s.(clients := s.clients[c := w], verdicts := s.verdicts[c := []]))
  {
    hide Reached, Init, Enabled, Apply;
    ReachedStep(s, Enter(c, w));
  }

  lemma ClientSendsFirst(base: System, c: nat, w0: World) returns (w: World)
    requires Reached(At(base, c, w0)) && HasSpace(w0, 0)
    ensures Reached(At(base, c, w)) && |w.committed| == 1 && OnlyHolds(w, w.committed[0]) && w.snd.id == w0.snd.id
  {
    hide Reached, Enabled, Apply, HasSpace, OnlyHolds, At;
    var w1, w2, w3 := FirstMessage(w0);
    ClientMoves(base, c, w0, Alloc(0));
    ClientMoves(base, c, w1, EMPTY_MSG);
    ClientMoves(base, c, w2, Send(true));
    w := w3;
  }

  lemma BrokerReadsFirst(base: System, c: nat, w0: World, m: Msg) returns (w: World)
    requires Reached(At(base, c, w0)) && base.hand.Empty? && OutIdle(base) && OnlyHolds(w0, m)
    ensures Reached(At(base, c, w).(hand := Taken(c, m))) && w.snd.id == w0.snd.id
  {
    assert Delivered(w0) == [];
    hide Reached, Enabled, Apply, OnlyHolds, Delivered, At, OutIdle;
    var w1, w2, w3, w4 := FirstRead(w0, m);
    BrokerPolls(base, c, w0, Attach(0, true));
    BrokerPolls(base, c, w1, Join(0));
    BrokerPolls(base, c, w2, Load(0));
    BrokerPolls(base, c, w3, Read(0));
    w := w4;
  }

  /** The broadcast chain, still new, has room for the copy. */
  lemma FirstAlloc(w: World, len: nat)
    requires HasSpace(w, len) && LenFits(len)
    ensures Enabled(w, Alloc(len)) && w.committed == []
    ensures var w1 := Apply(w, Alloc(len));
            && w1.committed == [] && w1.snd.id == w.snd.id && HasPending(w1)
            && MsgAt(w1.pages[Current(w1)], w1.snd.pending.value).bufLen == len
  {
    assert Current(w) == w.chain[0];
    var w1 := AllocStep(w, len);
    assert w1.snd.pending == Some(0) && Current(w1) == w.chain[0];
  }

  lemma ForwardAlloc(s: System) returns (s': System)
    requires Reached(s) && s.hand.Taken? && HasSpace(s.out, s.hand.m.bufLenPadded) && LenFits(s.hand.m.bufLenPadded)
    ensures Reached(s') && s' == s.(out := s'.out) && s'.out.snd.id == s.out.snd.id && HasPending(s'.out)
    ensures MsgAt(s'.out.pages[Current(s'.out)], s'.out.snd.pending.value).bufLen == s.hand.m.bufLenPadded
  {
    var a := Alloc(s.hand.m.bufLenPadded);
    FirstAlloc(s.out, a.len);
    hide Reached, HasSpace, Enabled, Apply, HasPending;
    ReachedStep(s, OutStep(a));
    s' := Happen(s, OutStep(a));
  }

  lemma ForwardCopy(s: System) returns (s': System)
    requires Reached(s) && s.hand.Taken? && HasPending(s.out)
    requires MsgAt(s.out.pages[Current(s.out)], s.out.snd.pending.value).bufLen == s.hand.m.bufLenPadded
    ensures Reached(s') && s' == s.(out := s'.out, hand := Cloned(s.hand.client, s.hand.m)) && s'.out.snd.id == s.out.snd.id
  {
    HandCanBeCopied(s);
    hide Reached, HasPending;
    ReachedStep(s, Copy);
    s' := Happen(s, Copy);
  }

  lemma ForwardPublish(s: System) returns (s': System)
    requires Reached(s) && s.hand.Cloned? && s.hand.client in s.verdicts
    ensures Reached(s') && s'.clients == s.clients && s'.out.snd.id == s.out.snd.id
    ensures var c := s.hand.client; s'.verdicts == s.verdicts[c := s.verdicts[c] + [true]]
  {
    hide Reached, RelayInv, Inv, ClientOk, Relayed, Sourced, Enabled, Apply, Init, Traced;
    ReachedKeeps(s);
    AllTraced(s);
    HandFacts(s);
    PublishStep(s.out, s.hand.m);
    hide SendStep;
    ReachedStep(s, Publish);
    s' := Happen(s, Publish);
  }

  lemma BrokerSendsFirst(s: System) returns (w: World)
    requires Reached(s) && s.hand.Empty? && s.origins == [] && HasSpace(s.out, 0)
    ensures Reached(s.(out := w, origins := [None])) && w.snd.id == s.out.snd.id
  {
    NewlyEmpty(s.out);
    var w1, w2, w3 := FirstMessage(s.out);
    hide Reached, Enabled, Apply, HasSpace, OnlyHolds;
    BrokerSends(s, Alloc(0));
    var s1, s2 := s.(out := w1), s.(out := w2);
    assert Traced(s, w1, None) == [] && Traced(s1, w2, None) == [] && Traced(s2, w3, None) == [None];
    hide Traced;
    BrokerSends(s1, EMPTY_MSG);
    BrokerSends(s2, Send(true));
    w := w3;
  }

  lemma NewlyEmpty(w: World)
    requires HasSpace(w, 0)
    ensures w.committed == []
  {
  }

  lemma NewSystem(out: World)
    requires Init(out)
    ensures var s := System(map[], out, Empty, map[], []); Reached(s) && OutIdle(s)
  {
    hide Reached;
    ReachedStart(System(map[], out, Empty, map[], []));
  }

  /** Under the broker's own id: it sends a message before the client of that id has sent any. */
  lemma OwnMessageFirst(out: World, w: World) returns (s: System)
    requires HasSpace(out, 0) && Init(w) && w.snd.id == out.snd.id
    ensures Reached(s) && s.clients == map[w.snd.id := w] && w.committed == [] && !Unmixed(s, w.snd.id)
  {
    NewSystem(out);
    InitFacts(w);
    hide Init, Reached, Enabled, Apply, HasSpace, Inv, Delivered;
    var s0 := System(map[], out, Empty, map[], []);
    var w' := BrokerSendsFirst(s0);
    var s1 := s0.(out := w', origins := [None]);
    Enters(s1, w.snd.id, w);
    s := s1.(clients := map[w.snd.id := w], verdicts := map[w.snd.id := []]);
  }

  /** Under another id: two clients, filed under `c` and `d`, stamp the same one, and a message of the
      first is let pass before the second has sent any. */
  lemma TwoClientsOneId(out: World, w: World, w': World, c: nat, d: nat) returns (s: System)
    requires HasSpace(out, PaddedLen(0, 0)) && HasSpace(w, 0) && Init(w') && c != d
    requires w.snd.id == w'.snd.id != out.snd.id
    ensures Reached(s) && c in s.clients && d in s.clients && s.clients[d] == w' && w'.committed == []
    ensures s.out.snd.id == out.snd.id && s.clients[c].snd.id == w.snd.id && !Unmixed(s, d)
  {
    var s0 := System(map[], out, Empty, map[], []);
    NewSystem(out);
    InitFacts(w');
    assert LenFits(PaddedLen(0, 0));
    hide Init, Reached, Enabled, Apply, Unmixed, OnlyHolds, HasSpace, Inv, Delivered, PaddedLen, LenFits, OutIdle;
    Enters(s0, d, w');
    var s1 := s0.(clients := map[d := w'], verdicts := map[d := []]);
    assert Init(w) by { InSpace(w, 0); }
    Enters(s1, c, w);
    var s2 := s1.(verdicts := s1.verdicts[c := []]);
    var w1 := ClientSendsFirst(s2, c, w);
    var m := w1.committed[0];
    HeldLength(w1, m);
    var w2 := BrokerReadsFirst(s2, c, w1, m);
    s := ForwardAlloc(At(s2, c, w2).(hand := Taken(c, m)));
    s := ForwardCopy(s);
    s := ForwardPublish(s);
    assert s.verdicts[c] == [] + [true];
    SharedStamp(s, c, d);
  }

  lemma InSpace(w: World, len: nat)
    requires HasSpace(w, len)
    ensures Init(w)
  {
  }

  lemma HeldLength(w: World, m: Msg)
    requires OnlyHolds(w, m)
    ensures m.bufLenPadded == PaddedLen(0, 0)
  {
  }

  lemma SharedStamp(s: System, c: nat, d: nat)
    requires c in s.clients && d in s.clients && c != d && s.clients[c].snd.id == s.clients[d].snd.id
    requires c in s.verdicts && true in s.verdicts[c]
    ensures !Unmixed(s, d)
  {
  }
}
