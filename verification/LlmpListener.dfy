/** The ids the TCP listener hands out, against the ids the broker files clients under.

    The listener counts on its own and announces clients over a channel the
    broker reads in order; the broker counts when it gets to each announcement. */
module LlmpListener {
  import opened Base

  datatype State = State(
    seen: nat,                    // the broker's num_clients_seen
    current: nat,                 // the listener's current_client_id
    queue: seq<bool>,             // announced and not yet handled; does the map open?
    told: seq<nat>,               // history: the id told with the k-th announcement
    filed: seq<Option<nat>>,      // history: the id the k-th announcement was filed under, if it was
    registered: nat,              // history: clients registered by others
    others: seq<nat>)             // history: how many of those before the k-th was handled

  datatype Event =
    | LocalHello(opens: bool)                                        // TcpRequest::LocalClientHello
    | RemoteHello(tcpOk: bool, threadOk: bool, opens: bool)          // TcpRequest::RemoteBrokerHello
    | ClientQuit                                                     // TcpRequest::ClientQuit
    | HandleNext                                                     // the broker reads the next announcement
    | Register                                                       // register_client by someone else

  /** launch_listener on a broker that has seen `before` clients: the listener itself is the next one. */
  function Launch(before: nat): (s: State) {
    State(before + 1, before + 1, [], [], [], 0, [])
  }

  function FiledCount(filed: seq<Option<nat>>): (n: nat)
    ensures n <= |filed|
  {
    if filed == [] then 0
    else FiledCount(filed[..|filed| - 1]) + if filed[|filed| - 1].Some? then 1 else 0
  }

  function Announce(s: State, opens: bool): (s': State) {
    s.(current := s.current + 1, queue := s.queue + [opens], told := s.told + [s.current])
  }

  function Step(s: State, e: Event): (s': State) {
    match e
    case LocalHello(opens) => Announce(s, opens)
    case RemoteHello(tcpOk, threadOk, opens) => if tcpOk && threadOk then Announce(s, opens) else s
    case ClientQuit => s
    case HandleNext =>
      if s.queue == [] then s
      else
        var filed := if s.queue[0] then Some(s.seen) else None;
        s.(queue := s.queue[1..], filed := s.filed + [filed], seen := s.seen + (if s.queue[0] then 1 else 0),
           others := s.others + [s.registered])
    case Register => s.(seen := s.seen + 1, registered := s.registered + 1)
  }

  function Run(s: State, es: seq<Event>): (s': State)
    decreases |es|
  {
    if es == [] then s else Step(Run(s, es[..|es| - 1]), es[|es| - 1])
  }

  ghost predicate Inv(s: State, launched: nat) {
    && |s.told| == |s.filed| + |s.queue| && |s.others| == |s.filed|
    && s.current == launched + 1 + |s.told|
    && (forall k :: 0 <= k < |s.told| ==> s.told[k] == launched + 1 + k)
    && s.seen == launched + 1 + s.registered + FiledCount(s.filed)
    && (forall k :: 0 <= k < |s.filed| && s.filed[k].Some? ==>
          s.filed[k].value == launched + 1 + FiledCount(s.filed[..k]) + s.others[k])
  }

  lemma {:induction false} StepInv(s: State, e: Event, launched: nat)
    requires Inv(s, launched)
    ensures Inv(Step(s, e), launched)
  {
    var s' := Step(s, e);
    if e.HandleNext? && s.queue != [] {
      var n := |s.filed|;
      assert s'.filed[..n] == s.filed;
      forall k | 0 <= k < n + 1 && s'.filed[k].Some?
        ensures s'.filed[k].value == launched + 1 + FiledCount(s'.filed[..k]) + s'.others[k]
      {
        assert s'.filed[..k] == s.filed[..k] || k == n;
      }
    }
  }

  lemma {:induction false} RunInv(es: seq<Event>, launched: nat)
    ensures Inv(Run(Launch(launched), es), launched)
    decreases |es|
  {
    if es != [] {
      RunInv(es[..|es| - 1], launched);
      StepInv(Run(Launch(launched), es[..|es| - 1]), es[|es| - 1], launched);
    }
  }

  // ------------------------------------------------- a run, said of its events

  /** The events that announce a client, as whether its map opens. */
  function Announced(es: seq<Event>): (opens: seq<bool>) {
    if es == [] then [] else Announced(es[..|es| - 1]) + AnnouncedBy(es[|es| - 1])
  }

  function AnnouncedBy(e: Event): (opens: seq<bool>) {
    match e
    case LocalHello(opens) => [opens]
    case RemoteHello(tcpOk, threadOk, opens) => if tcpOk && threadOk then [opens] else []
    case _ => []
  }

  function Registers(es: seq<Event>): (n: nat) {
    if es == [] then 0 else Registers(es[..|es| - 1]) + if es[|es| - 1].Register? then 1 else 0
  }

  function Handles(es: seq<Event>): (n: nat) {
    if es == [] then 0 else Handles(es[..|es| - 1]) + if es[|es| - 1].HandleNext? then 1 else 0
  }

  function OpenCount(opens: seq<bool>): (n: nat) {
    if opens == [] then 0 else OpenCount(opens[..|opens| - 1]) + if opens[|opens| - 1] then 1 else 0
  }

  function WasFiled(filed: seq<Option<nat>>): (opens: seq<bool>)
    ensures |opens| == |filed| && forall k :: 0 <= k < |filed| ==> opens[k] == filed[k].Some?
  {
    seq(|filed|, i requires 0 <= i < |filed| => filed[i].Some?)
  }

  lemma {:induction false} OpenIsFiled(filed: seq<Option<nat>>)
    ensures OpenCount(WasFiled(filed)) == FiledCount(filed)
    decreases |filed|
  {
    if filed != [] {
      var front := filed[..|filed| - 1];
      OpenIsFiled(front);
      assert WasFiled(filed)[..|front|] == WasFiled(front);
    }
  }

  lemma {:induction false} StepCounts(s: State, e: Event, s': State)
    requires s' == Step(s, e)
    ensures WasFiled(s'.filed) + s'.queue == WasFiled(s.filed) + s.queue + AnnouncedBy(e)
    ensures |s'.told| == |s.told| + |AnnouncedBy(e)| && s'.registered == s.registered + if e.Register? then 1 else 0
    ensures |s'.filed| == |s.filed| + if e.HandleNext? && s.queue != [] then 1 else 0
  {
    if e.HandleNext? && s.queue != [] {
      assert WasFiled(s'.filed) == WasFiled(s.filed) + [s.queue[0]];
      assert s.queue == [s.queue[0]] + s.queue[1..];
    }
  }

  /** In every run: an id is told for each announcing event and no other; the announcements handled
      and still queued are those events' in order; only Register events register. */
  lemma {:induction false} RunCounts(es: seq<Event>, launched: nat)
    ensures var s := Run(Launch(launched), es);
            && |s.told| == |Announced(es)| && WasFiled(s.filed) + s.queue == Announced(es)
            && s.registered == Registers(es)
    decreases |es|
  {
    if es != [] {
      hide Step, WasFiled, AnnouncedBy;
      var front, e := es[..|es| - 1], es[|es| - 1];
      RunCounts(front, launched);
      StepCounts(Run(Launch(launched), front), e, Run(Launch(launched), es));
    }
  }

  /** At any point of the run, no more is handled than was announced up to there and asked for since. */
  ghost predicate Bounds(es: seq<Event>, n: nat) {
    forall j :: 0 <= j <= |es| ==> n <= |Announced(es[..j])| + Handles(es[j..])
  }

  lemma {:induction false} HandlesSnoc(es: seq<Event>, e: Event, j: nat)
    requires j <= |es|
    ensures Handles((es + [e])[j..]) == Handles(es[j..]) + (if e.HandleNext? then 1 else 0) && (es + [e])[..j] == es[..j]
  {
    assert (es + [e])[j..][..|es| - j] == es[j..];
  }

  lemma {:induction false} FiledIsTold(es: seq<Event>, launched: nat)
    ensures var s := Run(Launch(launched), es); |s.filed| + |s.queue| == |Announced(es)|
  {
    RunCounts(es, launched);
  }

  lemma {:induction false} BoundsSnoc(front: seq<Event>, e: Event, n: nat, n': nat)
    requires Bounds(front, n) && n' <= |Announced(front + [e])| && n <= n' <= n + if e.HandleNext? then 1 else 0
    ensures Bounds(front + [e], n')
  {
    hide Announced, Handles;
    var es := front + [e];
    forall i | 0 <= i <= |es| ensures n' <= |Announced(es[..i])| + Handles(es[i..]) {
      if i < |es| {
        HandlesSnoc(front, e, i);
      } else {
        assert es[..i] == es;
      }
    }
  }

  /** How many announcements a run has handled: the least, over all points of the run, of those
      announced before it and the HandleNext events after it. */
  lemma {:induction false} HandledCount(es: seq<Event>, launched: nat) returns (j: nat)
    ensures var n := |Run(Launch(launched), es).filed|;
            Bounds(es, n) && j <= |es| && n == |Announced(es[..j])| + Handles(es[j..])
    decreases |es|
  {
    if es == [] {
      j := 0;
    } else {
      var front, e := es[..|es| - 1], es[|es| - 1];
      var s, s' := Run(Launch(launched), front), Run(Launch(launched), es);
      j := HandledCount(front, launched);
      FiledIsTold(es, launched);
      StepCounts(s, e, s');
      hide Run, Step, Announced, Handles, Bounds, AnnouncedBy, WasFiled;
      assert front + [e] == es;
      BoundsSnoc(front, e, |s.filed|, |s'.filed|);
      HandlesSnoc(front, e, j);
      if e.HandleNext? && s.queue == [] {
        RunCounts(es, launched);
        j := |es|;
        NothingAfter(es);
      }
    }
  }

  lemma NothingAfter(es: seq<Event>)
    ensures es[..|es|] == es && Handles(es[|es|..]) == 0
  {
  }

  /** Every id of a run from its events: the k-th announcement is told the k-th id after the
      listener's, and is filed, if its map opens, when the broker handles it, behind the
      registrations up to then and the announcements before it that opened. */
  lemma {:induction false} IdsFromEvents(es: seq<Event>, launched: nat, k: nat) returns (j: nat)
    requires k < |Run(Launch(launched), es).filed|
    ensures j < |es| && es[j].HandleNext? && |Run(Launch(launched), es[..j]).filed| == k < |Announced(es)|
    ensures var s := Run(Launch(launched), es);
            && |s.told| == |Announced(es)| && s.told[k] == launched + 1 + k && |s.others| == |s.filed|
            && s.others[k] == Registers(es[..j])
            && s.filed[k] == if Announced(es)[k]
                             then Some(launched + 1 + Registers(es[..j]) + OpenCount(Announced(es)[..k])) else None
  {
    RunInv(es, launched);
    RunCounts(es, launched);
    j := HandledAt(es, launched, k);
    var s, opens := Run(Launch(launched), es), Announced(es);
    hide Run, Announced, OpenCount, FiledCount, Registers;
    OpenIsFiled(s.filed[..k]);
    assert WasFiled(s.filed[..k]) == opens[..k];
    assert opens[k] == WasFiled(s.filed)[k];
  }

  lemma {:induction false} HandledAt(es: seq<Event>, launched: nat, k: nat) returns (j: nat)
    requires k < |Run(Launch(launched), es).filed|
    ensures j < |es| && es[j].HandleNext? && |Run(Launch(launched), es[..j]).filed| == k
    ensures var s := Run(Launch(launched), es); |s.others| == |s.filed| && s.others[k] == Registers(es[..j])
    decreases |es|
  {
    hide Step, Registers, Announced, Inv;
    var front, s0 := es[..|es| - 1], Launch(launched);
    RunCounts(front, launched);
    RunInv(front, launched);
    OthersStep(Run(s0, front), es[|es| - 1], launched);
    if k < |Run(s0, front).filed| {
      j := HandledAt(front, launched, k);
      assert front[..j] == es[..j];
    } else {
      j := |es| - 1;
    }
  }

  /** One more announcement is handled, with the registrations so far on record, or none. */
  lemma OthersStep(s: State, e: Event, launched: nat)
    requires Inv(s, launched)
    ensures var s' := Step(s, e);
            && |s.others| == |s.filed| && |s'.others| == |s'.filed|
            && (s'.others == s.others || (e.HandleNext? && s'.others == s.others + [s.registered]))
  {
  }

  // ----------------------------------------------------------- the two counters

  /** How many of the first `k` announcements named a map that did not open. */
  function Failures(filed: seq<Option<nat>>, k: nat): (n: nat)
    requires k <= |filed|
  {
    k - FiledCount(filed[..k])
  }

  /** In every run, a client is filed under the id it was told exactly when, up to then, other
      registrations and announcements that could not be opened balance. */
  lemma ToldIdLaw(es: seq<Event>, launched: nat, k: nat)
    requires var s := Run(Launch(launched), es); k < |s.filed| && s.filed[k].Some?
    ensures var s := Run(Launch(launched), es);
            && |s.others| == |s.filed| <= |s.told|
            && s.filed[k].value == s.told[k] + s.others[k] - Failures(s.filed, k)
            && (s.filed[k].value == s.told[k] <==> s.others[k] == Failures(s.filed, k))
  {
    RunInv(es, launched);
  }

  predicate OnlyListener(es: seq<Event>) {
    forall i :: 0 <= i < |es| ==> !es[i].Register?
  }

  predicate EveryMapOpens(es: seq<Event>) {
    forall i :: 0 <= i < |es| ==>
      (es[i].LocalHello? ==> es[i].opens) && (es[i].RemoteHello? ==> es[i].opens)
  }

  lemma {:induction false} QuietRun(es: seq<Event>, launched: nat)
    requires OnlyListener(es) && EveryMapOpens(es)
    ensures var s := Run(Launch(launched), es);
            && s.registered == 0
            && (forall k :: 0 <= k < |s.queue| ==> s.queue[k])
            && (forall k :: 0 <= k < |s.filed| ==> s.filed[k].Some?)
            && (forall k :: 0 <= k < |s.others| ==> s.others[k] == 0)
    decreases |es|
  {
    if es != [] {
      var front := es[..|es| - 1];
      QuietRun(front, launched);
      var s := Run(Launch(launched), front);
      var s' := Step(s, es[|es| - 1]);
      if es[|es| - 1].HandleNext? && s.queue != [] { assert s'.filed[..|s.filed|] == s.filed; }
    }
  }

  lemma {:induction false} AllFiled(filed: seq<Option<nat>>)
    requires forall k :: 0 <= k < |filed| ==> filed[k].Some?
    ensures FiledCount(filed) == |filed|
    decreases |filed|
  {
    if filed != [] { AllFiled(filed[..|filed| - 1]); }
  }

  /** When only the listener registers clients and every announced map opens, every client is
      filed under the id it was told. */
  lemma ToldIdsAreFiled(es: seq<Event>, launched: nat, k: nat)
    requires OnlyListener(es) && EveryMapOpens(es)
    requires k < |Run(Launch(launched), es).filed|
    ensures var s := Run(Launch(launched), es);
            k < |s.told| && s.filed[k] == Some(s.told[k])
  {
    QuietRun(es, launched);
    ToldIdLaw(es, launched, k);
    AllFiled(Run(Launch(launched), es).filed[..k]);
  }

  /** A registration from elsewhere in between: the client is told one id and filed under the next. */
  lemma {:induction false} RegistrationShiftsIds()
    ensures var s := Run(Launch(0), [Register, LocalHello(true), HandleNext]);
            s.told == [1] && s.filed == [Some(2)]
  {
    RunThree(Launch(0), Register, LocalHello(true), HandleNext);
  }

  /** A map that does not open before: the next client is filed under the id the lost one was told. */
  lemma {:induction false} FailedMapShiftsIds()
    ensures var s := Run(Launch(0), [LocalHello(false), LocalHello(true), HandleNext, HandleNext]);
            s.told == [1, 2] && s.filed == [None, Some(1)]
  {
    var es := [LocalHello(false), LocalHello(true), HandleNext, HandleNext];
    RunSnoc(Launch(0), es[..3], HandleNext);
    assert es[..3] == [LocalHello(false), LocalHello(true), HandleNext] && es[..3] + [HandleNext] == es;
    RunThree(Launch(0), LocalHello(false), LocalHello(true), HandleNext);
  }

  lemma {:induction false} RunSnoc(s: State, es: seq<Event>, e: Event)
    ensures Run(s, es + [e]) == Step(Run(s, es), e)
  {
    assert (es + [e])[..|es|] == es;
  }

  lemma {:induction false} RunThree(s: State, a: Event, b: Event, c: Event)
    ensures Run(s, [a, b, c]) == Step(Step(Step(s, a), b), c)
  {
    hide Step;
    RunSnoc(s, [], a);
    RunSnoc(s, [a], b);
    RunSnoc(s, [a, b], c);
    assert [] + [a] == [a] && [a] + [b] == [a, b] && [a, b] + [c] == [a, b, c];
  }
}
