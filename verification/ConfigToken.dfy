/** The config-request protocol: every worker of every group, the two atomics
    of the first group, and the channel that carries the one configuration
    (internal/core/group.go, session.go, core.go). */
module ConfigToken {
  const WORKERS_PER_GROUP: nat := 9
  const CHANNEL_CAP: nat := 1

  /** Where a worker is between two atomic steps. */
  datatype Pc =
    | NotStarted
    | Top                                       // head of the retry loop
    | LoadedZero                                // has read configSent == 0
    | InSession(getConf: bool, delivered: bool) // inside RunSession
    | Returned(getConf: bool, delivered: bool)  // RunSession has returned
    | Exited

  /** `sends` counts successful sends on configCh, `already` the times the
      "already delivered" branch ran, `lateSends` attempts after the close. */
  datatype State = State(
    pcs: seq<Pc>, configSent: bool, inFlight: bool,
    queued: nat, received: nat, closed: bool,
    sends: nat, already: nat, lateSends: nat)

  function Start(groups: nat): State {
    State(seq(groups * WORKERS_PER_GROUP, i => NotStarted), false, false, 0, 0, false, 0, 0, 0)
  }

  /** Only the workers of the first group are told to get a configuration. */
  predicate ShouldGetConfig(w: nat) { w < WORKERS_PER_GROUP }

  datatype Action =
    | Spawn(w: nat)       // the goroutine starts
    | GroupGone(w: nat)   // its group gave up before starting it
    | Begin(w: nat)       // the loop head: load configSent if this worker may ask
    | Swap(w: nat)        // compare-and-swap of configRequestInFlight
    | Deliver(w: nat)     // RunSession got a configuration: the non-blocking send
    | Return(w: nat)      // RunSession returns, with or without an error
    | Settle(w: nat)      // the store after RunSession
    | Quit(w: nat)        // context done, or a fatal error
    | Receive             // the single consumer
    | CloseChannel        // all groups have been waited for

  predicate Enabled(s: State, a: Action) {
    match a
    case Spawn(w) => w < |s.pcs| && s.pcs[w] == NotStarted
    case GroupGone(w) => w < |s.pcs| && s.pcs[w] == NotStarted
    case Begin(w) => w < |s.pcs| && s.pcs[w] == Top
    case Swap(w) => w < |s.pcs| && s.pcs[w] == LoadedZero
    case Deliver(w) => w < |s.pcs| && s.pcs[w] == InSession(true, false)
    case Return(w) => w < |s.pcs| && s.pcs[w].InSession?
    case Settle(w) => w < |s.pcs| && s.pcs[w].Returned?
    case Quit(w) => w < |s.pcs| && s.pcs[w] == Top
    case Receive => s.queued > 0 && s.received == 0
    case CloseChannel => !s.closed && forall w :: 0 <= w < |s.pcs| ==> s.pcs[w] == Exited
  }

  function At(s: State, w: nat, pc: Pc): State
    requires w < |s.pcs|
  {
    s.(pcs := s.pcs[w := pc])
  }

  function Step(s: State, a: Action): State {
    if !Enabled(s, a) then s
    else
      match a
      case Spawn(w) => At(s, w, Top)
      case GroupGone(w) => At(s, w, Exited)
      case Begin(w) =>
        At(s, w, if ShouldGetConfig(w) && !s.configSent then LoadedZero else InSession(false, false))
      case Swap(w) =>
        if s.inFlight then At(s, w, InSession(false, false))
        else At(s, w, InSession(true, false)).(inFlight := true)
      case Deliver(w) =>
        var t := At(s, w, InSession(true, true));
        if s.closed then t.(lateSends := s.lateSends + 1)
        else if s.queued < CHANNEL_CAP then t.(queued := s.queued + 1, sends := s.sends + 1)
        else t.(already := s.already + 1)
      case Return(w) => At(s, w, Returned(s.pcs[w].getConf, s.pcs[w].delivered))
      case Settle(w) =>
        var t := At(s, w, Top);
        if !s.pcs[w].getConf then t
        else if s.pcs[w].delivered then t.(configSent := true)
        else t.(inFlight := false)
      case Quit(w) => At(s, w, Exited)
      case Receive => s.(queued := s.queued - 1, received := s.received + 1)
      case CloseChannel => s.(closed := true)
  }

  function Run(groups: nat, actions: seq<Action>): State {
    if actions == [] then Start(groups)
    else Step(Run(groups, actions[..|actions| - 1]), actions[|actions| - 1])
  }

  /** The worker owns the request token. */
  predicate Holds(pc: Pc) { (pc.InSession? || pc.Returned?) && pc.getConf }

  ghost predicate Held(s: State) { exists w :: 0 <= w < |s.pcs| && Holds(s.pcs[w]) }

  ghost predicate Invariant(s: State) {
    // one holder at most, and the flag says whether the token is out
    && (forall v, w :: 0 <= v < |s.pcs| && 0 <= w < |s.pcs| && Holds(s.pcs[v]) && Holds(s.pcs[w]) ==> v == w)
    && (s.inFlight <==> Held(s) || s.configSent)
    && !(Held(s) && s.configSent)
    // a configuration has been sent iff the holder sent it or it is on record
    && (forall w :: 0 <= w < |s.pcs| && Holds(s.pcs[w]) ==> (s.pcs[w].delivered <==> s.sends == 1))
    && (s.configSent ==> s.sends == 1)
    && (s.sends == 1 ==> s.inFlight)
    && s.sends <= 1 && s.queued + s.received == s.sends
    && s.already == 0 && s.lateSends == 0
    && (s.closed ==> forall w :: 0 <= w < |s.pcs| ==> s.pcs[w] == Exited)
    && (forall w :: 0 <= w < |s.pcs| && !s.pcs[w].NotStarted? && (Holds(s.pcs[w]) || s.pcs[w].LoadedZero?) ==> ShouldGetConfig(w))
    && (forall w :: 0 <= w < |s.pcs| && (s.pcs[w].InSession? || s.pcs[w].Returned?) && s.pcs[w].delivered ==> s.pcs[w].getConf)
  }

  /** A worker that neither held the token nor takes it moves on. */
  lemma Bystander(s: State, w: nat, pc: Pc)
    requires Invariant(s) && w < |s.pcs| && !Holds(s.pcs[w]) && !Holds(pc)
    requires s.pcs[w] != Exited
    requires pc.LoadedZero? ==> ShouldGetConfig(w)
    requires (pc.InSession? || pc.Returned?) ==> !pc.delivered
    ensures Invariant(At(s, w, pc))
  {
    var t := At(s, w, pc);
    if Held(s) {
      var v :| 0 <= v < |s.pcs| && Holds(s.pcs[v]);
      assert Holds(t.pcs[v]);
    }
    if Held(t) {
      var v :| 0 <= v < |t.pcs| && Holds(t.pcs[v]);
      assert Holds(s.pcs[v]);
    }
  }

  lemma SwapKeeps(s: State, w: nat)
    requires Invariant(s) && Enabled(s, Swap(w)) && !s.inFlight
    ensures Invariant(Step(s, Swap(w)))
  {
    var t := Step(s, Swap(w));
    assert Holds(t.pcs[w]);
    assert forall v :: 0 <= v < |s.pcs| && v != w ==> t.pcs[v] == s.pcs[v] && !Holds(s.pcs[v]);
  }

  lemma DeliverKeeps(s: State, w: nat)
    requires Invariant(s) && Enabled(s, Deliver(w))
    ensures Invariant(Step(s, Deliver(w)))
  {
    var t := Step(s, Deliver(w));
    assert Holds(s.pcs[w]) && Holds(t.pcs[w]);
    assert s.sends == 0 && !s.closed;
  }

  lemma ReturnKeeps(s: State, w: nat)
    requires Invariant(s) && Enabled(s, Return(w)) && s.pcs[w].getConf
    ensures Invariant(Step(s, Return(w)))
  {
    var t := Step(s, Return(w));
    assert Holds(s.pcs[w]) && Holds(t.pcs[w]);
  }

  lemma SettleKeeps(s: State, w: nat)
    requires Invariant(s) && Enabled(s, Settle(w)) && s.pcs[w].getConf
    ensures Invariant(Step(s, Settle(w))) && !Held(Step(s, Settle(w)))
  {
  }

  lemma StepKeepsInvariant(s: State, a: Action)
    requires Invariant(s)
    ensures Invariant(Step(s, a))
  {
    if Enabled(s, a) {
      match a
      case Spawn(w) => Bystander(s, w, Top);
      case GroupGone(w) => Bystander(s, w, Exited);
      case Begin(w) => Bystander(s, w, Step(s, a).pcs[w]);
      case Swap(w) => if s.inFlight { Bystander(s, w, InSession(false, false)); } else { SwapKeeps(s, w); }
      case Deliver(w) => DeliverKeeps(s, w);
      case Return(w) => if s.pcs[w].getConf { ReturnKeeps(s, w); } else { Bystander(s, w, Returned(false, false)); }
      case Settle(w) => if s.pcs[w].getConf { SettleKeeps(s, w); } else { Bystander(s, w, Top); }
      case Quit(w) => Bystander(s, w, Exited);
      case Receive =>
      case CloseChannel =>
    }
  }

  /** Nine workers a group, no more and no fewer. */
  lemma {:induction false} WorkersAre(groups: nat, actions: seq<Action>)
    ensures |Run(groups, actions).pcs| == 9 * groups
  {
    if actions != [] {
      WorkersAre(groups, actions[..|actions| - 1]);
    }
  }

  lemma {:induction false} RunKeepsInvariant(groups: nat, actions: seq<Action>)
    ensures Invariant(Run(groups, actions))
  {
    if actions != [] {
      RunKeepsInvariant(groups, actions[..|actions| - 1]);
      StepKeepsInvariant(Run(groups, actions[..|actions| - 1]), actions[|actions| - 1]);
    }
  }

  /** In every interleaving at most one worker holds the request, and it belongs
      to the first group. */
  lemma OneHolder(groups: nat, actions: seq<Action>, v: nat, w: nat)
    requires v < |Run(groups, actions).pcs| && w < |Run(groups, actions).pcs|
    requires Holds(Run(groups, actions).pcs[v]) && Holds(Run(groups, actions).pcs[w])
    ensures v == w && v < WORKERS_PER_GROUP
  {
    RunKeepsInvariant(groups, actions);
  }

  /** At most one configuration is ever sent and received; the "already
      delivered" branch is unreachable; nothing is sent after the close. */
  lemma OneConfiguration(groups: nat, actions: seq<Action>)
    ensures var s := Run(groups, actions);
            s.sends <= 1 && s.received <= s.sends && s.already == 0 && s.lateSends == 0
  {
    RunKeepsInvariant(groups, actions);
  }

  /** A holder that ends without delivering frees the token for the others; one
      that has delivered never does. */
  lemma TokenIsFreed(groups: nat, actions: seq<Action>, w: nat)
    requires Enabled(Run(groups, actions), Settle(w)) && Run(groups, actions).pcs[w].getConf
    ensures var s := Run(groups, actions);
            var t := Step(s, Settle(w));
            if s.pcs[w].delivered then t.configSent && t.inFlight && s.sends == 1
            else !t.configSent && !t.inFlight && s.sends == 0
  {
    RunKeepsInvariant(groups, actions);
    assert Holds(Run(groups, actions).pcs[w]);
  }

  /** The token is out exactly while a worker holds it or after delivery is on
      record: it is never leaked. */
  lemma TokenIsNeverLeaked(groups: nat, actions: seq<Action>)
    ensures var s := Run(groups, actions); s.inFlight <==> Held(s) || s.configSent
  {
    RunKeepsInvariant(groups, actions);
  }

  lemma StepNeverUnsends(s: State, a: Action)
    ensures Step(s, a).sends >= s.sends
  {
  }

  lemma {:induction false} SendsStay(groups: nat, before: seq<Action>, after: seq<Action>)
    ensures Run(groups, before + after).sends >= Run(groups, before).sends
  {
    if after == [] {
      assert before + after == before;
    } else {
      hide Step, Start;
      var front, last := before + after[..|after| - 1], after[|after| - 1];
      SendsStay(groups, before, after[..|after| - 1]);
      var all := before + after;
      assert all[..|all| - 1] == front && all[|all| - 1] == last;
      assert Run(groups, all) == Step(Run(groups, front), last);
      StepNeverUnsends(Run(groups, front), last);
    }
  }

  /** After the configuration was sent, configRequestInFlight stays 1 in every
      continuation: a worker that loaded configSent == 0 before cannot win the
      swap after, so nobody ever asks again. */
  lemma DeliveryIsFinal(groups: nat, before: seq<Action>, after: seq<Action>)
    requires Run(groups, before).sends == 1
    ensures var s := Run(groups, before + after);
            && s.sends == 1 && s.inFlight
            && forall w: nat :: Enabled(s, Swap(w)) ==> Step(s, Swap(w)).pcs[w] == InSession(false, false)
  {
    RunKeepsInvariant(groups, before + after);
    SendsStay(groups, before, after);
  }

  // ----- The request is made, and can always be made again -----

  function Continued(s: State, actions: seq<Action>): State
    decreases |actions|
  {
    if actions == [] then s else Continued(Step(s, actions[0]), actions[1..])
  }

  /** Exactly who gets the token: in every interleaving a worker at the head of
      its loop holds it two steps later if and only if it is one of the first
      nine, nobody holds it and no delivery is on record. */
  lemma TokenIsTakenExactly(groups: nat, actions: seq<Action>, w: nat)
    requires w < |Run(groups, actions).pcs| && Run(groups, actions).pcs[w] == Top
    ensures var s := Run(groups, actions);
            var t := Continued(s, [Begin(w), Swap(w)]);
            w < |t.pcs| && (Holds(t.pcs[w]) <==> w < 9 && !Held(s) && !s.configSent)
  {
    RunKeepsInvariant(groups, actions);
    TwoSteps(Run(groups, actions), Begin(w), Swap(w));
  }

  lemma TwoSteps(s: State, a: Action, b: Action)
    ensures Continued(s, [a, b]) == Step(Step(s, a), b)
  {
    assert [a, b][1..] == [b] && [b][1..] == [];
    assert Continued(Step(s, a), [b]) == Continued(Step(Step(s, a), b), []);
    hide Step;
  }

  /** When a holder fails, any other worker of the first group at the head of its
      loop can win the token. */
  lemma AnotherMayTry(groups: nat, actions: seq<Action>, v: nat, w: nat)
    requires Enabled(Run(groups, actions), Settle(v)) && Run(groups, actions).pcs[v] == Returned(true, false)
    requires w < |Run(groups, actions).pcs| && w < 9 && Run(groups, actions).pcs[w] == Top
    ensures var t := Continued(Run(groups, actions), [Settle(v), Begin(w), Swap(w)]);
            w < |t.pcs| && t.pcs[w] == InSession(true, false) && t.inFlight
  {
    var s := Run(groups, actions);
    RunKeepsInvariant(groups, actions);
    assert Holds(s.pcs[v]);
    assert [Settle(v), Begin(w), Swap(w)][1..] == [Begin(w), Swap(w)];
    TwoSteps(Step(s, Settle(v)), Begin(w), Swap(w));
  }

  ghost predicate CanArrive(s: State) { exists actions :: Continued(s, actions).received == 1 }

  /** Some worker of the first group has not ended. */
  predicate FirstGroupLives(s: State) { exists w :: 0 <= w < |s.pcs| && w < 9 && s.pcs[w] != Exited }

  lemma ArrivesAfter(s: State, a: Action)
    requires CanArrive(Step(s, a))
    ensures CanArrive(s)
  {
    var rest :| Continued(Step(s, a), rest).received == 1;
    assert ([a] + rest)[1..] == rest;
    assert Continued(s, [a] + rest).received == 1;
  }

  lemma SentArrives(s: State)
    requires Invariant(s) && s.sends == 1
    ensures CanArrive(s)
  {
    if s.received == 1 {
      assert Continued(s, []).received == 1;
    } else {
      var t := Step(s, Receive);
      assert Continued(t, []).received == 1;
      ArrivesAfter(s, Receive);
    }
  }

  lemma HolderDelivers(s: State, w: nat)
    requires Invariant(s) && w < |s.pcs| && s.pcs[w] == InSession(true, false)
    ensures CanArrive(s)
  {
    assert Holds(s.pcs[w]);
    StepKeepsInvariant(s, Deliver(w));
    SentArrives(Step(s, Deliver(w)));
    ArrivesAfter(s, Deliver(w));
  }

  /** The worker's next step towards a session with the token. */
  function NextStep(pc: Pc, w: nat): Action {
    match pc
    case NotStarted => Spawn(w)
    case Top => Begin(w)
    case LoadedZero => Swap(w)
    case InSession(_, _) => Return(w)
    case Returned(_, _) => Settle(w)
    case Exited => Quit(w)
  }

  function StepsLeft(pc: Pc): nat {
    match pc
    case InSession(_, _) => 5
    case Returned(_, _) => 4
    case NotStarted => 3
    case Top => 2
    case LoadedZero => 1
    case Exited => 0
  }

  /** While nobody holds the token and nothing was sent, any living worker of the
      first group can still deliver. */
  lemma {:induction false} LivingDelivers(s: State, w: nat)
    requires Invariant(s) && w < |s.pcs| && w < 9 && s.pcs[w] != Exited
    requires s.sends == 0 && !Held(s)
    ensures CanArrive(s)
    decreases StepsLeft(s.pcs[w])
  {
    var a := NextStep(s.pcs[w], w);
    var t := Step(s, a);
    assert !Holds(s.pcs[w]);
    StepKeepsInvariant(s, a);
    if s.pcs[w] == LoadedZero {
      HolderDelivers(t, w);
    } else {
      assert forall v :: 0 <= v < |t.pcs| && Holds(t.pcs[v]) ==> Holds(s.pcs[v]);
      LivingDelivers(t, w);
    }
    ArrivesAfter(s, a);
  }

  lemma {:induction false} DeadStaysDead(s: State, actions: seq<Action>)
    requires Invariant(s) && s.sends == 0 && !FirstGroupLives(s)
    ensures Continued(s, actions).received == 0
    decreases |actions|
  {
    if actions != [] {
      var t := Step(s, actions[0]);
      StepKeepsInvariant(s, actions[0]);
      DeadStepsDead(s, actions[0]);
      DeadStaysDead(t, actions[1..]);
    }
  }

  lemma DeadStepsDead(s: State, a: Action)
    requires Invariant(s) && s.sends == 0 && !FirstGroupLives(s)
    ensures Step(s, a).sends == 0 && !FirstGroupLives(Step(s, a))
  {
  }

  /** Exactly when a configuration can still arrive: in every interleaving, when
      one has been sent, or a worker of the first group has not ended. */
  lemma ArrivesExactly(groups: nat, actions: seq<Action>)
    ensures var s := Run(groups, actions); CanArrive(s) <==> s.sends == 1 || FirstGroupLives(s)
  {
    var s := Run(groups, actions);
    RunKeepsInvariant(groups, actions);
    if s.sends == 1 {
      SentArrives(s);
    } else if Held(s) {
      var v :| 0 <= v < |s.pcs| && Holds(s.pcs[v]);
      assert s.pcs[v] != Exited;
      HolderArrives(s, v);
    } else if FirstGroupLives(s) {
      var w :| 0 <= w < |s.pcs| && w < 9 && s.pcs[w] != Exited;
      LivingDelivers(s, w);
    } else {
      forall rest ensures Continued(s, rest).received == 0 {
        DeadStaysDead(s, rest);
      }
    }
  }

  lemma HolderArrives(s: State, v: nat)
    requires Invariant(s) && s.sends == 0 && v < |s.pcs| && Holds(s.pcs[v])
    ensures CanArrive(s)
  {
    if s.pcs[v].InSession? {
      HolderDelivers(s, v);
    } else {
      StepKeepsInvariant(s, Settle(v));
      SettleKeeps(s, v);
      LivingDelivers(Step(s, Settle(v)), v);
      ArrivesAfter(s, Settle(v));
    }
  }
}
