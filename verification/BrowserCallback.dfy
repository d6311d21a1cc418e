/**
 The browser login: a local server hands the first callback it handles to the waiting flow through
 a one-shot channel. Handlers run concurrently, and the flow may time out or the server may stop
 at any moment.
 */
module BrowserCallback {

  import opened Outcomes

  type Params = map<string, string>

  datatype Payload =
    | Success(code: string, state: string)
    | Failure(error: string, maybeState: Option<string>)

  const MISSING := "missing code or state in callback"

  function Param(params: Params, name: string): (v: Option<string>) {
    if name in params then Some(params[name]) else None
  }

  /** How a callback request is read. */
  function PayloadOf(params: Params): (p: Payload)
  {
    if "code" in params && "state" in params then Success(params["code"], params["state"])
    else if "error" in params then Failure(params["error"], Param(params, "state"))
    else Failure(MISSING, Param(params, "state"))
  }

  function StateOf(p: Payload): (s: Option<string>) {
    match p
    case Success(_, s) => Some(s)
    case Failure(_, s) => s
  }

  /** The secrets of one login attempt. */
  datatype Attempt = Attempt(stateToken: string, codeVerifier: string)

  datatype Redemption = Redemption(code: string, codeVerifier: string, state: string)

  datatype Outcome = TimedOut | ServerClosed | StateMismatch | Refused(error: string) | LoggedIn | RedeemFailed

  datatype Flow = Waiting | Redeeming | Finished(outcome: Outcome)

  datatype Channel = Empty | Holding(payload: Payload) | Closed

  datatype System = System(
    serverUp: bool,
    sender: bool,               // the shared one-shot sender has not been taken
    channel: Channel,
    handlers: seq<Option<Payload>>,   // requests being handled; none once finished
    entered: seq<Payload>,      // payloads in the order their handlers took the lock
    flow: Flow,
    redemptions: seq<Redemption>)

  const START := System(true, true, Empty, [], [], Waiting, [])

  datatype Event =
    | Arrive(params: Params)
    | Enter(handler: nat)
    | ServerStops
    | Poll
    | Timeout
    | Reply(success: bool)

  /** What the flow does with the payload it receives. */
  function Received(a: Attempt, sys: System, p: Payload): (r: System) {
    if StateOf(p) != Some(a.stateToken) then sys.(flow := Finished(StateMismatch), channel := Closed)
    else
      match p
      case Failure(e, _) => sys.(flow := Finished(Refused(e)), channel := Closed)
      case Success(code, _) =>
        sys.(flow := Redeeming, channel := Closed,
             redemptions := sys.redemptions + [Redemption(code, a.codeVerifier, a.stateToken)])
  }

  /** The flow looks at the channel; a timer that has fired counts only if the channel is empty. */
  function Look(a: Attempt, sys: System, timerFired: bool): (r: System) {
    if sys.flow != Waiting then sys
    else
      match sys.channel
      case Holding(p) => Received(a, sys, p)
      case Closed => sys.(flow := Finished(ServerClosed))
      case Empty => if timerFired then sys.(flow := Finished(TimedOut), channel := Closed) else sys
  }

  function Next(a: Attempt, sys: System, e: Event): (r: System) {
    match e
    case Arrive(params) =>
      if sys.serverUp then sys.(handlers := sys.handlers + [Some(PayloadOf(params))]) else sys
    case Enter(h) =>
      if !sys.serverUp || h >= |sys.handlers| || sys.handlers[h].None? then sys
      else
        var p := sys.handlers[h].value;
        sys.(handlers := sys.handlers[h := None], entered := sys.entered + [p], sender := false,
             channel := if sys.sender && sys.channel == Empty then Holding(p) else sys.channel)
    case ServerStops =>
      sys.(serverUp := false, sender := false, channel := if sys.channel == Empty then Closed else sys.channel)
    case Poll => Look(a, sys, false)
    case Timeout => Look(a, sys, true)
    case Reply(ok) =>
      if sys.flow == Redeeming then sys.(flow := Finished(if ok then LoggedIn else RedeemFailed)) else sys
  }

  function Run(a: Attempt, sys: System, events: seq<Event>): (r: System) {
    if events == [] then sys else Next(a, Run(a, sys, events[..|events| - 1]), events[|events| - 1])
  }

  // ----- what every sequence of events keeps -----

  ghost predicate Redeems(a: Attempt, sys: System) {
    && sys.entered != []
    && sys.entered[0].Success? && sys.entered[0].state == a.stateToken
    && sys.redemptions == [Redemption(sys.entered[0].code, a.codeVerifier, a.stateToken)]
  }

  /** What the state of the flow says about the first callback handled and about redemptions. */
  ghost predicate OutcomeTells(a: Attempt, sys: System) {
    match sys.flow
    case Waiting => sys.redemptions == []
    case Redeeming => Redeems(a, sys)
    case Finished(LoggedIn) => Redeems(a, sys)
    case Finished(RedeemFailed) => Redeems(a, sys)
    case Finished(StateMismatch) =>
      sys.redemptions == [] && sys.entered != [] && StateOf(sys.entered[0]) != Some(a.stateToken)
    case Finished(Refused(e)) =>
      sys.redemptions == [] && sys.entered != [] && sys.entered[0] == Failure(e, Some(a.stateToken))
    case Finished(TimedOut) => sys.redemptions == []
    case Finished(ServerClosed) => sys.redemptions == [] && sys.entered == [] && !sys.serverUp
  }

  ghost predicate Inv(a: Attempt, sys: System) {
    && (sys.sender ==> sys.entered == [])
    && (sys.serverUp && sys.entered == [] ==> sys.sender)
    && (sys.channel.Holding? ==> sys.entered != [] && sys.channel.payload == sys.entered[0])
    && (sys.flow == Waiting && sys.entered != [] ==> sys.channel.Holding?)
    && (sys.flow != Waiting ==> !sys.channel.Holding?)
    && (sys.flow == Waiting && sys.channel == Closed ==> !sys.serverUp)
    && (sys.flow != Waiting ==> sys.channel == Closed)
    && OutcomeTells(a, sys)
  }

  lemma {:induction false} NextKeepsInv(a: Attempt, sys: System, e: Event)
    requires Inv(a, sys)
    ensures Inv(a, Next(a, sys, e))
  {
  }

  lemma {:induction false} RunKeepsInv(a: Attempt, events: seq<Event>)
    ensures Inv(a, Run(a, START, events))
  {
    if events != [] {
      RunKeepsInv(a, events[..|events| - 1]);
      NextKeepsInv(a, Run(a, START, events[..|events| - 1]), events[|events| - 1]);
    }
  }

  /**
   However callbacks, timeouts and replies interleave, at most one code is redeemed: that of the
   first callback handled, with this attempt's verifier, and only if its state is the generated one.
   */
  lemma {:induction false} AtMostOneRedemption(a: Attempt, events: seq<Event>)
    ensures var sys := Run(a, START, events);
            sys.redemptions == [] || Redeems(a, sys)
  {
    RunKeepsInv(a, events);
  }

  /** The outcome names what the first callback handled was, and a login needs a redeemed code. */
  lemma {:induction false} OutcomeMatchesFirstCallback(a: Attempt, events: seq<Event>)
    ensures OutcomeTells(a, Run(a, START, events))
  {
    RunKeepsInv(a, events);
  }

  // ----- what is redeemed was sent -----

  /** Some request that arrived reads as the payload. */
  ghost predicate Sent(events: seq<Event>, p: Payload) {
    exists k :: 0 <= k < |events| && events[k].Arrive? && PayloadOf(events[k].params) == p
  }

  ghost predicate AllSent(events: seq<Event>, sys: System) {
    && (forall h | 0 <= h < |sys.handlers| && sys.handlers[h].Some? :: Sent(events, sys.handlers[h].value))
    && (forall k | 0 <= k < |sys.entered| :: Sent(events, sys.entered[k]))
  }

  lemma {:induction false} SentBefore(events: seq<Event>, e: Event)
    ensures forall p | Sent(events, p) :: Sent(events + [e], p)
    ensures e.Arrive? ==> Sent(events + [e], PayloadOf(e.params))
  {
    forall p | Sent(events, p) ensures Sent(events + [e], p) {
      var k :| 0 <= k < |events| && events[k].Arrive? && PayloadOf(events[k].params) == p;
      assert (events + [e])[k] == events[k];
    }
    assert (events + [e])[|events|] == e;
  }

  lemma {:induction false} RunKeepsSent(a: Attempt, events: seq<Event>)
    ensures AllSent(events, Run(a, START, events))
  {
    if events != [] {
      var init, e := events[..|events| - 1], events[|events| - 1];
      assert events == init + [e];
      RunKeepsSent(a, init);
      SentBefore(init, e);
      StepKeepsSent(a, events, Run(a, START, init), e);
    }
  }

  lemma {:induction false} StepKeepsSent(a: Attempt, events: seq<Event>, sys: System, e: Event)
    requires AllSent(events, sys) && (e.Arrive? ==> Sent(events, PayloadOf(e.params)))
    ensures AllSent(events, Next(a, sys, e))
  {
  }

  /** A redeemed code is the code of a request that arrived with it and with the state this attempt generated. */
  lemma {:induction false} RedeemedCodeWasSent(a: Attempt, events: seq<Event>, r: Redemption)
    requires r in Run(a, START, events).redemptions
    ensures r.codeVerifier == a.codeVerifier && r.state == a.stateToken
    ensures exists k :: 0 <= k < |events| && events[k].Arrive?
                        && Param(events[k].params, "code") == Some(r.code)
                        && Param(events[k].params, "state") == Some(a.stateToken)
  {
    RunKeepsInv(a, events);
    RunKeepsSent(a, events);
    var p := Run(a, START, events).entered[0];
    var k :| 0 <= k < |events| && events[k].Arrive? && PayloadOf(events[k].params) == p;
  }

  /** The flow has decided: what it has decided stays. */
  ghost predicate Settled(sys: System, sys': System) {
    && sys.entered <= sys'.entered
    && sys'.redemptions == sys.redemptions
    && (sys.flow.Finished? ==> sys'.flow == sys.flow)
    && (sys.flow == Redeeming ==> sys'.flow in {Redeeming, Finished(LoggedIn), Finished(RedeemFailed)})
  }

  /** Once the flow stops waiting, no later event changes what it decided. */
  lemma {:induction false} LaterEventsChangeNothing(a: Attempt, events: seq<Event>, later: seq<Event>)
    requires Run(a, START, events).flow != Waiting
    ensures Settled(Run(a, START, events), Run(a, START, events + later))
    decreases |later|
  {
    if later == [] {
      assert events + later == events;
    } else {
      var n := |later| - 1;
      LaterEventsChangeNothing(a, events, later[..n]);
      RunKeepsInv(a, events + later[..n]);
      assert (events + later)[..|events + later| - 1] == events + later[..n];
    }
  }

  /** A callback that was handled before the timer fired is never lost to the timeout. */
  lemma {:induction false} DeliveryBeatsTimeout(a: Attempt, events: seq<Event>, e: Event)
    requires var sys := Run(a, START, events); sys.flow == Waiting && sys.entered != []
    requires e.Poll? || e.Timeout?
    ensures var sys := Run(a, START, events);
            Next(a, sys, e) == Received(a, sys, sys.entered[0]) && Next(a, sys, e).flow != Waiting
  {
    RunKeepsInv(a, events);
  }

  /** A matching success callback that is first, followed by a look, is redeemed. */
  lemma {:induction false} MatchingCallbackIsRedeemed(a: Attempt, events: seq<Event>, code: string)
    requires var sys := Run(a, START, events);
             sys.flow == Waiting && sys.entered != [] && sys.entered[0] == Success(code, a.stateToken)
    ensures Run(a, START, events + [Poll]).redemptions == [Redemption(code, a.codeVerifier, a.stateToken)]
  {
    RunKeepsInv(a, events);
    assert (events + [Poll])[..|events|] == events;
  }

  lemma {:induction false} RunOneMore(a: Attempt, events: seq<Event>, e: Event)
    ensures Run(a, START, events + [e]) == Next(a, Run(a, START, events), e)
  {
    assert (events + [e])[..|events|] == events;
  }

  /** What becomes of a login whose first callback carries the parameters. */
  ghost predicate DecidedBy(a: Attempt, params: Params, sys: System) {
    if Param(params, "state") != Some(a.stateToken) then
      sys.flow == Finished(StateMismatch) && sys.redemptions == []
    else if "code" in params then
      && sys.flow in {Redeeming, Finished(LoggedIn), Finished(RedeemFailed)}
      && sys.redemptions == [Redemption(params["code"], a.codeVerifier, a.stateToken)]
    else
      && sys.redemptions == []
      && sys.flow == Finished(Refused(if "error" in params then params["error"] else MISSING))
  }

  lemma {:induction false} DeliveryDecides(a: Attempt, sys: System, params: Params, e: Event)
    requires Inv(a, sys) && sys.serverUp && sys.flow == Waiting && sys.entered == []
    requires e.Poll? || e.Timeout?
    ensures var delivered := Next(a, Next(a, sys, Arrive(params)), Enter(|sys.handlers|));
            DecidedBy(a, params, Next(a, delivered, e))
  {
    var p := PayloadOf(params);
    var arrived := Next(a, sys, Arrive(params));
    assert arrived.handlers[|sys.handlers|] == Some(p);
    var delivered := Next(a, arrived, Enter(|sys.handlers|));
    assert delivered.channel == Holding(p) && Next(a, delivered, e) == Received(a, delivered, p);
  }

  /**
   While nothing has been delivered, a request that arrives and is handled decides the login by its
   parameters, whether the flow looks by itself or because its timer fired, and whatever comes later.
   */
  lemma {:induction false} CallbackDecides(a: Attempt, events: seq<Event>, params: Params, e: Event, later: seq<Event>)
    requires var sys := Run(a, START, events); sys.serverUp && sys.flow == Waiting && sys.entered == []
    requires e.Poll? || e.Timeout?
    ensures var handled := [Arrive(params), Enter(|Run(a, START, events).handlers|), e];
            DecidedBy(a, params, Run(a, START, events + handled + later))
  {
    var sys := Run(a, START, events);
    RunKeepsInv(a, events);
    var arrived := events + [Arrive(params)];
    var delivered := arrived + [Enter(|sys.handlers|)];
    RunOneMore(a, events, Arrive(params));
    RunOneMore(a, arrived, Enter(|sys.handlers|));
    RunOneMore(a, delivered, e);
    DeliveryDecides(a, sys, params, e);
    assert delivered + [e] == events + [Arrive(params), Enter(|sys.handlers|), e];
    LaterEventsChangeNothing(a, delivered + [e], later);
  }

  /** While nothing has been delivered a look changes nothing; the timer, or a server that stops, ends the login. */
  lemma {:induction false} NothingDelivered(a: Attempt, events: seq<Event>, e: Event)
    requires var sys := Run(a, START, events); sys.serverUp && sys.flow == Waiting && sys.entered == []
    requires e.Poll? || e.Timeout?
    ensures Run(a, START, events + [Poll]) == Run(a, START, events)
    ensures Run(a, START, events + [Timeout]).flow == Finished(TimedOut)
    ensures Run(a, START, events + [ServerStops] + [e]).flow == Finished(ServerClosed)
  {
    RunKeepsInv(a, events);
    RunOneMore(a, events, Poll);
    RunOneMore(a, events, Timeout);
    RunOneMore(a, events, ServerStops);
    RunOneMore(a, events + [ServerStops], e);
  }

  /** The server's reply to the redemption is the outcome of the login. */
  lemma {:induction false} ReplyDecides(a: Attempt, events: seq<Event>, success: bool)
    requires Run(a, START, events).flow == Redeeming
    ensures Run(a, START, events + [Reply(success)]).flow == Finished(if success then LoggedIn else RedeemFailed)
  {
    RunOneMore(a, events, Reply(success));
  }
}
