/** How the phone manager keeps track of a blind transfer: the call that asked for
    the transfer ends, and its end must not end the new call. */
module Transfer {

  /** A call handle; 0 stands for none. */
  type Handle = nat

  datatype State = State(inProgress: bool, transfer: Handle, controller: Handle, call: Handle)

  /** The constructor clears the handles; what the flag starts with is left to chance. */
  function Initial(flag: bool): State {
    State(flag, 0, 0, 0)
  }

  datatype Event =
    | NewCall(transferred: bool, call: Handle)
    | Disconnected(busy: bool, call: Handle)
    | Connected(media: Media)
    | RemoteAlerting
    | Offering(call: Handle)
    | Alerting(call: Handle)
    | SetCurrentCall(call: Handle)  // a call is answered, placed or, with 0, hung up
    | SetInTransfer(on: bool)
    | Other

  datatype Media = Active | ActiveHeld | Inactive | OtherMedia

  /** What the phone's state machine is told: of a disconnect that the remote end is
      busy, that the call is over (`Forwarded`), or nothing, when a transfer absorbs
      it. */
  datatype Outcome =
    | Nothing
    | RemoteBusy
    | Absorbed(call: Handle)
    | Forwarded(call: Handle)
    | OnConnected
    | OnConnectedInactive
    | OnRemoteAlerting
    | OnOffer(call: Handle)
    | OnRinging(call: Handle)

  function Next(s: State, e: Event): State {
    match e
    case NewCall(true, h) => State(true, h, s.call, h)
    case Disconnected(false, h) =>
      if s.inProgress && s.transfer != 0 && h == s.controller then State(false, 0, 0, s.call) else s
    case SetCurrentCall(h) => s.(call := h)
    case SetInTransfer(on) => s.(inProgress := on)
    case _ => s
  }

  function OutcomeOf(s: State, e: Event): Outcome {
    match e
    case Disconnected(true, _) => RemoteBusy
    case Disconnected(false, h) =>
      if s.inProgress && s.transfer != 0 && h == s.controller then Absorbed(h) else Forwarded(h)
    case Connected(Active) => OnConnected
    case Connected(Inactive) => OnConnectedInactive
    case RemoteAlerting => OnRemoteAlerting
    case Offering(h) => OnOffer(h)
    case Alerting(h) => OnRinging(h)
    case _ => Nothing
  }

  // ----- Runs ----------------------------------------------------------------

  function Run(flag: bool, events: seq<Event>): State {
    if events == [] then Initial(flag)
    else Next(Run(flag, events[..|events| - 1]), events[|events| - 1])
  }

  function Outcomes(flag: bool, events: seq<Event>): seq<Outcome> {
    if events == [] then [] else
    var before, e := events[..|events| - 1], events[|events| - 1];
    Outcomes(flag, before) + (if e.Disconnected? then [OutcomeOf(Run(flag, before), e)] else [])
  }

  predicate BeginsTransfer(e: Event) {
    e.NewCall? && e.transferred
  }

  /** The call the user is on, told from the events: the one of the last event that
      brings a transferred call or answers, places or hangs up one; none before. */
  function CurrentCall(events: seq<Event>): Handle {
    if events == [] then 0 else
    var e := events[|events| - 1];
    if BeginsTransfer(e) || e.SetCurrentCall? then e.call else CurrentCall(events[..|events| - 1])
  }

  /** Where the latest transfer began, or -1. */
  function LatestTransfer(events: seq<Event>): (r: int)
    ensures -1 <= r < |events| && (r >= 0 ==> BeginsTransfer(events[r]))
    ensures forall i | r < i < |events| :: !BeginsTransfer(events[i])
  {
    if events == [] then -1
    else if BeginsTransfer(events[|events| - 1]) then |events| - 1
    else LatestTransfer(events[..|events| - 1])
  }

  function TransfersBegun(events: seq<Event>): nat {
    if events == [] then 0
    else TransfersBegun(events[..|events| - 1]) + (if BeginsTransfer(events[|events| - 1]) then 1 else 0)
  }

  function Disconnects(events: seq<Event>): nat {
    if events == [] then 0
    else Disconnects(events[..|events| - 1]) + (if events[|events| - 1].Disconnected? then 1 else 0)
  }

  function AbsorbedIn(outcomes: seq<Outcome>): nat {
    if outcomes == [] then 0
    else AbsorbedIn(outcomes[..|outcomes| - 1]) + (if outcomes[|outcomes| - 1].Absorbed? then 1 else 0)
  }

  // ----- What every run keeps ------------------------------------------------

  /** In every run, the current call is the one the events say. */
  lemma {:induction false} CurrentCallIsTold(flag: bool, events: seq<Event>)
    ensures Run(flag, events).call == CurrentCall(events)
    decreases |events|
  {
    if events != [] {
      CurrentCallIsTold(flag, events[..|events| - 1]);
    }
  }

  /** In every run, whatever `setInTransfer` does: each disconnect has exactly one
      outcome; no more disconnects are absorbed than transfers have begun, one
      less while one is pending; and a pending transfer waits for the call that
      was current when the latest transfer began. */
  lemma {:induction false} TransfersAreBookedOnce(flag: bool, events: seq<Event>)
    ensures var s, outcomes := Run(flag, events), Outcomes(flag, events);
            && |outcomes| == Disconnects(events)
            && (forall o | o in outcomes :: o.RemoteBusy? || o.Absorbed? || o.Forwarded?)
            && AbsorbedIn(outcomes) + (if s.transfer != 0 then 1 else 0) <= TransfersBegun(events)
            && (s.transfer != 0 ==> LatestTransfer(events) >= 0
                                    && s.controller == CurrentCall(events[..LatestTransfer(events)]))
    decreases |events|
  {
    if events != [] {
      var before, e := events[..|events| - 1], events[|events| - 1];
      TransfersAreBookedOnce(flag, before);
      var o := Outcomes(flag, before);
      if e.Disconnected? {
        assert (o + [OutcomeOf(Run(flag, before), e)])[..|o|] == o;
      } else {
        assert o + [] == o;
      }
      var i := LatestTransfer(before);
      CurrentCallIsTold(flag, before);
      if !BeginsTransfer(e) && i >= 0 {
        assert before[..i] == events[..i];
      }
    }
  }

  /** A disconnect is absorbed only if it is not busy and ends the call that was
      current when the latest transfer began; that transfer is then over. */
  lemma AbsorbedIsTheController(flag: bool, events: seq<Event>, e: Event)
    requires OutcomeOf(Run(flag, events), e).Absorbed?
    ensures var i := LatestTransfer(events);
            i >= 0 && e == Disconnected(false, CurrentCall(events[..i]))
    ensures Run(flag, events + [e]) == State(false, 0, 0, CurrentCall(events))
  {
    TransfersAreBookedOnce(flag, events);
    CurrentCallIsTold(flag, events);
    assert (events + [e])[..|events|] == events;
  }

  predicate FlagMatches(flag: bool, events: seq<Event>, i: nat)
    requires i <= |events|
  {
    Run(flag, events[..i]).inProgress <==>
      Run(flag, events[..i]).transfer != 0 || (flag && LatestTransfer(events[..i]) == -1)
  }

  lemma FlagAfter(flag: bool, events: seq<Event>)
    requires events != [] && !events[|events| - 1].SetInTransfer?
    requires FlagMatches(flag, events, |events| - 1)
    ensures FlagMatches(flag, events, |events|) <==>
            var e := events[|events| - 1]; BeginsTransfer(e) ==> e.call != 0
  {
    TransfersAreBookedOnce(flag, events[..|events| - 1]);
    assert events[..|events|] == events;
  }

  /** As long as `setInTransfer` is not used, the flag says exactly whether a
      transfer handle is kept (or still has its first value, before any transfer),
      after every event, if and only if no transferred call comes with the handle 0. */
  lemma {:induction false} FlagIsHandle(flag: bool, events: seq<Event>)
    requires forall i | 0 <= i < |events| :: !events[i].SetInTransfer?
    ensures (forall i | 0 <= i <= |events| :: FlagMatches(flag, events, i)) <==>
            (forall i | 0 <= i < |events| :: BeginsTransfer(events[i]) ==> events[i].call != 0)
    decreases |events|
  {
    if events == [] {
      assert events[..0] == events && Run(flag, events) == Initial(flag);
    } else {
      var n := |events| - 1;
      var before := events[..n];
      FlagIsHandle(flag, before);
      forall i | 0 <= i <= n ensures FlagMatches(flag, before, i) == FlagMatches(flag, events, i) {
        assert before[..i] == events[..i];
      }
      hide FlagMatches;
      if FlagMatches(flag, events, n) {
        FlagAfter(flag, events);
      }
    }
  }

  /** An event about a call comes with the handle of that call. */
  predicate HasHandle(e: Event) {
    (e.NewCall? || e.Disconnected? || e.Offering? || e.Alerting?) ==> e.call != 0
  }

  /** The library reports no event for the handle 0. So, without `setInTransfer`,
      flag and handle agree after every event of every run: from the start if the
      flag starts with false, and otherwise from the first transfer on. */
  lemma FlagAgreesWithHandle(flag: bool, events: seq<Event>, i: nat)
    requires forall e | e in events :: HasHandle(e) && !e.SetInTransfer?
    requires i <= |events|
    ensures var s := Run(flag, events[..i]);
            (s.inProgress <==> s.transfer != 0) <==> (!flag || LatestTransfer(events[..i]) >= 0)
  {
    forall j | 0 <= j < |events| ensures HasHandle(events[j]) && !events[j].SetInTransfer? {
      assert events[j] in events;
    }
    FlagIsHandle(flag, events);
    TransfersAreBookedOnce(flag, events[..i]);
    hide Run, LatestTransfer;
    assert FlagMatches(flag, events, i);
  }

  /** No transfer is begun with the handle 0, and nobody sets the flag by hand. */
  predicate Regular(events: seq<Event>) {
    forall i | 0 <= i < |events| ::
      !events[i].SetInTransfer? && (BeginsTransfer(events[i]) ==> events[i].call != 0)
  }

  /** No disconnect has been absorbed since the latest transfer began. */
  predicate StillPending(flag: bool, events: seq<Event>) {
    var i := LatestTransfer(events);
    i >= 0 && AbsorbedIn(Outcomes(flag, events)) == AbsorbedIn(Outcomes(flag, events[..i + 1]))
  }

  lemma {:induction false} AbsorbedOnlyGrows(flag: bool, events: seq<Event>, i: nat)
    requires i <= |events|
    ensures AbsorbedIn(Outcomes(flag, events[..i])) <= AbsorbedIn(Outcomes(flag, events))
    decreases |events|
  {
    if i == |events| {
      assert events[..i] == events;
    } else {
      var before, e := events[..|events| - 1], events[|events| - 1];
      AbsorbedOnlyGrows(flag, before, i);
      assert before[..i] == events[..i];
      OneMoreOutcome(flag, before, e);
      assert before + [e] == events;
    }
  }

  lemma OneMoreOutcome(flag: bool, before: seq<Event>, e: Event)
    ensures AbsorbedIn(Outcomes(flag, before + [e])) ==
            AbsorbedIn(Outcomes(flag, before)) + (if OutcomeOf(Run(flag, before), e).Absorbed? then 1 else 0)
    ensures Run(flag, before + [e]) == Next(Run(flag, before), e)
  {
    assert (before + [e])[..|before|] == before;
    var o := Outcomes(flag, before);
    if e.Disconnected? {
      assert (o + [OutcomeOf(Run(flag, before), e)])[..|o|] == o;
    } else {
      assert o + [] == o;
    }
  }

  lemma OneMoreEvent(before: seq<Event>, e: Event)
    ensures LatestTransfer(before + [e]) == if BeginsTransfer(e) then |before| else LatestTransfer(before)
  {
    assert (before + [e])[..|before|] == before && (before + [e])[|before|] == e;
  }

  lemma PrefixUpTo(before: seq<Event>, e: Event, i: int)
    requires -1 <= i <= |before|
    ensures (before + [e])[..i + 1] == if i == |before| then before + [e] else before[..i + 1]
  {
  }

  ghost predicate PendingMatches(flag: bool, events: seq<Event>) {
    var s := Run(flag, events);
    (s.transfer != 0 ==> s.inProgress) && (s.transfer != 0 <==> StillPending(flag, events))
  }

  lemma PendingStep(flag: bool, before: seq<Event>, e: Event)
    requires PendingMatches(flag, before)
    requires !e.SetInTransfer? && (BeginsTransfer(e) ==> e.call != 0)
    ensures PendingMatches(flag, before + [e])
  {
    hide Run, Outcomes, AbsorbedIn, LatestTransfer;
    var after, i := before + [e], LatestTransfer(before);
    OneMoreOutcome(flag, before, e);
    OneMoreEvent(before, e);
    PrefixUpTo(before, e, LatestTransfer(after));
    if i >= 0 {
      AbsorbedOnlyGrows(flag, before, i + 1);
    }
  }

  lemma {:induction false} PendingMeans(flag: bool, events: seq<Event>)
    requires Regular(events)
    ensures PendingMatches(flag, events)
    decreases |events|
  {
    if events != [] {
      var n := |events| - 1;
      PendingMeans(flag, events[..n]);
      hide PendingMatches;
      PendingStep(flag, events[..n], events[n]);
      assert events[..n] + [events[n]] == events;
    }
  }

  /** What becomes of a disconnect, said in terms of what happened before: it is
      absorbed exactly when the remote end is not busy, it ends the call that was
      current when the latest transfer began, and that transfer has not absorbed
      one yet; otherwise it is reported as busy or passed on. */
  lemma DisconnectOutcome(flag: bool, events: seq<Event>, busy: bool, call: Handle)
    requires Regular(events)
    ensures var i := LatestTransfer(events);
            OutcomeOf(Run(flag, events), Disconnected(busy, call)) ==
              if busy then RemoteBusy
              else if StillPending(flag, events) && call == CurrentCall(events[..i]) then Absorbed(call)
              else Forwarded(call)
  {
    PendingMeans(flag, events);
    TransfersAreBookedOnce(flag, events);
    hide Run, Outcomes, LatestTransfer, Regular, CurrentCall;
  }

  /** `setInTransfer` suspends a pending transfer: with the flag off nothing is absorbed,
      and switched on again everything is as it was. */
  lemma SwitchingSuspends(flag: bool, events: seq<Event>, call: Handle)
    requires Regular(events)
    ensures var off := events + [SetInTransfer(false)];
            && OutcomeOf(Run(flag, off), Disconnected(false, call)) == Forwarded(call)
            && OutcomeOf(Run(flag, off + [SetInTransfer(true)]), Disconnected(false, call)) ==
               OutcomeOf(Run(flag, events), Disconnected(false, call))
            && Run(flag, off + [SetInTransfer(true)]) == Run(flag, events).(inProgress := true)
  {
    var off := events + [SetInTransfer(false)];
    OneMoreOutcome(flag, events, SetInTransfer(false));
    OneMoreOutcome(flag, off, SetInTransfer(true));
    PendingMeans(flag, events);
    hide Run;
  }

  /** Whatever the flag starts with, every disconnect has the same outcome. */
  lemma {:induction false} FirstFlagDoesNotMatter(events: seq<Event>)
    requires Regular(events)
    ensures Outcomes(true, events) == Outcomes(false, events)
    ensures Run(true, events).(inProgress := false) == Run(false, events).(inProgress := false)
    decreases |events|
  {
    if events != [] {
      var before := events[..|events| - 1];
      FirstFlagDoesNotMatter(before);
      PendingMeans(true, before);
      PendingMeans(false, before);
    }
  }

  // ----- The code ------------------------------------------------------------

  class SipXmgr {
    var mTransferInProgress: bool
    var m_hTransferInProgress: Handle
    var m_hCallController: Handle
    var m_hCall: Handle

    function Now(): State
      reads this
    {
      State(mTransferInProgress, m_hTransferInProgress, m_hCallController, m_hCall)
    }

    constructor (flag: bool)
      ensures Now() == Initial(flag)
    {
      mTransferInProgress := flag;
      m_hTransferInProgress := 0;
      m_hCallController := 0;
      m_hCall := 0;
    }

    method HandleCallstateEvent(e: Event) returns (outcome: Outcome)
      requires !e.SetCurrentCall? && !e.SetInTransfer?
      modifies this
      ensures Now() == Next(old(Now()), e) && outcome == OutcomeOf(old(Now()), e)
      ensures m_hCall == if e.NewCall? && e.transferred then e.call else old(m_hCall)
      ensures e.NewCall? && e.transferred ==>
                mTransferInProgress && m_hTransferInProgress == e.call && m_hCallController == old(m_hCall)
      ensures outcome.RemoteBusy? <==> e.Disconnected? && e.busy
      ensures outcome.Absorbed? || outcome.Forwarded? <==> e.Disconnected? && !e.busy
      ensures outcome.OnConnected? <==> e == Connected(Active)
      ensures outcome.OnConnectedInactive? <==> e == Connected(Inactive)
      ensures outcome.OnRemoteAlerting? <==> e.RemoteAlerting?
      ensures e.Offering? ==> outcome == OnOffer(e.call)
      ensures e.Alerting? ==> outcome == OnRinging(e.call)
    {
      outcome := Nothing;
      match e {
        case NewCall(transferred, hCall) =>
          if transferred {
            mTransferInProgress := true;
            m_hTransferInProgress := hCall;
            m_hCallController := m_hCall;
            m_hCall := m_hTransferInProgress;
          }
        case Disconnected(busy, hCall) =>
          if busy {
            outcome := RemoteBusy;
          } else if mTransferInProgress && m_hTransferInProgress != 0 && hCall == m_hCallController {
            outcome := Absorbed(hCall);
            m_hTransferInProgress := 0;
            mTransferInProgress := false;
            m_hCallController := 0;
          } else {
            outcome := Forwarded(hCall);
          }
        case Connected(media) =>
          if media == Active {
            outcome := OnConnected;
          } else if media == Inactive {
            outcome := OnConnectedInactive;
          }
        case RemoteAlerting =>
          outcome := OnRemoteAlerting;
        case Offering(hCall) =>
          outcome := OnOffer(hCall);
        case Alerting(hCall) =>
          outcome := OnRinging(hCall);
        case _ =>
      }
    }

    method SetCurrentCall(hCall: Handle)
      modifies this
      ensures Now() == Next(old(Now()), Event.SetCurrentCall(hCall))
    {
      m_hCall := hCall;
    }

    method SetInTransfer(bXfer: bool)
      modifies this
      ensures Now() == Next(old(Now()), Event.SetInTransfer(bXfer))
    {
      mTransferInProgress := bXfer;
    }
  }
}
