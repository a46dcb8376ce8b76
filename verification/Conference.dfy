/** The conference of the phone manager and its map of parties, over everything
    the telephony library may answer. */
module Conference {
  import opened Sequences

  /** A conference or call handle; 0 stands for none. */
  type Handle = nat

  datatype CreateResult = Created(conf: Handle) | NotCreated

  /** The library may also add the call to the conference and still report failure,
      when the address turns out to be bad. */
  datatype AddResult = Added(call: Handle) | AddedButFailed(call: Handle) | Refused

  datatype Op =
    | AddParty(party: string, created: CreateResult, joined: bool, added: AddResult)
    | RemoveParty(party: string, removed: bool)
    | Disconnect
    | SetCurrentCall(call: Handle)
    | Ended(call: Handle)  // the library reports the call as destroyed

  /** The manager's fields, and a ledger of what the library holds: the conferences
      destroyed so far in order, the live ones, the calls in a live conference,
      the calls that have ended, and every handle that was ever given out. */
  datatype World = World(
    conf: Handle, call: Handle, parties: map<string, Handle>,
    live: set<Handle>, destroyed: seq<Handle>, participants: set<Handle>,
    ended: set<Handle>, confsUsed: set<Handle>, callsUsed: set<Handle>)

  const INITIAL := World(0, 0, map[], {}, [], {}, {}, {}, {})

  // ----- What the library does -----------------------------------------------

  function Create(w: World, r: CreateResult): World {
    match r
    case NotCreated => w.(conf := 0)
    case Created(h) => w.(conf := h, live := w.live + {h}, confsUsed := w.confsUsed + {h})
  }

  /** A call that has ended is not found any more. */
  function Join(w: World, joined: bool): World {
    if joined && w.call != 0 && w.call !in w.ended then w.(participants := w.participants + {w.call}) else w
  }

  /** A call that ends leaves its conference; the manager takes no notice. */
  function End(w: World, call: Handle): World {
    w.(participants := w.participants - {call}, ended := w.ended + {call}, callsUsed := w.callsUsed + {call})
  }

  /** Destroying the handle 0 is refused by the library. */
  function Destroy(w: World): World {
    if w.conf == 0 then w else
    w.(live := w.live - {w.conf}, destroyed := w.destroyed + [w.conf], participants := {})
  }

  // ----- What the manager does -----------------------------------------------

  /** Inserting a party that is already in the map leaves the map as it is. */
  function Insert(parties: map<string, Handle>, party: string, call: Handle): map<string, Handle> {
    if party in parties then parties else parties[party := call]
  }

  function AddTo(w: World, party: string, r: AddResult): World {
    if r.Refused? then w else
    w.(participants := w.participants + {r.call}, callsUsed := w.callsUsed + {r.call},
       parties := if r.Added? then Insert(w.parties, party, r.call) else w.parties)
  }

  function Step(w: World, op: Op): World {
    match op
    case AddParty(party, created, joined, added) =>
      var w1 := if w.conf == 0 then Create(w, created) else w;
      var w2 := if w.conf == 0 && w1.conf != 0 then Join(w1, joined) else w1;
      if w2.conf != 0 then AddTo(w2, party, added) else w2
    case RemoveParty(party, removed) =>
      var w1 := if party in w.parties && removed
                then w.(participants := w.participants - {w.parties[party]}) else w;
      var w2 := w1.(parties := w.parties - {party});
      if w2.parties == map[] then Destroy(w2).(conf := 0) else w2
    case Disconnect => (if w.conf != 0 then Destroy(w).(conf := 0, parties := map[]) else w).(call := 0)
    case SetCurrentCall(h) => w.(call := h, callsUsed := w.callsUsed + {h})
    case Ended(h) => End(w, h)
  }

  /** What the method of the operation returns. */
  function Succeeds(w: World, op: Op): bool {
    match op
    case AddParty(_, created, _, added) => added.Added? && (w.conf != 0 || (created.Created? && created.conf != 0))
    case RemoveParty(party, _) => party in w.parties
    case _ => true
  }

  function Run(w: World, ops: seq<Op>): World
    decreases ops
  {
    if ops == [] then w else Run(Step(w, ops[0]), ops[1..])
  }

  /** Handles given out by the library are new, and none is 0. */
  predicate Fresh(w: World, op: Op) {
    op.AddParty? ==>
      && (w.conf == 0 && op.created.Created? ==> op.created.conf != 0 && op.created.conf !in w.confsUsed)
      && (!op.added.Refused? ==> op.added.call != 0 && op.added.call !in w.callsUsed)
  }

  predicate AlwaysFresh(w: World, ops: seq<Op>)
    decreases ops
  {
    ops != [] ==> Fresh(w, ops[0]) && AlwaysFresh(Step(w, ops[0]), ops[1..])
  }

  // ----- The invariant -------------------------------------------------------

  ghost predicate Consistent(w: World) {
    // the only live conference is the one the manager knows
    && w.live == (if w.conf == 0 then {} else {w.conf})
    // without a conference there are no parties, and nobody is in one
    && (w.conf == 0 ==> w.parties == map[] && w.participants == {})
    // no conference is destroyed twice, or handle 0, or one that is still live
    && NoneTwice(w.destroyed) && 0 !in w.destroyed && w.conf !in w.destroyed
    // nothing gets lost: every conference ever created is live or destroyed
    && w.confsUsed == w.live + (set h | h in w.destroyed)
    // the parties are different calls, in the conference unless they have ended
    && (forall p | p in w.parties :: w.parties[p] in w.participants <==> w.parties[p] !in w.ended)
    && w.participants !! w.ended
    && (forall p, q | p in w.parties && q in w.parties && p != q :: w.parties[p] != w.parties[q])
    && (forall p | p in w.parties :: w.parties[p] in w.callsUsed)
    && w.participants + w.ended <= w.callsUsed && w.call in w.callsUsed + {0}
  }

  lemma AddIsConsistent(w: World, op: Op)
    requires Consistent(w) && Fresh(w, op) && op.AddParty?
    ensures Consistent(Step(w, op))
  {
  }

  lemma RemoveIsConsistent(w: World, op: Op)
    requires Consistent(w) && op.RemoveParty?
    ensures Consistent(Step(w, op))
  {
  }

  lemma StepIsConsistent(w: World, op: Op)
    requires Consistent(w) && Fresh(w, op)
    ensures Consistent(Step(w, op))
  {
    match op
    case AddParty(_, _, _, _) =>
      AddIsConsistent(w, op);
      hide Consistent, Step;
    case RemoveParty(_, _) =>
      RemoveIsConsistent(w, op);
      hide Consistent, Step;
    case _ =>
  }

  lemma InitialIsConsistent()
    ensures Consistent(INITIAL)
  {
  }

  /** Over every run, everything the library may answer and every call that ends:
      at most one conference is live and it is the manager's; none is destroyed
      twice or lost; without a conference the party map is empty; and the parties
      are distinct calls. */
  lemma {:induction false} RunsAreConsistent(w: World, ops: seq<Op>)
    requires Consistent(w) && AlwaysFresh(w, ops)
    ensures Consistent(Run(w, ops))
    decreases ops
  {
    if ops != [] {
      StepIsConsistent(w, ops[0]);
      RunsAreConsistent(Step(w, ops[0]), ops[1..]);
    }
  }

  lemma {:induction false} EndedInRun(w: World, ops: seq<Op>, call: Handle)
    ensures call in Run(w, ops).ended <==> call in w.ended || Ended(call) in ops
    decreases ops
  {
    if ops != [] {
      EndedInRun(Step(w, ops[0]), ops[1..], call);
      assert ops == [ops[0]] + ops[1..];
    }
  }

  /** A party is in the live conference if and only if its call has not ended by
      itself. A party whose call has is still in the map. */
  lemma PartyIsConnected(ops: seq<Op>, party: string)
    requires AlwaysFresh(INITIAL, ops) && party in Run(INITIAL, ops).parties
    ensures var w := Run(INITIAL, ops);
            w.live == {w.conf} && (w.parties[party] in w.participants <==> Ended(w.parties[party]) !in ops)
  {
    InitialIsConsistent();
    RunsAreConsistent(INITIAL, ops);
    EndedInRun(INITIAL, ops, Run(INITIAL, ops).parties[party]);
  }

  /** A party that is added again gets a second call, which is in the conference
      but not in the map. Whatever parties are added or removed, it stays: unless
      the conference as a whole is destroyed, it leaves only by ending. */
  lemma {:induction false} SecondCallCannotBeRemoved(w: World, call: Handle, ops: seq<Op>)
    requires Consistent(w) && AlwaysFresh(w, ops)
    requires call in w.participants && call !in w.parties.Values
    requires w.conf !in Run(w, ops).destroyed
    ensures call in Run(w, ops).participants <==> Ended(call) !in ops
    ensures call !in Run(w, ops).parties.Values
    decreases ops
  {
    RunsAreConsistent(w, ops);
    EndedInRun(w, ops, call);
    SecondCallStays(w, call, ops);
    hide Run, AlwaysFresh;
  }

  ghost predicate Hidden(w: World, call: Handle) {
    call in w.participants + w.ended && call in w.callsUsed && call !in w.parties.Values
  }

  lemma {:induction false} SecondCallStays(w: World, call: Handle, ops: seq<Op>)
    requires Consistent(w) && AlwaysFresh(w, ops) && w.conf != 0 && Hidden(w, call)
    requires w.conf !in Run(w, ops).destroyed
    ensures Hidden(Run(w, ops), call)
    decreases ops
  {
    if ops != [] {
      StepIsConsistent(w, ops[0]);
      DestroyedStays(Step(w, ops[0]), ops[1..], w.conf);
      CallStays(w, call, ops[0]);
      hide Hidden, Consistent, Step;
      SecondCallStays(Step(w, ops[0]), call, ops[1..]);
    }
  }

  lemma CallStays(w: World, call: Handle, op: Op)
    requires Consistent(w) && Fresh(w, op) && w.conf != 0 && Hidden(w, call)
    requires w.conf !in Step(w, op).destroyed
    ensures Step(w, op).conf == w.conf && Hidden(Step(w, op), call)
  {
    if op.RemoveParty? {
      if op.party in w.parties {
        assert w.parties[op.party] in w.parties.Values;
      }
      assert w.parties - {op.party} != map[];
    }
  }

  lemma {:induction false} DestroyedStays(w: World, ops: seq<Op>, conf: Handle)
    ensures conf in w.destroyed ==> conf in Run(w, ops).destroyed
    decreases ops
  {
    if ops != [] {
      DestroyedStays(Step(w, ops[0]), ops[1..], conf);
    }
  }

  lemma AddingAgainMakesSecondCall(w: World, party: string, call: Handle, created: CreateResult, joined: bool)
    requires Consistent(w) && party in w.parties
    requires Fresh(w, AddParty(party, created, joined, Added(call)))
    ensures var w' := Step(w, AddParty(party, created, joined, Added(call)));
            && Succeeds(w, AddParty(party, created, joined, Added(call)))
            && w'.parties == w.parties && call in w'.participants && call !in w'.parties.Values
  {
    assert forall p | p in w.parties :: w.parties[p] in w.callsUsed;
  }

  /** A party whose call ends is still a party, but in no conference. */
  lemma EndedPartyExample()
    ensures var ops := [SetCurrentCall(1), AddParty("a", Created(1), true, Added(2)), Ended(2)];
            && AlwaysFresh(INITIAL, ops)
            && Run(INITIAL, ops) == World(1, 1, map["a" := 2], {1}, [], {1}, {2}, {1}, {1, 2})
  {
    var a, b, c := SetCurrentCall(1), AddParty("a", Created(1), true, Added(2)), Ended(2);
    var w1 := World(0, 1, map[], {}, [], {}, {}, {}, {1});
    var w2 := World(1, 1, map["a" := 2], {1}, [], {1, 2}, {}, {1}, {1, 2});
    assert Step(INITIAL, a) == w1 && Step(w1, b) == w2;
    assert Step(w2, c) == World(1, 1, map["a" := 2], {1}, [], {1}, {2}, {1}, {1, 2});
    assert Fresh(INITIAL, a) && Fresh(w1, b) && Fresh(w2, c);
    hide Step, Fresh;
    RunsThree(INITIAL, a, b, c);
  }

  /** A party that is added twice and then removed leaves its second call behind. */
  lemma SecondCallExample()
    ensures var add := AddParty("b", NotCreated, false, Added(3));
            var ops := [AddParty("a", Created(1), false, Added(2)), add, add.(added := Added(4))];
            && AlwaysFresh(INITIAL, ops)
            && var w := Step(Run(INITIAL, ops), RemoveParty("b", true));
               w.conf == 1 && w.parties == map["a" := 2] && w.participants == {2, 4}
  {
    var a, b, c := AddParty("a", Created(1), false, Added(2)), AddParty("b", NotCreated, false, Added(3)),
                   AddParty("b", NotCreated, false, Added(4));
    var w1 := World(1, 0, map["a" := 2], {1}, [], {2}, {}, {1}, {2});
    var w2 := World(1, 0, map["a" := 2, "b" := 3], {1}, [], {2, 3}, {}, {1}, {2, 3});
    var w3 := w2.(participants := {2, 3, 4}, callsUsed := {2, 3, 4});
    assert "a" != "b" && map["a" := 2, "b" := 3] - {"b"} == map["a" := 2];
    assert Step(INITIAL, a) == w1 && Step(w1, b) == w2 && Step(w2, c) == w3;
    assert Step(w3, RemoveParty("b", true)) == w3.(parties := map["a" := 2], participants := {2, 4});
    assert Fresh(INITIAL, a) && Fresh(w1, b) && Fresh(w2, c);
    hide Step, Fresh;
    RunsThree(INITIAL, a, b, c);
  }

  lemma RunsThree(w: World, a: Op, b: Op, c: Op)
    requires Fresh(w, a) && Fresh(Step(w, a), b) && Fresh(Step(Step(w, a), b), c)
    ensures Run(w, [a, b, c]) == Step(Step(Step(w, a), b), c) && AlwaysFresh(w, [a, b, c])
  {
    hide Step, Fresh;
    var w1, w2 := Step(w, a), Step(Step(w, a), b);
    var all, two, one := [a, b, c], [b, c], [c];
    assert all[1..] == two && two[1..] == one && one[1..] == [];
    assert Run(w2, one) == Step(w2, c) && AlwaysFresh(w2, one);
    assert Run(w1, two) == Run(w2, one) && AlwaysFresh(w1, two);
  }

  // ----- How a conference ends -----------------------------------------------

  lemma {:induction false} RunsBoth(w: World, a: seq<Op>, b: seq<Op>)
    ensures Run(w, a + b) == Run(Run(w, a), b)
    ensures AlwaysFresh(w, a + b) <==> AlwaysFresh(w, a) && AlwaysFresh(Run(w, a), b)
    decreases a
  {
    hide Step, Fresh;
    if a == [] {
      assert a + b == b;
    } else {
      assert (a + b)[1..] == a[1..] + b;
      RunsBoth(Step(w, a[0]), a[1..], b);
    }
  }

  lemma RunsOne(w: World, op: Op)
    ensures Run(w, [op]) == Step(w, op) && (AlwaysFresh(w, [op]) <==> Fresh(w, op))
  {
    hide Step, Fresh;
    assert [op][1..] == [];
    assert Run(Step(w, op), []) == Step(w, op) && AlwaysFresh(Step(w, op), []);
  }

  lemma {:induction false} ConfsStay(w: World, ops: seq<Op>, conf: Handle)
    ensures conf in w.confsUsed ==> conf in Run(w, ops).confsUsed
    decreases ops
  {
    if ops != [] {
      ConfsStay(Step(w, ops[0]), ops[1..], conf);
    }
  }

  /** Nothing is left of any conference. */
  ghost predicate NoConference(w: World, ops: seq<Op>) {
    && w.conf == 0 && w.live == {} && w.participants == {} && w.parties == map[]
    // every conference there ever was has been destroyed
    && forall i | 0 <= i <= |ops| :: Run(INITIAL, ops[..i]).conf != 0 ==> Run(INITIAL, ops[..i]).conf in w.destroyed
  }

  /** In a run that ends without a conference, all it ever had are destroyed. */
  lemma EndsWithout(ops: seq<Op>, last: Op)
    requires AlwaysFresh(INITIAL, ops + [last]) && Step(Run(INITIAL, ops), last).conf == 0
    ensures Run(INITIAL, ops + [last]) == Step(Run(INITIAL, ops), last)
    ensures NoConference(Run(INITIAL, ops + [last]), ops)
  {
    InitialIsConsistent();
    RunsBoth(INITIAL, ops, [last]);
    RunsOne(Run(INITIAL, ops), last);
    RunsAreConsistent(INITIAL, ops + [last]);
    var w := Run(INITIAL, ops + [last]);
    hide Step, Fresh, Run;
    forall i | 0 <= i <= |ops| && Run(INITIAL, ops[..i]).conf != 0
      ensures Run(INITIAL, ops[..i]).conf in w.destroyed
    {
      WasUsed(ops + [last], i);
      assert (ops + [last])[..i] == ops[..i];
    }
  }

  lemma WasUsed(ops: seq<Op>, i: nat)
    requires AlwaysFresh(INITIAL, ops) && i <= |ops|
    ensures var conf := Run(INITIAL, ops[..i]).conf; conf != 0 ==> conf in Run(INITIAL, ops).confsUsed
  {
    hide Step, Fresh;
    InitialIsConsistent();
    assert ops == ops[..i] + ops[i..];
    RunsBoth(INITIAL, ops[..i], ops[i..]);
    var w := Run(INITIAL, ops[..i]);
    RunsAreConsistent(INITIAL, ops[..i]);
    ConfsStay(w, ops[i..], w.conf);
    hide Run;
  }

  /** Hanging up ends everything: after any run, nothing is left of any conference,
      and there is no current call. */
  lemma HangingUpEndsAll(ops: seq<Op>)
    requires AlwaysFresh(INITIAL, ops + [Disconnect])
    ensures var w := Run(INITIAL, ops + [Disconnect]);
            NoConference(w, ops) && w.call == 0
  {
    assert Step(Run(INITIAL, ops), Disconnect).conf == 0 == Step(Run(INITIAL, ops), Disconnect).call;
    hide Step, Run, NoConference;
    EndsWithout(ops, Disconnect);
  }

  /** So does removing the last party, whatever the library answers; the current call
      stays. */
  lemma LastPartyEndsConference(ops: seq<Op>, party: string, removed: bool)
    requires AlwaysFresh(INITIAL, ops + [RemoveParty(party, removed)])
    requires forall p | p in Run(INITIAL, ops).parties :: p == party
    ensures var w := Run(INITIAL, ops + [RemoveParty(party, removed)]);
            NoConference(w, ops) && w.call == Run(INITIAL, ops).call
  {
    var before, op := Run(INITIAL, ops), RemoveParty(party, removed);
    assert before.parties - {party} == map[];
    assert Step(before, op).conf == 0 && Step(before, op).call == before.call;
    hide Step, Run, NoConference;
    EndsWithout(ops, op);
  }

  /** As long as another party remains, removing one takes away just that party, and
      its call if the library agrees. */
  lemma RemovingSparesOthers(w: World, party: string, removed: bool)
    requires Consistent(w) && exists p :: p in w.parties && p != party
    ensures var w' := Step(w, RemoveParty(party, removed));
            && w'.conf == w.conf && w'.destroyed == w.destroyed && w'.call == w.call
            && party !in w'.parties
            && (forall p :: p in w.parties && p != party <==> p in w'.parties)
            && (forall p | p in w'.parties :: w'.parties[p] == w.parties[p])
            && (forall h :: h in w'.participants <==>
                  h in w.participants && !(removed && party in w.parties && h == w.parties[party]))
            && (Succeeds(w, RemoveParty(party, removed)) <==> party in w.parties)
  {
    var p :| p in w.parties && p != party;
    assert p in w.parties - {party};
  }

  /** A party that is new succeeds exactly if the library creates the conference where
      there is none and adds the party; then it is a party, with the library's call,
      and nobody else's entry changes. */
  lemma AddingMakesParty(w: World, party: string, created: CreateResult, joined: bool, added: AddResult)
    requires Consistent(w) && Fresh(w, AddParty(party, created, joined, added)) && party !in w.parties
    ensures var op := AddParty(party, created, joined, added);
            var w' := Step(w, op);
            && (Succeeds(w, op) <==> party in w'.parties)
            && (Succeeds(w, op) <==> added.Added? && (w.conf != 0 || created.Created?))
            && (party in w'.parties ==> w'.parties == w.parties[party := added.call] && added.call in w'.participants)
            && (party !in w'.parties ==> w'.parties == w.parties)
            && w'.conf == (if w.conf != 0 then w.conf else if created.Created? then created.conf else 0)
            && w'.call == w.call && w'.destroyed == w.destroyed
  {
  }

  /** Who is in the conference after adding: those who were, the current call if the
      conference is new and the library joins it, and the call the library adds, even
      if it then reports a failure. */
  lemma AddingJoins(w: World, party: string, created: CreateResult, joined: bool, added: AddResult)
    requires Consistent(w) && Fresh(w, AddParty(party, created, joined, added))
    ensures var w' := Step(w, AddParty(party, created, joined, added));
            forall h :: h in w'.participants <==>
              || h in w.participants
              || (w'.conf != 0 && !added.Refused? && h == added.call)
              || (w.conf == 0 && w'.conf != 0 && joined && h != 0 && h == w.call && h !in w.ended)
  {
  }

  // ----- The code ------------------------------------------------------------

  /** The telephony library, reduced to its ledger. */
  class SipXtapi {
    var live: set<Handle>
    var destroyed: seq<Handle>
    var participants: set<Handle>
    var ended: set<Handle>
    var confsUsed: set<Handle>
    var callsUsed: set<Handle>

    constructor ()
      ensures live == {} && destroyed == [] && participants == {} && ended == {}
      ensures confsUsed == {} && callsUsed == {}
    {
      live, destroyed, participants, ended, confsUsed, callsUsed := {}, [], {}, {}, {}, {};
    }

    /** The end of a call, by itself or for the far end: it leaves its conference. */
    method CallEnds(call: Handle)
      modifies this`participants, this`ended, this`callsUsed
      ensures participants == old(participants) - {call} && ended == old(ended) + {call}
      ensures callsUsed == old(callsUsed) + {call}
    {
      participants, ended, callsUsed := participants - {call}, ended + {call}, callsUsed + {call};
    }

    method ConferenceDestroy(conf: Handle)
      modifies this`live, this`destroyed, this`participants
      ensures conf == 0 ==> live == old(live) && destroyed == old(destroyed) && participants == old(participants)
      ensures conf != 0 ==> live == old(live) - {conf} && destroyed == old(destroyed) + [conf] && participants == {}
    {
      if conf != 0 {
        live, destroyed, participants := live - {conf}, destroyed + [conf], {};
      }
    }
  }

  class SipXmgr {
    const tapi: SipXtapi
    var m_hConf: Handle
    var m_hCall: Handle
    var mConfCallHandleMap: map<string, Handle>

    function Now(): World
      reads this, tapi
    {
      World(m_hConf, m_hCall, mConfCallHandleMap,
            tapi.live, tapi.destroyed, tapi.participants, tapi.ended, tapi.confsUsed, tapi.callsUsed)
    }

    constructor ()
      ensures Now() == INITIAL && fresh(tapi)
    {
      tapi := new SipXtapi();
      m_hConf, m_hCall, mConfCallHandleMap := 0, 0, map[];
    }

    method AddConfParty(szParty: string, created: CreateResult, joined: bool, added: AddResult) returns (bRet: bool)
      modifies this, tapi
      ensures Now() == Step(old(Now()), AddParty(szParty, created, joined, added))
      ensures bRet == Succeeds(old(Now()), AddParty(szParty, created, joined, added))
      ensures bRet ==> szParty in mConfCallHandleMap && m_hConf != 0
    {
      bRet := false;
      if 0 == m_hConf {
        if created.NotCreated? {
          m_hConf := 0;
        } else {
          m_hConf := created.conf;
          tapi.live, tapi.confsUsed := tapi.live + {m_hConf}, tapi.confsUsed + {m_hConf};
          if m_hConf != 0 && m_hCall != 0 && joined && m_hCall !in tapi.ended {
            tapi.participants := tapi.participants + {m_hCall};
          }
        }
      }
      if m_hConf != 0 && !added.Refused? {
        tapi.participants := tapi.participants + {added.call};
        tapi.callsUsed := tapi.callsUsed + {added.call};
        if added.Added? {
          if szParty !in mConfCallHandleMap {
            mConfCallHandleMap := mConfCallHandleMap[szParty := added.call];
          }
          bRet := true;
        }
      }
    }

    method RemoveConfParty(szParty: string, removed: bool) returns (bRet: bool)
      modifies this, tapi
      ensures Now() == Step(old(Now()), RemoveParty(szParty, removed))
      ensures bRet == Succeeds(old(Now()), RemoveParty(szParty, removed))
      ensures szParty !in mConfCallHandleMap && (bRet <==> szParty in old(mConfCallHandleMap))
    {
      bRet := false;
      if szParty in mConfCallHandleMap && removed {
        tapi.participants := tapi.participants - {mConfCallHandleMap[szParty]};
        bRet := true;
      }
      if szParty in mConfCallHandleMap {
        mConfCallHandleMap := mConfCallHandleMap - {szParty};
        bRet := true;
      }
      assert mConfCallHandleMap == old(mConfCallHandleMap) - {szParty};
      if |mConfCallHandleMap| == 0 {
        tapi.ConferenceDestroy(m_hConf);
        m_hConf := 0;
      }
    }

    method SetCurrentCall(hCall: Handle)
      modifies this, tapi
      ensures Now() == Step(old(Now()), Op.SetCurrentCall(hCall))
    {
      m_hCall := hCall;
      tapi.callsUsed := tapi.callsUsed + {hCall};
    }

    /** `disconnect`. Destroying a call sets the handle it is given to 0. */
    method HangUp()
      modifies this, tapi
      ensures Now() == Step(old(Now()), Disconnect)
      ensures m_hConf == 0 && m_hCall == 0
      ensures tapi.destroyed == if old(m_hConf) != 0 then old(tapi.destroyed) + [old(m_hConf)] else old(tapi.destroyed)
      ensures old(m_hConf) != 0 ==> mConfCallHandleMap == map[] && tapi.participants == {}
    {
      if m_hConf != 0 {
        tapi.ConferenceDestroy(m_hConf);
        m_hConf := 0;
        mConfCallHandleMap := map[];
      }
      if m_hCall != 0 {
        m_hCall := 0;
      }
    }

    /** The library's `DESTROYED`: the manager's event handler ignores it. */
    method HandleDestroyed(hCall: Handle)
      modifies tapi
      ensures Now() == Step(old(Now()), Ended(hCall))
    {
      tapi.CallEnds(hCall);
    }
  }
}
