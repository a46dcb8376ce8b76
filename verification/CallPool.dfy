/** The pool of calls of the music server: a list sorted by call id, the players its
    calls own, and what the telephony events make of both. */
module CallPool {
  import opened Sequences
  import opened UtlStrings

  // ----- The pool ------------------------------------------------------------

  datatype Entry = Entry(callId: string, player: nat)

  predicate Sorted(pool: seq<Entry>) {
    forall i, j | 0 <= i < j < |pool| :: Below(pool[i].callId, pool[j].callId)
  }

  /** The first entry with this id, or -1. */
  function IndexOf(pool: seq<Entry>, callId: string): (r: int)
    ensures -1 <= r < |pool| && (r >= 0 ==> pool[r].callId == callId)
    ensures forall i | 0 <= i < |pool| && (r == -1 || i < r) :: pool[i].callId != callId
  {
    if pool == [] then -1
    else
      var r := IndexOf(pool[..|pool| - 1], callId);
      if r >= 0 then r
      else if pool[|pool| - 1].callId == callId then |pool| - 1 else -1
  }

  /** Where an entry goes: before the first whose id is not below its own. */
  function Position(pool: seq<Entry>, callId: string, from: nat): (r: nat)
    requires from <= |pool|
    ensures from <= r <= |pool| && (r < |pool| ==> !Below(pool[r].callId, callId))
    ensures forall i | from <= i < r :: Below(pool[i].callId, callId)
    decreases |pool| - from
  {
    if from < |pool| && Below(pool[from].callId, callId) then Position(pool, callId, from + 1) else from
  }

  function Insert(pool: seq<Entry>, e: Entry): seq<Entry> {
    var p := Position(pool, e.callId, 0);
    if IndexOf(pool, e.callId) >= 0 then pool else pool[..p] + [e] + pool[p..]
  }

  function Remove(pool: seq<Entry>, callId: string): seq<Entry> {
    var i := IndexOf(pool, callId);
    if i >= 0 then pool[..i] + pool[i + 1..] else pool
  }

  lemma InsertKeepsSorted(pool: seq<Entry>, e: Entry)
    requires Sorted(pool)
    ensures Sorted(Insert(pool, e))
  {
    if IndexOf(pool, e.callId) == -1 {
      var p := Position(pool, e.callId, 0);
      forall i | p <= i < |pool| ensures Below(e.callId, pool[i].callId) {
        BelowIsTotal(pool[p].callId, e.callId);
        if i > p {
          BelowIsTransitive(e.callId, pool[p].callId, pool[i].callId);
        }
      }
    }
  }

  // ----- The map it stands for -----------------------------------------------

  ghost predicate Represents(pool: seq<Entry>, m: map<string, nat>) {
    && (forall i | 0 <= i < |pool| :: pool[i].callId in m && m[pool[i].callId] == pool[i].player)
    && (forall id | id in m :: IndexOf(pool, id) >= 0)
  }

  lemma {:induction false} Found(pool: seq<Entry>, i: nat)
    requires i < |pool|
    ensures IndexOf(pool, pool[i].callId) >= 0
    ensures Sorted(pool) ==> IndexOf(pool, pool[i].callId) == i
  {
    var j := IndexOf(pool, pool[i].callId);
    if 0 <= j < i {
      BelowIsTotal(pool[j].callId, pool[i].callId);
    }
  }

  lemma InsertedStands(pool: seq<Entry>, e: Entry, id: string)
    requires IndexOf(pool, e.callId) == -1
    requires id == e.callId || IndexOf(pool, id) >= 0
    ensures IndexOf(Insert(pool, e), id) >= 0
  {
    hide IndexOf, Position;
    var p, pool' := Position(pool, e.callId, 0), Insert(pool, e);
    var i := IndexOf(pool, id);
    var j := if id == e.callId then p else if i < p then i else i + 1;
    assert pool'[j].callId == id;
    Found(pool', j);
  }

  lemma SameIds(pool: seq<Entry>, m: map<string, nat>, id: string)
    requires Represents(pool, m)
    ensures id in m <==> IndexOf(pool, id) >= 0
  {
    hide IndexOf;
  }

  lemma InsertedMatches(pool: seq<Entry>, m: map<string, nat>, e: Entry)
    requires Represents(pool, m) && e.callId !in m && IndexOf(pool, e.callId) == -1
    ensures var m' := m[e.callId := e.player];
            forall x | x in Insert(pool, e) :: x.callId in m' && m'[x.callId] == x.player
  {
    hide IndexOf, Position;
    var p := Position(pool, e.callId, 0);
    assert Insert(pool, e) == pool[..p] + [e] + pool[p..];
    hide Insert;
    forall x | x in pool[..p] + [e] + pool[p..] ensures x == e || x in pool {
    }
  }

  /** Inserting an id that is there leaves the old entry; otherwise it adds one. */
  lemma {:induction false} InsertIsMapUpdate(pool: seq<Entry>, m: map<string, nat>, e: Entry)
    requires Represents(pool, m)
    ensures e.callId in m <==> IndexOf(pool, e.callId) >= 0
    ensures Represents(Insert(pool, e), if e.callId in m then m else m[e.callId := e.player])
  {
    hide IndexOf, Position;
    SameIds(pool, m, e.callId);
    if e.callId !in m {
      var pool', m' := Insert(pool, e), m[e.callId := e.player];
      InsertedMatches(pool, m, e);
      hide Insert;
      forall id | id in m' ensures IndexOf(pool', id) >= 0 {
        InsertedStands(pool, e, id);
      }
    }
  }

  lemma RemoveKeepsSorted(pool: seq<Entry>, callId: string)
    requires Sorted(pool)
    ensures Sorted(Remove(pool, callId))
  {
    hide IndexOf, Below;
  }

  lemma RemainsUnlessRemoved(pool: seq<Entry>, callId: string, id: string)
    requires IndexOf(pool, id) >= 0 && id != callId
    ensures IndexOf(Remove(pool, callId), id) >= 0
  {
    hide IndexOf;
    var i, j, pool' := IndexOf(pool, callId), IndexOf(pool, id), Remove(pool, callId);
    if i >= 0 {
      var k := if j < i then j else j - 1;
      assert pool'[k].callId == id;
      Found(pool', k);
    }
  }

  lemma RemainingEntry(pool: seq<Entry>, m: map<string, nat>, callId: string, k: nat)
    requires Represents(pool, m) && Sorted(pool) && k < |Remove(pool, callId)|
    ensures var e := Remove(pool, callId)[k];
            e.callId != callId && e.callId in m && m[e.callId] == e.player
  {
    hide IndexOf, Sorted;
    var i := IndexOf(pool, callId);
    var j := if 0 <= i <= k then k + 1 else k;
    RemovedAt(pool, callId, k);
    hide Remove;
    assert pool[j].callId in m && m[pool[j].callId] == pool[j].player;
    hide Represents;
    Found(pool, j);
  }

  lemma RemovedAt(pool: seq<Entry>, callId: string, k: nat)
    requires k < |Remove(pool, callId)|
    ensures var i := IndexOf(pool, callId);
            var j := if 0 <= i <= k then k + 1 else k;
            j < |pool| && Remove(pool, callId)[k] == pool[j]
  {
    hide IndexOf;
  }

  /** Removing gives what was inserted for the id, and takes nothing else away. */
  lemma RemoveIsMapRemoval(pool: seq<Entry>, m: map<string, nat>, callId: string)
    requires Represents(pool, m) && Sorted(pool)
    ensures callId in m <==> IndexOf(pool, callId) >= 0
    ensures callId in m ==> pool[IndexOf(pool, callId)] == Entry(callId, m[callId])
    ensures Represents(Remove(pool, callId), m - {callId})
  {
    hide IndexOf, Sorted, Remove;
    var pool' := Remove(pool, callId);
    forall id | id in m - {callId} ensures IndexOf(pool', id) >= 0 {
      RemainsUnlessRemoved(pool, callId, id);
    }
    forall k | 0 <= k < |pool'|
      ensures pool'[k].callId in m - {callId} && (m - {callId})[pool'[k].callId] == pool'[k].player
    {
      RemainingEntry(pool, m, callId, k);
    }
  }

  // ----- Events --------------------------------------------------------------

  /** The player the call manager makes for a call, if any, and how far it gets. */
  datatype PlayerOutcome = NoPlayer | Player(player: nat, realized: bool, prefetched: bool, playing: bool)

  datatype Event =
    | Offered(callId: string, address: string)
    | Established(local: bool, callId: string, outcome: PlayerOutcome)
    | Disconnected(local: bool, callId: string)
    | Failed(callId: string)

  /** The listener's pool and counter, and a ledger: the players created and
      destroyed, those nobody can reach any more, the pool's removals, and the calls
      that were dropped. */
  datatype World = World(
    pool: seq<Entry>, totalCalls: nat,
    created: seq<nat>, destroyed: seq<nat>, lost: seq<nat>, removals: nat, dropped: seq<string>)

  const INITIAL := World([], 0, [], [], [], 0, [])

  predicate Plays(o: PlayerOutcome) {
    o.Player? && o.realized && o.prefetched && o.playing
  }

  /** `playAudio`: a player that does not get to playing is destroyed again. */
  function PlayAudio(w: World, o: PlayerOutcome): World {
    match o
    case NoPlayer => w
    case Player(h, _, _, _) =>
      w.(created := w.created + [h], destroyed := if Plays(o) then w.destroyed else w.destroyed + [h])
  }

  /** `insertEntry`: the call object of an id that is in the pool goes nowhere. */
  function InsertEntry(w: World, e: Entry): World {
    if IndexOf(w.pool, e.callId) >= 0 then w.(lost := w.lost + [e.player])
    else w.(pool := Insert(w.pool, e), totalCalls := w.totalCalls + 1)
  }

  function Step(w: World, e: Event): World {
    match e
    case Established(true, callId, o) =>
      var w1 := PlayAudio(w, o);
      if Plays(o) then InsertEntry(w1, Entry(callId, o.player)) else w1.(dropped := w1.dropped + [callId])
    case Disconnected(false, callId) =>
      var i := IndexOf(w.pool, callId);
      if i >= 0 then
        w.(pool := Remove(w.pool, callId), destroyed := w.destroyed + [w.pool[i].player],
           removals := w.removals + 1, dropped := w.dropped + [callId])
      else w
    case Failed(callId) => w.(dropped := w.dropped + [callId])
    case _ => w
  }

  function Run(w: World, events: seq<Event>): World
    decreases events
  {
    if events == [] then w else Run(Step(w, events[0]), events[1..])
  }

  /** The same events on a plain map. */
  function MapStep(m: map<string, nat>, e: Event): map<string, nat> {
    match e
    case Established(true, callId, o) =>
      if Plays(o) && callId !in m then m[callId := o.player] else m
    case Disconnected(false, callId) => m - {callId}
    case _ => m
  }

  function MapRun(m: map<string, nat>, events: seq<Event>): map<string, nat>
    decreases events
  {
    if events == [] then m else MapRun(MapStep(m, events[0]), events[1..])
  }

  /** The call manager makes a new player each time. */
  predicate AlwaysNewPlayers(w: World, events: seq<Event>)
    decreases events
  {
    events != [] ==>
      var e := events[0];
      (e.Established? && e.local && e.outcome.Player? ==> e.outcome.player !in w.created)
      && AlwaysNewPlayers(Step(w, e), events[1..])
  }

  /** A call that plays is established while its id is still in the pool. */
  predicate EstablishesAgain(w: World, e: Event) {
    e.Established? && e.local && Plays(e.outcome) && IndexOf(w.pool, e.callId) >= 0
  }

  predicate EstablishesAgainSometime(w: World, events: seq<Event>)
    decreases events
  {
    events != [] && (EstablishesAgain(w, events[0]) || EstablishesAgainSometime(Step(w, events[0]), events[1..]))
  }

  // ----- Every run refines the map -------------------------------------------

  lemma StepRefinesMap(w: World, m: map<string, nat>, e: Event)
    requires Sorted(w.pool) && Represents(w.pool, m)
    ensures Sorted(Step(w, e).pool) && Represents(Step(w, e).pool, MapStep(m, e))
  {
    hide IndexOf, Sorted, Represents, Insert, Remove;
    match e
    case Established(true, callId, o) =>
      if Plays(o) {
        InsertKeepsSorted(w.pool, Entry(callId, o.player));
        InsertIsMapUpdate(w.pool, m, Entry(callId, o.player));
      }
    case Disconnected(false, callId) =>
      RemoveKeepsSorted(w.pool, callId);
      RemoveIsMapRemoval(w.pool, m, callId);
      if callId !in m {
        assert m - {callId} == m;
      }
    case _ =>
  }

  /** In every run the list stays sorted, without two entries for one id, and holds
      exactly what the map holds: an id established again keeps its first player,
      and a disconnect removes the player of its id and no other. */
  lemma {:induction false} PoolRefinesMap(w: World, m: map<string, nat>, events: seq<Event>)
    requires Sorted(w.pool) && Represents(w.pool, m)
    ensures Sorted(Run(w, events).pool) && Represents(Run(w, events).pool, MapRun(m, events))
    decreases events
  {
    hide Sorted, Represents;
    if events != [] {
      StepRefinesMap(w, m, events[0]);
      PoolRefinesMap(Step(w, events[0]), MapStep(m, events[0]), events[1..]);
    }
  }

  // ----- Every run conserves players -----------------------------------------

  function Players(pool: seq<Entry>): seq<nat> {
    seq(|pool|, i requires 0 <= i < |pool| => pool[i].player)
  }

  /** Every player created is destroyed, owned by a pooled call, or lost, and just
      one of these. */
  ghost predicate Balanced(w: World) {
    && NoneTwice(w.created)
    && multiset(w.created) == multiset(w.destroyed) + multiset(Players(w.pool)) + multiset(w.lost)
    && w.totalCalls == |w.pool| + w.removals
  }

  lemma PlayersOfInsert(pool: seq<Entry>, e: Entry)
    requires IndexOf(pool, e.callId) == -1
    ensures multiset(Players(Insert(pool, e))) == multiset(Players(pool)) + multiset{e.player}
    ensures |Insert(pool, e)| == |pool| + 1
  {
    hide IndexOf, Position, Players;
    var p := Position(pool, e.callId, 0);
    assert pool[..p] + pool[p..] == pool;
    PlayersInParts(pool[..p], e, pool[p..]);
  }

  lemma PlayersInParts(a: seq<Entry>, e: Entry, b: seq<Entry>)
    ensures multiset(Players(a + [e] + b)) == multiset(Players(a + b)) + multiset{e.player}
  {
    assert Players(a + [e] + b) == Players(a) + [e.player] + Players(b);
    assert Players(a + b) == Players(a) + Players(b);
    hide Players;
    assert multiset(Players(a) + [e.player] + Players(b))
        == multiset(Players(a)) + multiset{e.player} + multiset(Players(b));
    assert multiset(Players(a) + Players(b)) == multiset(Players(a)) + multiset(Players(b));
  }

  lemma PlayersOfRemove(pool: seq<Entry>, callId: string)
    requires IndexOf(pool, callId) >= 0
    ensures var i := IndexOf(pool, callId);
            multiset(Players(pool)) == multiset(Players(Remove(pool, callId))) + multiset{pool[i].player}
    ensures |Remove(pool, callId)| == |pool| - 1
  {
    hide IndexOf, Players;
    var i := IndexOf(pool, callId);
    assert pool[..i] + [pool[i]] + pool[i + 1..] == pool;
    PlayersInParts(pool[..i], pool[i], pool[i + 1..]);
  }

  lemma InsertIsBalanced(w: World, e: Entry)
    requires w.created != [] && Balanced(w.(created := w.created[..|w.created| - 1]))
    requires w.created[|w.created| - 1] == e.player && NoneTwice(w.created)
    ensures Balanced(InsertEntry(w, e))
  {
    var before := w.created[..|w.created| - 1];
    assert w.created == before + [e.player];
    assert multiset(w.created) == multiset(before) + multiset{e.player};
    hide IndexOf, NoneTwice, Insert, Players;
    if IndexOf(w.pool, e.callId) >= 0 {
      assert multiset(w.lost + [e.player]) == multiset(w.lost) + multiset{e.player};
    } else {
      PlayersOfInsert(w.pool, e);
    }
  }

  lemma EstablishedIsBalanced(w: World, callId: string, o: PlayerOutcome)
    requires Balanced(w) && o.Player? && o.player !in w.created
    ensures Balanced(Step(w, Established(true, callId, o)))
  {
    hide IndexOf, Insert, Players;
    var w1, h := PlayAudio(w, o), o.player;
    assert NoneTwice(w1.created);
    assert w1.created[..|w1.created| - 1] == w.created;
    hide NoneTwice;
    if Plays(o) {
      InsertIsBalanced(w1, Entry(callId, h));
    } else {
      assert multiset(w.created + [h]) == multiset(w.created) + multiset{h};
      assert multiset(w.destroyed + [h]) == multiset(w.destroyed) + multiset{h};
    }
  }

  lemma DisconnectedIsBalanced(w: World, callId: string)
    requires Balanced(w)
    ensures Balanced(Step(w, Disconnected(false, callId)))
  {
    hide IndexOf, Remove, Players, NoneTwice;
    var i := IndexOf(w.pool, callId);
    if i >= 0 {
      PlayersOfRemove(w.pool, callId);
      assert multiset(w.destroyed + [w.pool[i].player]) == multiset(w.destroyed) + multiset{w.pool[i].player};
    }
  }

  lemma StepIsBalanced(w: World, e: Event)
    requires Balanced(w)
    requires e.Established? && e.local && e.outcome.Player? ==> e.outcome.player !in w.created
    ensures Balanced(Step(w, e))
  {
    hide IndexOf, Insert, Remove, Players, NoneTwice;
    match e
    case Established(true, callId, Player(_, _, _, _)) =>
      EstablishedIsBalanced(w, callId, e.outcome);
      hide Balanced, Step;
    case Disconnected(false, callId) =>
      DisconnectedIsBalanced(w, callId);
      hide Balanced, Step;
    case _ =>
  }

  /** A player is lost exactly when a call that plays is established while its id
      is still in the pool. */
  lemma {:induction false} RunIsBalanced(w: World, events: seq<Event>)
    requires Balanced(w) && AlwaysNewPlayers(w, events)
    ensures Balanced(Run(w, events))
    ensures |Run(w, events).lost| >= |w.lost|
    ensures |Run(w, events).lost| > |w.lost| <==> EstablishesAgainSometime(w, events)
    decreases events
  {
    hide Balanced, IndexOf;
    if events != [] {
      StepIsBalanced(w, events[0]);
      RunIsBalanced(Step(w, events[0]), events[1..]);
    }
  }

  /** Over every run: players are only ever destroyed once; every pooled call owns a
      player of its own that is not destroyed; the call counter counts the pool and
      its removals; and players created = players destroyed + pool size exactly
      when no call that plays is established while its id is still in the pool. */
  lemma PlayersAreConserved(events: seq<Event>)
    requires AlwaysNewPlayers(INITIAL, events)
    ensures var w := Run(INITIAL, events);
            && |w.created| == |w.destroyed| + |w.pool| + |w.lost|
            && (|w.created| == |w.destroyed| + |w.pool| <==> !EstablishesAgainSometime(INITIAL, events))
            && NoneTwice(w.destroyed) && NoneTwice(Players(w.pool))
            && (forall i | 0 <= i < |w.pool| ::
                  w.pool[i].player in w.created && w.pool[i].player !in w.destroyed)
            && w.totalCalls == |w.pool| + w.removals
  {
    assert Balanced(INITIAL);
    RunIsBalanced(INITIAL, events);
    hide *;
    BalancedMeans(Run(INITIAL, events));
    assert |INITIAL.lost| == 0;
  }

  // ----- Which calls are dropped ---------------------------------------------

  /** A call that is established here is dropped exactly when its player did not
      realize, prefetch and play, and otherwise it is in the pool from then on, under
      its first player. */
  lemma EstablishedCalls(w: World, callId: string, o: PlayerOutcome)
    ensures var w' := Step(w, Established(true, callId, o));
            var works := o.Player? && o.realized && o.prefetched && o.playing;
            && w'.dropped == (if works then w.dropped else w.dropped + [callId])
            && (works ==> IndexOf(w'.pool, callId) >= 0 && w'.destroyed == w.destroyed)
            && (works && IndexOf(w.pool, callId) == -1 ==> Entry(callId, o.player) in w'.pool)
            && (!works ==> w'.pool == w.pool &&
                           w'.destroyed == if o.Player? then w.destroyed + [o.player] else w.destroyed)
  {
    hide IndexOf, Position, Insert;
    if IndexOf(w.pool, callId) == -1 && Plays(o) {
      InsertedStands(w.pool, Entry(callId, o.player), callId);
      InsertedIsThere(w.pool, Entry(callId, o.player));
    }
  }

  lemma InsertedIsThere(pool: seq<Entry>, e: Entry)
    requires IndexOf(pool, e.callId) == -1
    ensures e in Insert(pool, e)
  {
    hide IndexOf, Position;
    var p := Position(pool, e.callId, 0);
    assert Insert(pool, e)[p] == e;
  }

  /** What else is dropped: the id that leaves the pool when its call is disconnected
      at the other end, and a call that failed. Nothing else drops a call, or changes
      the pool. */
  lemma OtherDrops(w: World, e: Event)
    requires !(e.Established? && e.local)
    ensures var w' := Step(w, e);
            && (w'.dropped == w.dropped || w'.dropped == w.dropped + [e.callId])
            && (w'.dropped != w.dropped <==>
                  e.Failed? || (e.Disconnected? && !e.local && IndexOf(w.pool, e.callId) >= 0))
            && |w'.pool| == |w.pool| - (if e.Disconnected? && w'.dropped != w.dropped then 1 else 0)
            && (Sorted(w.pool) && e.Disconnected? && !e.local ==>
                  forall x :: x in w'.pool <==> x in w.pool && x.callId != e.callId)
  {
    hide IndexOf, Sorted, Remove;
    if e.Disconnected? && !e.local {
      LengthOfRemove(w.pool, e.callId);
      if Sorted(w.pool) {
        RemovesOnlyId(w.pool, e.callId);
      }
    }
  }

  lemma LengthOfRemove(pool: seq<Entry>, callId: string)
    ensures |Remove(pool, callId)| == |pool| - if IndexOf(pool, callId) >= 0 then 1 else 0
  {
    hide IndexOf;
  }

  lemma RemovesOnlyId(pool: seq<Entry>, callId: string)
    requires Sorted(pool)
    ensures forall x :: x in Remove(pool, callId) <==> x in pool && x.callId != callId
  {
    var i, pool' := IndexOf(pool, callId), Remove(pool, callId);
    forall x | x in pool' ensures x in pool && x.callId != callId {
      var k :| 0 <= k < |pool'| && pool'[k] == x;
      RemovedAt(pool, callId, k);
      var j := if 0 <= i <= k then k + 1 else k;
      Found(pool, j);
    }
    forall x | x in pool && x.callId != callId ensures x in pool' {
      var j :| 0 <= j < |pool| && pool[j] == x;
      KeptAt(pool, callId, j);
    }
  }

  lemma KeptAt(pool: seq<Entry>, callId: string, j: nat)
    requires j < |pool| && pool[j].callId != callId
    ensures pool[j] in Remove(pool, callId)
  {
    hide IndexOf;
    var i, pool' := IndexOf(pool, callId), Remove(pool, callId);
    assert pool'[if 0 <= i < j then j - 1 else j] == pool[j];
  }

  function Failures(events: seq<Event>): nat {
    if events == [] then 0
    else (if events[0].Failed? then 1 else 0) + Failures(events[1..])
  }

  /** Calls that were established here and did not come to play. */
  function Silent(events: seq<Event>): nat {
    if events == [] then 0 else
    var e := events[0];
    var plays := e.Established? && e.outcome.Player? &&
                 e.outcome.realized && e.outcome.prefetched && e.outcome.playing;
    (if e.Established? && e.local && !plays then 1 else 0) + Silent(events[1..])
  }

  /** In every run, as many calls are dropped as left the pool, failed, or did not come
      to play. */
  lemma {:induction false} DropsAreAccounted(w: World, events: seq<Event>)
    ensures |Run(w, events).dropped| - |w.dropped| ==
            (Run(w, events).removals - w.removals) + Failures(events) + Silent(events)
    decreases events
  {
    hide IndexOf, Remove, Insert;
    if events != [] {
      DropsAreAccounted(Step(w, events[0]), events[1..]);
    }
  }

  /** An id that is established twice: when the call has ended, the second player
      still plays, and nothing leads to it. */
  lemma SecondPlayerIsLostExample(callId: string, p: nat, q: nat)
    requires p != q
    ensures var events := [Established(true, callId, Player(p, true, true, true)),
                           Established(true, callId, Player(q, true, true, true)),
                           Disconnected(false, callId)];
            AlwaysNewPlayers(INITIAL, events) &&
            Run(INITIAL, events) == World([], 1, [p, q], [p], [q], 1, [callId])
  {
    var e, f, d := Established(true, callId, Player(p, true, true, true)),
                   Established(true, callId, Player(q, true, true, true)), Disconnected(false, callId);
    var w1 := World([Entry(callId, p)], 1, [p], [], [], 0, []);
    var w2 := World([Entry(callId, p)], 1, [p, q], [], [q], 0, []);
    SecondPlayerSteps(callId, p, q);
    hide Step;
    assert [e, f, d][1..] == [f, d] && [f, d][1..] == [d] && [d][1..] == [];
    assert Run(w2, [d]) == Step(w2, d) && Run(w1, [f, d]) == Run(w2, [d]);
    assert AlwaysNewPlayers(Step(w2, d), []);
    var events := [d];
    assert !events[0].Established? && AlwaysNewPlayers(Step(w2, events[0]), events[1..]);
    assert AlwaysNewPlayers(w2, events);
    assert AlwaysNewPlayers(w1, [f, d]);
  }

  lemma SecondPlayerSteps(callId: string, p: nat, q: nat)
    ensures var w1 := World([Entry(callId, p)], 1, [p], [], [], 0, []);
            var w2 := World([Entry(callId, p)], 1, [p, q], [], [q], 0, []);
            && Step(INITIAL, Established(true, callId, Player(p, true, true, true))) == w1
            && Step(w1, Established(true, callId, Player(q, true, true, true))) == w2
            && Step(w2, Disconnected(false, callId)) == World([], 1, [p, q], [p], [q], 1, [callId])
  {
    Found([Entry(callId, p)], 0);
    hide Below;
  }

  lemma BalancedMeans(w: World)
    requires Balanced(w)
    ensures |w.created| == |w.destroyed| + |w.pool| + |w.lost|
    ensures NoneTwice(w.destroyed) && NoneTwice(Players(w.pool))
    ensures forall i | 0 <= i < |w.pool| ::
              w.pool[i].player in w.created && w.pool[i].player !in w.destroyed
    ensures w.totalCalls == |w.pool| + w.removals
  {
    var d, p, l := multiset(w.destroyed), multiset(Players(w.pool)), multiset(w.lost);
    assert |multiset(w.created)| == |d| + |p| + |l|;
    forall i, j | 0 <= i < j < |w.destroyed| ensures w.destroyed[i] != w.destroyed[j] {
      CountedOnce(w.created, w.destroyed[i]);
      if w.destroyed[i] == w.destroyed[j] {
        TwiceIsCounted(w.destroyed, i, j);
        assert false;
      }
    }
    var players := Players(w.pool);
    forall i, j | 0 <= i < j < |players| ensures players[i] != players[j] {
      CountedOnce(w.created, players[i]);
      if players[i] == players[j] {
        TwiceIsCounted(players, i, j);
        assert false;
      }
    }
    forall i | 0 <= i < |w.pool|
      ensures w.pool[i].player in w.created && w.pool[i].player !in w.destroyed
    {
      CountedOnce(w.created, players[i]);
      assert players[i] in p;
      assert multiset(w.created)[players[i]] == d[players[i]] + p[players[i]] + l[players[i]];
    }
  }
}
