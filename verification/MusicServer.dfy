/** The music server's objects: the call manager as far as players go, a call that
    owns a player, and the listener with its pool of calls. */
module MusicServer {
  import opened CallPool
  import opened UtlStrings

  datatype Connection = Connection(callId: string, address: string)

  /** A player handle; 0 stands for none. */
  class CallManager {
    var created: seq<nat>
    var destroyed: seq<nat>
    var dropped: seq<string>
    var accepted: seq<Connection>
    var answered: seq<Connection>

    constructor ()
      ensures created == [] && destroyed == [] && dropped == [] && accepted == [] && answered == []
    {
      created, destroyed, dropped, accepted, answered := [], [], [], [], [];
    }

    method AcceptConnection(callId: string, address: string)
      modifies this`accepted
      ensures accepted == old(accepted) + [Connection(callId, address)]
    {
      accepted := accepted + [Connection(callId, address)];
    }

    method AnswerTerminalConnection(callId: string, address: string)
      modifies this`answered
      ensures answered == old(answered) + [Connection(callId, address)]
    {
      answered := answered + [Connection(callId, address)];
    }

    method CreatePlayer(outcome: PlayerOutcome) returns (player: nat)
      modifies this`created
      ensures created == if outcome.Player? then old(created) + [outcome.player] else old(created)
      ensures player == if outcome.Player? then outcome.player else 0
    {
      player := 0;
      if outcome.Player? {
        player := outcome.player;
        created := created + [player];
      }
    }

    method DestroyPlayer(player: nat)
      modifies this`destroyed
      ensures destroyed == old(destroyed) + [player]
    {
      destroyed := destroyed + [player];
    }

    method Drop(callId: string)
      modifies this`dropped
      ensures dropped == old(dropped) + [callId]
    {
      dropped := dropped + [callId];
    }
  }

  class CallObject {
    const mpCallManager: CallManager
    const mCallId: string
    const mFile: string
    var mpPlayer: nat
    var playlist: seq<string>

    constructor (callManager: CallManager, callId: string, playFile: string)
      ensures mpCallManager == callManager && mCallId == callId && mFile == playFile
      ensures mpPlayer == 0 && playlist == []
    {
      mpCallManager := callManager;
      mCallId := callId;
      mpPlayer := 0;
      mFile := playFile;
      playlist := [];
    }

    /** Make a player, give it the prompt three times and start it. A player that
        fails to realize, prefetch or play is destroyed again. */
    method PlayAudio(outcome: PlayerOutcome) returns (ok: bool)
      requires mpPlayer == 0 && (outcome.Player? ==> outcome.player != 0)
      modifies this, mpCallManager`created, mpCallManager`destroyed
      ensures ok <==> outcome.Player? && outcome.realized && outcome.prefetched && outcome.playing
      ensures ok == Plays(outcome)
      ensures mpPlayer == if ok then outcome.player else 0
      ensures mpCallManager.created ==
              if outcome.Player? then old(mpCallManager.created) + [outcome.player] else old(mpCallManager.created)
      ensures mpCallManager.destroyed ==
              if outcome.Player? && !ok then old(mpCallManager.destroyed) + [outcome.player]
              else old(mpCallManager.destroyed)
      ensures var prompt := "file://" + mFile;
              playlist == if outcome.Player? then old(playlist) + [prompt, prompt, prompt] else old(playlist)
    {
      mpPlayer := mpCallManager.CreatePlayer(outcome);
      if mpPlayer == 0 {
        return false;
      }
      ghost var before, prompt := playlist, "file://" + mFile;
      var i := 0;
      while i < 3
        invariant 0 <= i <= 3
        invariant playlist == before + [prompt, prompt, prompt][..i]
        modifies this`playlist
      {
        playlist := playlist + ["file://" + mFile];
        i := i + 1;
      }
      if !outcome.realized {
        CleanUp();
        return false;
      }
      if !outcome.prefetched {
        CleanUp();
        return false;
      }
      if !outcome.playing {
        CleanUp();
        return false;
      }
      return true;
    }

    method CleanUp()
      modifies this`mpPlayer, mpCallManager`destroyed
      ensures mpPlayer == 0
      ensures mpCallManager.destroyed ==
              if old(mpPlayer) != 0 then old(mpCallManager.destroyed) + [old(mpPlayer)]
              else old(mpCallManager.destroyed)
    {
      if mpPlayer != 0 {
        mpCallManager.DestroyPlayer(mpPlayer);
      }
      mpPlayer := 0;
    }
  }

  datatype ActiveCall = ActiveCall(callId: string, call: CallObject)

  class Listener {
    const mpCallManager: CallManager
    const mPlayfile: string
    var mCalls: seq<ActiveCall>
    var mTotalCalls: nat
    ghost var lost: seq<nat>
    ghost var removals: nat

    ghost function Objects(): set<CallObject>
      reads this
    {
      set i | 0 <= i < |mCalls| :: mCalls[i].call
    }

    ghost predicate Valid()
      reads this, Objects()
    {
      && (forall i | 0 <= i < |mCalls| ::
            mCalls[i].call.mpCallManager == mpCallManager && mCalls[i].call.mpPlayer != 0)
      && (forall i, j | 0 <= i < j < |mCalls| :: mCalls[i].call != mCalls[j].call)
    }

    ghost function Pool(): (r: seq<Entry>)
      reads this, Objects()
      ensures |r| == |mCalls|
      ensures forall i | 0 <= i < |r| :: r[i] == Entry(mCalls[i].callId, mCalls[i].call.mpPlayer)
    {
      seq(|mCalls|, i requires 0 <= i < |mCalls| reads this, Objects() =>
        assert mCalls[i].call in Objects();
        Entry(mCalls[i].callId, mCalls[i].call.mpPlayer))
    }

    ghost function Now(): World
      reads this, mpCallManager, Objects()
    {
      World(Pool(), mTotalCalls, mpCallManager.created, mpCallManager.destroyed, lost, removals, mpCallManager.dropped)
    }

    constructor (callManager: CallManager, playfile: string)
      requires callManager.created == [] && callManager.destroyed == [] && callManager.dropped == []
      ensures mpCallManager == callManager && Valid() && Now() == INITIAL
    {
      mpCallManager := callManager;
      mPlayfile := playfile;
      mCalls, mTotalCalls, lost, removals := [], 0, [], 0;
    }

    /** `UtlSortedList::index`. */
    method Index(callId: string) returns (i: int)
      requires Valid()
      ensures i == IndexOf(Pool(), callId)
      ensures Valid() && Pool() == old(Pool()) && Objects() == old(Objects())
    {
      i := 0;
      while i < |mCalls| && mCalls[i].callId != callId
        invariant 0 <= i <= |mCalls| && forall j | 0 <= j < i :: mCalls[j].callId != callId
      {
        i := i + 1;
      }
      if i == |mCalls| {
        i := -1;
      }
    }

    /** `UtlSortedList::findNode`: the first entry that does not compare below. */
    method FindPosition(callId: string) returns (p: nat)
      ensures p == Position(Pool(), callId, 0)
    {
      p := 0;
      while p < |mCalls| && Below(mCalls[p].callId, callId)
        invariant p <= |mCalls| && Position(Pool(), callId, 0) == Position(Pool(), callId, p)
      {
        p := p + 1;
      }
    }

    method InsertEntry(callId: string, newObject: CallObject)
      requires Valid() && newObject !in Objects()
      requires newObject.mpCallManager == mpCallManager && newObject.mpPlayer != 0
      modifies this
      ensures Valid() && Now() == CallPool.InsertEntry(old(Now()), Entry(callId, newObject.mpPlayer))
      ensures Objects() <= old(Objects()) + {newObject}
    {
      hide IndexOf, Position;
      ghost var pool := Pool();
      var i := Index(callId);
      if i != -1 {
        lost := lost + [newObject.mpPlayer];
        assert Pool() == pool;
      } else {
        var p := FindPosition(callId);
        InsertAt(callId, newObject, p);
        mTotalCalls := mTotalCalls + 1;
        assert Pool() == pool[..p] + [Entry(callId, newObject.mpPlayer)] + pool[p..];
      }
    }

    method InsertAt(callId: string, newObject: CallObject, p: nat)
      requires Valid() && newObject !in Objects() && p <= |mCalls|
      requires newObject.mpCallManager == mpCallManager && newObject.mpPlayer != 0
      modifies this`mCalls
      ensures Valid()
      ensures Pool() == old(Pool())[..p] + [Entry(callId, newObject.mpPlayer)] + old(Pool())[p..]
      ensures Objects() <= old(Objects()) + {newObject}
    {
      mCalls := mCalls[..p] + [ActiveCall(callId, newObject)] + mCalls[p..];
    }

    method RemoveEntry(callId: string) returns (pObject: CallObject?)
      requires Valid()
      modifies this
      ensures var i := IndexOf(old(Pool()), callId);
              if i == -1 then pObject == null && mCalls == old(mCalls) && removals == old(removals)
              else pObject == old(mCalls)[i].call && mCalls == old(mCalls)[..i] + old(mCalls)[i + 1..]
                   && removals == old(removals) + 1
      ensures mTotalCalls == old(mTotalCalls) && lost == old(lost)
      ensures Valid() && Pool() == Remove(old(Pool()), callId)
      ensures Objects() <= old(Objects()) && pObject !in Objects()
    {
      hide IndexOf, Listener.Valid, Listener.Objects, Listener.Pool;
      var i := Index(callId);
      if i == -1 {
        return null;
      }
      pObject := mCalls[i].call;
      RemoveAt(i);
    }

    method RemoveAt(i: nat)
      requires Valid() && i < |mCalls|
      modifies this`mCalls, this`removals
      ensures mCalls == old(mCalls)[..i] + old(mCalls)[i + 1..] && removals == old(removals) + 1
      ensures Valid() && Pool() == old(Pool())[..i] + old(Pool())[i + 1..]
      ensures Objects() <= old(Objects()) && old(mCalls)[i].call !in Objects()
    {
      mCalls := mCalls[..i] + mCalls[i + 1..];
      removals := removals + 1;
    }

    /** The reaction to one telephony event. */
    method HandleMessage(e: Event)
      requires Valid()
      requires e.Established? && e.outcome.Player? ==> e.outcome.player != 0
      modifies this, mpCallManager, Objects()
      ensures Valid() && Now() == Step(old(Now()), e)
      ensures mpCallManager.accepted == old(mpCallManager.accepted) +
                (if e.Offered? then [Connection(e.callId, e.address)] else [])
      ensures mpCallManager.answered == old(mpCallManager.answered) +
                (if e.Offered? then [Connection(e.callId, e.address)] else [])
      ensures fresh(Objects() - old(Objects()))
    {
      match e {
        case Offered(callId, address) =>
          mpCallManager.AcceptConnection(callId, address);
          mpCallManager.AnswerTerminalConnection(callId, address);
        case Established(localConnection, callId, outcome) =>
          if localConnection {
            EstablishCall(callId, outcome);
          }
        case Disconnected(localConnection, callId) =>
          if !localConnection {
            DropCall(callId);
          }
        case Failed(callId) =>
          mpCallManager.Drop(callId);
      }
    }

    method EstablishCall(callId: string, outcome: PlayerOutcome)
      requires Valid()
      requires outcome.Player? ==> outcome.player != 0
      modifies this, mpCallManager`created, mpCallManager`destroyed, mpCallManager`dropped
      ensures Valid() && Now() == Step(old(Now()), Established(true, callId, outcome))
      ensures fresh(Objects() - old(Objects()))
    {
      hide IndexOf, Insert, Plays;
      ghost var w := Now();
      EstablishedStep(w, callId, outcome);
      var thisCall := new CallObject(mpCallManager, callId, mPlayfile);
      var ok := thisCall.PlayAudio(outcome);
      assert Pool() == w.pool;
      assert Now() == CallPool.PlayAudio(w, outcome);
      hide Step, CallPool.PlayAudio, CallPool.InsertEntry;
      if ok {
        InsertEntry(callId, thisCall);
      } else {
        ghost var pool := Pool();
        mpCallManager.Drop(callId);
        assert Pool() == pool;
      }
    }

    method DropCall(callId: string)
      requires Valid()
      modifies this, mpCallManager`destroyed, mpCallManager`dropped, Objects()
      ensures Valid() && Now() == Step(old(Now()), Disconnected(false, callId))
      ensures fresh(Objects() - old(Objects()))
    {
      hide IndexOf, Remove;
      ghost var w := Now();
      DisconnectedStep(w, callId);
      var droppedCall := RemoveEntry(callId);
      ghost var left := Pool();
      hide Step;
      if droppedCall != null {
        droppedCall.CleanUp();
        assert Pool() == left;
        mpCallManager.Drop(callId);
      } else {
        RemoveOfNone(w.pool, callId);
      }
    }
  }

  lemma DisconnectedStep(w: World, callId: string)
    ensures var i := IndexOf(w.pool, callId);
            Step(w, Disconnected(false, callId)) ==
              if i >= 0 then
                w.(pool := Remove(w.pool, callId), destroyed := w.destroyed + [w.pool[i].player],
                   removals := w.removals + 1, dropped := w.dropped + [callId])
              else w
  {
  }

  lemma EstablishedStep(w: World, callId: string, o: PlayerOutcome)
    ensures Plays(o) ==> o.Player?
    ensures Step(w, Established(true, callId, o)) ==
            var w1 := PlayAudio(w, o);
            if Plays(o) then CallPool.InsertEntry(w1, Entry(callId, o.player))
            else w1.(dropped := w1.dropped + [callId])
  {
  }

  lemma RemoveOfNone(pool: seq<Entry>, callId: string)
    requires IndexOf(pool, callId) == -1
    ensures Remove(pool, callId) == pool
  {
  }
}
