/** The circular event log of the phone manager, against the history of events it
    is to show. */
module EventLog {

  const SLOTS := 256

  // ----- The history ---------------------------------------------------------

  /** The newest 256 events, oldest first. */
  function Window(history: seq<string>): seq<string> {
    if |history| <= SLOTS then history else history[|history| - SLOTS..]
  }

  function Blank(n: nat): seq<string> {
    seq(n, _ => "")
  }

  /** All slots once round, from the one written next. */
  function Round(slots: seq<string>, index: nat): seq<string>
    requires index <= |slots|
  {
    slots[index..] + slots[..index]
  }

  /** The slots hold the history: blanks first, then its newest events. */
  ghost predicate Holds(slots: seq<string>, index: nat, history: seq<string>) {
    && |slots| == SLOTS && index == |history| % 256 && "" !in history
    && Round(slots, index) == Blank(SLOTS - |Window(history)|) + Window(history)
  }

  function NonBlank(s: seq<string>): seq<string> {
    if s == [] then [] else (if s[0] == "" then [] else [s[0]]) + NonBlank(s[1..])
  }

  lemma RoundMoves(slots: seq<string>, index: nat, line: string)
    requires |slots| == SLOTS && index < SLOTS
    ensures Round(slots[index := line], (index + 1) % 256) == Round(slots, index)[1..] + [line]
  {
  }

  lemma WindowMoves(history: seq<string>, line: string)
    ensures Window(history + [line]) ==
            (if |history| < SLOTS then Window(history) else Window(history)[1..]) + [line]
  {
  }

  lemma AddKeepsRound(slots: seq<string>, index: nat, history: seq<string>, line: string)
    requires |slots| == SLOTS && index < SLOTS
    requires Round(slots, index) == Blank(SLOTS - |Window(history)|) + Window(history)
    ensures var w := Window(history + [line]);
            Round(slots[index := line], (index + 1) % 256) == Blank(SLOTS - |w|) + w
  {
    hide Round, Window, Blank;
    RoundMoves(slots, index, line);
    WindowMoves(history, line);
    WindowSize(history);
    WindowSize(history + [line]);
    BlankMoves(SLOTS - |Window(history)|, Window(history), line);
  }

  lemma AddKeepsHolding(slots: seq<string>, index: nat, history: seq<string>, line: string)
    requires Holds(slots, index, history) && line != ""
    ensures Holds(slots[index := line], (index + 1) % 256, history + [line])
  {
    hide Round, Window, Blank;
    AddKeepsRound(slots, index, history, line);
    NextIndex(|history|);
  }

  lemma WindowSize(history: seq<string>)
    ensures |Window(history)| == if |history| < SLOTS then |history| else SLOTS
  {
  }

  lemma NextIndex(n: nat)
    ensures (n % 256 + 1) % 256 == (n + 1) % 256
  {
  }

  lemma BlankMoves(n: nat, w: seq<string>, line: string)
    requires n + |w| > 0
    ensures (Blank(n) + w)[1..] + [line] ==
            if n > 0 then Blank(n - 1) + (w + [line]) else Blank(n) + (w[1..] + [line])
  {
  }

  lemma ClearHoldsNothing()
    ensures Holds(Blank(SLOTS), 0, [])
  {
  }

  lemma {:induction false} NonBlankOfBoth(a: seq<string>, b: seq<string>)
    ensures NonBlank(a + b) == NonBlank(a) + NonBlank(b)
    decreases |a|
  {
    if a == [] {
      assert a + b == b;
    } else {
      assert (a + b)[1..] == a[1..] + b;
      NonBlankOfBoth(a[1..], b);
    }
  }

  lemma {:induction false} NonBlankOfHistory(n: nat, h: seq<string>)
    requires "" !in h
    ensures NonBlank(Blank(n)) == [] && NonBlank(h) == h
    decreases n + |h|
  {
    if n > 0 {
      NonBlankOfHistory(n - 1, h);
      assert Blank(n)[1..] == Blank(n - 1);
    } else if h != [] {
      NonBlankOfHistory(n, h[1..]);
    }
  }

  /** Read once round, the slots give exactly the newest 256 events, in order. */
  lemma RoundIsWindow(slots: seq<string>, index: nat, history: seq<string>)
    requires Holds(slots, index, history)
    ensures NonBlank(Round(slots, index)) == Window(history)
  {
    var n := SLOTS - |Window(history)|;
    NonBlankOfBoth(Blank(n), Window(history));
    NonBlankOfHistory(n, Window(history));
  }

  // ----- Runs ----------------------------------------------------------------

  datatype Event = Add(line: string) | Clear

  datatype Slots = Slots(lines: seq<string>, index: nat)

  function Run(events: seq<Event>): (r: Slots)
    ensures |r.lines| == SLOTS && r.index < SLOTS
  {
    if events == [] then Slots(Blank(SLOTS), 0) else
    var s := Run(events[..|events| - 1]);
    match events[|events| - 1]
    case Add(line) => Slots(s.lines[s.index := line], (s.index + 1) % 256)
    case Clear => Slots(Blank(SLOTS), 0)
  }

  /** The events since the log was last cleared. */
  function History(events: seq<Event>): seq<string> {
    if events == [] then [] else
    match events[|events| - 1]
    case Add(line) => History(events[..|events| - 1]) + [line]
    case Clear => []
  }

  /** After any sequence of adds and clears, one round over the slots gives the
      newest 256 events since the last clear. */
  lemma {:induction false} RunKeepsHistory(events: seq<Event>)
    requires forall e | e in events :: e.Add? ==> e.line != ""
    ensures var s, h := Run(events), History(events);
            Holds(s.lines, s.index, h) && NonBlank(Round(s.lines, s.index)) == Window(h)
    decreases |events|
  {
    var s, h := Run(events), History(events);
    if events == [] {
      ClearHoldsNothing();
    } else {
      var n := |events| - 1;
      RunKeepsHistory(events[..n]);
      var before := Run(events[..n]);
      match events[n]
      case Add(line) => AddKeepsHolding(before.lines, before.index, History(events[..n]), line);
      case Clear => ClearHoldsNothing();
    }
    hide Run, History, Holds;
    RoundIsWindow(s.lines, s.index, h);
  }

  /** One round, said of the events: of the lines added since the last clear the last
      256, in order. */
  lemma RoundOfAdds(before: seq<Event>, lines: seq<string>)
    requires forall e | e in before :: e.Add? ==> e.line != ""
    requires "" !in lines
    ensures var s := Run(before + [Clear] + Adds(lines));
            NonBlank(Round(s.lines, s.index)) == if |lines| <= 256 then lines else lines[|lines| - 256..]
  {
    var events := before + [Clear] + Adds(lines);
    forall e | e in events ensures e.Add? ==> e.line != "" {
      if e in Adds(lines) {
        var i :| 0 <= i < |lines| && Adds(lines)[i] == e;
        assert lines[i] in lines;
      }
    }
    RunKeepsHistory(events);
    HistoryOfAdds(before, lines);
    hide Run, History, Round, NonBlank, Holds;
  }

  function Adds(lines: seq<string>): seq<Event> {
    seq(|lines|, i requires 0 <= i < |lines| => Add(lines[i]))
  }

  lemma {:induction false} HistoryOfAdds(before: seq<Event>, lines: seq<string>)
    ensures History(before + [Clear] + Adds(lines)) == lines
    decreases |lines|
  {
    var events := before + [Clear] + Adds(lines);
    if lines != [] {
      var n := |lines| - 1;
      assert events[..|events| - 1] == before + [Clear] + Adds(lines[..n]);
      HistoryOfAdds(before, lines[..n]);
      assert lines[..n] + [lines[n]] == lines;
    }
  }

  // ----- What is shown -------------------------------------------------------

  /** How many slots `getEventLog` visits before it meets its stop index. */
  function Visited(index: nat): (r: nat)
    ensures r < SLOTS
  {
    if index == 0 then 1 else 255
  }

  /** The events `getEventLog` shows: all but the newest, except that after every
      256th event it is only the oldest. */
  function Shown(history: seq<string>): seq<string> {
    if history == [] then []
    else if |history| % 256 == 0 then Window(history)[..1]
    else Window(history)[..|Window(history)| - 1]
  }

  lemma VisitedIsShown(slots: seq<string>, index: nat, history: seq<string>)
    requires Holds(slots, index, history)
    ensures NonBlank(Round(slots, index)[..Visited(index)]) == Shown(history)
  {
    var w, v := Window(history), Visited(index);
    BlankPrefix(SLOTS - |w|, w, v);
    WindowSize(history);
    assert "" !in w;
    VisitedShows(|history|, v, w);
    hide Round, Blank, NonBlank;
    NonBlankPrefix(SLOTS - |w|, w, v);
  }

  /** How much of the window the visited slots reach. */
  lemma VisitedShows(n: nat, v: nat, w: seq<string>)
    requires v == Visited(n % 256) && |w| == if n < SLOTS then n else SLOTS
    ensures v <= SLOTS
    ensures n == 0 ==> v <= SLOTS - |w|
    ensures n > 0 ==> (if v <= SLOTS - |w| then 0 else v - (SLOTS - |w|)) == if n % 256 == 0 then 1 else |w| - 1
  {
  }

  lemma NonBlankPrefix(n: nat, w: seq<string>, v: nat)
    requires "" !in w && v <= n + |w|
    ensures NonBlank((Blank(n) + w)[..v]) == w[..if v <= n then 0 else v - n]
  {
    BlankPrefix(n, w, v);
    hide Blank, NonBlank;
    if v <= n {
      NonBlankOfHistory(v, []);
    } else {
      NonBlankOfBoth(Blank(n), w[..v - n]);
      NonBlankOfHistory(n, w[..v - n]);
    }
  }

  lemma BlankPrefix(n: nat, w: seq<string>, v: nat)
    requires v <= n + |w|
    ensures (Blank(n) + w)[..v] == if v <= n then Blank(v) else Blank(n) + w[..v - n]
  {
  }

  /** What is shown, said of the history itself: of its last 256 events all but the
      newest; after every 256th event only the first of them. */
  lemma ShownExactly(history: seq<string>)
    ensures var n := |history|;
            var first := if n <= 256 then 0 else n - 256;
            Shown(history) ==
              if n == 0 then [] else if n % 256 == 0 then [history[first]] else history[first..n - 1]
  {
  }

  /** What is shown is a prefix of the window, and the whole window only when there
      has been no event since the log was cleared. */
  lemma ShownIsPrefixOfWindow(history: seq<string>)
    ensures Shown(history) <= Window(history)
    ensures Shown(history) == Window(history) <==> history == []
  {
  }

  function Rendered(lines: seq<string>): string {
    if lines == [] then "" else lines[0] + "\r\n" + Rendered(lines[1..])
  }

  lemma {:induction false} RenderedGrows(lines: seq<string>, line: string)
    ensures Rendered(lines + [line]) == Rendered(lines) + line + "\r\n"
    decreases |lines|
  {
    if lines == [] {
      assert Rendered([line]) == line + "\r\n";
      assert lines + [line] == [line];
    } else {
      assert (lines + [line])[1..] == lines[1..] + [line];
      RenderedGrows(lines[1..], line);
    }
  }

  /** The slot visited after `k` steps, and the one where the loop stops. */
  function SlotAt(start: nat, k: nat): (r: nat)
    requires start < SLOTS && k <= SLOTS
    ensures r < SLOTS
  {
    if start + k < SLOTS then start + k else start + k - SLOTS
  }

  function StopSlot(start: nat): nat {
    if start > 0 then start - 1 else 1
  }

  /** The distance still to go: the loop meets its stop index after exactly the
      slots counted by `Visited`. */
  lemma StopIsMet(start: nat, k: nat)
    requires start < SLOTS && k <= Visited(start)
    ensures SlotAt(start, k) == StopSlot(start) <==> k == Visited(start)
    ensures SlotAt(start, k + 1) == (SlotAt(start, k) + 1) % 256 && SlotAt(start, 0) == start
  {
  }

  lemma RenderedOfNone()
    ensures Rendered(NonBlank([])) == ""
  {
  }

  lemma NextSlot(slots: seq<string>, index: nat, k: nat)
    requires |slots| == SLOTS && index < SLOTS && k < SLOTS
    ensures |Round(slots, index)| == SLOTS
    ensures var line, before := slots[SlotAt(index, k)], Round(slots, index)[..k];
            Rendered(NonBlank(Round(slots, index)[..k + 1])) ==
            if line == "" then Rendered(NonBlank(before)) else Rendered(NonBlank(before)) + line + "\r\n"
  {
    var round, line := Round(slots, index), slots[SlotAt(index, k)];
    assert round[..k + 1] == round[..k] + [line];
    NonBlankOfBoth(round[..k], [line]);
    assert NonBlank([line]) == if line == "" then [] else [line];
    hide NonBlank, Rendered, Round;
    RenderedGrows(NonBlank(round[..k]), line);
    assert NonBlank(round[..k]) + [] == NonBlank(round[..k]);
  }

  // ----- The code ------------------------------------------------------------

  class EventLog {
    const mEventLog: array<string>
    var mEventLogIndex: nat
    ghost var history: seq<string>

    ghost predicate Valid()
      reads this, mEventLog
    {
      Holds(mEventLog[..], mEventLogIndex, history)
    }

    constructor ()
      ensures Valid() && fresh(mEventLog) && history == []
    {
      mEventLog := new string[SLOTS];
      mEventLogIndex, history := 0, [];
      new;
      ClearEventLog();
    }

    method AddToEventLog(date: string, time: string, event: string)
      requires Valid()
      modifies this, mEventLog
      ensures Valid() && history == old(history) + [date + " " + time + "  " + event]
    {
      ghost var slots, index := mEventLog[..], mEventLogIndex;
      mEventLog[mEventLogIndex] := date;
      mEventLog[mEventLogIndex] := mEventLog[mEventLogIndex] + " ";
      mEventLog[mEventLogIndex] := mEventLog[mEventLogIndex] + time;
      mEventLog[mEventLogIndex] := mEventLog[mEventLogIndex] + "  ";
      mEventLog[mEventLogIndex] := mEventLog[mEventLogIndex] + event;
      mEventLogIndex := (mEventLogIndex + 1) % 256;
      ghost var line := date + " " + time + "  " + event;
      assert mEventLog[..] == slots[index := line];
      AddKeepsHolding(slots, index, history, line);
      history := history + [line];
    }

    /** The loop stops at |mEventLogIndex - 1| % 256. */
    method GetEventLog() returns (contents: string)
      requires Valid()
      ensures contents == Rendered(Shown(history))
    {
      ghost var slots, start := mEventLog[..], mEventLogIndex;
      assert mEventLog.Length == SLOTS && start < SLOTS;
      VisitedIsShown(slots, start, history);
      contents := "";
      var index := mEventLogIndex;
      var stop := (if mEventLogIndex > 0 then mEventLogIndex - 1 else 1) % 256;
      assert stop == StopSlot(start);
      RenderedOfNone();
      StopIsMet(start, 0);
      ghost var round := Round(slots, start);
      ghost var k: nat := 0;
      hide *;
      while index != stop
        invariant k <= Visited(start) && index == SlotAt(start, k)
        invariant contents == Rendered(NonBlank(round[..k]))
        decreases Visited(start) - k
      {
        StopIsMet(start, k);
        NextSlot(slots, start, k);
        if mEventLog[index] != "" {
          contents := contents + mEventLog[index];
          contents := contents + "\r\n";
        }
        index := (index + 1) % 256;
        k := k + 1;
      }
      StopIsMet(start, k);
    }

    method ClearEventLog()
      requires mEventLog.Length == SLOTS
      modifies this, mEventLog
      ensures Valid() && history == []
    {
      var i := 0;
      while i < SLOTS
        invariant 0 <= i <= SLOTS
        invariant forall j | 0 <= j < i :: mEventLog[j] == ""
      {
        mEventLog[i] := "";
        i := i + 1;
      }
      mEventLogIndex, history := 0, [];
      assert mEventLog[..] == Blank(SLOTS);
      ClearHoldsNothing();
    }
  }
}
