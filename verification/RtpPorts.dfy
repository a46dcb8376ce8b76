/** The allocator of RTP ports: a counter for new ports and a queue of released ones. */
module RtpPorts {

  datatype State = State(start: int, last: int, next: int, free: seq<int>)

  const INITIAL := State(0, 0, 0, [])

  function SetRange(s: State, start: int, last: int): State {
    var from := if start < 0 then 0 else start;
    State(from, last, from, s.free)
  }

  /** A released port if there is one, the oldest first; otherwise a new one,
      counted only when the system does not choose the ports itself. */
  function Get(s: State): (State, int) {
    if s.free != [] then (s.(free := s.free[1..]), s.free[0])
    else if s.next > 0 then (s.(next := s.next + 2), s.next)
    else (s, s.next)
  }

  function Release(s: State, port: int): State {
    if s.next != 0 then s.(free := s.free + [port]) else s
  }

  // ----- Runs ----------------------------------------------------------------

  datatype Event = Allocate | Free(port: int)

  /** The allocator, the ports its users hold, and the most they ever held. */
  datatype World = World(state: State, held: multiset<int>, peak: nat)

  function Step(w: World, e: Event): World {
    match e
    case Allocate =>
      var (s, port) := Get(w.state);
      var held := w.held + multiset{port};
      World(s, held, if |held| > w.peak then |held| else w.peak)
    case Free(port) => World(Release(w.state, port), w.held - multiset{port}, w.peak)
  }

  function Start(start: int, last: int): World {
    World(SetRange(INITIAL, start, last), multiset{}, 0)
  }

  function Run(w: World, events: seq<Event>): World
    decreases events
  {
    if events == [] then w else Run(Step(w, events[0]), events[1..])
  }

  /** Callers release only ports they hold. */
  predicate OnlyHeldReleased(w: World, events: seq<Event>)
    decreases events
  {
    events != [] ==>
      (events[0].Free? ==> events[0].port in w.held) && OnlyHeldReleased(Step(w, events[0]), events[1..])
  }

  // ----- The invariant -------------------------------------------------------

  /** The first `n` even-spaced ports from `start` on. */
  function Ports(start: int, n: nat): (r: seq<int>)
    ensures |r| == n && forall i | 0 <= i < n :: r[i] == start + 2 * i
  {
    if n == 0 then [] else Ports(start, n - 1) + [start + 2 * (n - 1)]
  }

  /** Free and held ports are, together and each once, the ports handed out so
      far, and as many as were ever held at once. */
  ghost predicate Partitioned(w: World) {
    && w.state.start > 0
    && w.state.next == w.state.start + 2 * w.peak
    && multiset(w.state.free) + w.held == multiset(Ports(w.state.start, w.peak))
  }

  ghost predicate AlwaysPartitioned(w: World, events: seq<Event>)
    decreases events
  {
    Partitioned(w) && (events != [] ==> AlwaysPartitioned(Step(w, events[0]), events[1..]))
  }

  lemma OnePortMore(start: int, n: nat)
    ensures multiset(Ports(start, n + 1)) == multiset(Ports(start, n)) + multiset{start + 2 * n}
  {
    assert Ports(start, n + 1) == Ports(start, n) + [start + 2 * n];
    hide Ports;
  }

  lemma TakeFirst(free: seq<int>)
    requires free != []
    ensures multiset(free) == multiset{free[0]} + multiset(free[1..])
  {
    assert free == [free[0]] + free[1..];
  }

  lemma AllocateKeepsPartition(w: World)
    requires Partitioned(w)
    ensures Partitioned(Step(w, Allocate))
  {
    hide Ports;
    var free := w.state.free;
    assert |multiset(free)| + |w.held| == |multiset(free) + w.held| == w.peak;
    if free != [] {
      TakeFirst(free);
      assert multiset(free[1..]) + (w.held + multiset{free[0]}) == multiset(free) + w.held;
    } else {
      OnePortMore(w.state.start, w.peak);
      assert multiset(free) + w.held == w.held;
      assert multiset(free) + (w.held + multiset{w.state.next}) == w.held + multiset{w.state.next};
    }
  }

  lemma FreeKeepsPartition(w: World, port: int)
    requires Partitioned(w)
    ensures Partitioned(Step(w, Free(port))) <==> port in w.held
  {
    var free := w.state.free;
    assert multiset(free + [port]) == multiset(free) + multiset{port};
    if port in w.held {
      assert multiset(free) + multiset{port} + (w.held - multiset{port}) == multiset(free) + w.held;
    } else {
      assert w.held - multiset{port} == w.held;
      assert |multiset(free) + multiset{port} + w.held| == w.peak + 1;
    }
  }

  lemma StepKeepsPartition(w: World, e: Event)
    requires Partitioned(w)
    ensures Partitioned(Step(w, e)) <==> (e.Free? ==> e.port in w.held)
    ensures Step(w, e).state.start == w.state.start && Step(w, e).peak >= w.peak
  {
    match e
    case Allocate => AllocateKeepsPartition(w);
    case Free(port) => FreeKeepsPartition(w, port);
  }

  /** In every run from a positive start port, free and held ports partition the
      ports handed out, after every step, if and only if callers release only
      ports they hold. */
  lemma {:induction false} PartitionThroughoutRuns(w: World, events: seq<Event>)
    requires Partitioned(w)
    ensures AlwaysPartitioned(w, events) <==> OnlyHeldReleased(w, events)
    ensures OnlyHeldReleased(w, events) ==>
            Partitioned(Run(w, events)) && Run(w, events).state.start == w.state.start
    decreases events
  {
    if events != [] {
      StepKeepsPartition(w, events[0]);
      if Partitioned(Step(w, events[0])) {
        PartitionThroughoutRuns(Step(w, events[0]), events[1..]);
      }
    }
  }

  lemma StartIsPartitioned(start: int, last: int)
    requires start > 0
    ensures Partitioned(Start(start, last)) && Start(start, last).state.start == start
  {
    assert multiset(INITIAL.free) + multiset{} == multiset(Ports(start, 0));
  }

  /** A held port is one of those handed out, and held once. */
  lemma HeldPorts(w: World, p: int)
    requires Partitioned(w) && p in w.held
    ensures w.held[p] == 1 && p !in w.state.free
    ensures w.state.start <= p <= w.state.next - 2 && (p - w.state.start) % 2 == 0
  {
    hide Ports;
    PortIsThereOnce(w.state.start, w.peak, p);
    CountsAdd(multiset(w.state.free), w.held, p);
    assert p in multiset(Ports(w.state.start, w.peak));
    assert p in Ports(w.state.start, w.peak);
  }

  function Times(start: int, n: nat, p: int): nat {
    multiset(Ports(start, n))[p]
  }

  lemma OneMoreTime(start: int, n: nat, p: int)
    ensures Times(start, 0, p) == 0
    ensures Times(start, n + 1, p) == Times(start, n, p) + if p == start + 2 * n then 1 else 0
  {
    OnePortMore(start, n);
    assert multiset(Ports(start, 0)) == multiset{};
    hide Ports;
    CountsAdd(multiset(Ports(start, n)), multiset{start + 2 * n}, p);
  }

  lemma {:induction false} PortIsThereOnce(start: int, n: nat, p: int)
    ensures Times(start, n, p) <= 1
    ensures Times(start, n, p) == 1 ==> p < start + 2 * n
  {
    hide Times;
    OneMoreTime(start, if n > 0 then n - 1 else 0, p);
    if n > 0 {
      PortIsThereOnce(start, n - 1, p);
    }
  }

  lemma CountsAdd(a: multiset<int>, b: multiset<int>, p: int)
    ensures (a + b)[p] == a[p] + b[p]
  {
  }

  /** The end of the range is never looked at, yet it is kept: when callers release
      only what they hold and never hold more than `k` ports, the next new port is
      start + 2 * (most ever held), and every port handed out is at most
      start + 2k - 2, even-spaced, and clear of the pairs of all held ports. */
  lemma PeakBound(start: int, last: int, events: seq<Event>, k: nat)
    requires start > 0 && OnlyHeldReleased(Start(start, last), events)
    requires Step(Run(Start(start, last), events), Allocate).peak <= k
    ensures var w := Run(Start(start, last), events);
            var port := Get(w.state).1;
            && w.state.next == start + 2 * w.peak
            && start <= port <= start + 2 * k - 2 && (port - start) % 2 == 0
            && forall q | q in w.held :: q + 1 < port || port + 1 < q
  {
    hide *;
    StartIsPartitioned(start, last);
    PartitionThroughoutRuns(Start(start, last), events);
    AllocationIsClear(Run(Start(start, last), events));
  }

  lemma AllocationIsClear(w: World)
    requires Partitioned(w)
    ensures var port := Get(w.state).1;
            && w.state.next == w.state.start + 2 * w.peak
            && w.state.start <= port <= w.state.start + 2 * Step(w, Allocate).peak - 2
            && (port - w.state.start) % 2 == 0
            && forall q | q in w.held :: q + 1 < port || port + 1 < q
  {
    hide Ports;
    var port, after := Get(w.state).1, Step(w, Allocate);
    StepKeepsPartition(w, Allocate);
    HeldPorts(after, port);
    forall q | q in w.held ensures q + 1 < port || port + 1 < q {
      HeldPorts(after, q);
      assert after.held[port] == w.held[port] + 1;
    }
  }

  lemma {:induction false} NothingIsRecorded(w: World, events: seq<Event>)
    requires w.state.next == 0 && w.state.free == []
    ensures Run(w, events).state == w.state && Get(w.state).1 == 0
    decreases events
  {
    if events != [] {
      NothingIsRecorded(Step(w, events[0]), events[1..]);
    }
  }

  /** With a start port of zero or less, also the -2 that asks for it, the system
      chooses: every allocation gives 0 and nothing is ever recorded, whatever is
      released. */
  lemma SystemChoosesPorts(start: int, last: int, events: seq<Event>)
    requires start <= 0
    ensures var s := Run(Start(start, last), events).state;
            s == State(0, last, 0, []) && Get(s) == (s, 0)
  {
    NothingIsRecorded(Start(start, last), events);
  }

  /** The range that was set stays, over every run. */
  lemma {:induction false} RangeStays(w: World, events: seq<Event>)
    ensures Run(w, events).state.start == w.state.start && Run(w, events).state.last == w.state.last
    decreases events
  {
    if events != [] {
      StepKeepsRange(w, events[0]);
      hide Step;
      RangeStays(Step(w, events[0]), events[1..]);
    }
  }

  lemma StepKeepsRange(w: World, e: Event)
    ensures Step(w, e).state.start == w.state.start && Step(w, e).state.last == w.state.last
  {
  }

  function Allocations(n: nat): seq<Event> {
    seq(n, _ => Allocate)
  }

  lemma TakesOldest(w: World, first: int, later: seq<int>)
    requires w.state.free == [first] + later
    ensures Step(w, Allocate).state.free == later && Get(w.state).1 == first
    ensures Get(w.state).0.free == later
  {
    assert w.state.free[0] == first && w.state.free[1..] == later;
  }

  lemma OneAllocation(w: World, n: nat)
    requires n > 0
    ensures Run(w, Allocations(n)) == Run(Step(w, Allocate), Allocations(n - 1))
  {
    var ops := Allocations(n);
    assert ops[0] == Allocate && ops[1..] == Allocations(n - 1);
    hide Step;
  }

  /** Released ports come back in the order of their release: a port waits for just
      those released before it. */
  lemma {:induction false} ReleasedPortsQueue(w: World, before: seq<int>, port: int, after: seq<int>)
    requires w.state.free == before + ([port] + after)
    ensures var s := Run(w, Allocations(|before|)).state;
            Get(s).1 == port && Get(s).0.free == after
    decreases |before|
  {
    if before == [] {
      assert Run(w, Allocations(0)) == w;
      assert [] + ([port] + after) == [port] + after;
      hide *;
      TakesOldest(w, port, after);
    } else {
      assert before + ([port] + after) == [before[0]] + (before[1..] + ([port] + after));
      hide *;
      TakesOldest(w, before[0], before[1..] + ([port] + after));
      OneAllocation(w, |before|);
      ReleasedPortsQueue(Step(w, Allocate), before[1..], port, after);
    }
  }

  /** Releasing a port twice hands it out twice. */
  lemma DoubleReleaseExample()
    ensures var w := Run(Start(9000, 9002), [Allocate, Free(9000), Free(9000), Allocate, Allocate]);
            w.held[9000] == 2
  {
    var a := Step(Start(9000, 9002), Allocate);
    var b := Step(a, Free(9000));
    var c := Step(b, Free(9000));
    var d := Step(c, Allocate);
    assert Run(Start(9000, 9002), [Allocate, Free(9000), Free(9000), Allocate, Allocate])
        == Run(a, [Free(9000), Free(9000), Allocate, Allocate]);
    assert Run(a, [Free(9000), Free(9000), Allocate, Allocate]) == Run(b, [Free(9000), Allocate, Allocate]);
    assert Run(b, [Free(9000), Allocate, Allocate]) == Run(c, [Allocate, Allocate]);
    assert Run(c, [Allocate, Allocate]) == Run(d, [Allocate]) == Step(d, Allocate);
  }

  // ----- The code ------------------------------------------------------------

  class CpMediaInterfaceFactoryImpl {
    var miStartRtpPort: int
    var miLastRtpPort: int
    var miNextRtpPort: int
    var mlistFreePorts: seq<int>

    function Now(): State
      reads this
    {
      State(miStartRtpPort, miLastRtpPort, miNextRtpPort, mlistFreePorts)
    }

    constructor ()
      ensures Now() == INITIAL
    {
      miStartRtpPort := 0;
      miLastRtpPort := 0;
      miNextRtpPort := 0;
      mlistFreePorts := [];
    }

    method SetRtpPortRange(startRtpPort: int, lastRtpPort: int)
      modifies this
      ensures Now() == SetRange(old(Now()), startRtpPort, lastRtpPort)
      ensures miNextRtpPort == miStartRtpPort == (if startRtpPort <= 0 then 0 else startRtpPort)
      ensures miLastRtpPort == lastRtpPort && mlistFreePorts == old(mlistFreePorts)
    {
      miStartRtpPort := startRtpPort;
      if miStartRtpPort < 0 {
        miStartRtpPort := 0;
      }
      miLastRtpPort := lastRtpPort;
      miNextRtpPort := miStartRtpPort;
    }

    method GetNextRtpPort() returns (rtpPort: int)
      modifies this
      ensures (Now(), rtpPort) == Get(old(Now()))
    {
      if |mlistFreePorts| > 0 {
        rtpPort := mlistFreePorts[0];
        mlistFreePorts := mlistFreePorts[1..];
      } else {
        rtpPort := miNextRtpPort;
        if miNextRtpPort > 0 {
          miNextRtpPort := miNextRtpPort + 2;
        }
      }
    }

    method ReleaseRtpPort(rtpPort: int)
      modifies this
      ensures Now() == Release(old(Now()), rtpPort)
    {
      if miNextRtpPort != 0 {
        mlistFreePorts := mlistFreePorts + [rtpPort];
      }
    }
  }
}
