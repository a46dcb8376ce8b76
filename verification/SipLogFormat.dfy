/** What the SIP stack writes to its log, and what `siplog2siptrace` makes of it:
    one read of the whole log recovers every record, and any other way of reading
    it agrees unless a read ends inside the 20 characters after an end marker. */
module SipLogFormat {
  import opened UtlStrings
  import opened SipLogParser

  // ----- The log -------------------------------------------------------------

  datatype Record = Record(
    before: string, host: string, port: string, message: string, kind: EndKind, trailer: string)
  {
    function Head(): string {
      HEADER + (host + (DASHES + (" Port: " + (port + (DASHES + "\n")))))
    }

    function Body(): string {
      before + (Head() + message + EndMarker(kind))
    }

    function Text(): string {
      Body() + trailer
    }

    /** No field can be mistaken for a separator, and something (the line feed that
        ends the record before) stands in front of the header. */
    ghost predicate WellFormed() {
      && before != "" && Free(before, HEADER)
      && (forall k :: Free(Head() + message, EndMarker(k)))
      && |trailer| == 20
      && (kind != IncomingParsed ==> Free(host + "---", DASHES) && Free(port + "---", DASHES))
    }

    function Deliveries(): seq<Delivery> {
      if kind.IncomingParsed? then [] else [Delivery(kind.Outgoing?, host, port, message)]
    }
  }

  /** A text in which no message is found yet, however much of it has been read: one
      without a header, or a record without its end. */
  ghost predicate Quiet(tail: string) {
    forall m: nat | m <= |tail| :: FindNext(tail[..m]) == NotDelivered(tail[..m])
  }

  datatype Log = Log(records: seq<Record>, tail: string) {
    function Text(): string
      decreases records
    {
      if records == [] then tail else records[0].Text() + Rest().Text()
    }

    function Rest(): Log
      requires records != []
    {
      Log(records[1..], tail)
    }

    ghost predicate WellFormed() {
      (forall r | r in records :: r.WellFormed()) && Quiet(tail)
    }

    function Deliveries(): seq<Delivery>
      decreases records
    {
      if records == [] then [] else records[0].Deliveries() + Rest().Deliveries()
    }

    /** A read that ends after `c` characters of the log ends inside the trailer
        of a record that is to be delivered. */
    predicate InTrailer(c: nat)
      decreases records
    {
      if records == [] then false else
      var n := |records[0].Text()|;
      if c >= n then Rest().InTrailer(c - n)
      else records[0].kind != IncomingParsed && c >= |records[0].Body()|
    }
  }

  // ----- One call on a well-formed record ------------------------------------

  lemma EndMarkersDiffer(k: EndKind, l: EndKind)
    ensures EndMarker(k) == EndMarker(l) ==> k == l
    ensures EndMarker(k)[22] == 'D' && 'D' !in EndMarker(l)[..22]
  {
    FirstAndLast(k);
    FirstAndLast(l);
    hide EndMarker;
  }

  lemma FirstAndLast(k: EndKind)
    ensures EndMarker(k)[0] == (match k case Outgoing => '-' case Incoming => '=' case IncomingParsed => '+')
    ensures EndMarker(k)[22] == 'D' && 'D' !in EndMarker(k)[..22]
  {
  }

  lemma HeaderHasNoBorder()
    ensures HEADER[|HEADER| - 1] !in HEADER[..|HEADER| - 1]
  {
  }

  lemma HeadIsFound(r: Record, later: string)
    requires r.before != "" && Free(r.before, HEADER)
    ensures IndexFrom((r.before + r.Head()) + later, HEADER, 0) == |r.before|
  {
    HeaderHasNoBorder();
    var address := r.host + (DASHES + (" Port: " + (r.port + (DASHES + "\n"))));
    assert r.Head() == HEADER + address;
    hide *;
    RegroupHead(r.before, HEADER, address, later);
    NoStraddle(r.before, HEADER, HEADER[..|HEADER| - 1]);
    FirstAfter(r.before, HEADER, address + later);
  }

  lemma HeaderIsFound(r: Record, x: string)
    requires r.WellFormed()
    ensures IndexFrom(r.Body() + x, HEADER, 0) == |r.before|
  {
    assert r.before != "" && Free(r.before, HEADER);
    hide *;
    BodyIsInParts(r, x);
    HeadIsFound(r, r.message + (EndMarker(r.kind) + x));
  }

  lemma RegroupHead(a: string, b: string, c: string, d: string)
    ensures (a + (b + c)) + d == a + b + (c + d)
  {
  }

  lemma NoEarlierEnd(a: string, u: string, kind: EndKind, x: string, k: EndKind, i: nat)
    requires Free(u, EndMarker(k)) && |a| <= i < |a + u|
    ensures !OccursAt(a + u + EndMarker(kind) + x, EndMarker(k), i)
  {
    EndMarkersDiffer(k, kind);
    hide EndMarker;
    var marker := EndMarker(kind);
    NoStraddle(u, EndMarker(k), marker[..22]);
    var t := u + marker[..22];
    assert !OccursAt(t, EndMarker(k), i - |a|);
    assert t[i - |a|..i - |a| + 23] == (a + u + marker + x)[i..i + 23];
  }

  lemma FirstEnd(a: string, u: string, kind: EndKind, x: string)
    requires a != "" && forall k :: Free(u, EndMarker(k))
    ensures EarliestEnd(a + u + EndMarker(kind) + x, |a|) == End(kind, |a + u|)
  {
    var s := a + u + EndMarker(kind) + x;
    forall k, i | |a| <= i < |a + u| ensures !OccursAt(s, EndMarker(k), i) {
      NoEarlierEnd(a, u, kind, x, k, i);
    }
    assert s[|a + u|..|a + u| + 23] == EndMarker(kind);
    assert OccursAt(s, EndMarker(kind), |a + u|);
    var e := EarliestEnd(s, |a|);
    EndMarkersDiffer(e.kind, kind);
    hide EarliestEnd, EndMarker;
  }

  lemma EndIsFound(r: Record, x: string)
    requires r.WellFormed()
    ensures EarliestEnd(r.Body() + x, |r.before|) == End(r.kind, |r.Body()| - 23)
  {
    hide EarliestEnd, EndMarker, Record.Head;
    FirstEnd(r.before, r.Head() + r.message, r.kind, x);
    assert r.Body() + x == r.before + (r.Head() + r.message) + EndMarker(r.kind) + x;
  }

  lemma {:induction false} FieldEnds(front: string, field: string, x: string)
    requires Free(field + "---", DASHES)
    ensures IndexFrom(front + (field + DASHES + x), DASHES, |front|) == |front| + |field|
  {
    assert DASHES[..|DASHES| - 1] == "---";
    IndexAfter(front, field + DASHES + x, DASHES, 0);
    FirstAfter(field, DASHES, x);
  }

  /** The header line, for any texts of the right length between the fields. */
  lemma AddressBetween(a: string, host: string, b: string, port: string, y: string)
    requires |a| >= 16 && |b| == 7
    requires Free(host + "---", DASHES) && Free(port + "---", DASHES)
    ensures HeaderLine(a + (host + DASHES + (b + (port + DASHES + y))), |a| - 16) ==
            Address(host, port, |a + host + DASHES + b + port + DASHES| + 1)
  {
    hide IndexFrom;
    var later := b + (port + DASHES + y);
    var s := a + (host + DASHES + later);
    FieldEnds(a, host, later);
    var front := a + host + DASHES + b;
    assert s == front + (port + DASHES + y);
    FieldEnds(front, port, y);
    assert s[|front|..|front| + |port|] == port;
    assert s[|a|..|a| + |host|] == host;
  }

  lemma HeadIsRead(r: Record, later: string)
    requires Free(r.host + "---", DASHES) && Free(r.port + "---", DASHES)
    ensures HeaderLine((r.before + r.Head()) + later, |r.before|) ==
            Address(r.host, r.port, |r.before + r.Head()|)
  {
    var a := r.before + HEADER;
    hide HeaderLine, OccursAt, IndexFrom;
    AddressBetween(a, r.host, " Port: ", r.port, "\n" + later);
    assert |a + r.host + DASHES + " Port: " + r.port + DASHES| + 1 == |r.before + r.Head()|;
    assert r.Head() == HEADER + (r.host + (DASHES + (" Port: " + (r.port + (DASHES + "\n")))));
    hide *;
    HeadInParts(r.before, HEADER, r.host, DASHES, " Port: ", r.port, "\n", later);
  }

  lemma HeaderLineIsFound(r: Record, x: string)
    requires r.WellFormed() && r.kind != IncomingParsed
    ensures HeaderLine(r.Body() + x, |r.before|) == Address(r.host, r.port, |r.before + r.Head()|)
  {
    assert Free(r.host + "---", DASHES) && Free(r.port + "---", DASHES);
    hide *;
    BodyIsInParts(r, x);
    HeadIsRead(r, r.message + (EndMarker(r.kind) + x));
  }

  lemma HeadInParts(before: string, h: string, host: string, d: string, p: string, port: string,
          n: string, later: string)
    ensures (before + (h + (host + (d + (p + (port + (d + n))))))) + later
         == (before + h) + (host + d + (p + (port + d + (n + later))))
  {
  }

  lemma MessageIsBetween(head: string, message: string, z: string)
    ensures (head + (message + z))[|head|..|head| + |message|] == message
  {
  }

  lemma BodyIsInParts(r: Record, x: string)
    ensures r.Body() + x == (r.before + r.Head()) + (r.message + (EndMarker(r.kind) + x))
    ensures |r.Body()| - 23 == |r.before + r.Head()| + |r.message|
  {
    hide EndMarker, Record.Head;
  }

  lemma FieldsAreFound(r: Record, x: string)
    requires r.WellFormed() && r.kind != IncomingParsed
    ensures Slice(r.Body() + x, |r.before|, |r.Body()| - 23) == Fields(r.host, r.port, r.message)
  {
    hide HeaderLine, EndMarker, OccursAt, IndexFrom, Record.Body, Record.Head, Record.WellFormed;
    HeaderLineIsFound(r, x);
    BodyIsInParts(r, x);
    MessageIsBetween(r.before + r.Head(), r.message, EndMarker(r.kind) + x);
  }

  lemma RemovedWithTrailer(a: string, x: string)
    requires a != ""
    ensures Removed(a + x, 0, |a| + 20) == if |x| >= 20 then x[20..] else a + x
  {
    if |x| >= 20 {
      assert (a + x)[..0] + (a + x)[|a| + 20..] == x[20..];
    }
  }

  ghost function Delivered(r: Record, x: string): Scan {
    var rest := if |x| >= 20 then x[20..] else r.Body() + x;
    if r.kind.IncomingParsed? then NotDelivered(rest) else Found(r.Deliveries()[0], rest)
  }

  lemma CutsRecord(r: Record, x: string)
    requires r.WellFormed()
    ensures CutMessage(r.Body() + x, |r.before|, r.kind, |r.Body()| - 23) == Delivered(r, x)
  {
    RemovedWithTrailer(r.Body(), x);
    if r.kind != IncomingParsed {
      FieldsAreFound(r, x);
    }
    hide EndMarker, Slice, Removed, Record.Body, Record.WellFormed;
  }

  /** A record whose end marker is in the buffer is recognized, whatever follows;
      it leaves the buffer only together with its whole trailer. */
  lemma FindsRecord(r: Record, x: string)
    requires r.WellFormed()
    ensures FindNext(r.Body() + x) == Delivered(r, x)
  {
    HeaderIsFound(r, x);
    EndIsFound(r, x);
    CutsRecord(r, x);
    assert r.before != "";
    hide IndexFrom, EarliestEnd, CutMessage, OccursAt, EndMarker, Delivered, Record.Body, Record.WellFormed;
  }

  lemma FindsNothing(t: string)
    requires Free(t, HEADER)
    ensures FindNext(t) == NotDelivered(t)
  {
  }

  lemma {:induction false} NoEndInPrefix(s: string, from: nat, m: nat)
    requires from > 0 && m <= |s|
    requires EarliestEnd(s, from).End? && m < EarliestEnd(s, from).at + 23
    ensures EarliestEnd(s[..m], from).NoEnd?
  {
    hide EarliestEnd, EndMarker, OccursAt;
    var e := EarliestEnd(s[..m], from);
    if e.End? {
      OccursInPrefix(s, EndMarker(e.kind), m, e.at);
      assert false;
    }
  }

  /** Before its end marker is complete, a record is left alone. */
  lemma FindsNothingYet(r: Record, m: nat)
    requires r.WellFormed() && m < |r.Body()|
    ensures FindNext(r.Body()[..m]) == NotDelivered(r.Body()[..m])
  {
    hide IndexFrom, EarliestEnd, Slice, Record.Body, Record.Head, EndMarker;
    assert r.Body() + "" == r.Body();
    HeaderIsFound(r, "");
    EndIsFound(r, "");
    IndexInPrefix(r.Body(), HEADER, 0, m);
    NoEndInPrefix(r.Body(), |r.before|, m);
  }

  lemma NoHeaderIsQuiet(tail: string)
    requires Free(tail, HEADER)
    ensures Quiet(tail)
  {
    hide Free, FindNext;
    forall m: nat | m <= |tail| ensures FindNext(tail[..m]) == NotDelivered(tail[..m]) {
      PrefixIsFree(tail, HEADER, m);
      FindsNothing(tail[..m]);
    }
  }

  /** The log may end anywhere before the end marker of its last record is complete. */
  lemma UnfinishedRecordIsQuiet(r: Record, n: nat)
    requires r.WellFormed() && n < |r.Body()|
    ensures Quiet(r.Body()[..n])
  {
    hide Record.WellFormed, Record.Body, FindNext;
    var tail := r.Body()[..n];
    forall m: nat | m <= |tail| ensures FindNext(tail[..m]) == NotDelivered(tail[..m]) {
      assert tail[..m] == r.Body()[..m];
      FindsNothingYet(r, m);
    }
  }

  // ----- Reading the log -----------------------------------------------------

  /** The state of the inner loop once it has seen the first `c` characters of the
      log: the whole records are delivered and gone. */
  ghost function Seen(log: Log, c: nat): Drained
    requires c <= |log.Text()|
    decreases log.records
  {
    if log.records == [] then Waiting([], log.Text()[..c]) else
    var r := log.records[0];
    var n := |r.Text()|;
    if c >= n then After(r.Deliveries(), Seen(log.Rest(), c - n))
    else if log.InTrailer(c) then Spinning([], log.Text()[..c], r.Deliveries()[0])
    else Waiting([], log.Text()[..c])
  }

  lemma PrefixWithRecord(log: Log, c: nat)
    requires log.records != [] && |log.records[0].Text()| <= c <= |log.Text()|
    requires |log.records[0].trailer| == 20
    ensures var r := log.records[0];
            log.Text()[..c][|r.Body()|..][20..] == log.Rest().Text()[..c - |r.Text()|]
  {
    hide Record.Body;
    var r, rest := log.records[0], log.Rest().Text();
    var m := c - |r.Text()|;
    assert log.Text()[..c] == r.Body() + (r.trailer + rest[..m]);
    assert (r.Body() + (r.trailer + rest[..m]))[|r.Body()|..] == r.trailer + rest[..m];
    assert (r.trailer + rest[..m])[20..] == rest[..m];
  }

  lemma {:induction false} DrainsPrefix(log: Log, c: nat)
    requires log.WellFormed() && c <= |log.Text()|
    ensures Drain(log.Text()[..c]) == Seen(log, c)
    decreases log.records
  {
    hide FindNext, Record.Body;
    hide OccursAt;
    var s := log.Text()[..c];
    if log.records == [] {
      assert s == log.tail[..c];
    } else {
      var r := log.records[0];
      var n := |r.Text()|;
      if c < |r.Body()| {
        assert s == r.Body()[..c];
        FindsNothingYet(r, c);
      } else {
        var x := s[|r.Body()|..];
        assert s == r.Body() + x;
        FindsRecord(r, x);
        if c >= n {
          PrefixWithRecord(log, c);
          DrainsPrefix(log.Rest(), c - n);
        }
      }
    }
  }

  lemma {:induction false} SeenWholeLog(log: Log)
    requires log.WellFormed()
    ensures !log.InTrailer(|log.Text()|)
    ensures Seen(log, |log.Text()|) == Waiting(log.Deliveries(), log.tail)
    decreases log.records
  {
    if log.records == [] {
      assert log.tail[..|log.tail|] == log.tail;
    } else {
      SeenWholeLog(log.Rest());
    }
  }

  /** The parser inverts the log format: draining the log delivers exactly the
      records that are not marked as parsed, in order, with their fields. */
  lemma ParserInvertsFormat(log: Log)
    requires log.WellFormed()
    ensures Drain(log.Text()) == Waiting(log.Deliveries(), log.tail)
  {
    assert log.Text()[..|log.Text()|] == log.Text();
    DrainsPrefix(log, |log.Text()|);
    SeenWholeLog(log);
  }

  /** Draining what was left at `c` together with the text up to `c'` gives what
      the text up to `c'` gives at once. */
  lemma {:induction false} Resumes(log: Log, c: nat, c': nat)
    requires log.WellFormed() && c <= c' <= |log.Text()| && !log.InTrailer(c)
    ensures Seen(log, c).Waiting?
    ensures After(Seen(log, c).out, Drain(Seen(log, c).buffer + log.Text()[c..c'])) == Seen(log, c')
    decreases |log.records|
  {
    hide *;
    if log.records != [] && c >= |log.records[0].Text()| {
      var n := |log.records[0].Text()|;
      SeenRest(log, c);
      SeenRest(log, c');
      RestIsWellFormed(log);
      TextRest(log, c, c');
      Resumes(log.Rest(), c - n, c' - n);
      var later := Seen(log.Rest(), c - n);
      AfterIs(log.records[0].Deliveries(), later);
      AfterAfter(log.records[0].Deliveries(), later.out, Drain(later.buffer + log.Text()[c..c']));
    } else {
      SeenFirst(log, c);
      UpTo(log.Text(), c, c');
      DrainsPrefix(log, c');
      AfterAfter([], [], Drain(log.Text()[..c']));
    }
  }

  lemma AfterIs(first: seq<Delivery>, d: Drained)
    ensures After(first, d) == d.(out := first + d.out)
  {
  }

  lemma UpTo(s: string, c: nat, c': nat)
    requires c <= c' <= |s|
    ensures s[..c] + s[c..c'] == s[..c']
  {
  }

  lemma SeenFirst(log: Log, c: nat)
    requires c <= |log.Text()| && !log.InTrailer(c)
    requires log.records == [] || c < |log.records[0].Text()|
    ensures Seen(log, c) == Waiting([], log.Text()[..c])
  {
    hide Record.Text;
  }

  lemma TextRest(log: Log, c: nat, c': nat)
    requires log.records != [] && |log.records[0].Text()| <= c <= c' <= |log.Text()|
    ensures var n := |log.records[0].Text()|;
            c' - n <= |log.Rest().Text()| && log.Text()[c..c'] == log.Rest().Text()[c - n..c' - n]
  {
    hide Record.Text;
    var first, rest := log.records[0].Text(), log.Rest().Text();
    assert log.Text() == first + rest;
    hide Log.Text;
    assert (first + rest)[c..c'] == rest[c - |first|..c' - |first|];
  }

  lemma SeenRest(log: Log, c: nat)
    requires log.records != [] && |log.records[0].Text()| <= c <= |log.Text()|
    ensures var n := |log.records[0].Text()|;
            && c - n <= |log.Rest().Text()| && log.InTrailer(c) == log.Rest().InTrailer(c - n)
            && Seen(log, c) == After(log.records[0].Deliveries(), Seen(log.Rest(), c - n))
  {
    hide Record.Text, Record.Deliveries;
  }

  lemma RestIsWellFormed(log: Log)
    requires log.records != [] && log.WellFormed()
    ensures log.Rest().WellFormed() && |log.Rest().records| < |log.records|
  {
    hide Record.WellFormed, Quiet;
  }

  // ----- Reading in pieces ---------------------------------------------------

  /** Read `i` ends inside the trailer of a record that is to be delivered. */
  predicate EndsInTrailer(log: Log, chunks: seq<string>, i: nat)
    requires i <= |chunks|
  {
    log.InTrailer(|Joined(chunks[..i])|)
  }

  /** How far into the log the reads get, starting at `from`. */
  function Reached(log: Log, from: nat, chunks: seq<string>): nat
    decreases chunks
  {
    if chunks == [] || log.InTrailer(from) then from
    else Reached(log, from + |chunks[0]|, chunks[1..])
  }

  lemma {:induction false} ReachedIsFirstBadCut(log: Log, from: nat, chunks: seq<string>)
    returns (i: nat)
    ensures i <= |chunks| && Reached(log, from, chunks) == from + |Joined(chunks[..i])|
    ensures i < |chunks| ==> log.InTrailer(Reached(log, from, chunks))
    ensures forall j | 0 <= j < i :: !log.InTrailer(from + |Joined(chunks[..j])|)
    decreases chunks
  {
    if chunks == [] || log.InTrailer(from) {
      i := 0;
    } else {
      var k := ReachedIsFirstBadCut(log, from + |chunks[0]|, chunks[1..]);
      i := k + 1;
      assert chunks[..i][1..] == chunks[1..][..k];
      forall j | 0 <= j < i ensures !log.InTrailer(from + |Joined(chunks[..j])|) {
        if j > 0 {
          assert chunks[..j][1..] == chunks[1..][..j - 1];
        }
      }
    }
  }

  lemma {:induction false} ConvertsFrom(log: Log, c: nat, chunks: seq<string>)
    requires log.WellFormed() && '\0' !in log.Text() && "" !in chunks
    requires c <= |log.Text()| && log.Text()[c..] == Joined(chunks) && !log.InTrailer(c)
    ensures Reached(log, c, chunks) <= |log.Text()| && Seen(log, c).Waiting?
    ensures After(Seen(log, c).out, Convert(Seen(log, c).buffer, chunks)) ==
            Seen(log, Reached(log, c, chunks))
    decreases chunks
  {
    hide Drain, Seen, Log.Text, Log.InTrailer;
    var now := Seen(log, c);
    if chunks == [] {
      Resumes(log, c, c);
      assert now.buffer + log.Text()[c..c] == now.buffer;
    } else {
      var c' := c + |chunks[0]|;
      assert chunks[0] == log.Text()[c..c'];
      Resumes(log, c, c');
      assert log.Text()[c'..] == Joined(chunks[1..]);
      var next := Drain(now.buffer + chunks[0]);
      if log.InTrailer(c') {
        SpinsInTrailer(log, c');
      } else {
        ConvertsFrom(log, c', chunks[1..]);
        Resumes(log, c', c');
        AfterAfter(now.out, next.out, Convert(next.buffer, chunks[1..]));
      }
    }
  }

  lemma {:induction false} SpinsInTrailer(log: Log, c: nat)
    requires c <= |log.Text()|
    ensures Seen(log, c).Spinning? <==> log.InTrailer(c)
    ensures !Seen(log, c).Faulted?
    decreases log.records
  {
    if log.records != [] && c >= |log.records[0].Text()| {
      SpinsInTrailer(log.Rest(), c - |log.records[0].Text()|);
    }
  }

  /** Streaming equals batch exactly when no read ends inside a trailer. A single
      read of the log delivers its records; reading it in pieces does the same if
      and only if no piece ends within the 20 characters after the end marker of
      a record that is to be delivered. Otherwise the converter delivers what
      precedes the first such cut and then one message for ever. */
  lemma StreamingEqualsBatch(log: Log, chunks: seq<string>)
    requires log.WellFormed() && '\0' !in log.Text()
    requires "" !in chunks && Joined(chunks) == log.Text()
    ensures Convert("", [log.Text()]) == Waiting(log.Deliveries(), log.tail)
    ensures Convert("", chunks) == Convert("", [log.Text()]) <==>
            forall i | 0 <= i <= |chunks| :: !EndsInTrailer(log, chunks, i)
    ensures forall i | 0 <= i <= |chunks| && EndsInTrailer(log, chunks, i)
                       && (forall j | 0 <= j < i :: !EndsInTrailer(log, chunks, j)) ::
            |Joined(chunks[..i])| <= |log.Text()| &&
            Convert("", chunks) == Seen(log, |Joined(chunks[..i])|) && Convert("", chunks).Spinning?
  {
    hide *;
    BatchDeliversAll(log);
    ConvertsFromStart(log, chunks);
    SeenWholeLog(log);
    SpinsInTrailer(log, Reached(log, 0, chunks));
    var c := FirstBadCut(log, chunks);
  }

  lemma FirstBadCut(log: Log, chunks: seq<string>) returns (c: nat)
    requires log.WellFormed() && Joined(chunks) == log.Text()
    ensures c <= |chunks| && Reached(log, 0, chunks) == |Joined(chunks[..c])|
    ensures forall j | 0 <= j < c :: !EndsInTrailer(log, chunks, j)
    ensures if log.InTrailer(Reached(log, 0, chunks)) then EndsInTrailer(log, chunks, c)
            else c == |chunks| && !EndsInTrailer(log, chunks, c) && Reached(log, 0, chunks) == |log.Text()|
  {
    hide Joined, Log.InTrailer, Log.Text, Log.WellFormed, Reached;
    c := ReachedIsFirstBadCut(log, 0, chunks);
    assert chunks[..|chunks|] == chunks;
  }

  lemma BatchDeliversAll(log: Log)
    requires log.WellFormed() && '\0' !in log.Text()
    ensures Convert("", [log.Text()]) == Waiting(log.Deliveries(), log.tail)
  {
    hide Drain, Seen;
    if log.Text() == "" {
      ParserInvertsFormat(log);
    } else {
      var all := [log.Text()];
      ConvertsFromStart(log, all);
      SeenWholeLog(log);
      assert Reached(log, 0, all) == |log.Text()|;
    }
  }

  lemma ConvertsFromStart(log: Log, chunks: seq<string>)
    requires log.WellFormed() && '\0' !in log.Text() && "" !in chunks && Joined(chunks) == log.Text()
    ensures !log.InTrailer(0)
    ensures Reached(log, 0, chunks) <= |log.Text()|
    ensures Convert("", chunks) == Seen(log, Reached(log, 0, chunks))
  {
    assert log.Text()[0..] == log.Text();
    ConvertsFrom(log, 0, chunks);
    AfterAfter([], [], Convert("", chunks));
  }

  const EXAMPLE: Record := Record("\n", "h", "5", "m", Outgoing, "--------------------")

  lemma NoEndInExample(s: string)
    requires s == EXAMPLE.Head() + EXAMPLE.message
    ensures forall k :: Free(s, EndMarker(k))
  {
    assert 'D' !in s;
    hide EndMarker, Free, Record.Head;
    forall k ensures Free(s, EndMarker(k)) {
      EndMarkersDiffer(k, k);
      LastCharacterMissing(s, EndMarker(k));
    }
  }

  lemma ExampleIsWellFormed()
    ensures EXAMPLE.WellFormed()
  {
    var s := EXAMPLE.Head() + EXAMPLE.message;
    NoEndInExample(s);
    LastCharacterMissing("\n", HEADER);
    assert ("h" + "---")[0] == 'h' && ("5" + "---")[0] == '5';
  }

  lemma ExampleHasNoNul()
    ensures '\0' !in EXAMPLE.Body() + "-"
  {
    hide EndMarker;
    assert '\0' !in EXAMPLE.Head();
    hide Record.Head;
  }

  lemma CutTrailerSpins(r: Record, x: string, later: seq<string>)
    requires r.WellFormed() && r.kind != IncomingParsed && |x| < 20 && '\0' !in r.Body() + x
    ensures Convert("", [r.Body() + x] + later) == Spinning([], r.Body() + x, r.Deliveries()[0])
  {
    FindsRecord(r, x);
    var s := r.Body() + x;
    assert Drain(s) == Spinning([], s, r.Deliveries()[0]) by {
      hide FindNext, Record.Body, Record.WellFormed;
    }
    hide Drain, CString, Record.Body, Record.WellFormed, Delivered;
    assert "" + s == s;
  }

  /** A read that ends one character into the trailer: the converter repeats the
      one message of this log and never sees the rest. */
  lemma CutTrailerExample(later: seq<string>)
    ensures EXAMPLE.WellFormed()
    ensures Convert("", [EXAMPLE.Body() + "-"] + later) ==
            Spinning([], EXAMPLE.Body() + "-", Delivery(true, "h", "5", "m"))
  {
    ExampleIsWellFormed();
    ExampleHasNoNul();
    hide Convert, Record.WellFormed, Record.Body;
    CutTrailerSpins(EXAMPLE, "-", later);
  }
}