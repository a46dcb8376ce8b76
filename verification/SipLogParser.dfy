/** The reader of `siplog2siptrace`: it cuts SIP messages out of a growing
    buffer, first as functions on the buffer's text, then as the code that
    changes the buffer in place. */
module SipLogParser {
  import opened UtlStrings

  const HEADER := "----Remote Host:"
  const DASHES := "----"

  /** What a logged message ends with decides what it is. */
  datatype EndKind = Outgoing | Incoming | IncomingParsed

  function EndMarker(kind: EndKind): (m: string)
    ensures |m| == 23 && '\0' !in m
  {
    match kind
    case Outgoing => "--------------------END"
    case Incoming => "====================END"
    case IncomingParsed => "++++++++++++++++++++END"
  }

  /** What `writeMessageXml` is handed for one message. */
  datatype Delivery = Delivery(isOutgoing: bool, host: string, port: string, message: string)

  // ----- One call of findNextMessage -----------------------------------------

  datatype End = NoEnd | End(kind: EndKind, at: nat)

  function Nearer(best: End, kind: EndKind, at: int): End {
    if at > 0 && (best.NoEnd? || at < best.at) then End(kind, at) else best
  }

  /** The first end marker of any kind at or after `from`. */
  function EarliestEnd(content: string, from: nat): (e: End)
    requires from > 0
    ensures e.NoEnd? ==> forall k, i | from <= i :: !OccursAt(content, EndMarker(k), i)
    ensures e.End? ==> from <= e.at && OccursAt(content, EndMarker(e.kind), e.at)
    ensures e.End? ==> forall k, i | from <= i < e.at :: !OccursAt(content, EndMarker(k), i)
  {
    var outgoing := Nearer(NoEnd, Outgoing, IndexFrom(content, EndMarker(Outgoing), from));
    var either := Nearer(outgoing, Incoming, IndexFrom(content, EndMarker(Incoming), from));
    Nearer(either, IncomingParsed, IndexFrom(content, EndMarker(IncomingParsed), from))
  }

  /** The host and the port of a header line, and where its message starts. A
      missing separator makes the original copy a negative number of characters. */
  datatype Header = NoAddress | Address(host: string, port: string, messageIndex: nat)

  function HeaderLine(content: string, hostIndex: nat): (r: Header)
    ensures r.Address? ==> hostIndex < r.messageIndex
  {
    var host := hostIndex + 16;
    var hostEnd := IndexFrom(content, DASHES, host);
    if hostEnd < 0 then NoAddress else
    var port := hostEnd + 11;
    var portEnd := IndexFrom(content, DASHES, port);
    if portEnd < 0 then NoAddress
    else Address(content[host..hostEnd], content[port..portEnd], portEnd + 5)
  }

  /** So does an end marker inside the header line. */
  datatype Fields = NoFields | Fields(host: string, port: string, message: string)

  function Slice(content: string, hostIndex: nat, messageEnd: nat): Fields
    requires messageEnd <= |content|
  {
    match HeaderLine(content, hostIndex)
    case NoAddress => NoFields
    case Address(host, port, messageIndex) =>
      if messageEnd < messageIndex then NoFields
      else Fields(host, port, content[messageIndex..messageEnd])
  }

  datatype Scan =
    | NotDelivered(rest: string)  // FALSE is returned and `rest` stays in the buffer
    | Found(delivery: Delivery, rest: string)
    | Fault

  /** The message between a header and the end marker at `at` is delivered, unless
      it is marked as parsed; either way it is removed up to 43 characters on. */
  function CutMessage(content: string, hostIndex: nat, kind: EndKind, at: nat): (r: Scan)
    requires at <= |content|
    ensures r.Fault? || r.rest == Removed(content, 0, at + 43)
  {
    var rest := Removed(content, 0, at + 43);
    if kind.IncomingParsed? then NotDelivered(rest) else
    match Slice(content, hostIndex, at)
    case NoFields => Fault
    case Fields(host, port, message) => Found(Delivery(kind.Outgoing?, host, port, message), rest)
  }

  /** One call. It leaves the buffer as it is or makes it shorter. */
  function FindNext(content: string): (r: Scan)
    ensures r.Fault? || r.rest == content || |r.rest| < |content|
  {
    var hostIndex := IndexFrom(content, HEADER, 0);
    if hostIndex <= 0 then NotDelivered(content) else
    match EarliestEnd(content, hostIndex)
    case NoEnd => NotDelivered(content)
    case End(kind, at) => CutMessage(content, hostIndex, kind, at)
  }

  // ----- The inner loop of main ----------------------------------------------

  datatype LoopState =
    | Running(buffer: string, out: seq<Delivery>)
    | Stopped(buffer: string, out: seq<Delivery>)
    | Crashed(out: seq<Delivery>)

  /** One turn of the loop: it goes on after a delivered message, and after a
      call that delivered nothing but shortened the buffer. */
  function Turn(s: LoopState): LoopState {
    if !s.Running? then s else
    match FindNext(s.buffer)
    case Fault => Crashed(s.out)
    case Found(d, rest) => Running(rest, s.out + [d])
    case NotDelivered(rest) =>
      if |rest| != |s.buffer| then Running(rest, s.out) else Stopped(rest, s.out)
  }

  function Turns(n: nat, s: LoopState): LoopState {
    if n == 0 then s else Turns(n - 1, Turn(s))
  }

  /** What becomes of the loop. `Spinning`: the message `again` is delivered over
      and over from a buffer that no longer changes, and the loop never ends. */
  datatype Drained =
    | Waiting(out: seq<Delivery>, buffer: string)
    | Spinning(out: seq<Delivery>, buffer: string, again: Delivery)
    | Faulted(out: seq<Delivery>)

  function After(first: seq<Delivery>, d: Drained): Drained {
    d.(out := first + d.out)
  }

  lemma AfterAfter(a: seq<Delivery>, b: seq<Delivery>, d: Drained)
    ensures After(a, After(b, d)) == After(a + b, d)
    ensures After([], d) == d
  {
    assert a + (b + d.out) == a + b + d.out;
    assert [] + d.out == d.out;
  }

  function Drain(buffer: string): Drained
    decreases |buffer|
  {
    match FindNext(buffer)
    case Fault => Faulted([])
    case Found(d, rest) =>
      if |rest| == |buffer| then Spinning([], buffer, d) else After([d], Drain(rest))
    case NotDelivered(rest) =>
      if |rest| == |buffer| then Waiting([], buffer) else Drain(rest)
  }

  lemma DrainUnfolds(buffer: string, sent: seq<Delivery>)
    ensures var r, found := After(sent, Drain(buffer)), FindNext(buffer);
            if found.Fault? then r == Faulted(sent)
            else if |found.rest| == |buffer| then
              r == if found.Found? then Spinning(sent, buffer, found.delivery) else Waiting(sent, buffer)
            else
              r == After(if found.Found? then sent + [found.delivery] else sent, Drain(found.rest))
  {
    hide FindNext;
    var found := FindNext(buffer);
    if found.Found? {
      AfterAfter(sent, [found.delivery], Drain(found.rest));
    }
  }

  function Repeat(d: Delivery, n: nat): seq<Delivery> {
    if n == 0 then [] else [d] + Repeat(d, n - 1)
  }

  ghost predicate SpinsOn(s: LoopState, d: Delivery) {
    s.Running? && forall n: nat :: Turns(n, s) == Running(s.buffer, s.out + Repeat(d, n))
  }

  lemma {:induction false} SpinsFrom(buffer: string, out: seq<Delivery>, d: Delivery, n: nat)
    requires FindNext(buffer) == Found(d, buffer)
    ensures Turns(n, Running(buffer, out)) == Running(buffer, out + Repeat(d, n))
    decreases n
  {
    hide FindNext;
    if n > 0 {
      SpinsFrom(buffer, out + [d], d, n - 1);
      assert out + [d] + Repeat(d, n - 1) == out + Repeat(d, n);
    } else {
      assert out + [] == out;
    }
  }

  /** `Drain` is the source's loop: it says after how many turns the loop stops,
      that it crashes, or that after some turns nothing but repetition follows. */
  lemma {:induction false} DrainIsTheLoop(buffer: string, out: seq<Delivery>) returns (n: nat)
    ensures var s := Turns(n, Running(buffer, out));
            match Drain(buffer)
            case Waiting(o, rest) => s == Stopped(rest, out + o)
            case Faulted(o) => s == Crashed(out + o)
            case Spinning(o, rest, d) => s == Running(rest, out + o) && SpinsOn(s, d)
    decreases |buffer|
  {
    hide FindNext;
    var next := Turn(Running(buffer, out));
    if next.Running? && |next.buffer| != |buffer| {
      var m := DrainIsTheLoop(next.buffer, next.out);
      n := m + 1;
      var o := Drain(next.buffer).out;
      assert next.out + o == out + Drain(buffer).out;
    } else if next.Running? {
      n := 0;
      assert out + [] == out;
      var d := FindNext(buffer).delivery;
      forall k: nat ensures Turns(k, Running(buffer, out)) == Running(buffer, out + Repeat(d, k)) {
        SpinsFrom(buffer, out, d, k);
      }
    } else {
      n := 1;
      assert Turns(0, next) == next && out + [] == out;
    }
  }

  /** A loop that has stopped stays stopped: another call changes nothing. */
  lemma {:induction false} DrainSettles(buffer: string)
    ensures Drain(buffer).Waiting? ==> FindNext(Drain(buffer).buffer) == NotDelivered(Drain(buffer).buffer)
    decreases |buffer|
  {
    hide FindNext;
    match FindNext(buffer)
    case Fault =>
    case Found(_, rest) => if |rest| != |buffer| { DrainSettles(rest); }
    case NotDelivered(rest) => if |rest| != |buffer| { DrainSettles(rest); }
  }

  /** Each further turn comes with a strictly shorter buffer, except in exactly
      one case: a delivered message whose 20 trailing characters are not all in
      the buffer, which stays as it is. */
  lemma TurnShortensUnlessTrailerIsCut(buffer: string, out: seq<Delivery>)
    requires Turn(Running(buffer, out)).Running?
    ensures var next := Turn(Running(buffer, out));
            var end := EarliestEnd(buffer, IndexFrom(buffer, HEADER, 0)).at;
            if end + 43 <= |buffer| then next.buffer == buffer[end + 43..]
            else next.buffer == buffer && |next.out| == |out| + 1
  {
    hide IndexFrom, OccursAt, EarliestEnd, CutMessage, EndMarker;
    var hostIndex := IndexFrom(buffer, HEADER, 0);
    var at := EarliestEnd(buffer, hostIndex).at;
    RemovesFront(buffer, at + 43);
    hide Removed;
  }

  lemma RemovesFront(buffer: string, n: nat)
    requires n > 0 && buffer != ""
    ensures Removed(buffer, 0, n) == if n <= |buffer| then buffer[n..] else buffer
  {
    assert n <= |buffer| ==> buffer[..0] + buffer[n..] == buffer[n..];
  }

  // ----- The outer loop of main ----------------------------------------------

  /** Each read appends up to its first NUL and drains the buffer; a read of
      nothing is the last. */
  function Convert(buffer: string, chunks: seq<string>): Drained
    decreases chunks
  {
    if chunks == [] || chunks[0] == "" then Drain(buffer) else
    match Drain(buffer + CString(chunks[0]))
    case Waiting(out, rest) => After(out, Convert(rest, chunks[1..]))
    case other => other
  }

  lemma {:induction false} CutCString(c: string, later: string)
    requires '\0' !in c
    ensures CString(c + "\0" + later) == c
    decreases |c|
  {
    if c != "" {
      assert (c + "\0" + later)[1..] == c[1..] + "\0" + later;
      CutCString(c[1..], later);
    }
  }

  /** What follows a NUL in a read is lost. */
  lemma NulCutsRead(buffer: string, c: string, lost: string, later: seq<string>)
    requires c != "" && '\0' !in c
    ensures Convert(buffer, [c + "\0" + lost] + later) == Convert(buffer, [c] + later)
  {
    CutCString(c, lost);
    var a, b := [c + "\0" + lost] + later, [c] + later;
    assert a[1..] == later == b[1..];
    hide Drain, CString;
  }

  /** A read of nothing ends the conversion, whatever could still be read. */
  lemma {:induction false} EmptyReadEnds(buffer: string, chunks: seq<string>, later: seq<string>)
    ensures Convert(buffer, chunks + [""] + later) == Convert(buffer, chunks)
    decreases |chunks|
  {
    hide Drain, CString;
    if chunks != [] {
      assert (chunks + [""] + later)[1..] == chunks[1..] + [""] + later;
      if Drain(buffer + CString(chunks[0])).Waiting? {
        EmptyReadEnds(Drain(buffer + CString(chunks[0])).buffer, chunks[1..], later);
      }
    }
  }

  // ----- The code ------------------------------------------------------------

  datatype Status = NotFound | FoundMessage | BadSlice

  /** The part both converters write out: cut host and port out of a header line. */
  method ReadHeaderLine(content: UtlString, hostIndex: nat, host: UtlString, port: UtlString)
    returns (ok: bool, messageIndex: int)
    requires content != host && content != port && host != port
    modifies host, port
    ensures match HeaderLine(content.data, hostIndex)
            case NoAddress => !ok
            case Address(h, p, m) => ok && host.data == h && port.data == p && messageIndex == m
  {
    hide IndexFrom, OccursAt;
    messageIndex := 0;
    host.Truncate(0);
    port.Truncate(0);
    var hostEnd := content.Index(DASHES, hostIndex + 16);
    ok := host.AppendRange(content, hostIndex + 16, hostEnd - (hostIndex + 16));
    if !ok { return; }
    var portEnd := content.Index(DASHES, hostEnd + 11);
    ok := port.AppendRange(content, hostEnd + 11, portEnd - (hostEnd + 11));
    messageIndex := portEnd + 5;
  }

  class LogReader {
    const buffer: UtlString
    const host: UtlString
    const port: UtlString
    const message: UtlString
    var delivered: seq<Delivery>

    ghost predicate Valid()
      reads this
    {
      buffer != host && buffer != port && buffer != message &&
      host != port && host != message && port != message
    }

    constructor ()
      ensures Valid() && fresh(buffer) && fresh(host) && fresh(port) && fresh(message)
      ensures buffer.data == "" && delivered == []
    {
      buffer := new UtlString("");
      host := new UtlString("");
      port := new UtlString("");
      message := new UtlString("");
      delivered := [];
    }

    method FindNextMessage() returns (status: Status, isOutgoing: bool)
      requires Valid()
      modifies buffer, host, port, message
      ensures match FindNext(old(buffer.data))
              case NotDelivered(rest) => status == NotFound && buffer.data == rest
              case Found(d, rest) =>
                status == FoundMessage && buffer.data == rest &&
                d == Delivery(isOutgoing, host.data, port.data, message.data)
              case Fault => status == BadSlice
    {
      hide IndexFrom, Removed, Slice, EarliestEnd;
      status, isOutgoing := NotFound, false;
      var hostIndex := buffer.Index(HEADER, 0);
      if hostIndex > 0 {
        var messageEnd, isParsed;
        messageEnd, isOutgoing, isParsed := FindEnd(hostIndex);
        if messageEnd >= 0 && !isParsed {
          var sliced := SliceMessage(hostIndex, messageEnd);
          if !sliced {
            return BadSlice, isOutgoing;
          }
          status := FoundMessage;
        }
        if messageEnd >= 0 {
          buffer.Remove(0, messageEnd + 43);
        }
      }
    }

    /** The earliest of the three end markers, or -1. */
    method FindEnd(hostIndex: nat) returns (messageEnd: int, isOutgoing: bool, isParsed: bool)
      requires hostIndex > 0
      ensures match EarliestEnd(buffer.data, hostIndex)
              case NoEnd => messageEnd == -1
              case End(kind, at) =>
                messageEnd == at && isParsed == kind.IncomingParsed? && (!isParsed ==> isOutgoing == kind.Outgoing?)
    {
      hide IndexFrom, EndMarker, OccursAt;
      messageEnd, isOutgoing, isParsed := -1, false, false;
      var outgoingEnd := buffer.Index(EndMarker(Outgoing), hostIndex);
      var incomingEnd := buffer.Index(EndMarker(Incoming), hostIndex);
      var incomingParsedEnd := buffer.Index(EndMarker(IncomingParsed), hostIndex);
      if outgoingEnd > 0 {
        isOutgoing, messageEnd := true, outgoingEnd;
      }
      if incomingEnd > 0 && (messageEnd < 0 || incomingEnd < messageEnd) {
        isOutgoing, messageEnd := false, incomingEnd;
      }
      if incomingParsedEnd > 0 && (messageEnd < 0 || incomingParsedEnd < messageEnd) {
        messageEnd, isParsed := incomingParsedEnd, true;
      }
    }

    method SliceMessage(hostIndex: nat, messageEnd: nat) returns (sliced: bool)
      requires Valid() && messageEnd <= |buffer.data|
      modifies host, port, message
      ensures match Slice(buffer.data, hostIndex, messageEnd)
              case NoFields => !sliced
              case Fields(h, p, m) => sliced && host.data == h && port.data == p && message.data == m
    {
      hide HeaderLine;
      var messageIndex;
      sliced, messageIndex := ReadHeaderLine(buffer, hostIndex, host, port);
      if !sliced { return; }
      message.Truncate(0);
      sliced := message.AppendRange(buffer, messageIndex, messageEnd - messageIndex);
    }

    /** The inner loop. Where the original would go round for ever, `spins` is
        reported instead. */
    method DrainBuffer() returns (ok: bool, spins: bool)
      requires Valid()
      modifies this`delivered, buffer, host, port, message
      ensures match Drain(old(buffer.data))
              case Waiting(out, rest) =>
                ok && !spins && buffer.data == rest && delivered == old(delivered) + out
              case Spinning(out, rest, again) =>
                ok && spins && buffer.data == rest && delivered == old(delivered) + out + [again]
              case Faulted(out) => !ok && delivered == old(delivered) + out
    {
      hide FindNext;
      hide After, Drain;
      ok, spins := true, false;
      ghost var before := buffer.data;
      ghost var sent: seq<Delivery> := [];
      AfterAfter([], [], Drain(before));
      var again := true;
      while again
        invariant ok && !spins && delivered == old(delivered) + sent
        invariant again ==> Drain(before) == After(sent, Drain(buffer.data))
        invariant !again ==> Drain(before) == Waiting(sent, buffer.data)
        decreases again, |buffer.data|
      {
        ghost var now := buffer.data;
        DrainUnfolds(now, sent);
        var bufferLength := |buffer.data|;
        var status, isOutgoing := FindNextMessage();
        if status == BadSlice {
          ok := false;
          return;
        }
        again := status == FoundMessage;
        if again {
          var d := Delivery(isOutgoing, host.data, port.data, message.data);
          delivered := delivered + [d];
          if bufferLength == |buffer.data| {
            spins := true;
            return;
          }
          sent := sent + [d];
        } else if bufferLength != |buffer.data| {
          again := true;
        }
      }
    }

    /** The outer loop over the reads. */
    method ConvertLog(chunks: seq<string>) returns (ok: bool, spins: bool)
      requires Valid() && buffer.data == "" && delivered == []
      modifies this`delivered, buffer, host, port, message
      ensures match Convert("", chunks)
              case Waiting(out, rest) => ok && !spins && buffer.data == rest && delivered == out
              case Spinning(out, rest, again) => ok && spins && delivered == out + [again]
              case Faulted(out) => !ok && delivered == out
    {
      hide Drain, CString;
      ok, spins := true, false;
      var i := 0;
      var more := true;
      while more
        invariant 0 <= i <= |chunks| && ok && !spins
        invariant more ==> Convert("", chunks) == After(delivered, Convert(buffer.data, chunks[i..]))
        invariant !more ==> Convert("", chunks) == Waiting(delivered, buffer.data)
        decreases more, |chunks| - i
      {
        ghost var rest := chunks[i..];
        if i < |chunks| && chunks[i] != "" {
          buffer.Append(CString(chunks[i]));
          i := i + 1;
        } else {
          more := false;
        }
        ok, spins := DrainBuffer();
        if !ok || spins {
          return;
        }
        assert more ==> rest[1..] == chunks[i..];
      }
    }
  }
}