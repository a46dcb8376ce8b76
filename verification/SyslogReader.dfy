/** The reader of `syslog2siptrace`: it cuts its buffer into lines, and slices the
    logged SIP message out of a line in its own way. */
module SyslogReader {
  import opened UtlStrings
  import opened SipLogFormat
  import opened SipLogParser

  // ----- Line terminators ----------------------------------------------------

  predicate IsTerminator(c: char) {
    c == '\n' || c == '\r'
  }

  /** The first line feed or carriage return at or after `from`, or -1. */
  function FirstTerminator(s: string, from: nat): (r: int)
    ensures r == -1 || (from <= r < |s| && IsTerminator(s[r]))
    ensures forall i | from <= i < |s| && (r == -1 || i < r) :: !IsTerminator(s[i])
    decreases |s| - from
  {
    if from >= |s| then -1 else if IsTerminator(s[from]) then from else FirstTerminator(s, from + 1)
  }

  /** A carriage return takes a line feed right after it along. */
  function NextLine(s: string, terminator: nat): (r: nat)
    requires terminator < |s|
    ensures terminator < r <= |s|
  {
    if s[terminator] == '\r' && terminator + 1 < |s| && s[terminator + 1] == '\n'
    then terminator + 2 else terminator + 1
  }

  // ----- Splitting a buffer --------------------------------------------------

  datatype Line = Line(text: string, terminator: string)
  datatype Split = Split(lines: seq<Line>, rest: string)

  /** The lines of a buffer with their terminators, and what follows the last. */
  function SplitLines(s: string): Split
    decreases |s|
  {
    var e := FirstTerminator(s, 0);
    if e == -1 then Split([], s) else
    var n := NextLine(s, e);
    var later := SplitLines(s[n..]);
    Split([Line(s[..e], s[e..n])] + later.lines, later.rest)
  }

  function Reassembled(lines: seq<Line>): string {
    if lines == [] then "" else lines[0].text + lines[0].terminator + Reassembled(lines[1..])
  }

  predicate Clean(s: string) {
    forall c | c in s :: !IsTerminator(c)
  }

  predicate IsLineEnd(t: string) {
    t == "\n" || t == "\r" || t == "\r\n"
  }

  lemma TerminatorIsLineEnd(s: string, e: nat)
    requires e < |s| && IsTerminator(s[e])
    ensures IsLineEnd(s[e..NextLine(s, e)])
  {
    var n := NextLine(s, e);
    if n == e + 1 {
      assert s[e..n] == [s[e]];
    } else {
      assert s[e..n] == [s[e], s[e + 1]];
    }
  }

  lemma FirstLine(s: string, e: nat)
    requires FirstTerminator(s, 0) == e < |s|
    ensures Clean(s[..e]) && IsLineEnd(s[e..NextLine(s, e)])
  {
    TerminatorIsLineEnd(s, e);
    hide IsLineEnd, NextLine;
  }

  lemma ThreeParts(s: string, i: nat, j: nat)
    requires i <= j <= |s|
    ensures s[..i] + s[i..j] + s[j..] == s
  {
  }

  /** Nothing is lost: the lines with their terminators and the remainder are the
      buffer, and terminators stand nowhere else. */
  lemma {:induction false} LinesReassemble(s: string)
    ensures var r := SplitLines(s);
            Reassembled(r.lines) + r.rest == s && Clean(r.rest) &&
            forall l | l in r.lines :: Clean(l.text) && IsLineEnd(l.terminator)
    decreases |s|
  {
    hide IsLineEnd, FirstTerminator, NextLine;
    var e := FirstTerminator(s, 0);
    if e != -1 {
      FirstLine(s, e);
      ThreeParts(s, e, NextLine(s, e));
      var n := NextLine(s, e);
      LinesReassemble(s[n..]);
      var line, later := Line(s[..e], s[e..n]), SplitLines(s[n..]);
      hide Clean;
      assert ([line] + later.lines)[1..] == later.lines;
      assert line.text + line.terminator + Reassembled(later.lines) + later.rest
          == line.text + line.terminator + (Reassembled(later.lines) + later.rest);
    }
  }

  /** What `convertToXml` is given. */
  function Texts(lines: seq<Line>): seq<string> {
    seq(|lines|, i requires 0 <= i < |lines| => lines[i].text)
  }

  /** The reads of `main`: every read is appended up to its first NUL, the lines
      are handed over, and after the last read so is what remains. */
  function HandedOver(buffer: string, chunks: seq<string>): seq<string>
    decreases chunks
  {
    if chunks == [] || chunks[0] == "" then
      Texts(SplitLines(buffer).lines) + [SplitLines(buffer).rest]
    else
      var s := SplitLines(buffer + CString(chunks[0]));
      Texts(s.lines) + HandedOver(s.rest, chunks[1..])
  }

  // ----- Reading in pieces ---------------------------------------------------

  /** `a` and `b` meet in the middle of a carriage return, line feed pair. */
  predicate CutsPair(a: string, b: string) {
    a != "" && a[|a| - 1] == '\r' && b != "" && b[0] == '\n'
  }

  lemma TextsOfBoth(a: seq<Line>, b: seq<Line>)
    ensures Texts(a + b) == Texts(a) + Texts(b)
  {
  }

  /** Splitting in two steps gives the same remainder, and the same lines except
      for one extra empty line when a pair was cut. */
  lemma {:induction false} SplitInTwo(a: string, b: string)
    ensures var whole, first := SplitLines(a + b), SplitLines(a);
            var second := SplitLines(first.rest + b);
            && whole.rest == second.rest
            && |first.lines| + |second.lines| == |whole.lines| + (if CutsPair(a, b) then 1 else 0)
            && (!CutsPair(a, b) ==> whole.lines == first.lines + second.lines)
    decreases |a|
  {
    hide FirstTerminator, NextLine, SplitLines, CutsPair;
    var e := FirstTerminator(a, 0);
    if e != -1 {
      SameTerminator(a, b);
      var n := NextLine(a, e);
      if NextLine(a + b, e) == n {
        SplitInTwo(a[n..], b);
        SplitAfterLine(a, b, e);
        PairAfterLine(a, b, e);
      } else {
        PairIsCut(a, b, e);
      }
    } else {
      NoLine(a, b);
    }
  }

  lemma NoLine(a: string, b: string)
    requires FirstTerminator(a, 0) == -1
    ensures SplitLines(a) == Split([], a) && !CutsPair(a, b)
  {
  }

  lemma OneLine(s: string, e: nat)
    requires e < |s| && FirstTerminator(s, 0) == e
    ensures var n := NextLine(s, e);
            SplitLines(s) == Split([Line(s[..e], s[e..n])] + SplitLines(s[n..]).lines, SplitLines(s[n..]).rest)
  {
  }

  lemma PairAfterLine(a: string, b: string, e: nat)
    requires e < |a| && IsTerminator(a[e]) && NextLine(a + b, e) == NextLine(a, e)
    ensures CutsPair(a, b) <==> CutsPair(a[NextLine(a, e)..], b)
  {
  }

  lemma SplitAfterLine(a: string, b: string, e: nat)
    requires e < |a| && FirstTerminator(a, 0) == FirstTerminator(a + b, 0) == e
    requires NextLine(a + b, e) == NextLine(a, e)
    ensures var n := NextLine(a, e);
            var line := [Line(a[..e], a[e..n])];
            && SplitLines(a) == Split(line + SplitLines(a[n..]).lines, SplitLines(a[n..]).rest)
            && SplitLines(a + b) == Split(line + SplitLines(a[n..] + b).lines, SplitLines(a[n..] + b).rest)
  {
    OneLine(a, e);
    OneLine(a + b, e);
    hide FirstTerminator, NextLine, SplitLines;
    var n := NextLine(a, e);
    SliceOfJoin(a, b, e, n);
  }

  lemma PairIsCut(a: string, b: string, e: nat)
    requires e < |a| && FirstTerminator(a, 0) == FirstTerminator(a + b, 0) == e
    requires NextLine(a + b, e) != NextLine(a, e)
    ensures CutsPair(a, b)
    ensures var second := SplitLines(SplitLines(a).rest + b);
            |SplitLines(a).lines| == 1 && SplitLines(a + b).rest == second.rest
            && |second.lines| == |SplitLines(a + b).lines|
  {
    assert a[|a|..] == "";
    assert (a + b)[|a| + 1..] == b[1..];
    assert SplitLines(a).rest == "" && "" + b == b;
    assert FirstTerminator(b, 0) == 0 && NextLine(b, 0) == 1;
  }

  lemma SameTerminator(a: string, b: string)
    requires FirstTerminator(a, 0) != -1
    ensures FirstTerminator(a + b, 0) == FirstTerminator(a, 0)
  {
    var e := FirstTerminator(a, 0);
    assert (a + b)[e] == a[e];
    var f := FirstTerminator(a + b, 0);
    if 0 <= f < |a| {
      assert (a + b)[f] == a[f];
    }
  }

  function PairsCut(a: string, chunks: seq<string>): nat
    decreases chunks
  {
    if chunks == [] then 0
    else (if CutsPair(a, chunks[0]) then 1 else 0) + PairsCut(a + chunks[0], chunks[1..])
  }

  lemma {:induction false} PairsCutAnywhere(a: string, chunks: seq<string>)
    requires "" !in chunks
    ensures PairsCut(a, chunks) == 0 <==>
            (chunks != [] ==> !CutsPair(a, chunks[0]))
            && forall i | 0 < i < |chunks| :: !CutsPair(chunks[i - 1], chunks[i])
    decreases chunks
  {
    if chunks != [] {
      PairsCutAnywhere(a + chunks[0], chunks[1..]);
      if |chunks| > 1 {
        assert CutsPair(a + chunks[0], chunks[1]) == CutsPair(chunks[0], chunks[1]);
      }
      forall i | 0 < i < |chunks| - 1
        ensures CutsPair(chunks[i], chunks[i + 1]) == CutsPair(chunks[1..][i - 1], chunks[1..][i])
      {
      }
    }
  }

  lemma RestHasNoLine(a: string)
    ensures SplitLines(SplitLines(a).rest) == Split([], SplitLines(a).rest)
  {
    LinesReassemble(a);
    hide SplitLines;
    NoLine(SplitLines(a).rest, "");
  }

  /** After the text `a`, the pieces hand over one line per terminator still to
      come, the remainder, and one empty line for every pair they cut. */
  lemma {:induction false} HandsOver(a: string, chunks: seq<string>)
    requires '\0' !in Joined(chunks) && "" !in chunks
    ensures var first, whole := SplitLines(a), SplitLines(a + Joined(chunks));
            var given := HandedOver(first.rest, chunks);
            && |first.lines| + |given| == |whole.lines| + 1 + PairsCut(a, chunks)
            && (PairsCut(a, chunks) == 0 ==> Texts(first.lines) + given == Texts(whole.lines) + [whole.rest])
    decreases chunks
  {
    hide SplitLines, CutsPair, CString;
    var first := SplitLines(a);
    if chunks == [] {
      RestHasNoLine(a);
      assert a + "" == a;
      TextsOfBoth(first.lines, []);
    } else {
      var c, later := chunks[0], chunks[1..];
      SplitInTwo(a, c);
      HandsOver(a + c, later);
      assert a + Joined(chunks) == a + c + Joined(later);
      var second := SplitLines(first.rest + c);
      TextsOfBoth(first.lines, second.lines);
      TextsOfBoth(second.lines, []);
      assert Texts(first.lines) + (Texts(second.lines) + HandedOver(second.rest, later))
          == Texts(first.lines) + Texts(second.lines) + HandedOver(second.rest, later);
    }
  }

  /** The lines handed over, ending with the remainder, do not depend on how the
      input is read, exactly when no read ends between a carriage return and its
      line feed; each such read adds one empty line. */
  lemma {:induction false} LinesDoNotDependOnReads(chunks: seq<string>)
    requires '\0' !in Joined(chunks) && "" !in chunks
    ensures var whole := SplitLines(Joined(chunks));
            HandedOver("", [Joined(chunks)]) == Texts(whole.lines) + [whole.rest]
    ensures HandedOver("", chunks) == HandedOver("", [Joined(chunks)]) <==>
            forall i | 0 < i < |chunks| :: !CutsPair(chunks[i - 1], chunks[i])
    ensures |HandedOver("", chunks)| == |HandedOver("", [Joined(chunks)])| + PairsCut("", chunks)
  {
    var s := Joined(chunks);
    WholeRead(s);
    PairsCutAnywhere("", chunks);
    HandsOver("", chunks);
    NoLine("", "");
    assert "" + s == s;
    TextsOfBoth(SplitLines(s).lines, []);
  }

  lemma FirstLineIs(text: string, end: string, later: string)
    requires Clean(text) && IsLineEnd(end) && !CutsPair(end, later)
    ensures SplitLines(text + end + later) ==
            Split([Line(text, end)] + SplitLines(later).lines, SplitLines(later).rest)
  {
    var s, e := text + end + later, |text|;
    assert s[e] == end[0];
    forall i | 0 <= i < e ensures !IsTerminator(s[i]) {
      assert s[i] == text[i];
    }
    assert FirstTerminator(s, 0) == e;
    hide FirstTerminator, SplitLines;
    assert NextLine(s, e) == e + |end|;
    hide NextLine, IsLineEnd, CutsPair;
    OneLine(s, e);
    assert s[..e] == text && s[e..e + |end|] == end && s[e + |end|..] == later;
  }

  lemma LastLineIs(text: string)
    requires Clean(text)
    ensures SplitLines(text) == Split([], text)
  {
    NoLine(text, "");
  }

  lemma TwoReads(a: string, b: string)
    requires a != "" && b != "" && '\0' !in a + b
    ensures var first := SplitLines(a);
            var second := SplitLines(first.rest + b);
            HandedOver("", [a, b]) == Texts(first.lines) + (Texts(second.lines) + [second.rest])
  {
    hide SplitLines, CString;
    assert "" + a == a && [a, b][1..] == [b] && [b][1..] == [];
    var rest := SplitLines(a).rest;
    RestHasNoLine(a);
    HandsOver(a, [b]);
    var second := SplitLines(rest + b);
    RestHasNoLine(rest + b);
    assert HandedOver(rest, [b]) == Texts(second.lines) + HandedOver(second.rest, []);
    assert HandedOver(second.rest, []) == Texts([]) + [second.rest];
    assert Texts([]) + [second.rest] == [second.rest];
  }

  lemma OneWholeLine(text: string, end: string, rest: string)
    requires Clean(text) && IsLineEnd(end) && Clean(rest)
    ensures SplitLines(text + end + rest) == Split([Line(text, end)], rest)
  {
    if rest != "" {
      assert rest[0] in rest;
    }
    FirstLineIs(text, end, rest);
    LastLineIs(rest);
    hide SplitLines;
    assert [Line(text, end)] + [] == [Line(text, end)];
  }

  lemma TextOfOne(l: Line)
    ensures Texts([l]) == [l.text]
  {
  }

  lemma CutPairLines()
    ensures SplitLines("a\r\nb") == Split([Line("a", "\r\n")], "b")
    ensures SplitLines("a\r") == Split([Line("a", "\r")], "") && SplitLines("\nb") == Split([Line("", "\n")], "b")
  {
    hide SplitLines;
    OneWholeLine("a", "\r\n", "b");
    OneWholeLine("a", "\r", "");
    OneWholeLine("", "\n", "b");
    assert "a" + "\r\n" + "b" == "a\r\nb" && "a" + "\r" + "" == "a\r" && "" + "\n" + "b" == "\nb";
  }

  /** A pair that is cut between two reads gives one line too many. */
  lemma CutPairExample()
    ensures HandedOver("", ["a\r\nb"]) == ["a", "b"]
    ensures HandedOver("", ["a\r", "\nb"]) == ["a", "", "b"]
  {
    CutPairLines();
    TextOfOne(Line("a", "\r\n"));
    TextOfOne(Line("a", "\r"));
    TextOfOne(Line("", "\n"));
    hide *;
    var whole, first, second := "a\r\nb", "a\r", "\nb";
    WholeRead(whole);
    TwoReads(first, second);
    assert "" + second == second;
  }

  lemma {:induction false} WholeRead(s: string)
    requires '\0' !in s
    ensures HandedOver("", [s]) == Texts(SplitLines(s).lines) + [SplitLines(s).rest]
  {
    hide SplitLines, CString;
    if s != "" {
      NoLine("", s);
      HandsOver("", [s]);
      assert "" + Joined([s]) == s;
    }
  }

  /** What follows a NUL in a read is lost. */
  lemma NulCutsRead(buffer: string, c: string, lost: string, later: seq<string>)
    requires c != "" && '\0' !in c
    ensures HandedOver(buffer, [c + "\0" + lost] + later) == HandedOver(buffer, [c] + later)
  {
    CutCString(c, lost);
    var a, b := [c + "\0" + lost] + later, [c] + later;
    assert a[1..] == later == b[1..];
    hide SplitLines, CString;
  }

  /** A read of nothing ends the input, whatever could still be read. */
  lemma {:induction false} EmptyReadEnds(buffer: string, chunks: seq<string>, later: seq<string>)
    ensures HandedOver(buffer, chunks + [""] + later) == HandedOver(buffer, chunks)
    decreases |chunks|
  {
    hide SplitLines, CString;
    if chunks != [] {
      assert (chunks + [""] + later)[1..] == chunks[1..] + [""] + later;
      EmptyReadEnds(SplitLines(buffer + CString(chunks[0])).rest, chunks[1..], later);
    }
  }

  // ----- Slicing a logged message --------------------------------------------

  const SEND_FAILED := "User Agent failed to send message"

  /** `getMessageData`: the end marker of the given direction, searched from where
      the message starts; without one the message is all that follows. */
  function MessageFields(content: string, isOutgoing: bool): Fields {
    var hostIndex := IndexFrom(content, HEADER, 0);
    if hostIndex <= 0 then NoFields else
    match HeaderLine(content, hostIndex)
    case NoAddress => NoFields
    case Address(host, port, message) =>
      var found := IndexFrom(content, EndMarker(if isOutgoing then Outgoing else Incoming), message);
      var messageEnd := if found == -1 then |content| else found;
      if messageEnd < message then NoFields else Fields(host, port, content[message..messageEnd])
  }

  /** A record whose end marker is missing, or is that of the other direction: the
      message is all that follows the header line. */
  lemma UnmarkedMessage(r: Record, isOutgoing: bool, rest: string)
    requires r.WellFormed() && r.kind != IncomingParsed
    requires Free(rest, EndMarker(if isOutgoing then Outgoing else Incoming))
    ensures MessageFields(r.before + r.Head() + rest, isOutgoing) == Fields(r.host, r.port, rest)
  {
    var content, at := r.before + r.Head() + rest, |r.before + r.Head()|;
    HeadIsFound(r, rest);
    HeadIsRead(r, rest);
    assert r.before != "";
    hide HeaderLine, OccursAt, IndexFrom, EndMarker, Record.Head, Record.WellFormed;
    NotFoundBehind(r.before + r.Head(), rest, EndMarker(if isOutgoing then Outgoing else Incoming));
    assert content[at..] == rest;
  }

  lemma NotFoundBehind(a: string, b: string, p: string)
    requires Free(b, p)
    ensures IndexFrom(a + b, p, |a|) == -1
  {
    FoundUnlessFree(b, p);
    hide Free;
    IndexAfter(a, b, p, 0);
  }

  /** Without a header, or with one at the very start, there is nothing to slice. */
  lemma NoHeaderNoMessage(content: string, isOutgoing: bool)
    requires Free(content, HEADER) || HEADER <= content
    ensures MessageFields(content, isOutgoing) == NoFields
  {
    if HEADER <= content {
      assert OccursAt(content, HEADER, 0);
    } else {
      FoundUnlessFree(content, HEADER);
    }
    hide HeaderLine;
  }

  /** The two converters agree on every text in which the other one finds a
      message: same host, port and message, although they look for the end of the
      message from different places and for different markers. */
  lemma ConvertersAgree(content: string)
    requires FindNext(content).Found?
    ensures var d := FindNext(content).delivery;
            MessageFields(content, d.isOutgoing) == Fields(d.host, d.port, d.message)
  {
    hide IndexFrom, EndMarker, HeaderLine, OccursAt;
    var hostIndex := IndexFrom(content, HEADER, 0);
    var end := EarliestEnd(content, hostIndex);
    IndexIsFirst(content, EndMarker(end.kind), HeaderLine(content, hostIndex).messageIndex, end.at);
  }

  // ----- The code ------------------------------------------------------------

  /** `NameValueTokenizer::findNextLineTerminator`. */
  method FindNextLineTerminator(text: string) returns (terminatorIndex: int, nextLineIndex: int)
    ensures terminatorIndex == FirstTerminator(text, 0)
    ensures nextLineIndex == if terminatorIndex == -1 then -1 else NextLine(text, terminatorIndex)
  {
    terminatorIndex, nextLineIndex := -1, -1;
    var byteIndex := 0;
    while byteIndex < |text|
      invariant byteIndex <= |text|
      invariant FirstTerminator(text, byteIndex) == FirstTerminator(text, 0)
      invariant terminatorIndex == -1 && nextLineIndex == -1
    {
      if IsTerminator(text[byteIndex]) {
        terminatorIndex := byteIndex;
        if byteIndex < |text| - 1 && text[byteIndex + 1] == '\n' && text[byteIndex] == '\r' {
          nextLineIndex := terminatorIndex + 2;
        } else {
          nextLineIndex := terminatorIndex + 1;
        }
        break;
      }
      byteIndex := byteIndex + 1;
    }
  }

  lemma TakesLine(sent: seq<Line>, s: string, e: nat)
    requires e < |s| && FirstTerminator(s, 0) == e
    ensures var n := NextLine(s, e);
            var line, later := Line(s[..e], s[e..n]), SplitLines(s[n..]);
            && Removed(s, 0, n) == s[n..]
            && Texts(sent + [line]) == Texts(sent) + [s[..e]]
            && sent + SplitLines(s).lines == sent + [line] + later.lines
            && SplitLines(s).rest == later.rest
  {
    OneLine(s, e);
    hide FirstTerminator, SplitLines, NextLine;
    var n := NextLine(s, e);
    RemovedFront(s, n);
    hide Removed;
    AppendLine(sent, Line(s[..e], s[e..n]), SplitLines(s[n..]).lines);
  }

  lemma RemovedFront(s: string, n: nat)
    requires 0 < n <= |s|
    ensures Removed(s, 0, n) == s[n..]
  {
    assert s[..0] + s[n..] == s[n..];
  }

  lemma AppendLine(sent: seq<Line>, line: Line, later: seq<Line>)
    ensures Texts(sent + [line]) == Texts(sent) + [line.text]
    ensures sent + ([line] + later) == sent + [line] + later
  {
    TextsOfBoth(sent, [line]);
    assert Texts([line]) == [line.text];
    hide Texts;
  }

  lemma FoundUnlessFree(s: string, p: string)
    ensures IndexFrom(s, p, 0) == -1 <==> Free(s, p)
  {
    hide IndexFrom;
    assert forall i :: OccursAt(s, p, i) ==> i >= 0;
    hide OccursAt;
  }

  class LineReader {
    const buffer: UtlString
    var given: seq<string>

    constructor ()
      ensures fresh(buffer) && buffer.data == "" && given == []
    {
      buffer := new UtlString("");
      given := [];
    }

    /** The inner loop: hand over every line the buffer holds. */
    method DrainLines()
      modifies this`given, buffer
      ensures var s := SplitLines(old(buffer.data));
              given == old(given) + Texts(s.lines) && buffer.data == s.rest
    {
      assert Texts([]) == [];
      hide SplitLines, FirstTerminator, NextLine, Removed, Texts;
      ghost var sent: seq<Line> := [];
      var nextLineStart := 0;
      while nextLineStart >= 0
        invariant given == old(given) + Texts(sent)
        invariant var s, now := SplitLines(old(buffer.data)), SplitLines(buffer.data);
                  s.lines == sent + now.lines && s.rest == now.rest
        invariant nextLineStart < 0 ==> FirstTerminator(buffer.data, 0) == -1
        decreases nextLineStart >= 0, |buffer.data|
      {
        ghost var s := buffer.data;
        var lineLen;
        lineLen, nextLineStart := FindNextLineTerminator(buffer.data);
        if nextLineStart > 0 {
          given := given + [buffer.data[..lineLen]];
          buffer.Remove(0, nextLineStart);
          TakesLine(sent, s, lineLen);
          sent := sent + [Line(s[..lineLen], s[lineLen..nextLineStart])];
        }
      }
      NoLine(buffer.data, "");
      assert sent + [] == sent;
    }

    method ConvertSyslog(chunks: seq<string>)
      requires buffer.data == "" && given == []
      modifies this`given, buffer
      ensures given == HandedOver("", chunks)
    {
      hide SplitLines, CString;
      var i := 0;
      var more := true;
      while more
        invariant 0 <= i <= |chunks|
        invariant more ==> HandedOver("", chunks) == given + HandedOver(buffer.data, chunks[i..])
        invariant !more ==> HandedOver("", chunks) == given + [buffer.data]
        decreases more, |chunks| - i
      {
        ghost var later := chunks[i..];
        if i < |chunks| && chunks[i] != "" {
          buffer.Append(CString(chunks[i]));
          i := i + 1;
        } else {
          more := false;
        }
        DrainLines();
        assert more ==> later[1..] == chunks[i..];
      }
      given := given + [buffer.data];
    }

    /** The slicing in `getMessageData`; `ok` is false where the original copies a
        negative number of characters or finds no header. */
    method GetMessageData(content: UtlString, isOutgoing: bool, host: UtlString, port: UtlString, message: UtlString)
      returns (ok: bool, failed: bool)
      requires content != host && content != port && content != message
      requires host != port && host != message && port != message
      requires message.data == ""
      modifies host, port, message
      ensures match MessageFields(content.data, isOutgoing)
              case NoFields => !ok
              case Fields(h, p, m) => ok && host.data == h && port.data == p && message.data == m
      ensures ok ==> (failed <==> isOutgoing && !Free(content.data, SEND_FAILED))
    {
      hide IndexFrom, EndMarker, HeaderLine, OccursAt;
      failed := false;
      var hostIndex := content.Index(HEADER, 0);
      if hostIndex <= 0 { return false, failed; }
      var messageIndex;
      ok, messageIndex := ReadHeaderLine(content, hostIndex, host, port);
      if !ok { return; }
      var messageEnd := content.Index(EndMarker(if isOutgoing then Outgoing else Incoming), messageIndex);
      if isOutgoing {
        var mark := content.Index(SEND_FAILED, 0);
        failed := mark != -1;
        FoundUnlessFree(content.data, SEND_FAILED);
      }
      if messageEnd == -1 {
        messageEnd := |content.data|;
      }
      ok := message.AppendRange(content, messageIndex, messageEnd - messageIndex);
    }
  }
}
