/** The converter as a whole: the trace document is well nested, and reading it
    back gives the messages of the log. */
module TraceOfLog {
  import opened Decimals
  import opened Options
  import opened UtlStrings
  import opened TraceXml
  import opened TraceDocument
  import opened TraceWriter
  import opened SipLogParser
  import opened SipLogFormat

  // ----- Nesting -------------------------------------------------------------

  /** Every end tag closes the tag opened last, the declaration is no tag, and text
      stands inside some tag. */
  predicate Nested(ts: seq<Token>, open: seq<string>)
    decreases |ts|
  {
    if ts == [] then open == [] else
    match ts[0]
    case Tag(name) =>
      if name != "" && name[0] == '?' then Nested(ts[1..], open)
      else if name != "" && name[0] == '/' then
        open != [] && open[0] == name[1..] && Nested(ts[1..], open[1..])
      else Nested(ts[1..], [name] + open)
    case _ => open != [] && Nested(ts[1..], open)
  }

  predicate IsStart(name: string) {
    name != "" && name[0] != '/' && name[0] != '?'
  }

  /** A line that opens and closes its own tag. */
  predicate IsFlat(l: Line) {
    l.Message? || (l.Element? && IsStart(l.name))
  }

  predicate AllFlat(lines: seq<Line>) {
    forall l | l in lines :: IsFlat(l)
  }

  lemma OneToken(t: Token, ts: seq<Token>, open: seq<string>)
    ensures t.Tag? && IsStart(t.name) ==> Nested([t] + ts, open) == Nested(ts, [t.name] + open)
    ensures t.Tag? && t.name != "" && t.name[0] == '?' ==> Nested([t] + ts, open) == Nested(ts, open)
    ensures !t.Tag? && open != [] ==> Nested([t] + ts, open) == Nested(ts, open)
  {
    assert ([t] + ts)[1..] == ts;
  }

  lemma EndToken(name: string, ts: seq<Token>, open: seq<string>)
    ensures Nested([Tag("/" + name)] + ts, [name] + open) == Nested(ts, open)
  {
    assert ([Tag("/" + name)] + ts)[1..] == ts && ("/" + name)[1..] == name && ([name] + open)[1..] == open;
  }

  lemma InsideNests(name: string, inside: seq<Token>, ts: seq<Token>, open: seq<string>)
    requires IsStart(name) && |inside| <= 1 && (inside != [] ==> !inside[0].Tag?)
    ensures Nested([Tag(name)] + inside + [Tag("/" + name)] + ts, open) == Nested(ts, open)
  {
    hide Nested, IsStart;
    var end := [Tag("/" + name)] + ts;
    assert [Tag(name)] + inside + [Tag("/" + name)] + ts == [Tag(name)] + (inside + end);
    OneToken(Tag(name), inside + end, open);
    if inside != [] {
      assert inside == [inside[0]];
      OneToken(inside[0], end, [name] + open);
    } else {
      assert inside + end == end;
    }
    EndToken(name, ts, open);
  }

  lemma FlatLineNests(l: Line, ts: seq<Token>, open: seq<string>)
    requires IsFlat(l)
    ensures Nested(l.Tokens() + ts, open) == Nested(ts, open)
  {
    hide Nested;
    match l
    case Message(body) =>
      assert "/message" == "/" + "message";
      InsideNests("message", [CData(body)], ts, open);
      assert l.Tokens() == [Tag("message")] + [CData(body)] + [Tag("/" + "message")];
    case Element(_, name, value) =>
      InsideNests(name, if value == "" then [] else [Token.Text(value)], ts, open);
  }

  lemma {:induction false} FlatLinesNest(lines: seq<Line>, later: seq<Line>, open: seq<string>)
    requires AllFlat(lines)
    ensures Nested(Tokens(lines + later), open) == Nested(Tokens(later), open)
    decreases |lines|
  {
    hide Nested, IsFlat;
    if lines == [] {
      assert lines + later == later;
    } else {
      assert lines[0] in lines;
      assert (lines + later)[1..] == lines[1..] + later;
      FlatLineNests(lines[0], Tokens(lines[1..] + later), open);
      FlatLinesNest(lines[1..], later, open);
    }
  }

  lemma {:induction false} BranchLinesAreFlat(ids: seq<string>)
    ensures AllFlat(BranchLines(ids))
  {
    if ids != [] {
      BranchLinesAreFlat(ids[1..]);
    }
  }

  lemma FieldsAreFlat(n: Node)
    ensures AllFlat(AddressLines(n, []))
    ensures AllFlat(DataTail(n))
  {
    hide Trimmed;
  }

  lemma DataLinesAreFlat(n: Node)
    ensures AllFlat(DataLines(n, []))
  {
    FieldsAreFlat(n);
    AddressLinesJoin(n, [], DataTail(n));
    DataIsAddressesAndTail(n);
    hide AddressLines, DataTail, DataLines, IsFlat;
    assert [] + DataTail(n) == DataTail(n);
  }

  lemma MarkNests(indent: nat, name: string, later: seq<Line>, open: seq<string>)
    ensures IsStart(name) ==>
            Nested(Tokens([Mark(indent, name)] + later), open) == Nested(Tokens(later), [name] + open)
    ensures name != "" && name[0] == '?' ==>
            Nested(Tokens([Mark(indent, name)] + later), open) == Nested(Tokens(later), open)
  {
    assert ([Mark(indent, name)] + later)[1..] == later;
    OneToken(Tag(name), Tokens(later), open);
  }

  lemma EndMarkNests(indent: nat, name: string, later: seq<Line>, open: seq<string>)
    ensures Nested(Tokens([Mark(indent, "/" + name)] + later), [name] + open) == Nested(Tokens(later), open)
  {
    assert ([Mark(indent, "/" + name)] + later)[1..] == later;
    EndToken(name, Tokens(later), open);
  }

  lemma NodeMarks()
    ensures "/branchNode" == "/" + "branchNode" && "/branchIdSet" == "/" + "branchIdSet"
    ensures "/sipTrace" == "/" + "sipTrace"
    ensures IsStart("branchNode") && IsStart("branchIdSet") && IsStart("sipTrace")
  {
  }

  lemma NodeNests(n: Node, later: seq<Line>, open: seq<string>)
    ensures Nested(Tokens(NodeLines(n, later)), open) == Nested(Tokens(later), open)
  {
    var l4 := [Mark(1, "/branchNode")] + later;
    var l3 := DataLines(n, l4);
    var l2 := BranchLines(n.branchIds) + ([Mark(2, "/branchIdSet")] + l3);
    assert NodeLines(n, later) == [Mark(1, "branchNode")] + ([Mark(2, "branchIdSet")] + l2);
    hide *;
    NodeMarks();
    var inNode := ["branchNode"] + open;
    MarkNests(1, "branchNode", [Mark(2, "branchIdSet")] + l2, open);
    MarkNests(2, "branchIdSet", l2, inNode);
    BranchLinesAreFlat(n.branchIds);
    FlatLinesNest(BranchLines(n.branchIds), [Mark(2, "/branchIdSet")] + l3, ["branchIdSet"] + inNode);
    EndMarkNests(2, "branchIdSet", l3, inNode);
    DataLinesAreFlat(n);
    DataLinesJoin(n, l4);
    FlatLinesNest(DataLines(n, []), l4, inNode);
    EndMarkNests(1, "branchNode", later, open);
  }

  lemma {:induction false} NodesNest(nodes: seq<Node>, later: seq<Line>, open: seq<string>)
    ensures Nested(Tokens(AllLines(nodes, later)), open) == Nested(Tokens(later), open)
    decreases |nodes|
  {
    hide Nested, Tokens, NodeLines;
    if nodes != [] {
      NodeNests(nodes[0], AllLines(nodes[1..], later), open);
      NodesNest(nodes[1..], later, open);
    }
  }

  /** A reader of the document sees only matching tags. */
  lemma {:induction false} DocumentIsNested(nodes: seq<Node>)
    requires AllWritable(AllKept(nodes))
    ensures Nested(ReadXml(Render(DocumentLines(nodes))), [])
  {
    var end := [Mark(0, "/sipTrace")];
    DocumentIsRead(nodes);
    var body := AllLines(nodes, end);
    assert DECLARATION[0] == "?xml version=\"1.0\""[0];
    assert end + [] == end;
    NodeMarks();
    hide Tokens, AllLines, ReadXml, Render;
    MarkNests(0, DECLARATION, [Mark(0, "sipTrace")] + body, []);
    MarkNests(0, "sipTrace", body, []);
    NodesNest(nodes, end, ["sipTrace"] + []);
    EndMarkNests(0, "sipTrace", [], []);
    assert Tokens([]) == [];
  }

  // ----- From the log to the messages read back ------------------------------

  /** Where a message went, without surrounding spaces. Outgoing: from here to the
      remote end. Incoming: from the address it came from to here; the entity behind it
      is unknown for a response, and for a request the one in its Via. */
  ghost predicate TellsEnds(n: Node, d: Delivery, facts: SipFacts, localHost: string) {
    && (d.isOutgoing ==>
          && n.source == n.sourceAddress == Trimmed(localHost)
          && n.destination == Trimmed(d.host) && n.destinationAddress == Trimmed(d.host + ":" + d.port))
    && (!d.isOutgoing ==>
          && n.destination == n.destinationAddress == Trimmed(localHost)
          && n.sourceAddress == Trimmed(d.host + ":" + d.port)
          && n.source == if facts.isResponse then "" else Trimmed(d.host + ":" + Decimal(facts.viaPort)))
  }

  /** The method of a request, or the code and the text of a response. */
  ghost predicate TellsKind(n: Node, facts: SipFacts) {
    && (facts.isResponse ==>
          && n.sipMethod == ""
          && n.responseCode == Trimmed(facts.responseCode) && n.responseText == Trimmed(facts.responseText))
    && (!facts.isResponse ==>
          n.sipMethod == Trimmed(facts.requestMethod) && n.responseCode == "" && n.responseText == "")
  }

  /** The branch ids and the transaction the message belongs to. */
  ghost predicate TellsIds(n: Node, facts: SipFacts) {
    && (var t := facts.transaction;
        n.transactionId == Trimmed(Decimal(t.cseq) + "," + t.callId + "," + t.fromTag + "," + t.toTag))
    && |n.branchIds| == |facts.branchIds|
    && (forall i | 0 <= i < |n.branchIds| :: n.branchIds[i] == Trimmed(facts.branchIds[i]))
  }

  /** What the node of a message says. */
  ghost predicate Tells(n: Node, d: Delivery, facts: SipFacts, localHost: string, frameId: string) {
    && TellsEnds(n, d, facts, localHost) && TellsKind(n, facts) && TellsIds(n, facts)
    && n.time == "" && n.frameId == Trimmed(frameId) && n.message == d.message
  }

  lemma TellsAll(a: Node, b: Node, d: Delivery, facts: SipFacts, localHost: string, frameId: string)
    requires Tells(a, d, facts, localHost, frameId) && Tells(b, d, facts, localHost, frameId)
    ensures a == b
  {
    hide Trimmed;
    assert a.branchIds == b.branchIds;
  }

  lemma {:induction false} AllTrimmedAt(ids: seq<string>)
    ensures |AllTrimmed(ids)| == |ids| && forall i | 0 <= i < |ids| :: AllTrimmed(ids)[i] == Trimmed(ids[i])
  {
    hide Trimmed;
    if ids != [] {
      AllTrimmedAt(ids[1..]);
    }
  }

  lemma EndsAreTold(d: Delivery, facts: SipFacts, localHost: string, frameId: string)
    ensures TellsEnds(Kept(NodeOf(d, facts, localHost, frameId)), d, facts, localHost)
  {
    assert Trimmed("") == "";
    hide Trimmed, AllTrimmed, Decimal, TransactionId;
  }

  lemma KindIsTold(d: Delivery, facts: SipFacts, localHost: string, frameId: string)
    ensures TellsKind(Kept(NodeOf(d, facts, localHost, frameId)), facts)
  {
    assert Trimmed("") == "";
    hide Trimmed, AllTrimmed, Decimal, TransactionId, RemoteEntity;
  }

  lemma IdsAreTold(d: Delivery, facts: SipFacts, localHost: string, frameId: string)
    ensures TellsIds(Kept(NodeOf(d, facts, localHost, frameId)), facts)
  {
    AllTrimmedAt(facts.branchIds);
    hide Trimmed, AllTrimmed, Decimal, RemoteEntity;
  }

  lemma NodeTells(d: Delivery, facts: SipFacts, localHost: string, frameId: string)
    ensures Tells(Kept(NodeOf(d, facts, localHost, frameId)), d, facts, localHost, frameId)
  {
    assert Trimmed("") == "";
    EndsAreTold(d, facts, localHost, frameId);
    KindIsTold(d, facts, localHost, frameId);
    IdsAreTold(d, facts, localHost, frameId);
    hide TellsEnds, TellsKind, TellsIds, Trimmed, AllTrimmed, TransactionId, RemoteEntity;
  }

  /** The message can be told in a trace: nothing that is written of it holds a `<`,
      and it holds no end of its section. */
  ghost predicate CanBeTold(d: Delivery, facts: SipFacts, localHost: string, frameId: string) {
    forall n | Tells(n, d, facts, localHost, frameId) :: Writable(n)
  }

  lemma ToldIsWritable(d: Delivery, facts: SipFacts, localHost: string, frameId: string)
    ensures CanBeTold(d, facts, localHost, frameId) <==> Writable(Kept(NodeOf(d, facts, localHost, frameId)))
  {
    hide Tells, Writable, Kept, NodeOf;
    var n := Kept(NodeOf(d, facts, localHost, frameId));
    NodeTells(d, facts, localHost, frameId);
    forall m | Tells(m, d, facts, localHost, frameId) ensures m == n {
      TellsAll(m, n, d, facts, localHost, frameId);
    }
  }

  lemma {:induction false} KeptAt(nodes: seq<Node>)
    ensures |AllKept(nodes)| == |nodes| && forall i | 0 <= i < |nodes| :: AllKept(nodes)[i] == Kept(nodes[i])
  {
    hide Kept;
    if nodes != [] {
      KeptAt(nodes[1..]);
    }
  }

  /** The trace tells every message. */
  ghost predicate TellsEach(read: Option<seq<Node>>, ds: seq<Delivery>, parse: string -> SipFacts,
          localHost: string, frameId: string)
  {
    && read.Some? && |read.value| == |ds|
    && forall i | 0 <= i < |ds| :: Tells(read.value[i], ds[i], parse(ds[i].message), localHost, frameId)
  }

  /** The trace of any messages, read back, tells each of them, in order, if and only if
      each can be told. */
  lemma TraceTellsMessages(ds: seq<Delivery>, parse: string -> SipFacts, localHost: string, frameId: string)
    ensures TellsEach(ReadDocument(TraceText(ds, parse, localHost, frameId)), ds, parse, localHost, frameId) <==>
            forall d | d in ds :: CanBeTold(d, parse(d.message), localHost, frameId)
  {
    var nodes := NodesOf(ds, parse, localHost, frameId);
    var kept := AllKept(nodes);
    KeptAt(nodes);
    hide AllKept, NodeOf, Kept, Tells, CanBeTold, ReadDocument, Render, DocumentLines, Writable;
    forall i | 0 <= i < |ds|
      ensures Tells(kept[i], ds[i], parse(ds[i].message), localHost, frameId)
      ensures CanBeTold(ds[i], parse(ds[i].message), localHost, frameId) <==> Writable(kept[i])
    {
      NodeTells(ds[i], parse(ds[i].message), localHost, frameId);
      ToldIsWritable(ds[i], parse(ds[i].message), localHost, frameId);
    }
    hide NodesOf;
    DocumentRoundTrip(nodes);
    var read := ReadDocument(Render(DocumentLines(nodes)));
    if TellsEach(read, ds, parse, localHost, frameId) {
      forall i | 0 <= i < |ds| ensures read.value[i] == kept[i] {
        TellsAll(read.value[i], kept[i], ds[i], parse(ds[i].message), localHost, frameId);
      }
      assert read.value == kept;
    }
    assert AllWritable(kept) <==> forall i | 0 <= i < |ds| :: Writable(kept[i]);
  }

  /** For a well-formed log that is read without cutting a trailer: the converter's
      document tells of every record that is not marked as parsed, in order, from where
      to where it went and what the SIP parser says of it, if and only if each of them
      can be told. */
  lemma TraceGivesBackTheLog(log: Log, chunks: seq<string>, parse: string -> SipFacts)
    requires log.WellFormed() && '\0' !in log.Text() && "" !in chunks && Joined(chunks) == log.Text()
    requires forall i | 0 <= i <= |chunks| :: !EndsInTrailer(log, chunks, i)
    ensures Convert("", chunks).Waiting?
    ensures var text := TraceText(Convert("", chunks).out, parse, "phone-localhost", "");
            TellsEach(ReadDocument(text), log.Deliveries(), parse, "phone-localhost", "") <==>
            forall d | d in log.Deliveries() :: CanBeTold(d, parse(d.message), "phone-localhost", "")
  {
    hide *;
    StreamingEqualsBatch(log, chunks);
    TraceTellsMessages(log.Deliveries(), parse, "phone-localhost", "");
  }
}
