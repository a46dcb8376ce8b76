/** The nodes of a trace document: how they are written, line by line, and how a
    reader of the XML gets them back. */
module TraceDocument {
  import opened Options
  import opened TraceXml
  import opened UtlStrings

  datatype Node = Node(
    branchIds: seq<string>, time: string, source: string, destination: string,
    sourceAddress: string, destinationAddress: string, transactionId: string,
    sipMethod: string, responseCode: string, responseText: string, frameId: string, message: string)

  // ----- Writing -------------------------------------------------------------

  function Render(lines: seq<Line>): string {
    if lines == [] then "" else lines[0].Text() + Render(lines[1..])
  }

  function Field(name: string, value: string): seq<Line> {
    [Element(2, name, Trimmed(value))]
  }

  function Optional(name: string, value: string): seq<Line> {
    if Trimmed(value) == "" then [] else Field(name, value)
  }

  function BranchLines(ids: seq<string>): seq<Line> {
    if ids == [] then [] else [Element(3, "branchId", Trimmed(ids[0]))] + BranchLines(ids[1..])
  }

  /** A request has its method, a response its code and its text. */
  function KindLines(n: Node, later: seq<Line>): seq<Line> {
    if Trimmed(n.sipMethod) != "" then Field("method", n.sipMethod) + later
    else Field("responseCode", n.responseCode) + (Field("responseText", n.responseText) + later)
  }

  function AddressLines(n: Node, later: seq<Line>): seq<Line> {
    Field("time", n.time) + (Optional("source", n.source) + (Optional("destination", n.destination) +
    (Field("sourceAddress", n.sourceAddress) + (Field("destinationAddress", n.destinationAddress) + later))))
  }

  function DataLines(n: Node, later: seq<Line>): seq<Line> {
    AddressLines(n, Field("transactionId", n.transactionId) +
    KindLines(n, Field("frameId", n.frameId) + ([Message(n.message)] + later)))
  }

  function NodeLines(n: Node, later: seq<Line>): seq<Line> {
    [Mark(1, "branchNode")] + ([Mark(2, "branchIdSet")] + (BranchLines(n.branchIds) +
    ([Mark(2, "/branchIdSet")] + DataLines(n, [Mark(1, "/branchNode")] + later))))
  }

  function AllLines(nodes: seq<Node>, later: seq<Line>): seq<Line> {
    if nodes == [] then later else NodeLines(nodes[0], AllLines(nodes[1..], later))
  }

  const DECLARATION := "?xml version=\"1.0\"" + " encoding=\"UTF-8\"" + " standalone=\"yes\"?"

  function DocumentLines(nodes: seq<Node>): seq<Line> {
    [Mark(0, DECLARATION)] + ([Mark(0, "sipTrace")] + AllLines(nodes, [Mark(0, "/sipTrace")]))
  }

  // ----- Reading -------------------------------------------------------------

  function Tokens(lines: seq<Line>): seq<Token> {
    if lines == [] then [] else lines[0].Tokens() + Tokens(lines[1..])
  }

  function TakeTag(ts: seq<Token>, name: string): (r: Option<seq<Token>>)
    ensures r.Some? ==> |r.value| < |ts|
  {
    if ts != [] && ts[0] == Tag(name) then Some(ts[1..]) else None
  }

  function TakeField(ts: seq<Token>, name: string): (r: Option<(string, seq<Token>)>)
    ensures r.Some? ==> |r.value.1| < |ts|
  {
    if |ts| >= 2 && ts[0] == Tag(name) && ts[1] == Tag("/" + name) then Some(("", ts[2..]))
    else if |ts| >= 3 && ts[0] == Tag(name) && ts[1].Text? && ts[2] == Tag("/" + name) then
      Some((ts[1].text, ts[3..]))
    else None
  }

  function TakeOptional(ts: seq<Token>, name: string): (r: Option<(string, seq<Token>)>)
    ensures r.Some? ==> |r.value.1| <= |ts|
  {
    if ts != [] && ts[0] == Tag(name) then TakeField(ts, name) else Some(("", ts))
  }

  function TakeBranchIds(ts: seq<Token>): (r: Option<(seq<string>, seq<Token>)>)
    ensures r.Some? ==> |r.value.1| <= |ts|
    decreases |ts|
  {
    if ts == [] || ts[0] != Tag("branchId") then Some(([], ts)) else
    var (id, later) :- TakeField(ts, "branchId");
    var (ids, rest) :- TakeBranchIds(later);
    Some(([id] + ids, rest))
  }

  function TakeMessage(ts: seq<Token>): (r: Option<(string, seq<Token>)>)
    ensures r.Some? ==> |r.value.1| < |ts|
  {
    if |ts| >= 3 && ts[0] == Tag("message") && ts[1].CData? && ts[2] == Tag("/message") then
      Some((ts[1].body, ts[3..]))
    else None
  }

  function TakeData(ids: seq<string>, ts: seq<Token>): (r: Option<(Node, seq<Token>)>)
    ensures r.Some? ==> |r.value.1| < |ts|
  {
    var (time, t1) :- TakeField(ts, "time");
    var (source, t2) :- TakeOptional(t1, "source");
    var (destination, t3) :- TakeOptional(t2, "destination");
    var (sourceAddress, t4) :- TakeField(t3, "sourceAddress");
    var (destinationAddress, t5) :- TakeField(t4, "destinationAddress");
    var (transactionId, t6) :- TakeField(t5, "transactionId");
    var (sipMethod, t7) :- TakeOptional(t6, "method");
    var (responseCode, t8) :- TakeOptional(t7, "responseCode");
    var (responseText, t9) :- TakeOptional(t8, "responseText");
    var (frameId, t10) :- TakeField(t9, "frameId");
    var (message, t11) :- TakeMessage(t10);
    Some((Node(ids, time, source, destination, sourceAddress, destinationAddress, transactionId,
               sipMethod, responseCode, responseText, frameId, message), t11))
  }

  function TakeNode(ts: seq<Token>): (r: Option<(Node, seq<Token>)>)
    ensures r.Some? ==> |r.value.1| < |ts|
  {
    var t1 :- TakeTag(ts, "branchNode");
    var t2 :- TakeTag(t1, "branchIdSet");
    var (ids, t3) :- TakeBranchIds(t2);
    var t4 :- TakeTag(t3, "/branchIdSet");
    var (node, t5) :- TakeData(ids, t4);
    var t6 :- TakeTag(t5, "/branchNode");
    Some((node, t6))
  }

  function TakeNodes(ts: seq<Token>): Option<seq<Node>>
    decreases |ts|
  {
    if ts == [Tag("/sipTrace")] then Some([]) else
    var (node, later) :- TakeNode(ts);
    var nodes :- TakeNodes(later);
    Some([node] + nodes)
  }

  function ReadDocument(text: string): Option<seq<Node>> {
    var t1 :- TakeTag(ReadXml(text), DECLARATION);
    var t2 :- TakeTag(t1, "sipTrace");
    TakeNodes(t2)
  }

  // ----- The round trip ------------------------------------------------------

  /** No field holds a `<`, and no body the end of its CDATA section. */
  ghost predicate Writable(n: Node) {
    && (forall id | id in n.branchIds :: '<' !in id)
    && '<' !in n.time && '<' !in n.source && '<' !in n.destination
    && '<' !in n.sourceAddress && '<' !in n.destinationAddress && '<' !in n.transactionId
    && '<' !in n.sipMethod && '<' !in n.responseCode && '<' !in n.responseText && '<' !in n.frameId
    && Free(n.message, "]]>")
  }

  ghost predicate AllWritable(nodes: seq<Node>) {
    forall n | n in nodes :: Writable(n)
  }

  function AllTrimmed(ids: seq<string>): seq<string> {
    if ids == [] then [] else [Trimmed(ids[0])] + AllTrimmed(ids[1..])
  }

  /** What is left of a node: fields without surrounding spaces, the message as it
      was, and the response pair only when there is no method. */
  function Kept(n: Node): Node {
    var isRequest := Trimmed(n.sipMethod) != "";
    Node(AllTrimmed(n.branchIds), Trimmed(n.time), Trimmed(n.source), Trimmed(n.destination),
         Trimmed(n.sourceAddress), Trimmed(n.destinationAddress), Trimmed(n.transactionId),
         Trimmed(n.sipMethod), if isRequest then "" else Trimmed(n.responseCode),
         if isRequest then "" else Trimmed(n.responseText), Trimmed(n.frameId), n.message)
  }

  function AllKept(nodes: seq<Node>): seq<Node> {
    if nodes == [] then [] else [Kept(nodes[0])] + AllKept(nodes[1..])
  }

  ghost predicate AllLegal(lines: seq<Line>) {
    forall l | l in lines :: l.Legal()
  }

  lemma {:induction false} RenderBoth(a: seq<Line>, b: seq<Line>)
    ensures Render(a + b) == Render(a) + Render(b)
    decreases |a|
  {
    if a == [] {
      assert a + b == b;
    } else {
      assert (a + b)[1..] == a[1..] + b;
      RenderBoth(a[1..], b);
      assert a[0].Text() + (Render(a[1..]) + Render(b)) == Render(a) + Render(b);
    }
  }

  lemma {:induction false} TokensOfBoth(a: seq<Line>, b: seq<Line>)
    ensures Tokens(a + b) == Tokens(a) + Tokens(b)
    decreases |a|
  {
    if a == [] {
      assert a + b == b;
    } else {
      assert (a + b)[1..] == a[1..] + b;
      TokensOfBoth(a[1..], b);
      assert a[0].Tokens() + (Tokens(a[1..]) + Tokens(b)) == Tokens(a) + Tokens(b);
    }
  }

  /** The reader sees the tokens of the lines, in order, and nothing else. */
  lemma {:induction false} ReadLines(lines: seq<Line>)
    requires AllLegal(lines)
    ensures ReadXml(Render(lines)) == Tokens(lines)
    decreases |lines|
  {
    if lines != [] {
      assert lines[0] in lines;
      forall l | l in lines[1..] ensures l.Legal() {}
      ReadLine(lines[0], Render(lines[1..]));
      ReadLines(lines[1..]);
    }
  }

  ghost predicate Starts(ts: seq<Token>, name: string) {
    ts != [] && ts[0] == Tag(name)
  }

  lemma MarkFirst(indent: nat, name: string, later: seq<Line>)
    ensures TakeTag(Tokens([Mark(indent, name)] + later), name) == Some(Tokens(later))
    ensures Starts(Tokens([Mark(indent, name)] + later), name)
  {
    assert ([Mark(indent, name)] + later)[1..] == later;
  }

  lemma FieldFirst(name: string, value: string, later: seq<Line>)
    ensures TakeField(Tokens(Field(name, value) + later), name) == Some((Trimmed(value), Tokens(later)))
    ensures Starts(Tokens(Field(name, value) + later), name)
  {
    ElementFirst(2, name, Trimmed(value), later);
  }

  lemma ElementFirst(indent: nat, name: string, value: string, later: seq<Line>)
    ensures TakeField(Tokens([Element(indent, name, value)] + later), name) == Some((value, Tokens(later)))
    ensures Starts(Tokens([Element(indent, name, value)] + later), name)
  {
    var l := Element(indent, name, value);
    assert ([l] + later)[1..] == later;
    var ts := Tokens([l] + later);
    assert ts == l.Tokens() + Tokens(later);
    assert ts[|l.Tokens()|..] == Tokens(later);
  }

  lemma OptionalFirst(name: string, value: string, later: seq<Line>)
    requires !Starts(Tokens(later), name)
    ensures var ts := Tokens(Optional(name, value) + later);
            && TakeOptional(ts, name) == Some((Trimmed(value), Tokens(later)))
            && (Starts(ts, name) || ts == Tokens(later))
  {
    hide TakeField, Tokens;
    if Trimmed(value) == "" {
      assert Optional(name, value) + later == later;
    } else {
      FieldFirst(name, value, later);
    }
  }

  lemma MessageFirst(body: string, later: seq<Line>)
    ensures TakeMessage(Tokens([Message(body)] + later)) == Some((body, Tokens(later)))
  {
    var l := Message(body);
    assert ([l] + later)[1..] == later;
    assert Tokens([l] + later)[3..] == Tokens(later);
  }

  lemma {:induction false} BranchIdsFirst(ids: seq<string>, later: seq<Line>)
    requires !Starts(Tokens(later), "branchId")
    ensures TakeBranchIds(Tokens(BranchLines(ids) + later)) == Some((AllTrimmed(ids), Tokens(later)))
    decreases |ids|
  {
    hide TakeField, Tokens;
    if ids == [] {
      assert BranchLines(ids) + later == later;
    } else {
      var rest := BranchLines(ids[1..]) + later;
      assert BranchLines(ids) + later == [Element(3, "branchId", Trimmed(ids[0]))] + rest;
      ElementFirst(3, "branchId", Trimmed(ids[0]), rest);
      BranchIdsFirst(ids[1..], later);
    }
  }

  lemma NamesDiffer()
    ensures "source" != "destination" && "source" != "sourceAddress" && "destination" != "sourceAddress"
    ensures "method" != "responseCode" && "responseCode" != "frameId" && "responseText" != "frameId"
    ensures "branchId" != "/branchIdSet" && "branchNode" != "/sipTrace"
  {
    assert "branchNode"[0] == 'b';
    assert "branchId"[0] == 'b';
    assert "responseText"[0] == 'r';
    assert "source"[0] == 's' && "destination"[0] == 'd';
    assert |"method"| == 6 && |"responseCode"| == 12 && |"frameId"| == 7 && |"sourceAddress"| == 13;
  }

  lemma KindFirst(n: Node, later: seq<Line>)
    requires !Starts(Tokens(later), "responseCode") && !Starts(Tokens(later), "responseText")
    requires !Starts(Tokens(later), "method")
    ensures var t1 := TakeOptional(Tokens(KindLines(n, later)), "method");
            && t1.Some? && t1.value.0 == Kept(n).sipMethod
            && var t2 := TakeOptional(t1.value.1, "responseCode");
            && t2.Some? && t2.value.0 == Kept(n).responseCode
            && var t3 := TakeOptional(t2.value.1, "responseText");
            && t3 == Some((Kept(n).responseText, Tokens(later)))
  {
    hide TakeField, Tokens, Field;
    NamesDiffer();
    if Trimmed(n.sipMethod) != "" {
      FieldFirst("method", n.sipMethod, later);
    } else {
      FieldFirst("responseCode", n.responseCode, Field("responseText", n.responseText) + later);
      FieldFirst("responseText", n.responseText, later);
    }
  }

  lemma DataFirst(n: Node, ids: seq<string>, later: seq<Line>)
    ensures TakeData(ids, Tokens(DataLines(n, later))) == Some((Kept(n).(branchIds := ids), Tokens(later)))
  {
    hide TakeField, TakeMessage, TakeOptional, Tokens, Field, Optional, Trimmed, KindLines;
    var l10 := [Message(n.message)] + later;
    var l9 := Field("frameId", n.frameId) + l10;
    var l7 := KindLines(n, l9);
    var l6 := Field("transactionId", n.transactionId) + l7;
    var l5 := Field("destinationAddress", n.destinationAddress) + l6;
    var l4 := Field("sourceAddress", n.sourceAddress) + l5;
    var l3 := Optional("destination", n.destination) + l4;
    var l2 := Optional("source", n.source) + l3;
    NamesDiffer();
    FieldFirst("time", n.time, l2);
    FieldFirst("sourceAddress", n.sourceAddress, l5);
    OptionalFirst("destination", n.destination, l4);
    OptionalFirst("source", n.source, l3);
    FieldFirst("destinationAddress", n.destinationAddress, l6);
    FieldFirst("transactionId", n.transactionId, l7);
    FieldFirst("frameId", n.frameId, l10);
    KindFirst(n, l9);
    MessageFirst(n.message, later);
  }

  lemma NodeFirst(n: Node, later: seq<Line>)
    ensures TakeNode(Tokens(NodeLines(n, later))) == Some((Kept(n), Tokens(later)))
    ensures Starts(Tokens(NodeLines(n, later)), "branchNode")
  {
    hide TakeTag, Tokens, TakeBranchIds, TakeData, DataLines, Kept;
    NamesDiffer();
    var l4 := [Mark(1, "/branchNode")] + later;
    var l3 := [Mark(2, "/branchIdSet")] + DataLines(n, l4);
    var l2 := BranchLines(n.branchIds) + l3;
    MarkFirst(1, "branchNode", [Mark(2, "branchIdSet")] + l2);
    MarkFirst(2, "branchIdSet", l2);
    MarkFirst(2, "/branchIdSet", DataLines(n, l4));
    BranchIdsFirst(n.branchIds, l3);
    DataFirst(n, AllTrimmed(n.branchIds), l4);
    MarkFirst(1, "/branchNode", later);
    KeptBranchIds(n);
  }

  lemma KeptBranchIds(n: Node)
    ensures Kept(n).(branchIds := AllTrimmed(n.branchIds)) == Kept(n)
  {
  }

  lemma {:induction false} NodesFirst(nodes: seq<Node>)
    ensures TakeNodes(Tokens(AllLines(nodes, [Mark(0, "/sipTrace")]))) == Some(AllKept(nodes))
    decreases |nodes|
  {
    var end := [Mark(0, "/sipTrace")];
    if nodes == [] {
      assert Tokens(end) == [Tag("/sipTrace")];
    } else {
      hide TakeNode, Tokens, NodeLines, Kept;
      NamesDiffer();
      NodeFirst(nodes[0], AllLines(nodes[1..], end));
      NodesFirst(nodes[1..]);
    }
  }

  // ----- Which lines are legal -----------------------------------------------

  lemma DataNames()
    ensures IsName("time") && IsName("source") && IsName("destination")
    ensures IsName("sourceAddress") && IsName("destinationAddress") && IsName("transactionId")
  {
  }

  lemma KindNames()
    ensures IsName("method") && IsName("responseCode") && IsName("responseText") && IsName("frameId")
  {
  }

  lemma MarkNames()
    ensures IsName("sipTrace") && IsName("/sipTrace") && IsName("branchNode") && IsName("/branchNode")
    ensures IsName("branchIdSet") && IsName("/branchIdSet") && IsName("branchId")
  {
  }

  lemma ElementIsLegal(indent: nat, name: string, value: string, later: seq<Line>)
    requires IsName(name) && '<' !in Trimmed(value) && AllLegal(later)
    ensures AllLegal([Element(indent, name, Trimmed(value))] + later)
  {
    TrimmedIsTrimmed(value);
    hide Trimmed, IsTrimmed, IsName;
    assert Element(indent, name, Trimmed(value)).Legal();
    hide Line.Legal;
  }

  lemma FieldIsLegal(name: string, value: string, later: seq<Line>)
    requires IsName(name) && '<' !in Trimmed(value) && AllLegal(later)
    ensures AllLegal(Field(name, value) + later) && AllLegal(Optional(name, value) + later)
  {
    hide Trimmed, AllLegal, IsName;
    ElementIsLegal(2, name, value, later);
    assert [] + later == later;
  }

  lemma MessageIsLegal(body: string, later: seq<Line>)
    requires Free(body, "]]>") && AllLegal(later)
    ensures AllLegal([Message(body)] + later)
  {
    assert Message(body).Legal();
    hide Free, Line.Legal;
  }

  lemma MarkIsLegal(indent: nat, name: string, later: seq<Line>)
    requires IsName(name) && AllLegal(later)
    ensures AllLegal([Mark(indent, name)] + later)
  {
    hide IsName;
  }

  lemma {:induction false} BranchLinesAreLegal(ids: seq<string>, later: seq<Line>)
    requires (forall id | id in AllTrimmed(ids) :: '<' !in id) && AllLegal(later)
    ensures AllLegal(BranchLines(ids) + later)
    decreases |ids|
  {
    hide Trimmed, AllLegal;
    if ids == [] {
      assert BranchLines(ids) + later == later;
    } else {
      assert AllTrimmed(ids)[0] == Trimmed(ids[0]);
      assert forall id | id in AllTrimmed(ids[1..]) :: id in AllTrimmed(ids);
      MarkNames();
      hide IsName;
      BranchLinesAreLegal(ids[1..], later);
      ElementIsLegal(3, "branchId", ids[0], BranchLines(ids[1..]) + later);
      hide AllTrimmed;
      assert BranchLines(ids) + later == [Element(3, "branchId", Trimmed(ids[0]))] + (BranchLines(ids[1..]) + later);
    }
  }

  lemma KindLinesAreLegal(n: Node, later: seq<Line>)
    requires Writable(Kept(n)) && AllLegal(later)
    ensures AllLegal(KindLines(n, later))
  {
    KindNames();
    hide Trimmed, Field, AllLegal, IsName, Free;
    if Trimmed(n.sipMethod) != "" {
      FieldIsLegal("method", n.sipMethod, later);
    } else {
      FieldIsLegal("responseText", n.responseText, later);
      FieldIsLegal("responseCode", n.responseCode, Field("responseText", n.responseText) + later);
    }
  }

  lemma AddressLinesAreLegal(n: Node, later: seq<Line>)
    requires Writable(Kept(n)) && AllLegal(later)
    ensures AllLegal(AddressLines(n, later))
  {
    DataNames();
    hide Field, Optional, AllLegal, IsName, Trimmed, Free;
    var l4 := Field("destinationAddress", n.destinationAddress) + later;
    var l3 := Field("sourceAddress", n.sourceAddress) + l4;
    var l2 := Optional("destination", n.destination) + l3;
    FieldIsLegal("destinationAddress", n.destinationAddress, later);
    FieldIsLegal("sourceAddress", n.sourceAddress, l4);
    FieldIsLegal("destination", n.destination, l3);
    FieldIsLegal("source", n.source, l2);
    FieldIsLegal("time", n.time, Optional("source", n.source) + l2);
  }

  lemma NodeLinesAreLegal(n: Node, later: seq<Line>)
    requires Writable(Kept(n)) && AllLegal(later)
    ensures AllLegal(NodeLines(n, later))
  {
    var l1 := [Mark(1, "/branchNode")] + later;
    var l2 := [Message(n.message)] + l1;
    MarkNames();
    KindNames();
    DataNames();
    hide Field, KindLines, AddressLines, AllLegal, BranchLines, IsName, Trimmed, Free;
    MarkIsLegal(1, "/branchNode", later);
    MessageIsLegal(n.message, l1);
    FieldIsLegal("frameId", n.frameId, l2);
    var l3 := Field("frameId", n.frameId) + l2;
    KindLinesAreLegal(n, l3);
    FieldIsLegal("transactionId", n.transactionId, KindLines(n, l3));
    AddressLinesAreLegal(n, Field("transactionId", n.transactionId) + KindLines(n, l3));
    var l5 := [Mark(2, "/branchIdSet")] + DataLines(n, l1);
    MarkIsLegal(2, "/branchIdSet", DataLines(n, l1));
    BranchLinesAreLegal(n.branchIds, l5);
    MarkIsLegal(2, "branchIdSet", BranchLines(n.branchIds) + l5);
    MarkIsLegal(1, "branchNode", [Mark(2, "branchIdSet")] + (BranchLines(n.branchIds) + l5));
  }

  lemma {:induction false} AllLinesAreLegal(nodes: seq<Node>, later: seq<Line>)
    requires AllWritable(AllKept(nodes)) && AllLegal(later)
    ensures AllLegal(AllLines(nodes, later))
    decreases |nodes|
  {
    hide Kept, Writable, NodeLines;
    if nodes != [] {
      assert AllKept(nodes)[0] == Kept(nodes[0]) && AllKept(nodes)[1..] == AllKept(nodes[1..]);
      AllLinesAreLegal(nodes[1..], later);
      NodeLinesAreLegal(nodes[0], AllLines(nodes[1..], later));
    }
  }

  lemma DeclarationIsName()
    ensures IsName(DECLARATION)
  {
    assert DECLARATION[0] == "?xml version=\"1.0\""[0];
  }

  lemma DocumentIsRead(nodes: seq<Node>)
    requires AllWritable(AllKept(nodes))
    ensures ReadXml(Render(DocumentLines(nodes))) == Tokens(DocumentLines(nodes))
  {
    DeclarationIsName();
    MarkNames();
    var end := [Mark(0, "/sipTrace")];
    assert AllLegal([]) && end == end + [];
    hide *;
    MarkIsLegal(0, "/sipTrace", []);
    AllLinesAreLegal(nodes, end);
    MarkIsLegal(0, "sipTrace", AllLines(nodes, end));
    MarkIsLegal(0, DECLARATION, [Mark(0, "sipTrace")] + AllLines(nodes, end));
    DocumentLinesAre(nodes);
    ReadLines(DocumentLines(nodes));
  }

  lemma DocumentLinesAre(nodes: seq<Node>)
    ensures DocumentLines(nodes) ==
            [Mark(0, DECLARATION)] + ([Mark(0, "sipTrace")] + AllLines(nodes, [Mark(0, "/sipTrace")]))
  {
  }

  lemma WritableIsReadBack(nodes: seq<Node>)
    requires AllWritable(AllKept(nodes))
    ensures ReadDocument(Render(DocumentLines(nodes))) == Some(AllKept(nodes))
  {
    hide ReadXml, Tokens, AllLines, Render, TakeTag, AllWritable;
    var body := AllLines(nodes, [Mark(0, "/sipTrace")]);
    DocumentIsRead(nodes);
    MarkFirst(0, DECLARATION, [Mark(0, "sipTrace")] + body);
    MarkFirst(0, "sipTrace", body);
    NodesFirst(nodes);
  }

  // ----- What no document gives back -----------------------------------------

  ghost predicate AllSeen(ts: seq<Token>) {
    forall t | t in ts :: IsSeen(t)
  }

  lemma FieldIsSeen(ts: seq<Token>, name: string)
    requires AllSeen(ts)
    ensures var r := TakeField(ts, name); r.Some? ==> '<' !in r.value.0 && AllSeen(r.value.1)
    ensures var r := TakeOptional(ts, name); r.Some? ==> '<' !in r.value.0 && AllSeen(r.value.1)
  {
    assert |ts| >= 2 ==> IsSeen(ts[1]);
  }

  lemma MessageIsSeen(ts: seq<Token>)
    requires AllSeen(ts)
    ensures var r := TakeMessage(ts); r.Some? ==> Free(r.value.0, "]]>") && AllSeen(r.value.1)
  {
    assert |ts| >= 2 ==> IsSeen(ts[1]);
    hide IsSeen;
    hide OccursAt;
  }

  lemma {:induction false} BranchIdsAreSeen(ts: seq<Token>)
    requires AllSeen(ts)
    ensures var r := TakeBranchIds(ts);
            r.Some? ==> (forall id | id in r.value.0 :: '<' !in id) && AllSeen(r.value.1)
    decreases |ts|
  {
    hide TakeField, AllSeen;
    FieldIsSeen(ts, "branchId");
    if ts != [] && ts[0] == Tag("branchId") && TakeField(ts, "branchId").Some? {
      BranchIdsAreSeen(TakeField(ts, "branchId").value.1);
    }
  }

  lemma DataIsSeen(ids: seq<string>, ts: seq<Token>)
    requires AllSeen(ts) && forall id | id in ids :: '<' !in id
    ensures var r := TakeData(ids, ts); r.Some? ==> Writable(r.value.0) && AllSeen(r.value.1)
  {
    hide TakeField, TakeOptional, TakeMessage, AllSeen, Free;
    if TakeData(ids, ts).Some? {
      var t1 := Next(ts, TakeField(ts, "time"), "time");
      var t2 := Next(t1, TakeOptional(t1, "source"), "source");
      var t3 := Next(t2, TakeOptional(t2, "destination"), "destination");
      var t4 := Next(t3, TakeField(t3, "sourceAddress"), "sourceAddress");
      var t5 := Next(t4, TakeField(t4, "destinationAddress"), "destinationAddress");
      var t6 := Next(t5, TakeField(t5, "transactionId"), "transactionId");
      var t7 := Next(t6, TakeOptional(t6, "method"), "method");
      var t8 := Next(t7, TakeOptional(t7, "responseCode"), "responseCode");
      var t9 := Next(t8, TakeOptional(t8, "responseText"), "responseText");
      var t10 := Next(t9, TakeField(t9, "frameId"), "frameId");
      MessageIsSeen(t10);
    }
  }

  /** One field further. */
  lemma Next(ts: seq<Token>, r: Option<(string, seq<Token>)>, name: string) returns (later: seq<Token>)
    requires AllSeen(ts) && r.Some? && (r == TakeField(ts, name) || r == TakeOptional(ts, name))
    ensures later == r.value.1 && AllSeen(later) && '<' !in r.value.0
  {
    hide TakeField, TakeOptional;
    FieldIsSeen(ts, name);
    later := r.value.1;
  }

  lemma TagIsSeen(ts: seq<Token>, name: string)
    requires AllSeen(ts)
    ensures var r := TakeTag(ts, name); r.Some? ==> AllSeen(r.value)
  {
    hide IsSeen;
  }

  lemma NodeIsSeen(ts: seq<Token>)
    requires AllSeen(ts)
    ensures var r := TakeNode(ts); r.Some? ==> Writable(r.value.0) && AllSeen(r.value.1)
  {
    hide TakeTag, TakeBranchIds, TakeData, AllSeen, Writable;
    if TakeNode(ts).Some? {
      TagIsSeen(ts, "branchNode");
      var t1 := TakeTag(ts, "branchNode").value;
      TagIsSeen(t1, "branchIdSet");
      var t2 := TakeTag(t1, "branchIdSet").value;
      BranchIdsAreSeen(t2);
      var ids, t3 := TakeBranchIds(t2).value.0, TakeBranchIds(t2).value.1;
      TagIsSeen(t3, "/branchIdSet");
      var t4 := TakeTag(t3, "/branchIdSet").value;
      DataIsSeen(ids, t4);
      TagIsSeen(TakeData(ids, t4).value.1, "/branchNode");
    }
  }

  lemma {:induction false} NodesAreSeen(ts: seq<Token>)
    requires AllSeen(ts)
    ensures TakeNodes(ts).Some? ==> AllWritable(TakeNodes(ts).value)
    decreases |ts|
  {
    hide TakeNode, AllSeen, Writable;
    if TakeNodes(ts).Some? && ts != [Tag("/sipTrace")] {
      NodeIsSeen(ts);
      NodesAreSeen(TakeNode(ts).value.1);
    }
  }

  /** Whatever document the reader accepts, the nodes it finds could be written. */
  lemma ReadIsWritable(text: string)
    ensures ReadDocument(text).Some? ==> AllWritable(ReadDocument(text).value)
  {
    hide ReadXml, TakeTag, TakeNodes, AllWritable, IsSeen;
    TokensAreSeen(text);
    if ReadDocument(text).Some? {
      TagIsSeen(ReadXml(text), DECLARATION);
      var t1 := TakeTag(ReadXml(text), DECLARATION).value;
      TagIsSeen(t1, "sipTrace");
      NodesAreSeen(TakeTag(t1, "sipTrace").value);
    }
  }

  /** The trace document gives back every list of nodes, in order, trimmed, with
      every message as it was, if and only if no field that is written holds a `<`
      and no message the end of its section. */
  lemma DocumentRoundTrip(nodes: seq<Node>)
    ensures ReadDocument(Render(DocumentLines(nodes))) == Some(AllKept(nodes)) <==> AllWritable(AllKept(nodes))
  {
    hide *;
    ReadIsWritable(Render(DocumentLines(nodes)));
    if AllWritable(AllKept(nodes)) {
      WritableIsReadBack(nodes);
    }
  }

  /** A `<` in a transaction id, which a Call-ID may bring along (`word` in section
      25.1 of RFC 3261), is enough to lose the document. */
  lemma MarkupExample(n: Node)
    requires n.transactionId == "1,<a>,b,c"
    ensures ReadDocument(Render(DocumentLines([n]))) != Some(AllKept([n]))
  {
    assert Trimmed(n.transactionId) == n.transactionId && n.transactionId[2] == '<' by {
      TrimmedIsTrimmed(n.transactionId);
    }
    hide Trimmed, ReadDocument, Render, DocumentLines;
    assert AllKept([n])[0] == Kept(n);
    assert !Writable(Kept(n));
    DocumentRoundTrip([n]);
  }
}
