/** The writer of `siplog2siptrace`: what a delivered message becomes in the trace
    document, and the transaction id that ties messages together. */
module TraceWriter {
  import opened Decimals
  import opened TraceXml
  import opened TraceDocument
  import opened SipLogParser

  // ----- Transaction ids -----------------------------------------------------

  datatype Transaction = Transaction(cseq: int, callId: string, fromTag: string, toTag: string)

  function TransactionId(t: Transaction): string {
    Decimal(t.cseq) + "," + t.callId + "," + t.fromTag + "," + t.toTag
  }

  lemma SplitsAtComma(a: string, b: string, a': string, b': string)
    requires ',' !in a && ',' !in a' && a + "," + b == a' + "," + b'
    ensures a == a' && b == b'
  {
    FirstOfOne(a, ',', b);
    FirstOfOne(a', ',', b');
    var s := a + "," + b;
    assert s[..|a|] == a && s[|a| + 1..] == b;
    assert s[..|a'|] == a' && s[|a'| + 1..] == b';
  }

  /** Different transactions have different ids, as long as the call id and the
      from tag hold no comma (section 25.1 of RFC 3261 allows them none). */
  lemma TransactionIdIsInjective(t: Transaction, u: Transaction)
    requires ',' !in t.callId && ',' !in t.fromTag && ',' !in u.callId && ',' !in u.fromTag
    ensures TransactionId(t) == TransactionId(u) <==> t == u
  {
    var t2, u2 := t.fromTag + "," + t.toTag, u.fromTag + "," + u.toTag;
    var t1, u1 := t.callId + "," + t2, u.callId + "," + u2;
    assert TransactionId(t) == Decimal(t.cseq) + "," + t1;
    assert TransactionId(u) == Decimal(u.cseq) + "," + u1;
    if TransactionId(t) == TransactionId(u) {
      SplitsAtComma(Decimal(t.cseq), t1, Decimal(u.cseq), u1);
      DecimalIsInjective(t.cseq, u.cseq);
      SplitsAtComma(t.callId, t2, u.callId, u2);
      SplitsAtComma(t.fromTag, t.toTag, u.fromTag, u.toTag);
    }
  }

  /** The condition is needed: a comma in a call id can stand for a separator. */
  lemma CommaMakesIdsCollide()
    ensures TransactionId(Transaction(1, "a,b", "c", "")) == TransactionId(Transaction(1, "a", "b,c", ""))
  {
    assert "a,b" + "," + "c" == "a" + "," + "b,c";
    var d := Decimal(1) + ",";
    assert d + "a,b" + "," + "c" == d + ("a,b" + "," + "c");
    assert d + "a" + "," + "b,c" == d + ("a" + "," + "b,c");
  }

  // ----- From a message to a node --------------------------------------------

  /** What the SIP parser says about a message. */
  datatype SipFacts = SipFacts(
    isResponse: bool, responseCode: string, responseText: string, requestMethod: string,
    viaPort: int, transaction: Transaction, branchIds: seq<string>)

  /** The remote end as an entity: unknown for an incoming response, taken from the
      Via for an incoming request. */
  function RemoteEntity(d: Delivery, facts: SipFacts): string {
    if d.isOutgoing then d.host
    else if facts.isResponse then ""
    else d.host + ":" + Decimal(facts.viaPort)
  }

  function NodeOf(d: Delivery, facts: SipFacts, localHost: string, frameId: string): Node {
    var remote, address := RemoteEntity(d, facts), d.host + ":" + d.port;
    Node(facts.branchIds, "",
         if d.isOutgoing then localHost else remote,
         if d.isOutgoing then remote else localHost,
         if d.isOutgoing then localHost else address,
         if d.isOutgoing then address else localHost,
         TransactionId(facts.transaction),
         if facts.isResponse then "" else facts.requestMethod,
         if facts.isResponse then facts.responseCode else "",
         if facts.isResponse then facts.responseText else "",
         frameId, d.message)
  }

  function NodesOf(ds: seq<Delivery>, parse: string -> SipFacts, localHost: string, frameId: string): seq<Node> {
    seq(|ds|, i requires 0 <= i < |ds| => NodeOf(ds[i], parse(ds[i].message), localHost, frameId))
  }

  /** The text of the trace of these messages. */
  function TraceText(ds: seq<Delivery>, parse: string -> SipFacts, localHost: string, frameId: string): string {
    Render(DocumentLines(NodesOf(ds, parse, localHost, frameId)))
  }

  // ----- Appending to the document -------------------------------------------

  lemma KindLinesJoin(n: Node, later: seq<Line>)
    ensures KindLines(n, later) == KindLines(n, []) + later
  {
  }

  lemma AddressLinesJoin(n: Node, a: seq<Line>, later: seq<Line>)
    ensures AddressLines(n, a + later) == AddressLines(n, a) + later
  {
  }

  lemma DataLinesJoin(n: Node, later: seq<Line>)
    ensures DataLines(n, later) == DataLines(n, []) + later
  {
    var end := Field("frameId", n.frameId) + ([Message(n.message)] + []);
    KindLinesJoin(n, end);
    KindLinesJoin(n, Field("frameId", n.frameId) + ([Message(n.message)] + later));
    hide KindLines, AddressLines, Field, Optional;
    var id := Field("transactionId", n.transactionId);
    AddressLinesJoin(n, id + KindLines(n, end), later);
    assert id + KindLines(n, end) + later
        == id + KindLines(n, Field("frameId", n.frameId) + ([Message(n.message)] + later));
  }

  lemma Regroup(a: seq<Line>, b: seq<Line>, c: seq<Line>)
    ensures a + (b + c) == a + b + c
  {
  }

  lemma NodeIsItsLines(n: Node, later: seq<Line>)
    ensures NodeLines(n, later) ==
            [Mark(1, "branchNode")] + [Mark(2, "branchIdSet")] + BranchLines(n.branchIds) +
            [Mark(2, "/branchIdSet")] + DataLines(n, []) + [Mark(1, "/branchNode")] + later
  {
    var a, b, c := [Mark(1, "branchNode")], [Mark(2, "branchIdSet")], BranchLines(n.branchIds);
    var d, e, f := [Mark(2, "/branchIdSet")], DataLines(n, []), [Mark(1, "/branchNode")];
    DataLinesJoin(n, f + later);
    assert NodeLines(n, later) == a + (b + (c + (d + (e + (f + later)))));
    hide *;
    Regroup(a, b, c + (d + (e + (f + later))));
    Regroup(a + b, c, d + (e + (f + later)));
    Regroup(a + b + c, d, e + (f + later));
    Regroup(a + b + c + d, e, f + later);
    Regroup(a + b + c + d + e, f, later);
  }

  lemma NodeLinesJoin(n: Node, later: seq<Line>)
    ensures NodeLines(n, later) == NodeLines(n, []) + later
  {
    NodeIsItsLines(n, later);
    NodeIsItsLines(n, []);
    hide DataLines, BranchLines, NodeLines;
  }

  lemma {:induction false} AllLinesJoin(nodes: seq<Node>, later: seq<Line>)
    ensures AllLines(nodes, later) == AllLines(nodes, []) + later
    decreases |nodes|
  {
    hide NodeLines;
    if nodes != [] {
      AllLinesJoin(nodes[1..], later);
      NodeLinesJoin(nodes[0], AllLines(nodes[1..], later));
      NodeLinesJoin(nodes[0], AllLines(nodes[1..], []));
    }
  }

  lemma {:induction false} AllLinesGrow(nodes: seq<Node>, n: Node)
    ensures AllLines(nodes + [n], []) == AllLines(nodes, []) + NodeLines(n, [])
    decreases |nodes|
  {
    hide NodeLines;
    if nodes == [] {
      assert (nodes + [n])[1..] == [];
    } else {
      assert (nodes + [n])[1..] == nodes[1..] + [n];
      AllLinesGrow(nodes[1..], n);
      NodeLinesJoin(nodes[0], AllLines(nodes[1..] + [n], []));
      NodeLinesJoin(nodes[0], AllLines(nodes[1..], []));
    }
  }

  /** The lines after the addresses. */
  function DataTail(n: Node): seq<Line> {
    Field("transactionId", n.transactionId) + KindLines(n, Field("frameId", n.frameId) + ([Message(n.message)] + []))
  }

  // ----- The code ------------------------------------------------------------

  method AppendLine(node: string, ghost lines: seq<Line>, l: Line) returns (r: string)
    requires node == Render(lines)
    ensures r == Render(lines + [l])
  {
    r := node + l.Text();
    RenderBoth(lines, [l]);
    hide Line.Text;
    assert l.Text() + "" == l.Text();
    assert Render([l]) == l.Text();
  }

  class Writer {
    var output: string

    constructor ()
      ensures output == ""
    {
      output := "";
    }

    method WriteLine(l: Line)
      modifies this
      ensures output == old(output) + Render([l])
    {
      var text := AppendLine("", [], l);
      output := output + text;
    }

    /** The fields of a node, in the order of the document. */
    method WriteBranchNodeData(n: Node)
      modifies this
      ensures output == old(output) + Render(DataLines(n, []))
    {
      hide Trimmed, DataLines, Render, AddressLines, DataTail;
      var node;
      ghost var lines, tail;
      node, lines := AppendAddresses(n);
      node, tail := AppendTail(n, node, lines);
      AddressLinesJoin(n, [], tail);
      assert [] + tail == tail;
      DataIsAddressesAndTail(n);
      output := output + node;
    }

    static method AppendField(text: string, ghost lines: seq<Line>, name: string, value: string)
      returns (node: string, ghost more: seq<Line>)
      requires text == Render(lines)
      ensures more == lines + Field(name, value) && node == Render(more)
    {
      hide Trimmed, Render;
      var trimmed := FrontBackTrim(value);
      node := AppendLine(text, lines, Element(2, name, trimmed));
      more := lines + [Element(2, name, trimmed)];
    }

    static method AppendOptional(text: string, ghost lines: seq<Line>, name: string, value: string)
      returns (node: string, ghost more: seq<Line>)
      requires text == Render(lines)
      ensures more == lines + Optional(name, value) && node == Render(more)
    {
      hide Trimmed, Render;
      var trimmed := FrontBackTrim(value);
      node, more := text, lines;
      if trimmed != "" {
        node := AppendLine(text, lines, Element(2, name, trimmed));
        more := lines + [Element(2, name, trimmed)];
      }
      assert lines + [] == lines;
    }

    static method AppendTail(n: Node, text: string, ghost addresses: seq<Line>)
      returns (node: string, ghost tail: seq<Line>)
      requires text == Render(addresses)
      ensures tail == DataTail(n) && node == Render(addresses + tail)
    {
      hide Trimmed, Render, Field;
      ghost var lines;
      node, lines := AppendField(text, addresses, "transactionId", n.transactionId);
      var sipMethod := FrontBackTrim(n.sipMethod);
      if sipMethod != "" {
        node, lines := AppendField(node, lines, "method", n.sipMethod);
      } else {
        node, lines := AppendField(node, lines, "responseCode", n.responseCode);
        node, lines := AppendField(node, lines, "responseText", n.responseText);
      }
      node, lines := AppendField(node, lines, "frameId", n.frameId);
      node := AppendLine(node, lines, Message(n.message));
      lines := lines + [Message(n.message)];
      tail := DataTail(n);
      TailInOrder(n, addresses);
    }

    static method AppendAddresses(n: Node) returns (node: string, ghost lines: seq<Line>)
      ensures lines == AddressLines(n, []) && node == Render(lines)
    {
      lines, node := [], "";
      assert Render(lines) == "";
      hide Trimmed, Render, Field, Optional;
      node, lines := AppendField(node, lines, "time", n.time);
      node, lines := AppendOptional(node, lines, "source", n.source);
      node, lines := AppendOptional(node, lines, "destination", n.destination);
      node, lines := AppendField(node, lines, "sourceAddress", n.sourceAddress);
      node, lines := AppendField(node, lines, "destinationAddress", n.destinationAddress);
      AddressesInOrder(n);
    }

    method WriteMessageXml(d: Delivery, facts: SipFacts, localHost: string, frameId: string)
      modifies this
      ensures output == old(output) + Render(NodeLines(NodeOf(d, facts, localHost, frameId), []))
    {
      var address := d.host + ":" + d.port;
      var remote := d.host;
      if facts.isResponse {
        if !d.isOutgoing {
          remote := "";
        }
      } else if !d.isOutgoing {
        remote := d.host + ":" + Decimal(facts.viaPort);
      }
      var n := Node(facts.branchIds, "",
        if d.isOutgoing then localHost else remote, if d.isOutgoing then remote else localHost,
        if d.isOutgoing then localHost else address, if d.isOutgoing then address else localHost,
        TransactionId(facts.transaction),
        if facts.isResponse then "" else facts.requestMethod,
        if facts.isResponse then facts.responseCode else "",
        if facts.isResponse then facts.responseText else "", frameId, d.message);
      assert n == NodeOf(d, facts, localHost, frameId);
      WriteNode(n);
    }

    method WriteNode(n: Node)
      modifies this
      ensures output == old(output) + Render(NodeLines(n, []))
    {
      hide Render, Trimmed, DataLines;
      ghost var start := output;
      WriteLine(Mark(1, "branchNode"));
      WriteLine(Mark(2, "branchIdSet"));
      ghost var head := [Mark(1, "branchNode")] + [Mark(2, "branchIdSet")];
      RenderBoth([Mark(1, "branchNode")], [Mark(2, "branchIdSet")]);
      var viaIndex := 0;
      assert BranchLines(n.branchIds[..0]) == [] && head + [] == head;
      while viaIndex < |n.branchIds|
        invariant viaIndex <= |n.branchIds|
        invariant output == start + Render(head + BranchLines(n.branchIds[..viaIndex]))
      {
        var branchId := FrontBackTrim(n.branchIds[viaIndex]);
        WriteLine(Element(3, "branchId", branchId));
        BranchLinesGrow(n.branchIds, viaIndex);
        ghost var written := BranchLines(n.branchIds[..viaIndex]);
        RenderBoth(head + written, [Element(3, "branchId", branchId)]);
        assert head + (written + [Element(3, "branchId", branchId)])
            == head + written + [Element(3, "branchId", branchId)];
        viaIndex := viaIndex + 1;
      }
      assert n.branchIds[..viaIndex] == n.branchIds;
      WriteLine(Mark(2, "/branchIdSet"));
      WriteBranchNodeData(n);
      WriteLine(Mark(1, "/branchNode"));
      NodeIsItsParts(n);
    }
  }

  lemma AddressesInOrder(n: Node)
    ensures [] + Field("time", n.time) + Optional("source", n.source) + Optional("destination", n.destination)
            + Field("sourceAddress", n.sourceAddress) + Field("destinationAddress", n.destinationAddress)
            == AddressLines(n, [])
  {
    hide Field, Optional;
  }

  lemma TailInOrder(n: Node, a: seq<Line>)
    ensures var id, end := Field("transactionId", n.transactionId), Field("frameId", n.frameId);
            (if Trimmed(n.sipMethod) != "" then
               a + id + Field("method", n.sipMethod) + end + [Message(n.message)]
             else
               a + id + Field("responseCode", n.responseCode) + Field("responseText", n.responseText) + end
               + [Message(n.message)])
            == a + DataTail(n)
  {
    hide Field, Trimmed;
  }

  lemma DataIsAddressesAndTail(n: Node)
    ensures DataLines(n, []) == AddressLines(n, DataTail(n))
  {
  }

  lemma {:induction false} BranchLinesGrow(ids: seq<string>, k: nat)
    requires k < |ids|
    ensures BranchLines(ids[..k + 1]) == BranchLines(ids[..k]) + [Element(3, "branchId", Trimmed(ids[k]))]
    decreases |ids|
  {
    hide Trimmed;
    if k == 0 {
      assert ids[..1] == [ids[0]] && ids[..1][1..] == [];
    } else {
      BranchLinesGrow(ids[1..], k - 1);
      assert ids[..k + 1][1..] == ids[1..][..k] && ids[..k][1..] == ids[1..][..k - 1];
    }
  }

  lemma NodeIsItsParts(n: Node)
    ensures Render(NodeLines(n, [])) ==
            Render([Mark(1, "branchNode")] + [Mark(2, "branchIdSet")] + BranchLines(n.branchIds)) +
            Render([Mark(2, "/branchIdSet")]) + Render(DataLines(n, [])) + Render([Mark(1, "/branchNode")])
  {
    var a, b, c := [Mark(1, "branchNode")], [Mark(2, "branchIdSet")], BranchLines(n.branchIds);
    var d, e, f := [Mark(2, "/branchIdSet")], DataLines(n, []), [Mark(1, "/branchNode")];
    NodeIsItsLines(n, []);
    hide Render, DataLines, NodeLines, BranchLines;
    assert a + b + c + d + e + f + [] == a + b + c + d + e + f;
    RenderBoth(a + b + c, d);
    RenderBoth(a + b + c + d, e);
    RenderBoth(a + b + c + d + e, f);
  }

  /** `main` of the converter, around the messages the reader delivers. */
  method WriteTrace(ds: seq<Delivery>, parse: string -> SipFacts) returns (output: string)
    ensures output == TraceText(ds, parse, "phone-localhost", "")
  {
    hide Render, NodeOf;
    var w := new Writer();
    var localHost, frameId := "phone-localhost", "";
    w.WriteLine(Mark(0, DECLARATION));
    w.WriteLine(Mark(0, "sipTrace"));
    ghost var head := [Mark(0, DECLARATION)] + [Mark(0, "sipTrace")];
    RenderBoth([Mark(0, DECLARATION)], [Mark(0, "sipTrace")]);
    var i := 0;
    assert NodesOf(ds[..0], parse, localHost, frameId) == [] && head + [] == head;
    while i < |ds|
      invariant i <= |ds|
      invariant w.output == Render(head + AllLines(NodesOf(ds[..i], parse, localHost, frameId), []))
    {
      w.WriteMessageXml(ds[i], parse(ds[i].message), localHost, frameId);
      OneMore(head, ds, i, parse, localHost, frameId);
      i := i + 1;
    }
    w.WriteLine(Mark(0, "/sipTrace"));
    output := w.output;
    assert ds[..i] == ds;
    Finished(head, NodesOf(ds, parse, localHost, frameId));
  }

  lemma OneMore(head: seq<Line>, ds: seq<Delivery>, i: nat, parse: string -> SipFacts,
                localHost: string, frameId: string)
    requires i < |ds|
    ensures Render(head + AllLines(NodesOf(ds[..i + 1], parse, localHost, frameId), [])) ==
            Render(head + AllLines(NodesOf(ds[..i], parse, localHost, frameId), [])) +
            Render(NodeLines(NodeOf(ds[i], parse(ds[i].message), localHost, frameId), []))
  {
    var n := NodeOf(ds[i], parse(ds[i].message), localHost, frameId);
    var nodes := NodesOf(ds[..i], parse, localHost, frameId);
    assert NodesOf(ds[..i + 1], parse, localHost, frameId) == nodes + [n];
    hide *;
    AllLinesGrow(nodes, n);
    Regroup(head, AllLines(nodes, []), NodeLines(n, []));
    RenderBoth(head + AllLines(nodes, []), NodeLines(n, []));
  }

  lemma Finished(head: seq<Line>, nodes: seq<Node>)
    requires head == [Mark(0, DECLARATION)] + [Mark(0, "sipTrace")]
    ensures Render(head + AllLines(nodes, [])) + Render([Mark(0, "/sipTrace")]) == Render(DocumentLines(nodes))
  {
    var body, end := AllLines(nodes, []), [Mark(0, "/sipTrace")];
    hide Render, AllLines;
    AllLinesJoin(nodes, end);
    Regroup(head, body, end);
    Regroup([Mark(0, DECLARATION)], [Mark(0, "sipTrace")], body + end);
    RenderBoth(head + body, end);
  }
}
