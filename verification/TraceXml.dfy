/** The trace document both converters write, and a reader of such documents that
    gets every message back. */
module TraceXml {
  import opened UtlStrings

  // ----- Trimming ------------------------------------------------------------

  /** `strchr` also finds the NUL that ends the list of characters to trim. */
  predicate IsSpace(c: char) {
    c == ' ' || c == '\t' || c == '\n' || c == '\r' || c == '\0'
  }

  /** The first position at or after `i` that holds no space. */
  function SkipSpace(s: string, i: nat): (r: nat)
    requires i <= |s|
    ensures i <= r <= |s| && (r < |s| ==> !IsSpace(s[r]))
    ensures forall j | i <= j < r :: IsSpace(s[j])
    decreases |s| - i
  {
    if i < |s| && IsSpace(s[i]) then SkipSpace(s, i + 1) else i
  }

  /** The end of the text before `i` without the spaces at its end. */
  function DropSpace(s: string, i: nat): (r: nat)
    requires i <= |s|
    ensures r <= i && (r > 0 ==> !IsSpace(s[r - 1]))
    ensures forall j | r <= j < i :: IsSpace(s[j])
  {
    if i > 0 && IsSpace(s[i - 1]) then DropSpace(s, i - 1) else i
  }

  function Trimmed(s: string): string {
    var t := s[SkipSpace(s, 0)..];
    t[..DropSpace(t, |t|)]
  }

  /** A trimmed text neither starts nor ends with a space. */
  predicate IsTrimmed(s: string) {
    s != "" ==> !IsSpace(s[0]) && !IsSpace(s[|s| - 1])
  }

  lemma TrimmedIsTrimmed(s: string)
    ensures IsTrimmed(Trimmed(s))
    ensures forall c | c in Trimmed(s) :: c in s
    ensures IsTrimmed(s) ==> Trimmed(s) == s
  {
  }

  /** What trimming takes away is spaces in front and behind, and nothing else. */
  lemma TrimmedIsInside(s: string) returns (front: string, back: string)
    ensures s == front + Trimmed(s) + back
    ensures forall c | c in front + back :: IsSpace(c)
  {
    hide SkipSpace, DropSpace;
    var i := SkipSpace(s, 0);
    var t := s[i..];
    var j := DropSpace(t, |t|);
    front, back := s[..i], t[j..];
    assert t == t[..j] + t[j..] && s == s[..i] + t;
    forall c | c in front + back ensures IsSpace(c) {
      if c in front {
        var k :| 0 <= k < i && front[k] == c;
        assert s[k] == c;
      } else {
        assert c in back;
        var k :| 0 <= k < |back| && back[k] == c;
        assert t[j + k] == c;
      }
    }
  }

  method FrontBackTrim(s: string) returns (t: string)
    ensures t == Trimmed(s) && IsTrimmed(t)
  {
    TrimmedIsTrimmed(s);
    var index := 0;
    while index < |s| && IsSpace(s[index])
      invariant index <= |s| && SkipSpace(s, 0) == SkipSpace(s, index)
    {
      index := index + 1;
    }
    t := s[index..];
    index := 0;
    while index < |t| && IsSpace(t[|t| - index - 1])
      invariant index <= |t| && DropSpace(t, |t|) == DropSpace(t, |t| - index)
    {
      index := index + 1;
    }
    t := t[..|t| - index];
  }

  // ----- Reading XML text ----------------------------------------------------

  const CDATA := "<![CDATA["

  /** What a reader of the document sees; spaces in front of a token do not count. */
  datatype Token = Tag(name: string) | Text(text: string) | CData(body: string)

  function ReadXml(s: string): seq<Token>
    decreases |s|, 1
  {
    ReadToken(s[SkipSpace(s, 0)..])
  }

  function ReadToken(t: string): seq<Token>
    decreases |t|, 0
  {
    if t == "" then []
    else if CDATA <= t then
      var e := IndexFrom(t[9..], "]]>", 0);
      if e == -1 then [CData(t[9..])] else [CData(t[9..][..e])] + ReadXml(t[9..][e + 3..])
    else if t[0] == '<' then
      var e := IndexFrom(t[1..], ">", 0);
      if e == -1 then [Tag(t[1..])] else [Tag(t[1..][..e])] + ReadXml(t[1..][e + 1..])
    else
      var e := IndexFrom(t, "<", 0);
      if e == -1 then [Text(t)] else [Text(t[..e])] + ReadXml(t[e..])
  }

  lemma {:induction false} SkipInFront(w: string, s: string, i: nat)
    requires i <= |w| && forall j | i <= j < |w| :: IsSpace(w[j])
    ensures SkipSpace(w + s, i) == |w| + SkipSpace(s, 0)
    decreases |w| - i
  {
    if i < |w| {
      SkipInFront(w, s, i + 1);
    } else {
      SkipFrom(w, s, 0);
    }
  }

  lemma {:induction false} SkipFrom(w: string, s: string, i: nat)
    requires i <= |s|
    ensures SkipSpace(w + s, |w| + i) == |w| + SkipSpace(s, i)
    decreases |s| - i
  {
    if i < |s| {
      SkipFrom(w, s, i + 1);
    }
  }

  lemma ReadSpace(w: string, s: string)
    requires forall c | c in w :: IsSpace(c)
    ensures ReadXml(w + s) == ReadXml(s)
  {
    hide SkipSpace, ReadToken;
    SkipInFront(w, s, 0);
    assert (w + s)[|w| + SkipSpace(s, 0)..] == s[SkipSpace(s, 0)..];
  }

  lemma FirstOfOne(a: string, c: char, b: string)
    requires c !in a
    ensures IndexFrom(a + [c] + b, [c], 0) == |a|
  {
    LastCharacterMissing(a, [c]);
    assert a + [c][..0] == a;
    FirstAfter(a, [c], b);
  }

  lemma NoSpaceInFront(t: string)
    requires t != "" && !IsSpace(t[0])
    ensures ReadXml(t) == ReadToken(t)
  {
    assert t[0..] == t;
  }

  lemma TagToken(t: string, name: string, s: string)
    requires t != "" && t[0] == '<' && !(CDATA <= t) && IndexFrom(t[1..], ">", 0) == |name|
    requires t[1..] == name + ">" + s
    ensures ReadToken(t) == [Tag(name)] + ReadXml(s)
  {
    CutAt(name, ">", s);
    hide IndexFrom, ReadXml;
  }

  lemma CDataToken(t: string, body: string, s: string)
    requires CDATA <= t && IndexFrom(t[9..], "]]>", 0) == |body|
    requires t[9..] == body + "]]>" + s
    ensures ReadToken(t) == [CData(body)] + ReadXml(s)
  {
    CutAt(body, "]]>", s);
    hide IndexFrom, ReadXml;
  }

  lemma TextToken(t: string, v: string, s: string)
    requires t != "" && t[0] != '<' && IndexFrom(t, "<", 0) == |v| && t == v + s
    ensures ReadToken(t) == [Text(v)] + ReadXml(s)
  {
    assert CDATA[0] == '<';
    CutAt(v, "", s);
    assert v + "" + s == t;
    hide IndexFrom, ReadXml;
  }

  lemma CutAt(a: string, p: string, b: string)
    ensures (a + p + b)[..|a|] == a && (a + p + b)[|a| + |p|..] == b
  {
  }

  lemma TagStart(u: string)
    requires u != "" && u[0] != '!'
    ensures ReadXml("<" + u) == ReadToken("<" + u)
    ensures ("<" + u)[0] == '<' && !(CDATA <= "<" + u) && ("<" + u)[1..] == u
  {
    assert CDATA[1] == '!' && ("<" + u)[1] == u[0];
    NoSpaceInFront("<" + u);
  }

  lemma ReadTag(name: string, s: string)
    requires '>' !in name && (name == "" || name[0] != '!')
    ensures ReadXml("<" + name + ">" + s) == [Tag(name)] + ReadXml(s)
  {
    FirstOfOne(name, '>', s);
    hide *;
    var u := name + ">" + s;
    assert "<" + name + ">" + s == "<" + u;
    assert u[0] == if name == "" then '>' else name[0];
    TagStart(u);
    TagToken("<" + u, name, s);
  }

  lemma ReadText(v: string, s: string)
    requires v != "" && !IsSpace(v[0]) && '<' !in v && s != "" && s[0] == '<'
    ensures ReadXml(v + s) == [Text(v)] + ReadXml(s)
  {
    var t := v + s;
    assert t[0] == v[0];
    NoSpaceInFront(t);
    FirstOfOne(v, '<', s[1..]);
    hide *;
    assert s == "<" + s[1..];
    assert t == v + "<" + s[1..];
    TextToken(t, v, s);
  }

  lemma SectionEnd(body: string, s: string)
    requires Free(body, "]]>")
    ensures IndexFrom(body + "]]>" + s, "]]>", 0) == |body|
  {
    assert "]]>"[..2] == "]]" && "]]>"[2] == '>';
    NoStraddle(body, "]]>", "]]");
    hide Free, IndexFrom, OccursAt;
    FirstAfter(body, "]]>", s);
  }

  lemma SectionStart(u: string)
    ensures ReadXml(CDATA + u) == ReadToken(CDATA + u)
    ensures CDATA <= CDATA + u && (CDATA + u)[9..] == u
  {
    assert (CDATA + u)[0] == CDATA[0] == '<' && |CDATA| == 9;
    NoSpaceInFront(CDATA + u);
  }

  lemma ReadCData(body: string, s: string)
    requires Free(body, "]]>")
    ensures ReadXml(CDATA + body + "]]>" + s) == [CData(body)] + ReadXml(s)
  {
    hide *;
    var u := body + "]]>" + s;
    assert CDATA + body + "]]>" + s == CDATA + u;
    SectionStart(u);
    SectionEnd(body, s);
    CDataToken(CDATA + u, body, s);
  }

  // ----- What a reader can see -----------------------------------------------

  /** Text ends at the next tag, a section at its first end. */
  ghost predicate IsSeen(t: Token) {
    match t
    case Tag(_) => true
    case Text(text) => '<' !in text
    case CData(body) => Free(body, "]]>")
  }

  lemma FreeBeforeFirst(s: string, p: string, e: nat)
    requires IndexFrom(s, p, 0) == e <= |s| && p != ""
    ensures Free(s[..e], p)
  {
    hide IndexFrom;
    forall i ensures !OccursAt(s[..e], p, i) {
      OccursInPrefix(s, p, e, i);
    }
  }

  lemma FreeOfOne(s: string, c: char)
    requires Free(s, [c])
    ensures c !in s
  {
    forall i | 0 <= i < |s| ensures s[i] != c {
      assert !OccursAt(s, [c], i);
      assert s[i..i + 1] == [s[i]];
    }
  }

  lemma NotFound(s: string, p: string)
    requires IndexFrom(s, p, 0) == -1
    ensures Free(s, p)
  {
    hide IndexFrom;
    assert forall i :: OccursAt(s, p, i) ==> i >= 0;
    hide OccursAt;
  }

  lemma FirstTokenIsSeen(t: string) returns (later: string)
    requires t != ""
    ensures ReadToken(t) != [] && IsSeen(ReadToken(t)[0])
    ensures |ReadToken(t)| == 1 || (|later| < |t| && ReadToken(t)[1..] == ReadXml(later))
  {
    hide IndexFrom, ReadXml;
    later := "";
    if CDATA <= t {
      var e := IndexFrom(t[9..], "]]>", 0);
      if e == -1 {
        NotFound(t[9..], "]]>");
      } else {
        FreeBeforeFirst(t[9..], "]]>", e);
        later := t[9..][e + 3..];
      }
    } else if t[0] == '<' {
      var e := IndexFrom(t[1..], ">", 0);
      if e != -1 {
        later := t[1..][e + 1..];
      }
    } else {
      var e := IndexFrom(t, "<", 0);
      if e == -1 {
        NotFound(t, "<");
        FreeOfOne(t, '<');
      } else {
        FreeBeforeFirst(t, "<", e);
        FreeOfOne(t[..e], '<');
        assert e != 0;
        later := t[e..];
      }
    }
  }

  /** Whatever the text, no token of it holds what ends such a token. */
  lemma {:induction false} TokensAreSeen(s: string)
    ensures forall t | t in ReadXml(s) :: IsSeen(t)
    decreases |s|
  {
    var t := s[SkipSpace(s, 0)..];
    assert ReadXml(s) == ReadToken(t);
    if t != "" {
      var later := FirstTokenIsSeen(t);
      var ts := ReadToken(t);
      hide ReadXml, ReadToken, IsSeen;
      if |ts| > 1 {
        TokensAreSeen(later);
        assert ts == [ts[0]] + ts[1..];
      }
    }
  }

  // ----- Lines of the document -----------------------------------------------

  datatype Line =
    | Mark(indent: nat, name: string)
    | Element(indent: nat, name: string, value: string)
    | Message(body: string)
  {
    function Text(): string {
      match this
      case Mark(indent, name) => Tabs(indent) + TagThen(name, "\n")
      case Element(indent, name, value) =>
        Tabs(indent) + TagThen(name, value + TagThen("/" + name, "\n"))
      case Message(body) =>
        Tabs(2) + TagThen("message", CDATA + body + "]]>" + TagThen("/message", "\n"))
    }

    function Tokens(): seq<Token> {
      match this
      case Mark(_, name) => [Tag(name)]
      case Element(_, name, value) =>
        [Tag(name)] + (if value == "" then [] else [Token.Text(value)]) + [Tag("/" + name)]
      case Message(body) => [Tag("message"), CData(body), Tag("/message")]
    }

    /** No markup inside a value, no end of section inside a body. */
    ghost predicate Legal() {
      match this
      case Mark(_, name) => IsName(name)
      case Element(_, name, value) => IsName(name) && IsTrimmed(value) && '<' !in value
      case Message(body) => Free(body, "]]>")
    }
  }

  function TagThen(name: string, later: string): string {
    "<" + name + ">" + later
  }

  predicate IsName(name: string) {
    name != "" && name[0] != '!' && '>' !in name
  }

  function Tabs(n: nat): (r: string)
    ensures forall c | c in r :: IsSpace(c)
  {
    if n == 0 then "" else "\t" + Tabs(n - 1)
  }

  lemma TagThenJoins(name: string, later: string, s: string)
    ensures TagThen(name, later) + s == TagThen(name, later + s)
  {
  }

  lemma ReadMark(indent: nat, name: string, later: string, s: string)
    requires IsName(name)
    ensures ReadXml(Tabs(indent) + TagThen(name, later) + s) == [Tag(name)] + ReadXml(later + s)
  {
    ReadTag(name, later + s);
    TagThenJoins(name, later, s);
    hide ReadXml, ReadToken, Tabs, TagThen;
    ReadSpace(Tabs(indent), TagThen(name, later + s));
    assert Tabs(indent) + TagThen(name, later) + s == Tabs(indent) + TagThen(name, later + s);
  }

  lemma ReadEndOfLine(name: string, s: string)
    requires IsName(name)
    ensures ReadXml(TagThen(name, "\n") + s) == [Tag(name)] + ReadXml(s)
  {
    ReadTag(name, "\n" + s);
    ReadSpace("\n", s);
    hide ReadXml;
    TagThenJoins(name, "\n", s);
  }

  lemma ReadValue(value: string, end: string, s: string)
    requires IsTrimmed(value) && '<' !in value && end != "" && end[0] == '<'
    ensures ReadXml(value + end + s) ==
            (if value == "" then [] else [Token.Text(value)]) + ReadXml(end + s)
  {
    hide ReadXml;
    assert value + end + s == value + (end + s);
    if value != "" {
      ReadText(value, end + s);
    } else {
      assert value + (end + s) == end + s;
    }
  }

  lemma JoinFour(a: seq<Token>, b: seq<Token>, c: seq<Token>, d: seq<Token>)
    ensures a + (b + (c + d)) == a + b + c + d
  {
  }

  lemma ReadElement(indent: nat, name: string, value: string, s: string)
    requires Element(indent, name, value).Legal()
    ensures var l := Element(indent, name, value); ReadXml(l.Text() + s) == l.Tokens() + ReadXml(s)
  {
    var end := TagThen("/" + name, "\n");
    assert end[0] == '<';
    hide ReadXml, TagThen, Tabs;
    ReadMark(indent, name, value + end, s);
    ReadValue(value, end, s);
    ReadEndOfLine("/" + name, s);
    hide IsTrimmed, IsName;
    JoinFour([Tag(name)], if value == "" then [] else [Token.Text(value)], [Tag("/" + name)], ReadXml(s));
  }

  lemma ReadMessage(body: string, s: string)
    requires Message(body).Legal()
    ensures ReadXml(Message(body).Text() + s) == Message(body).Tokens() + ReadXml(s)
  {
    hide ReadXml, ReadToken, TagThen;
    var end := TagThen("/message", "\n");
    ReadMark(2, "message", CDATA + body + "]]>" + end, s);
    assert (CDATA + body + "]]>" + end) + s == CDATA + body + "]]>" + (end + s);
    ReadCData(body, end + s);
    ReadEndOfLine("/message", s);
  }

  /** Every line is read back, whatever follows it. */
  lemma ReadLine(l: Line, s: string)
    requires l.Legal()
    ensures ReadXml(l.Text() + s) == l.Tokens() + ReadXml(s)
  {
    match l
    case Mark(indent, name) =>
      ReadMark(indent, name, "\n", s);
      ReadSpace("\n", s);
    case Element(indent, name, value) => ReadElement(indent, name, value, s);
    case Message(body) => ReadMessage(body, s);
  }
}