/** One status message from end to end: the printers of lib/msgs.cc, the extraction of lib/xml.cc and the dispatch of
    lib/msgs.cc put together. */
module StatusMessages {
  import opened Text
  import opened Xml
  import opened XmlDoc
  import opened ExtractNode
  import opened Framing
  import opened MessageLayer

  /** The version string of either side goes into an attribute, where the receiver cannot take an empty one, and the
      daemon's also into text. */
  predicate IsVersion(v: string) {
    v != "" && PlainValue(v) && PlainText(v) && NUL !in v
  }

  type Version = v: string | IsVersion(v) witness "1"

  /** The two ends: their versions and method tables. */
  datatype Ends = Ends(client: Version, daemon: Version, clientTable: Table, daemonTable: Table)

  predicate WellSet(x: Ends) {
    StatusTable(x.clientTable) && StatusTable(x.daemonTable)
  }

  /** The value that the daemon assigns to a tag. */
  function ValueOf(version: string, tag: StatusTag): string {
    match tag
    case SYSVERSION => version
    case REVISION => "0.0"
    case _ => "none"
  }

  /** What a request and a reply are on the wire, without the NUL. */
  function Request(v: Version, tag: StatusTag): string {
    Write(RequestDoc(v, tag))
  }

  function Answer(v: Version, tag: StatusTag): string {
    Write(ResponseDoc(v, STATUS, TagName(tag), ValueOf(v, tag)))
  }

  // ----- one message -----

  lemma TagNames(tag: StatusTag)
    ensures IsName(TagName(tag)) && PlainText(TagName(tag)) && NUL !in TagName(tag) && LF !in TagName(tag)
  {
    TagIsName(tag);
    NameIsPlain(TagName(tag));
  }

  lemma TagIsName(tag: StatusTag)
    ensures IsName(TagName(tag))
  {
  }

  lemma NameIsPlain(name: string)
    requires IsName(name)
    ensures PlainText(name) && NUL !in name && LF !in name
  {
    NoEndWithin(name);
  }

  lemma LeafLacks(name: string, text: string, c: char)
    requires c !in text
    ensures TextLacks(Leaf(name, text), c)
  {
    if text != "" {
      assert [Txt(text)][1..] == [] && TextsLack([], c);
    }
  }

  lemma PlainHeader(v: Version, inner: Tree)
    requires Plain(inner) && inner.Elem?
    ensures Plain(Header(v, inner))
  {
    assert [inner][1..] == [] && PlainAll([]);
    assert PlainAll([inner]);
  }

  lemma HeaderLacks(v: Version, inner: Tree, c: char)
    requires TextLacks(inner, c) && c !in v
    ensures TextLacks(Header(v, inner), c)
  {
    assert [inner][1..] == [] && TextsLack([], c);
    assert TextsLack([inner], c);
  }

  lemma InnerElem(name: string, inner: Tree, c: char)
    requires IsName(name) && Plain(inner) && inner.Elem? && TextLacks(inner, c)
    ensures Plain(Elem(name, [], [inner])) && TextLacks(Elem(name, [], [inner]), c)
  {
    assert [inner][1..] == [] && PlainAll([]) && TextsLack([], c);
    assert PlainAll([inner]) && TextsLack([inner], c);
  }

  lemma VersionLacksLF(v: Version)
    ensures LF !in v
  {
  }

  lemma ValuePlain(v: Version, tag: StatusTag)
    ensures PlainText(ValueOf(v, tag)) && NUL !in ValueOf(v, tag) && LF !in ValueOf(v, tag)
  {
    VersionLacksLF(v);
    if tag != SYSVERSION {
      NoEndWithin(ValueOf(v, tag));
    }
  }

  /** A written header is a frame that holds no line feed, and parses back. */
  lemma HeaderFrame(v: Version, inner: Tree)
    requires Plain(inner) && inner.Elem? && TextLacks(inner, NUL) && TextLacks(inner, LF)
    ensures var text := Write(Header(v, inner));
            IsFrame(text) && LF !in text && ParseDoc(text) == Some(Header(v, inner))
  {
    var doc := Header(v, inner);
    PlainHeader(v, inner);
    HeaderLacks(v, inner, NUL);
    VersionLacksLF(v);
    HeaderLacks(v, inner, LF);
    WriteLacks(doc, NUL);
    WriteLacks(doc, LF);
    assert Write(doc)[0] == '<';
    ParseWrite(doc, "");
    assert Write(doc) + "" == Write(doc);
  }

  lemma RequestFrame(v: Version, tag: StatusTag)
    ensures IsFrame(Request(v, tag)) && LF !in Request(v, tag)
    ensures ParseDoc(Request(v, tag)) == Some(RequestDoc(v, tag))
  {
    TagNames(tag);
    PlainLeaf("status", TagName(tag));
    LeafLacks("status", TagName(tag), NUL);
    LeafLacks("status", TagName(tag), LF);
    HeaderFrame(v, Leaf("status", TagName(tag)));
  }

  lemma AnswerFrame(v: Version, tag: StatusTag)
    ensures IsFrame(Answer(v, tag)) && LF !in Answer(v, tag)
    ensures ParseDoc(Answer(v, tag)) == Some(ResponseDoc(v, STATUS, TagName(tag), ValueOf(v, tag)))
  {
    var leaf := Leaf(TagName(tag), ValueOf(v, tag));
    TagNames(tag);
    ValuePlain(v, tag);
    PlainLeaf(TagName(tag), ValueOf(v, tag));
    LeafLacks(TagName(tag), ValueOf(v, tag), NUL);
    LeafLacks(TagName(tag), ValueOf(v, tag), LF);
    InnerElem("status", leaf, NUL);
    InnerElem("status", leaf, LF);
    HeaderFrame(v, Elem("status", [], [leaf]));
  }

  /** The tree that a header extracts to. */
  lemma ExtractHeader(v: Version, inner: Tree)
    requires inner.Elem?
    ensures var n := Extract(Header(v, inner)); n.name == "powerguru" && n.children == [Extract(inner)]
  {
    ExtractOne(inner);
  }

  lemma SingleNode(t: Table, mode: NetMode, v: string, e: Effect, node: XmlNode)
    ensures NodesEffect(t, mode, v, e, [node]) == NodeEffect(t, mode, v, e, node)
  {
    assert [node][1..] == [];
  }

  /** A header is processed by processing what is in it. */
  lemma ReceiveHeader(t: Table, mode: NetMode, v: string, e: Effect, w: Version, inner: Tree)
    requires StatusTable(t) && inner.Elem? && Extractable(inner)
    requires ParseDoc(Write(Header(w, inner))) == Some(Header(w, inner))
    ensures Receive(t, mode, v, e, Write(Header(w, inner))) == NodeEffect(t, mode, v, e, Extract(inner))
  {
    ExtractHeader(w, inner);
    OneExtractable(inner);
    SingleNode(t, mode, v, e, Extract(inner));
  }

  lemma ReplyIsAnswer(v: Version, tag: StatusTag)
    ensures Reply(v, TagName(tag)) == Answer(v, tag) + [NUL]
  {
    assert "sysversion"[0] == 's' && "revision"[0] == 'r' && "opmode"[0] == 'o' && "errormode"[0] == 'e'
           && "warningmode"[0] == 'w';
  }

  /** The daemon answers each status request with exactly one text, the answer to its tag, and keeps its cache. */
  lemma DaemonAnswers(x: Ends, e: Effect, tag: StatusTag)
    requires WellSet(x)
    ensures Receive(x.daemonTable, DAEMON, x.daemon, e, Request(x.client, tag))
         == Some(Effect(e.cache, e.out + [Answer(x.daemon, tag) + [NUL]]))
  {
    RequestFrame(x.client, tag);
    var leaf := Leaf("status", TagName(tag));
    LeafExtractable("status", TagName(tag));
    ReceiveHeader(x.daemonTable, DAEMON, x.daemon, e, x.client, leaf);
    ExtractLeaf("status", TagName(tag));
    TagNames(tag);
    ReplyIsAnswer(x.daemon, tag);
  }

  /** The client files the value under the tag's name, except for "sysversion", for which its method table has no
      entry. */
  lemma ClientFiles(x: Ends, e: Effect, tag: StatusTag)
    requires WellSet(x)
    ensures Receive(x.clientTable, CLIENT, x.client, e, Answer(x.daemon, tag))
         == if tag == SYSVERSION then None
            else Some(Effect(e.cache[TagName(tag) := ValueOf(x.daemon, tag)], e.out))
  {
    AnswerFrame(x.daemon, tag);
    var leaf := Leaf(TagName(tag), ValueOf(x.daemon, tag));
    var inner := Elem("status", [], [leaf]);
    LeafExtractable(TagName(tag), ValueOf(x.daemon, tag));
    OneExtractable(leaf);
    ReceiveHeader(x.clientTable, CLIENT, x.client, e, x.daemon, inner);
    ExtractOne(leaf);
    ExtractLeaf(TagName(tag), ValueOf(x.daemon, tag));
    ValuePlain(x.daemon, tag);
    SingleNode(x.clientTable, CLIENT, x.client, e, Extract(leaf));
    assert "status"[1] == 't' && "sysversion"[1] == 'y' && "revision"[1] == 'e' && "opmode"[1] == 'p'
           && "errormode"[1] == 'r' && "warningmode"[1] == 'a';
  }

  // ----- the messages, spelled out -----

  /** What the receiver finds in the header of a request: the version of the sender. */
  lemma HeaderHasVersion(v: Version, tag: StatusTag)
    ensures var doc := ParseDoc(Request(v, tag));
            doc.Some? && Extract(doc.value).name == "powerguru" && Extract(doc.value).attributes == map["version" := v]
  {
    RequestFrame(v, tag);
    OneAttribute(RequestDoc(v, tag), "version", v);
  }

  function RequestWith(v: string, name: string): string {
    "<powerguru version=\"" + v + "\"><status>" + name + "</status></powerguru>"
  }

  /** A tag, its name on the wire and the daemon's value for it. */
  predicate StatusPair(version: string, tag: StatusTag, name: string, val: string) {
    || (tag == SYSVERSION && name == "sysversion" && val == version)
    || (tag == REVISION && name == "revision" && val == "0.0")
    || (tag == OPMODE && name == "opmode" && val == "none")
    || (tag == ERRORMODE && name == "errormode" && val == "none")
    || (tag == WARNINGMODE && name == "warningmode" && val == "none")
  }

  lemma PairIs(version: string, tag: StatusTag, name: string, val: string)
    requires StatusPair(version, tag, name, val)
    ensures TagName(tag) == name && ValueOf(version, tag) == val
  {
  }

  /** The daemon's reply to each request, text by text. */
  lemma DaemonRepliesTo(x: Ends, e: Effect, tag: StatusTag, name: string, val: string)
    requires WellSet(x) && StatusPair(x.daemon, tag, name, val)
    ensures Receive(x.daemonTable, DAEMON, x.daemon, e, RequestWith(x.client, name))
         == Some(Effect(e.cache, e.out + [Enclosed(x.daemon, "status", name, val) + [NUL]]))
  {
    PairIs(x.daemon, tag, name, val);
    DaemonAnswers(x, e, tag);
    RequestIs(x.client, tag);
    ResponseIs(x.daemon, STATUS, name, val);
  }

  /** What the client makes of each reply, text by text. */
  lemma ClientTakes(x: Ends, e: Effect, tag: StatusTag, name: string, val: string)
    requires WellSet(x) && StatusPair(x.daemon, tag, name, val)
    ensures Receive(x.clientTable, CLIENT, x.client, e, Enclosed(x.daemon, "status", name, val))
         == if name == "sysversion" then None else Some(Effect(e.cache[name := val], e.out))
  {
    PairIs(x.daemon, tag, name, val);
    ClientFiles(x, e, tag);
    ResponseIs(x.daemon, STATUS, name, val);
    assert "sysversion"[0] == 's' && "revision"[0] == 'r' && "opmode"[0] == 'o' && "errormode"[0] == 'e'
           && "warningmode"[0] == 'w';
  }
}
