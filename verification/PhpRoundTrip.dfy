/** getXmlFromArray (web/xml.php), and what printing a tree and parsing it again gives. */
module PhpRoundTrip {
  import opened Text
  import opened Xml
  import opened XmlDoc
  import opened PhpXml

  /** `$curr_data != ''`: an unset entry is loosely equal to the empty string. */
  predicate HasData(n: Node) {
    n.tagData.Some? && n.tagData.value != ""
  }

  /** The attribute loop: key="value" items with a blank between them. */
  function AttribLoop(attrs: seq<Attr>): string {
    if attrs == [] then ""
    else KeyValue(attrs[0]) + (if |attrs| > 1 then " " else "") + AttribLoop(attrs[1..])
  }

  function GetXmlFromArray(n: Node): string
    decreases n, 1
  {
    "<" + n.name + (if n.attrs == [] then "" else " " + AttribLoop(n.attrs))
    + (if HasData(n) then "><![CDATA[" + n.tagData.value + "]]></" + n.name + ">"
       else if n.children != [] then ">" + PrintAll(n.children) + "</" + n.name + ">"
       else "/>")
  }

  function PrintAll(ns: seq<Node>): string
    decreases ns, 0
  {
    if ns == [] then "" else GetXmlFromArray(ns[0]) + PrintAll(ns[1..])
  }

  /** The document that the printed text denotes: children are printed only when there is no data. */
  function DocOf(n: Node): Tree
    decreases n, 1
  {
    Elem(n.name, n.attrs, if HasData(n) then [Txt(n.tagData.value)] else DocsOf(n.children))
  }

  function DocsOf(ns: seq<Node>): seq<Tree>
    decreases ns, 0
  {
    if ns == [] then [] else [DocOf(ns[0])] + DocsOf(ns[1..])
  }

  /** The printed text is well-formed and means what was printed: names are names, attribute values need no
      escaping, attribute names stay distinct when folded to upper case, and data holds no CDATA end and no carriage
      return and no character that XML forbids. Nothing is asked of the children that are not printed. */
  ghost predicate Printable(n: Node)
    decreases n, 1
  {
    && IsName(n.name) && PlainAttrs(n.attrs) && DistinctKeys(FoldAttrs(n.attrs))
    && (HasData(n) ==> Acceptable(n.tagData.value) && CR !in n.tagData.value)
    && (!HasData(n) ==> PrintableAll(n.children))
  }

  ghost predicate PrintableAll(ns: seq<Node>)
    decreases ns, 0
  {
    ns != [] ==> Printable(ns[0]) && PrintableAll(ns[1..])
  }

  // ----- lexing the printed text -----

  lemma {:induction false} AttribLoopText(attrs: seq<Attr>)
    requires attrs != []
    ensures " " + AttribLoop(attrs) == AttrText(attrs)
  {
    var kv := KeyValue(attrs[0]);
    if |attrs| == 1 {
      assert attrs[1..] == [];
      assert kv + "" + "" == kv;
      assert AttrItem(attrs[0]) + "" == AttrItem(attrs[0]);
    } else {
      AttribLoopText(attrs[1..]);
      Blanks(kv, AttribLoop(attrs[1..]));
    }
  }

  lemma Blanks(a: string, b: string)
    ensures " " + (a + " " + b) == " " + a + (" " + b)
  {
  }

  /** The printed text behind the name and the attributes. */
  function Tail(n: Node): string {
    if HasData(n) then "><![CDATA[" + n.tagData.value + "]]></" + n.name + ">"
    else if n.children != [] then ">" + PrintAll(n.children) + "</" + n.name + ">"
    else "/>"
  }

  lemma PrintIs(n: Node)
    ensures GetXmlFromArray(n) == "<" + n.name + AttrText(n.attrs) + Tail(n)
  {
    if n.attrs != [] {
      AttribLoopText(n.attrs);
    }
  }

  lemma {:induction false} LexPrint(n: Node, s: string)
    requires Printable(n)
    ensures Lex(GetXmlFromArray(n) + s) == Prepend(Events(DocOf(n)), Lex(s))
    decreases n, 1
  {
    PrintIs(n);
    var close := "</" + n.name + ">" + s;
    LexClose(n.name, s);
    if HasData(n) {
      LexPrintData(n, s);
    } else if n.children != [] {
      LexPrintAll(n.children, close);
      LexOpen(n.name, n.attrs, PrintAll(n.children) + close);
      ChildrenText("<" + n.name + AttrText(n.attrs), PrintAll(n.children), n.name, s);
      PrintedEvents(n, EventsAll(DocsOf(n.children)), Lex(s));
    } else {
      LexEmpty(n.name, n.attrs, s);
      assert Events(DocOf(n)) == [Open(n.name, n.attrs), Close(n.name)] by {
        assert DocOf(n).content == [] && EventsAll([]) == [];
      }
    }
  }

  lemma LexPrintData(n: Node, s: string)
    requires Printable(n) && HasData(n)
    ensures Lex("<" + n.name + AttrText(n.attrs) + Tail(n) + s) == Prepend(Events(DocOf(n)), Lex(s))
  {
    var data := n.tagData.value;
    var close := "</" + n.name + ">" + s;
    LexClose(n.name, s);
    LexCData(data, close);
    LexOpen(n.name, n.attrs, CDATA + data + CDEND + close);
    DataText("<" + n.name + AttrText(n.attrs), data, n.name, s);
    PrintedEvents(n, [Chars(data)], Lex(s));
    assert DocOf(n).content == [Txt(data)];
    assert EventsAll([Txt(data)]) == [Chars(data)] by { assert [Txt(data)][1..] == []; }
  }

  lemma DataText(head: string, data: string, name: string, s: string)
    ensures head + ("><![CDATA[" + data + "]]></" + name + ">") + s
         == head + ">" + (CDATA + data + CDEND + ("</" + name + ">" + s))
  {
    assert "><![CDATA[" == ">" + CDATA;
    assert "]]></" == CDEND + "</";
  }

  lemma ChildrenText(head: string, body: string, name: string, s: string)
    ensures head + (">" + body + "</" + name + ">") + s == head + ">" + (body + ("</" + name + ">" + s))
  {
  }

  lemma PrintedEvents(n: Node, inner: seq<Event>, r: Option<seq<Event>>)
    ensures Prepend([Open(n.name, n.attrs)], Prepend(inner, Prepend([Close(n.name)], r)))
         == Prepend([Open(n.name, n.attrs)] + inner + [Close(n.name)], r)
  {
    if r.Some? {
      assert [Open(n.name, n.attrs)] + (inner + ([Close(n.name)] + r.value))
          == [Open(n.name, n.attrs)] + inner + [Close(n.name)] + r.value;
    }
  }

  lemma {:induction false} LexPrintAll(ns: seq<Node>, s: string)
    requires PrintableAll(ns)
    ensures Lex(PrintAll(ns) + s) == Prepend(EventsAll(DocsOf(ns)), Lex(s))
    decreases ns, 0
  {
    if ns == [] {
      assert PrintAll(ns) + s == s;
      match Lex(s) {
        case None =>
        case Some(es) => assert [] + es == es;
      }
    } else {
      LexPrintAll(ns[1..], s);
      LexPrint(ns[0], PrintAll(ns[1..]) + s);
      Regroup(GetXmlFromArray(ns[0]), PrintAll(ns[1..]), s);
      var docs := DocsOf(ns);
      assert docs[0] == DocOf(ns[0]) && docs[1..] == DocsOf(ns[1..]);
      match Lex(s) {
        case None =>
        case Some(es) => Regroup2(Events(docs[0]), EventsAll(docs[1..]), es);
      }
    }
  }

  lemma Regroup2(a: seq<Event>, b: seq<Event>, c: seq<Event>)
    ensures a + (b + c) == a + b + c
  {
  }

  lemma {:induction false} PrintHasNoCR(n: Node)
    requires Printable(n)
    ensures CR !in GetXmlFromArray(n)
    decreases n, 1
  {
    PrintIs(n);
    AttrTextLacks(n.attrs, CR);
    NameLacks(n.name, CR);
    assert CR !in Tail(n) by {
      if !HasData(n) {
        PrintAllHasNoCR(n.children);
      }
    }
  }

  lemma {:induction false} PrintAllHasNoCR(ns: seq<Node>)
    requires PrintableAll(ns)
    ensures CR !in PrintAll(ns)
    decreases ns, 0
  {
    if ns != [] {
      PrintHasNoCR(ns[0]);
      PrintAllHasNoCR(ns[1..]);
    }
  }

  // ----- the round trip -----

  /** xml2Array::parse on a text: the array left behind, if the text is well-formed. */
  function ParseArray(text: string): Option<PhpArray> {
    match Parse(text)
    case None => None
    case Some(es) => Some(RunArray(PhpArray([], 0), es))
  }

  /** Printing and parsing a node gives the array with the one element that its document builds. */
  lemma PrintParse(n: Node)
    requires Printable(n)
    ensures ParseArray(GetXmlFromArray(n)) == Some(Stacked([Built(DocOf(n))]))
  {
    var text := GetXmlFromArray(n);
    PrintHasNoCR(n);
    NormalLinesSame(text);
    LexPrint(n, "");
    assert text + "" == text && Events(DocOf(n)) + [] == Events(DocOf(n));
    DocumentBuilds(DocOf(n));
  }

  /** Trees that the pair of printer and parser keeps: names in upper case, no node with both data and children, and
      data that passes the trim test. */
  ghost predicate Canonical(n: Node)
    decreases n, 1
  {
    && ToUpper(n.name) == n.name && FoldAttrs(n.attrs) == n.attrs
    && (n.tagData.Some? ==> Survives(n.tagData.value) && n.children == [])
    && CanonicalAll(n.children)
  }

  ghost predicate CanonicalAll(ns: seq<Node>)
    decreases ns, 0
  {
    ns != [] ==> Canonical(ns[0]) && CanonicalAll(ns[1..])
  }

  lemma {:induction false} BuiltIsSame(n: Node)
    ensures Built(DocOf(n)) == n <==> Canonical(n)
    decreases n, 1
  {
    var doc := DocOf(n);
    if HasData(n) {
      var d := n.tagData.value;
      assert [Txt(d)][1..] == [];
      assert SurvivingText([]) == [] && BuiltAll([]) == [];
      assert SurvivingText(doc.content) == if Survives(d) then [d] else [];
      assert Join([d]) == d by { assert [d][1..] == [] && d + "" == d; }
      assert CanonicalAll([]);
    } else {
      DocsHaveNoText(n.children);
      BuiltAllIsSame(n.children);
      BlankFails();
    }
  }

  lemma BlankFails()
    ensures !Survives("")
  {
  }

  lemma {:induction false} DocsHaveNoText(ns: seq<Node>)
    ensures SurvivingText(DocsOf(ns)) == []
  {
    if ns != [] {
      assert DocsOf(ns)[1..] == DocsOf(ns[1..]);
      DocsHaveNoText(ns[1..]);
    }
  }

  lemma {:induction false} BuiltAllIsSame(ns: seq<Node>)
    ensures BuiltAll(DocsOf(ns)) == ns <==> CanonicalAll(ns)
    decreases ns, 0
  {
    if ns != [] {
      var docs := DocsOf(ns);
      assert docs[0] == DocOf(ns[0]) && docs[1..] == DocsOf(ns[1..]);
      BuiltIsSame(ns[0]);
      BuiltAllIsSame(ns[1..]);
      var built := BuiltAll(docs);
      assert built[0] == Built(DocOf(ns[0])) && built[1..] == BuiltAll(docs[1..]);
      assert ns == [ns[0]] + ns[1..];
      assert built == ns <==> built[0] == ns[0] && built[1..] == ns[1..] by {
        assert built == [built[0]] + built[1..];
      }
    }
  }

  /** The round trip holds exactly for the canonical trees. */
  lemma RoundTripExactly(n: Node)
    requires Printable(n)
    ensures ParseArray(GetXmlFromArray(n)) == Some(Stacked([n])) <==> Canonical(n)
  {
    PrintParse(n);
    BuiltIsSame(n);
    StackedOne(n, Built(DocOf(n)));
  }

  lemma StackedOne(n: Node, m: Node)
    ensures Stacked([n]) == Stacked([m]) <==> n == m
  {
    assert Stacked([n]).entries[0].1 == n && Stacked([m]).entries[0].1 == m;
  }

  lemma UpperIsPlain(name: string, attrs: seq<Attr>)
    requires IsName(name) && PlainAttrs(attrs) && DistinctKeys(FoldAttrs(attrs))
    ensures IsName(ToUpper(name)) && PlainAttrs(FoldAttrs(attrs)) && DistinctKeys(FoldAttrs(FoldAttrs(attrs)))
  {
    UpperTwice(name, attrs);
    forall i | 0 <= i < |attrs| ensures IsName(FoldAttrs(attrs)[i].key) {
      assert IsName(attrs[i].key);
    }
  }

  /** What is built from a printed tree can be printed again. */
  lemma {:induction false} BuiltIsPrintable(n: Node)
    requires Printable(n)
    ensures Printable(Built(DocOf(n)))
    decreases n, 1
  {
    UpperIsPlain(n.name, n.attrs);
    if HasData(n) {
      BuiltData(n);
    } else {
      DocsHaveNoText(n.children);
      BuiltAllIsPrintable(n.children);
    }
  }

  lemma BuiltData(n: Node)
    requires HasData(n)
    ensures var m := Built(DocOf(n)); m.children == [] && (HasData(m) ==> m.tagData == n.tagData)
  {
    var d := n.tagData.value;
    assert [Txt(d)][1..] == [];
    assert SurvivingText([]) == [] && BuiltAll([]) == [];
    assert SurvivingText(DocOf(n).content) == if Survives(d) then [d] else [];
    assert Join([d]) == d by { assert [d][1..] == [] && d + "" == d; }
  }

  lemma {:induction false} BuiltAllIsPrintable(ns: seq<Node>)
    requires PrintableAll(ns)
    ensures PrintableAll(BuiltAll(DocsOf(ns)))
    decreases ns, 0
  {
    if ns != [] {
      var docs := DocsOf(ns);
      assert docs[0] == DocOf(ns[0]) && docs[1..] == DocsOf(ns[1..]);
      BuiltIsPrintable(ns[0]);
      BuiltAllIsPrintable(ns[1..]);
      assert BuiltAll(docs)[1..] == BuiltAll(docs[1..]);
    }
  }

  /** Printing what was parsed and parsing it again changes nothing more. */
  lemma PrintParseSettles(n: Node)
    requires Printable(n)
    ensures var m := Built(DocOf(n));
            ParseArray(GetXmlFromArray(n)) == Some(Stacked([m])) && ParseArray(GetXmlFromArray(m)) == Some(Stacked([m]))
  {
    var m := Built(DocOf(n));
    PrintParse(n);
    BuiltIsPrintable(n);
    BuiltIsCanonical(n);
    RoundTripExactly(m);
  }

  lemma {:induction false} BuiltIsCanonical(n: Node)
    ensures Canonical(Built(DocOf(n)))
    decreases n, 1
  {
    var doc := DocOf(n);
    UpperTwice(n.name, n.attrs);
    if HasData(n) {
      var d := n.tagData.value;
      assert [Txt(d)][1..] == [];
      assert SurvivingText([]) == [] && BuiltAll([]) == [];
      assert SurvivingText(doc.content) == if Survives(d) then [d] else [];
      assert Join([d]) == d by { assert [d][1..] == [] && d + "" == d; }
      assert CanonicalAll([]);
    } else {
      DocsHaveNoText(n.children);
      BuiltAllIsCanonical(n.children);
    }
  }

  lemma UpperTwice(name: string, attrs: seq<Attr>)
    ensures ToUpper(ToUpper(name)) == ToUpper(name)
    ensures FoldAttrs(FoldAttrs(attrs)) == FoldAttrs(attrs)
  {
    forall i | 0 <= i < |attrs| ensures ToUpper(ToUpper(attrs[i].key)) == ToUpper(attrs[i].key) {
    }
  }

  lemma {:induction false} BuiltAllIsCanonical(ns: seq<Node>)
    ensures CanonicalAll(BuiltAll(DocsOf(ns)))
    decreases ns, 0
  {
    if ns != [] {
      var docs := DocsOf(ns);
      assert docs[0] == DocOf(ns[0]) && docs[1..] == DocsOf(ns[1..]);
      BuiltIsCanonical(ns[0]);
      BuiltAllIsCanonical(ns[1..]);
      assert BuiltAll(docs)[1..] == BuiltAll(docs[1..]);
    }
  }

  /** The failing case: the text "0" is lost, and any other single digit comes back. */
  lemma DigitSurvivesExactly(name: string, c: char)
    requires IsName(name) && ToUpper(name) == name && IsDigit(c)
    ensures var n := Node(name, [], Some([c]), []);
            ParseArray(GetXmlFromArray(n)) == Some(Stacked([n])) <==> c != '0'
  {
    var n := Node(name, [], Some([c]), []);
    DigitIsPrintable(n, c);
    RoundTripExactly(n);
    DigitIsDropped(c);
    DroppedExactly([c]);
    assert FoldAttrs([]) == [] && CanonicalAll([]);
  }

  lemma DigitIsDropped(c: char)
    requires IsDigit(c)
    ensures IsDropped([c]) <==> c == '0'
  {
    assert c !in BLANKS by {
      BlanksAre(c);
    }
    assert [c][0] == c && [c][..0] == "" && [c][1..] == "";
  }

  lemma DigitIsPrintable(n: Node, c: char)
    requires IsName(n.name) && IsDigit(c) && n.attrs == [] && n.tagData == Some([c])
    ensures Printable(n)
  {
    assert FoldAttrs([]) == [];
  }

  /** A node with data is printed without its children, and empty data as no data. */
  lemma DataHidesChildren(n: Node)
    ensures n.tagData.Some? && n.tagData.value != "" ==> GetXmlFromArray(n) == GetXmlFromArray(n.(children := []))
    ensures n.tagData == Some("") ==> GetXmlFromArray(n) == GetXmlFromArray(n.(tagData := None))
  {
  }
}
