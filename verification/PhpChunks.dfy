/** The round trip of web/xml.php when the parser reports text in pieces, as expat does at every line end. */
module PhpChunks {
  import opened Text
  import opened Xml
  import opened XmlDoc
  import opened PhpXml
  import opened PhpRoundTrip

  /** The events with neighbouring pieces of text put together. */
  function Merged(es: seq<Event>): seq<Event> {
    if es == [] then []
    else
      var r := Merged(es[1..]);
      if es[0].Chars? && r != [] && r[0].Chars? then [Chars(es[0].text + r[0].text)] + r[1..] else [es[0]] + r
  }

  /** Every piece of text is empty or passes the trim test. */
  predicate PiecesSurvive(es: seq<Event>) {
    forall i | 0 <= i < |es| && es[i].Chars? :: es[i].text == "" || Survives(es[i].text)
  }

  // ----- documents with text in pieces -----

  /** The document of a node, its data in pieces. */
  ghost predicate IsCutting(x: Tree, n: Node)
    decreases n, 1
  {
    && x.Elem? && x.name == n.name && x.attrs == n.attrs
    && (if HasData(n) then exists chunks :: CutsData(x, n, chunks) else IsCuttingAll(x.content, n.children))
  }

  ghost predicate CutsData(x: Tree, n: Node, chunks: seq<string>)
    requires x.Elem? && HasData(n)
  {
    x.content == AsText(chunks) && Join(chunks) == n.tagData.value
  }

  ghost predicate IsCuttingAll(xs: seq<Tree>, ns: seq<Node>)
    decreases ns, 0
  {
    |xs| == |ns| && (ns != [] ==> IsCutting(xs[0], ns[0]) && IsCuttingAll(xs[1..], ns[1..]))
  }

  /** Trees that the round trip can keep: names in upper case, and no node with both data and children. */
  ghost predicate Shaped(n: Node)
    decreases n, 1
  {
    && ToUpper(n.name) == n.name && FoldAttrs(n.attrs) == n.attrs
    && (n.tagData.Some? ==> n.tagData.value != "" && n.children == [])
    && ShapedAll(n.children)
  }

  ghost predicate ShapedAll(ns: seq<Node>)
    decreases ns, 0
  {
    ns != [] ==> Shaped(ns[0]) && ShapedAll(ns[1..])
  }

  lemma SurviveSplit(es: seq<Event>, fs: seq<Event>)
    ensures PiecesSurvive(es + fs) <==> PiecesSurvive(es) && PiecesSurvive(fs)
  {
    assert forall i | 0 <= i < |es| :: (es + fs)[i] == es[i];
    assert forall i | 0 <= i < |fs| :: (es + fs)[|es| + i] == fs[i];
  }

  lemma {:induction false} ChunkEvents(chunks: seq<string>)
    ensures var es := EventsAll(AsText(chunks));
            |es| == |chunks| && forall i | 0 <= i < |chunks| :: es[i] == Chars(chunks[i])
  {
    if chunks != [] {
      assert AsText(chunks)[1..] == AsText(chunks[1..]);
      ChunkEvents(chunks[1..]);
    }
  }

  lemma {:induction false} OnlyText(chunks: seq<string>)
    ensures BuiltAll(AsText(chunks)) == []
  {
    if chunks != [] {
      assert AsText(chunks)[1..] == AsText(chunks[1..]);
      OnlyText(chunks[1..]);
    }
  }

  lemma ElementSurvives(x: Tree)
    requires x.Elem?
    ensures PiecesSurvive(Events(x)) <==> PiecesSurvive(EventsAll(x.content))
  {
    SurviveSplit([Open(x.name, x.attrs)] + EventsAll(x.content), [Close(x.name)]);
    SurviveSplit([Open(x.name, x.attrs)], EventsAll(x.content));
  }

  lemma DataBuilt(x: Tree, n: Node, chunks: seq<string>)
    requires x.Elem? && HasData(n) && CutsData(x, n, chunks)
    ensures Built(x).children == []
    ensures Built(x).tagData == n.tagData <==> PiecesSurvive(EventsAll(x.content))
  {
    OnlyText(chunks);
    ChunksJoin(chunks);
    ChunkEvents(chunks);
    assert Join([]) == "";
  }

  /** The tree built from a document in pieces is the one it stands for exactly when that one has the shape and all
      pieces survive. */
  lemma {:induction false} CuttingBuilt(x: Tree, n: Node)
    requires IsCutting(x, n)
    ensures Built(x) == n <==> Shaped(n) && PiecesSurvive(Events(x))
    decreases n, 1
  {
    ElementSurvives(x);
    if HasData(n) {
      var chunks :| CutsData(x, n, chunks);
      DataBuilt(x, n, chunks);
      assert ShapedAll([]);
    } else {
      CuttingAllBuilt(x.content, n.children);
    }
  }

  lemma {:induction false} CuttingAllBuilt(xs: seq<Tree>, ns: seq<Node>)
    requires IsCuttingAll(xs, ns)
    ensures BuiltAll(xs) == ns <==> ShapedAll(ns) && PiecesSurvive(EventsAll(xs))
    ensures SurvivingText(xs) == []
    decreases ns, 0
  {
    if ns != [] {
      CuttingBuilt(xs[0], ns[0]);
      CuttingAllBuilt(xs[1..], ns[1..]);
      SurviveSplit(Events(xs[0]), EventsAll(xs[1..]));
      HeadAndTail(Built(xs[0]), BuiltAll(xs[1..]), ns);
    }
  }

  lemma HeadAndTail(n: Node, rest: seq<Node>, ns: seq<Node>)
    requires ns != []
    ensures [n] + rest == ns <==> n == ns[0] && rest == ns[1..]
  {
    assert ns == [ns[0]] + ns[1..];
    assert ([n] + rest)[0] == n && ([n] + rest)[1..] == rest;
  }

  // ----- events in pieces come from a document in pieces -----

  lemma MergedFirst(es: seq<Event>, e: Event, more: seq<Event>)
    requires Merged(es) == [e] + more && !e.Chars?
    ensures es != [] && es[0] == e && Merged(es[1..]) == more
  {
    var r := Merged(es[1..]);
    assert ([e] + more)[0] == e && ([e] + more)[1..] == more;
    assert ([es[0]] + r)[1..] == r;
  }

  predicate AtTag(es: seq<Event>) {
    es == [] || !es[0].Chars?
  }

  /** The first piece is joined with the pieces behind it, if there are any. */
  lemma MergedText(e: Event, es: seq<Event>, text: string, more: seq<Event>)
    requires Merged([e] + es) == [Chars(text)] + more && AtTag(more)
    ensures e.Chars?
    ensures var r := Merged(es);
            if r != [] && r[0].Chars? then text == e.text + r[0].text && r == [Chars(r[0].text)] + more
            else text == e.text && r == more
  {
    var r := Merged(es);
    assert ([e] + es)[1..] == es;
    assert ([Chars(text)] + more)[0] == Chars(text) && ([Chars(text)] + more)[1..] == more;
    if e.Chars? && r != [] && r[0].Chars? {
      assert ([Chars(e.text + r[0].text)] + r[1..])[1..] == r[1..];
      assert r == [r[0]] + r[1..];
    } else {
      assert ([e] + r)[1..] == r;
    }
  }

  /** The pieces of a text at the start of the events. */
  lemma {:induction false} CollectPieces(es: seq<Event>, text: string, more: seq<Event>)
    returns (chunks: seq<string>, rest: seq<Event>)
    requires Merged(es) == [Chars(text)] + more && AtTag(more)
    ensures es == EventsAll(AsText(chunks)) + rest && Merged(rest) == more
    ensures Join(chunks) == text
    decreases |es|
  {
    var e, behind := es[0], es[1..];
    assert es == [e] + behind;
    MergedText(e, behind, text, more);
    var r := Merged(behind);
    var cs;
    if r != [] && r[0].Chars? {
      cs, rest := CollectPieces(behind, r[0].text, more);
    } else {
      cs, rest := [], behind;
      assert EventsAll(AsText(cs)) + rest == rest;
    }
    chunks := [e.text] + cs;
    OnePiece(e.text, cs);
    MoreEvents(e, EventsAll(AsText(cs)), rest);
  }

  lemma MoreEvents(e: Event, es: seq<Event>, rest: seq<Event>)
    ensures [e] + (es + rest) == [e] + es + rest
  {
  }

  lemma OnePiece(c: string, cs: seq<string>)
    ensures Join([c] + cs) == c + Join(cs)
    ensures EventsAll(AsText([c] + cs)) == [Chars(c)] + EventsAll(AsText(cs))
  {
    assert ([c] + cs)[1..] == cs;
    assert AsText([c] + cs)[1..] == AsText(cs);
    assert Join([]) == "" && c + "" == c;
  }

  lemma DocEvents(n: Node, more: seq<Event>)
    ensures Events(DocOf(n)) + more
         == [Open(n.name, n.attrs)] + (EventsAll(DocOf(n).content) + ([Close(n.name)] + more))
  {
  }

  /** Events that put together are those of a node's document, and more, start with those of a cutting of it. */
  lemma {:induction false} FindCutting(n: Node, es: seq<Event>, more: seq<Event>) returns (x: Tree, rest: seq<Event>)
    requires Merged(es) == Events(DocOf(n)) + more
    ensures IsCutting(x, n) && es == Events(x) + rest && Merged(rest) == more
    decreases n, 1
  {
    var end := [Close(n.name)] + more;
    DocEvents(n, more);
    MergedFirst(es, Open(n.name, n.attrs), EventsAll(DocOf(n).content) + end);
    var content, tail;
    if HasData(n) {
      var data := n.tagData.value;
      assert [Txt(data)][1..] == [] && EventsAll([Txt(data)]) == [Chars(data)] + EventsAll([]);
      assert EventsAll([Txt(data)]) + end == [Chars(data)] + end;
      var chunks;
      chunks, tail := CollectPieces(es[1..], data, end);
      content := AsText(chunks);
      x := Elem(n.name, n.attrs, content);
      assert CutsData(x, n, chunks);
    } else {
      content, tail := FindCuttings(n.children, es[1..], end);
      x := Elem(n.name, n.attrs, content);
    }
    MergedFirst(tail, Close(n.name), more);
    rest := tail[1..];
    Assembled(es, Open(n.name, n.attrs), EventsAll(content), tail, Close(n.name));
  }

  lemma Assembled(es: seq<Event>, first: Event, inner: seq<Event>, tail: seq<Event>, last: Event)
    requires es != [] && es[0] == first && es[1..] == inner + tail && tail != [] && tail[0] == last
    ensures es == [first] + inner + [last] + tail[1..]
  {
    assert es == [es[0]] + es[1..];
  }

  lemma {:induction false} FindCuttings(ns: seq<Node>, es: seq<Event>, more: seq<Event>)
    returns (xs: seq<Tree>, rest: seq<Event>)
    requires Merged(es) == EventsAll(DocsOf(ns)) + more
    ensures IsCuttingAll(xs, ns) && es == EventsAll(xs) + rest && Merged(rest) == more
    decreases ns, 0
  {
    if ns == [] {
      xs, rest := [], es;
      assert EventsAll(DocsOf(ns)) + more == more && EventsAll(xs) + rest == rest;
    } else {
      var docs := DocsOf(ns);
      assert docs[0] == DocOf(ns[0]) && docs[1..] == DocsOf(ns[1..]);
      var behind := EventsAll(docs[1..]) + more;
      assert EventsAll(docs) + more == Events(docs[0]) + behind;
      var x, tail := FindCutting(ns[0], es, behind);
      var ys;
      ys, rest := FindCuttings(ns[1..], tail, more);
      xs := [x] + ys;
      assert xs[1..] == ys;
      Regroup2(Events(x), EventsAll(ys), rest);
    }
  }

  // ----- the round trip -----

  /** The round trip however the parser cuts the text: the printed tree comes back exactly when it has the shape and every
      piece of its data passes the trim test or is empty. */
  lemma {:induction false} RoundTripInPieces(n: Node, es: seq<Event>)
    requires Printable(n) && Parse(GetXmlFromArray(n)) == Some(Merged(es))
    ensures RunArray(PhpArray([], 0), es) == Stacked([n]) <==> Shaped(n) && PiecesSurvive(es)
  {
    PrintedIs(n);
    assert Events(DocOf(n)) + [] == Events(DocOf(n));
    var x, rest := FindCutting(n, es, []);
    MergedNothing(rest);
    assert es == Events(x) + [] == Events(x);
    DocumentBuilds(x);
    CuttingBuilt(x, n);
    StackedOne(n, Built(x));
  }

  lemma PrintedIs(n: Node)
    requires Printable(n)
    ensures Parse(GetXmlFromArray(n)) == Some(Events(DocOf(n)))
  {
    var text := GetXmlFromArray(n);
    PrintHasNoCR(n);
    NormalLinesSame(text);
    LexPrint(n, "");
    assert text + "" == text && Events(DocOf(n)) + [] == Events(DocOf(n));
  }

  lemma MergedNothing(es: seq<Event>)
    requires Merged(es) == []
    ensures es == []
  {
  }

  lemma {:induction false} LineEndIsBlank()
    ensures !Survives([LF])
  {
    var s := [LF];
    assert s[1..] == [];
    assert TrimLeft(s) == [];
  }

  /** A line end that is reported by itself is lost, and with it the round trip. */
  lemma {:induction false} LineEndIsLost(n: Node, es: seq<Event>, i: nat)
    requires Printable(n) && Parse(GetXmlFromArray(n)) == Some(Merged(es))
    requires i < |es| && es[i] == Chars([LF])
    ensures RunArray(PhpArray([], 0), es) != Stacked([n])
  {
    RoundTripInPieces(n, es);
    LineEndIsBlank();
  }
}
