/** Whole documents: a plain writer, the tree that a DOM parser builds, and the round trip between them. */
module XmlDoc {
  import opened Text
  import opened Xml

  // ----- writer -----

  function Write(x: Tree): string
    decreases x, 1
  {
    match x
    case Txt(t) => t
    case Comment(t) => "<!--" + t + "-->"
    case Elem(name, attrs, content) =>
      "<" + name + AttrText(attrs) + ">" + (WriteAll(content) + ("</" + name + ">"))
  }

  function WriteAll(xs: seq<Tree>): string
    decreases xs, 0
  {
    if xs == [] then "" else Write(xs[0]) + WriteAll(xs[1..])
  }

  /** Trees whose text needs no escaping: names are names, and text stands in non-empty runs between elements. */
  ghost predicate Plain(x: Tree)
    decreases x, 1
  {
    match x
    case Txt(t) => t != "" && PlainText(t)
    case Comment(_) => false
    case Elem(name, attrs, content) => IsName(name) && PlainAttrs(attrs) && PlainAll(content)
  }

  ghost predicate PlainAll(xs: seq<Tree>)
    decreases xs, 0
  {
    xs != [] ==>
      && Plain(xs[0]) && PlainAll(xs[1..])
      && (xs[0].Txt? && |xs| > 1 ==> xs[1].Elem?)
  }

  /** The element with the given name, text and nothing else. */
  function Leaf(name: string, text: string): Tree {
    Elem(name, [], if text == "" then [] else [Txt(text)])
  }

  lemma PlainLeaf(name: string, text: string)
    requires IsName(name) && PlainText(text)
    ensures Plain(Leaf(name, text))
  {
    if text != "" {
      assert [Txt(text)][1..] == [] && PlainAll([]);
    }
  }

  // ----- tree builder -----

  datatype Forest = Forest(trees: seq<Tree>, rest: seq<Event>)

  /** The nodes up to the end tag of the enclosing element, or to the end of the document. */
  function Build(es: seq<Event>): (r: Option<Forest>)
    ensures r.Some? ==> |r.value.rest| <= |es|
    decreases |es|
  {
    if es == [] || es[0].Close? then Some(Forest([], es))
    else if es[0].Chars? then
      match Build(es[1..])
      case None => None
      case Some(f) => Some(Forest([Txt(es[0].text)] + f.trees, f.rest))
    else
      match Build(es[1..])
      case None => None
      case Some(inner) =>
        if inner.rest == [] || inner.rest[0] != Close(es[0].name) then None
        else
          match Build(inner.rest[1..])
          case None => None
          case Some(f) => Some(Forest([Elem(es[0].name, es[0].attrs, inner.trees)] + f.trees, f.rest))
  }

  predicate IsWhite(x: Tree) {
    x.Txt? && forall i | 0 <= i < |x.text| :: IsSpace(x.text[i])
  }

  /** The root of a document is its only element; outside it there is nothing but white space. */
  function Root(xs: seq<Tree>): (r: Option<Tree>)
    ensures r.Some? ==> r.value.Elem? && r.value in xs
  {
    if xs == [] then None
    else if IsWhite(xs[0]) then Root(xs[1..])
    else if xs[0].Elem? && (forall i | 1 <= i < |xs| :: IsWhite(xs[i])) then Some(xs[0])
    else None
  }

  function ParseDoc(s: string): (r: Option<Tree>)
    ensures r.Some? ==> r.value.Elem?
  {
    match Parse(s)
    case None => None
    case Some(es) =>
      match Build(es)
      case None => None
      case Some(f) => if f.rest == [] then Root(f.trees) else None
  }

  // ----- round trip -----

  lemma PrependTwice(a: seq<Event>, b: seq<Event>, r: Option<seq<Event>>)
    ensures Prepend(a, Prepend(b, r)) == Prepend(a + b, r)
  {
    if r.Some? {
      assert a + (b + r.value) == a + b + r.value;
    }
  }

  lemma PrependNothing(r: Option<seq<Event>>)
    ensures Prepend([], r) == r
  {
    if r.Some? {
      assert [] + r.value == r.value;
    }
  }

  predicate AtTag(s: string) {
    s == "" || s[0] == '<'
  }

  /** The lexer reports exactly the events of a written tree, and then goes on with what follows. */
  lemma {:induction false} LexWrite(x: Tree, s: string)
    requires Plain(x) && AtTag(s)
    ensures Lex(Write(x) + s) == Prepend(Events(x), Lex(s))
    decreases x, 1
  {
    match x {
      case Txt(t) =>
        LexText(t, s);
      case Elem(_, _, _) =>
        LexWriteElem(x, s);
    }
  }

  lemma ElemText(open: string, body: string, close: string, s: string)
    ensures open + (body + close) + s == open + (body + (close + s))
  {
  }

  lemma {:induction false} LexWriteAll(xs: seq<Tree>, s: string)
    requires PlainAll(xs) && AtTag(s)
    ensures Lex(WriteAll(xs) + s) == Prepend(EventsAll(xs), Lex(s))
    decreases xs, 0
  {
    if xs == [] {
      assert WriteAll(xs) + s == s;
      PrependNothing(Lex(s));
    } else {
      var more := WriteAll(xs[1..]) + s;
      LexWriteAll(xs[1..], s);
      if xs[0].Txt? {
        WriteAllAtTag(xs[1..], s);
        LexWrite(xs[0], more);
      } else {
        LexWriteElem(xs[0], more);
      }
      Regroup(Write(xs[0]), WriteAll(xs[1..]), s);
      PrependTwice(Events(xs[0]), EventsAll(xs[1..]), Lex(s));
    }
  }

  /** After an element any text may follow. */
  lemma {:induction false} LexWriteElem(x: Tree, s: string)
    requires Plain(x) && x.Elem?
    ensures Lex(Write(x) + s) == Prepend(Events(x), Lex(s))
    decreases x, 0
  {
    var name, attrs, content := x.name, x.attrs, x.content;
    var end := "</" + name + ">" + s;
    LexOpen(name, attrs, WriteAll(content) + end);
    LexWriteAll(content, end);
    LexClose(name, s);
    ElemText("<" + name + AttrText(attrs) + ">", WriteAll(content), "</" + name + ">", s);
    PrependTwice(EventsAll(content), [Close(name)], Lex(s));
    PrependTwice([Open(name, attrs)], EventsAll(content) + [Close(name)], Lex(s));
    assert Events(x) == [Open(name, attrs)] + (EventsAll(content) + [Close(name)]);
  }

  lemma WriteAllAtTag(xs: seq<Tree>, s: string)
    requires AtTag(s) && (xs != [] ==> xs[0].Elem?)
    ensures AtTag(WriteAll(xs) + s)
  {
    if xs != [] {
      assert Write(xs[0])[0] == '<';
    }
  }

  predicate AtClose(es: seq<Event>) {
    es == [] || es[0].Close?
  }

  lemma BuildElem(name: string, attrs: seq<Attr>, inner: seq<Event>, kids: seq<Tree>, more: seq<Event>, f: Forest)
    requires Build(inner) == Some(Forest(kids, [Close(name)] + more)) && Build(more) == Some(f)
    ensures Build([Open(name, attrs)] + inner) == Some(Forest([Elem(name, attrs, kids)] + f.trees, f.rest))
  {
    assert ([Open(name, attrs)] + inner)[1..] == inner;
    assert ([Close(name)] + more)[1..] == more;
  }

  lemma BuildTxt(t: string, more: seq<Event>, f: Forest)
    requires Build(more) == Some(f)
    ensures Build([Chars(t)] + more) == Some(Forest([Txt(t)] + f.trees, f.rest))
  {
    assert ([Chars(t)] + more)[1..] == more;
  }

  lemma EventsSplit(name: string, attrs: seq<Attr>, content: seq<Tree>, more: seq<Event>)
    ensures Events(Elem(name, attrs, content)) + more
         == [Open(name, attrs)] + (EventsAll(content) + ([Close(name)] + more))
  {
  }

  /** Comments leave no event behind. */
  ghost predicate Commentless(x: Tree)
    decreases x, 1
  {
    !x.Comment? && (x.Elem? ==> CommentlessAll(x.content))
  }

  ghost predicate CommentlessAll(xs: seq<Tree>)
    decreases xs, 0
  {
    xs != [] ==> Commentless(xs[0]) && CommentlessAll(xs[1..])
  }

  lemma {:induction false} PlainIsCommentless(x: Tree)
    requires Plain(x)
    ensures Commentless(x)
    decreases x, 1
  {
    if x.Elem? {
      PlainAllIsCommentless(x.content);
    }
  }

  lemma {:induction false} PlainAllIsCommentless(xs: seq<Tree>)
    requires PlainAll(xs)
    ensures CommentlessAll(xs)
    decreases xs, 0
  {
    if xs != [] {
      PlainIsCommentless(xs[0]);
      PlainAllIsCommentless(xs[1..]);
    }
  }

  /** The builder undoes the events of a forest. */
  lemma {:induction false} BuildEvents(xs: seq<Tree>, es: seq<Event>)
    requires CommentlessAll(xs) && AtClose(es)
    ensures Build(EventsAll(xs) + es) == Some(Forest(xs, es))
    decreases xs
  {
    if xs == [] {
      assert EventsAll(xs) + es == es;
    } else {
      var more := EventsAll(xs[1..]) + es;
      assert EventsAll(xs) + es == Events(xs[0]) + more;
      BuildEvents(xs[1..], es);
      assert xs == [xs[0]] + xs[1..];
      match xs[0] {
        case Txt(t) =>
          BuildTxt(t, more, Forest(xs[1..], es));
        case Elem(name, attrs, content) =>
          BuildEvents(content, [Close(name)] + more);
          EventsSplit(name, attrs, content, more);
          BuildElem(name, attrs, EventsAll(content) + ([Close(name)] + more), content, more, Forest(xs[1..], es));
      }
    }
  }

  /** No text and no attribute value of the tree has the character. */
  ghost predicate TextLacks(x: Tree, c: char)
    decreases x, 1
  {
    match x
    case Elem(_, attrs, content) => (forall i | 0 <= i < |attrs| :: c !in attrs[i].value) && TextsLack(content, c)
    case _ => c !in x.text
  }

  ghost predicate TextsLack(xs: seq<Tree>, c: char)
    decreases xs, 0
  {
    xs != [] ==> TextLacks(xs[0], c) && TextsLack(xs[1..], c)
  }

  predicate ControlChar(c: char) {
    c < ' '
  }

  lemma NameLacks(name: string, c: char)
    requires IsName(name) && ControlChar(c)
    ensures c !in name
  {
  }

  /** A control character that is in no text is not in what is written. */
  lemma {:induction false} WriteLacks(x: Tree, c: char)
    requires Plain(x) && TextLacks(x, c) && ControlChar(c)
    ensures c !in Write(x)
    decreases x, 1
  {
    if x.Elem? {
      NameLacks(x.name, c);
      AttrTextLacks(x.attrs, c);
      WriteAllLacks(x.content, c);
    }
  }

  lemma {:induction false} AttrTextLacks(attrs: seq<Attr>, c: char)
    requires PlainItems(attrs) && ControlChar(c) && forall i | 0 <= i < |attrs| :: c !in attrs[i].value
    ensures c !in AttrText(attrs)
  {
    if attrs != [] {
      NameLacks(attrs[0].key, c);
      AttrTextLacks(attrs[1..], c);
    }
  }

  lemma {:induction false} WriteAllLacks(xs: seq<Tree>, c: char)
    requires PlainAll(xs) && TextsLack(xs, c) && ControlChar(c)
    ensures c !in WriteAll(xs)
    decreases xs, 0
  {
    if xs != [] {
      WriteLacks(xs[0], c);
      WriteAllLacks(xs[1..], c);
    }
  }

  lemma {:induction false} PlainLacksCR(x: Tree)
    requires Plain(x)
    ensures TextLacks(x, CR)
    decreases x, 1
  {
    if x.Elem? {
      PlainAllLackCR(x.content);
    }
  }

  lemma {:induction false} PlainAllLackCR(xs: seq<Tree>)
    requires PlainAll(xs)
    ensures TextsLack(xs, CR)
    decreases xs, 0
  {
    if xs != [] {
      PlainLacksCR(xs[0]);
      PlainAllLackCR(xs[1..]);
    }
  }

  /** Writing and parsing: every plain element comes back as it was, with or without a line feed behind it. */
  lemma ParseWrite(x: Tree, tail: string)
    requires Plain(x) && x.Elem? && (tail == "" || tail == [LF])
    ensures ParseDoc(Write(x) + tail) == Some(x)
  {
    var xs := if tail == "" then [x] else [x, Txt(tail)];
    assert WriteAll([]) == "" && PlainAll([]);
    if tail != "" {
      assert xs[1..] == [Txt(tail)] && [Txt(tail)][1..] == [];
      assert WriteAll(xs[1..]) == tail + "";
      assert PlainAll(xs[1..]);
    } else {
      assert xs[1..] == [];
    }
    assert WriteAll(xs) == Write(x) + tail;
    LexWriteAll(xs, "");
    assert WriteAll(xs) + "" == WriteAll(xs);
    assert EventsAll(xs) + [] == EventsAll(xs);
    PlainAllIsCommentless(xs);
    BuildEvents(xs, []);
    PlainLacksCR(x);
    WriteLacks(x, CR);
    NormalLinesSame(Write(x) + tail);
    assert Root(xs) == Some(x);
  }
}
