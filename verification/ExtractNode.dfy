/** XML::extractNode (lib/xml.cc): the DOM tree of libxml2 turned into the program's own tree. */
module ExtractNode {
  import opened Text
  import opened Xml
  import opened XmlDoc

  /** XMLNode (lib/xml.h). */
  datatype XmlNode = XmlNode(name: string, value: string, attributes: map<string, string>, children: seq<XmlNode>)

  /** xmlNodeGetContent: the text of a node, and of an element that of all its descendants but comments. */
  function Content(x: Tree): string
    decreases x, 1
  {
    match x
    case Txt(t) => t
    case Comment(t) => t
    case Elem(_, _, content) => ContentAll(content)
  }

  function ContentAll(xs: seq<Tree>): string
    decreases xs, 0
  {
    if xs == [] then ""
    else (if xs[0].Comment? then "" else Content(xs[0])) + ContentAll(xs[1..])
  }

  /** attribAdd for each property in turn. */
  function Properties(attrs: seq<Attr>): map<string, string> {
    if attrs == [] then map[]
    else
      var last := attrs[|attrs| - 1];
      Properties(attrs[..|attrs| - 1])[last.key := last.value]
  }

  function Extract(x: Tree): XmlNode
    requires x.Elem?
    decreases x, 1
  {
    XmlNode(x.name, if x.content == [] then "" else FirstLine(Content(x.content[0])),
            Properties(x.attrs), ExtractAll(x.content))
  }

  /** The element children, in order. */
  function ExtractAll(xs: seq<Tree>): seq<XmlNode>
    decreases xs, 0
  {
    if xs == [] then []
    else if xs[0].Elem? then [Extract(xs[0])] + ExtractAll(xs[1..])
    else ExtractAll(xs[1..])
  }

  predicate ValuesSet(attrs: seq<Attr>) {
    forall i | 0 <= i < |attrs| :: attrs[i].value != ""
  }

  /** No attribute in the element or within it is empty: libxml2 has no text node for an empty value, and the walk over
      the properties dereferences it. */
  predicate Extractable(x: Tree)
    decreases x, 1
  {
    x.Elem? ==> ValuesSet(x.attrs) && ExtractableAll(x.content)
  }

  predicate ExtractableAll(xs: seq<Tree>)
    decreases xs, 0
  {
    xs != [] ==> Extractable(xs[0]) && ExtractableAll(xs[1..])
  }

  /** Properties in order, or None at an empty value. */
  method ExtractProperties(attrs: seq<Attr>) returns (attributes: Option<map<string, string>>)
    ensures attributes == if ValuesSet(attrs) then Some(Properties(attrs)) else None
  {
    var m := map[];
    var a := 0;
    while a < |attrs|
      invariant 0 <= a <= |attrs|
      invariant m == Properties(attrs[..a]) && ValuesSet(attrs[..a])
    {
      if attrs[a].value == "" {
        return None;
      }
      m := m[attrs[a].key := attrs[a].value];
      a := a + 1;
      assert attrs[..a][..a - 1] == attrs[..a - 1];
    }
    assert attrs[..a] == attrs;
    attributes := Some(m);
  }

  /** The walks over the property list and the sibling list; None where the source dereferences null. */
  method ExtractNode(node: Tree) returns (xml: Option<XmlNode>)
    requires node.Elem?
    ensures xml.Some? <==> Extractable(node)
    ensures xml.Some? ==> xml.value == Extract(node)
    decreases node
  {
    var attributes := ExtractProperties(node.attrs);
    if attributes.None? {
      return None;
    }
    var value := if node.content == [] then "" else FirstLine(Content(node.content[0]));
    var children := [];
    var c := 0;
    while c < |node.content|
      invariant 0 <= c <= |node.content|
      invariant ExtractAll(node.content) == children + ExtractAll(node.content[c..])
      invariant ExtractableAll(node.content) <==> ExtractableAll(node.content[c..])
    {
      if node.content[c].Elem? {
        var child := ExtractNode(node.content[c]);
        if child.None? {
          return None;
        }
        children := children + [child.value];
      }
      c := c + 1;
    }
    xml := Some(XmlNode(node.name, value, attributes.value, children));
  }

  lemma {:induction false} ExtractableAppend(xs: seq<Tree>, ys: seq<Tree>)
    ensures ExtractableAll(xs + ys) <==> ExtractableAll(xs) && ExtractableAll(ys)
    decreases |xs|
  {
    if xs == [] {
      assert xs + ys == ys;
    } else {
      assert (xs + ys)[1..] == xs[1..] + ys;
      ExtractableAppend(xs[1..], ys);
    }
  }

  lemma {:induction false} ExtractAllAppend(xs: seq<Tree>, ys: seq<Tree>)
    ensures ExtractAll(xs + ys) == ExtractAll(xs) + ExtractAll(ys)
    decreases |xs|
  {
    if xs == [] {
      assert xs + ys == ys;
    } else {
      assert (xs + ys)[1..] == xs[1..] + ys;
      ExtractAllAppend(xs[1..], ys);
    }
  }

  /** A text or a comment put anywhere behind the first child changes nothing in the extracted tree. In front of
      the first child it takes over the value, and changes nothing else. */
  lemma SiblingInsertion(x: Tree, p: nat, t: Tree)
    requires x.Elem? && !t.Elem? && p <= |x.content|
    ensures var y := x.(content := x.content[..p] + [t] + x.content[p..]);
            && Extract(y) == (if p == 0 then Extract(x).(value := FirstLine(t.text)) else Extract(x))
            && (Extractable(y) <==> Extractable(x))
  {
    var pre, post := x.content[..p], x.content[p..];
    assert pre + post == x.content;
    assert pre + [t] + post == pre + ([t] + post);
    ExtractAllAppend(pre, post);
    ExtractAllAppend(pre, [t] + post);
    ExtractableAppend(pre, post);
    ExtractableAppend(pre, [t] + post);
    assert ([t] + post)[1..] == post;
  }

  lemma ExtractOne(x: Tree)
    requires x.Elem?
    ensures ExtractAll([x]) == [Extract(x)]
  {
    assert [x][1..] == [] && ExtractAll([]) == [];
  }

  lemma ExtractLeaf(name: string, text: string)
    ensures Extract(Leaf(name, text)) == XmlNode(name, FirstLine(text), map[], [])
  {
    var leaf := Leaf(name, text);
    assert Properties([]) == map[];
    if text != "" {
      assert leaf.content[0] == Txt(text) && leaf.content[1..] == [];
      assert ExtractAll(leaf.content) == ExtractAll([]);
    }
  }

  lemma LeafExtractable(name: string, text: string)
    ensures Extractable(Leaf(name, text))
  {
    if text != "" {
      assert [Txt(text)][1..] == [] && ExtractableAll([]);
    }
  }

  lemma OneExtractable(x: Tree)
    requires Extractable(x)
    ensures ExtractableAll([x])
  {
    assert [x][1..] == [] && ExtractableAll([]);
  }

  // ----- attributes and values -----

  /** The last attribute with its name. */
  predicate IsLastOf(attrs: seq<Attr>, i: nat) {
    i < |attrs| && forall j | i < j < |attrs| :: attrs[j].key != attrs[i].key
  }

  predicate Names(attrs: seq<Attr>, key: string) {
    exists i | 0 <= i < |attrs| :: attrs[i].key == key
  }

  lemma {:induction false} PropertyNames(attrs: seq<Attr>, key: string)
    ensures key in Properties(attrs) <==> Names(attrs, key)
    decreases |attrs|
  {
    if attrs != [] {
      var n := |attrs| - 1;
      PropertyNames(attrs[..n], key);
      assert forall i | 0 <= i < n :: attrs[..n][i] == attrs[i];
    }
  }

  lemma {:induction false} PropertyValue(attrs: seq<Attr>, i: nat)
    requires IsLastOf(attrs, i)
    ensures attrs[i].key in Properties(attrs) && Properties(attrs)[attrs[i].key] == attrs[i].value
    decreases |attrs|
  {
    var n := |attrs| - 1;
    if i < n {
      assert attrs[n].key != attrs[i].key && attrs[..n][i] == attrs[i];
      assert forall j | i < j < n :: attrs[..n][j] == attrs[j];
      PropertyValue(attrs[..n], i);
    }
  }

  /** The attributes of an extracted element: its attribute names, each with the value of the last attribute of that
      name. */
  lemma AttributesAre(x: Tree)
    requires x.Elem?
    ensures var m := Extract(x).attributes;
            && (forall key :: key in m <==> Names(x.attrs, key))
            && (forall i: nat | IsLastOf(x.attrs, i) :: x.attrs[i].key in m && m[x.attrs[i].key] == x.attrs[i].value)
  {
    forall key ensures key in Extract(x).attributes <==> Names(x.attrs, key) {
      PropertyNames(x.attrs, key);
    }
    forall i: nat | IsLastOf(x.attrs, i)
      ensures x.attrs[i].key in Extract(x).attributes && Extract(x).attributes[x.attrs[i].key] == x.attrs[i].value
    {
      PropertyValue(x.attrs, i);
    }
  }

  lemma OneAttribute(x: Tree, key: string, value: string)
    requires x.Elem? && x.attrs == [Attr(key, value)]
    ensures Extract(x).attributes == map[key := value]
  {
    PropertyValue(x.attrs, 0);
    forall k ensures k in Extract(x).attributes <==> k == key {
      PropertyNames(x.attrs, k);
    }
  }

  /** The character data that a parser reports, in order. */
  function TextOf(es: seq<Event>): string {
    if es == [] then "" else (if es[0].Chars? then es[0].text else "") + TextOf(es[1..])
  }

  lemma {:induction false} TextOfAppend(es: seq<Event>, fs: seq<Event>)
    ensures TextOf(es + fs) == TextOf(es) + TextOf(fs)
    decreases |es|
  {
    if es == [] {
      assert es + fs == fs;
    } else {
      assert (es + fs)[1..] == es[1..] + fs;
      TextOfAppend(es[1..], fs);
    }
  }

  lemma TextOfOne(e: Event)
    ensures TextOf([e]) == if e.Chars? then e.text else ""
  {
    assert [e][1..] == [] && TextOf([]) == "";
  }

  /** The content of a node but a comment is the character data that is reported for it. */
  lemma {:induction false} ContentIsReported(x: Tree)
    requires !x.Comment?
    ensures Content(x) == TextOf(Events(x))
    decreases x, 1
  {
    match x {
      case Txt(t) => TextOfOne(Chars(t));
      case Elem(name, attrs, content) =>
        ContentsAreReported(content);
        TextOfAppend([Open(name, attrs)] + EventsAll(content), [Close(name)]);
        TextOfAppend([Open(name, attrs)], EventsAll(content));
        TextOfOne(Open(name, attrs));
        TextOfOne(Close(name));
    }
  }

  lemma {:induction false} ContentsAreReported(xs: seq<Tree>)
    ensures ContentAll(xs) == TextOf(EventsAll(xs))
    decreases xs, 0
  {
    if xs != [] {
      ContentsAreReported(xs[1..]);
      TextOfAppend(Events(xs[0]), EventsAll(xs[1..]));
      if !xs[0].Comment? {
        ContentIsReported(xs[0]);
      }
    }
  }

  /** The value of an extracted element: the first line of the text of its first child, and of all the text within that
      child when it is an element. */
  lemma ValueIs(x: Tree)
    requires x.Elem?
    ensures x.content == [] ==> Extract(x).value == ""
    ensures x.content != [] && !x.content[0].Elem? ==> Extract(x).value == FirstLine(x.content[0].text)
    ensures x.content != [] && x.content[0].Elem? ==> Extract(x).value == FirstLine(TextOf(Events(x.content[0])))
  {
    if x.content != [] && x.content[0].Elem? {
      ContentIsReported(x.content[0]);
    }
  }
}
