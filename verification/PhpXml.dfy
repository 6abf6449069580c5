/** The web client's XML (web/xml.php): handlers that build a tree on a stack held in a PHP array, and a printer that
    goes the other way. */
module PhpXml {
  import opened Text
  import opened Xml

  /** An element as a PHP array with the entries name, attrs, tagData (None when unset) and children. */
  datatype Node = Node(name: string, attrs: seq<Attr>, tagData: Option<string>, children: seq<Node>)

  const EMPTY := Node("", [], None, [])

  // ----- PHP arrays with integer keys: entries in insertion order, and the next free key -----

  datatype PhpArray = PhpArray(entries: seq<(int, Node)>, next: int)

  function IndexOf(entries: seq<(int, Node)>, key: int): (i: nat)
    ensures i <= |entries|
    ensures i < |entries| ==> entries[i].0 == key
    ensures forall j | 0 <= j < i :: entries[j].0 != key
  {
    if entries == [] || entries[0].0 == key then 0 else 1 + IndexOf(entries[1..], key)
  }

  /** $a[key]; an unset key reads as an empty array. */
  function Get(a: PhpArray, key: int): Node {
    var i := IndexOf(a.entries, key);
    if i < |a.entries| then a.entries[i].1 else EMPTY
  }

  /** $a[key] = v: in place when the key is set, and at the end otherwise. */
  function Put(a: PhpArray, key: int, v: Node): PhpArray {
    var i := IndexOf(a.entries, key);
    if i < |a.entries| then a.(entries := a.entries[i := (key, v)])
    else PhpArray(a.entries + [(key, v)], if key >= a.next then key + 1 else a.next)
  }

  function ArrayPush(a: PhpArray, v: Node): PhpArray {
    Put(a, a.next, v)
  }

  /** array_pop removes the entry that was inserted last, whatever its key. */
  function ArrayPop(a: PhpArray): PhpArray {
    if a.entries == [] then a
    else
      var last := a.entries[|a.entries| - 1];
      PhpArray(a.entries[..|a.entries| - 1], if last.0 >= 0 && last.0 + 1 == a.next then a.next - 1 else a.next)
  }

  // ----- the handlers -----

  predicate TrimChar(c: char) {
    c == ' ' || c == '\t' || c == LF || c == CR || c == NUL || c == 11 as char
  }

  function TrimLeft(s: string): string {
    if s != "" && TrimChar(s[0]) then TrimLeft(s[1..]) else s
  }

  function TrimRight(s: string): string
    decreases |s|
  {
    if s != "" && TrimChar(s[|s| - 1]) then TrimRight(s[..|s| - 1]) else s
  }

  /** The test `if (trim($tagData))`: false for a blank text, and for "0". */
  predicate Survives(s: string) {
    var t := TrimRight(TrimLeft(s));
    t != "" && t != "0"
  }

  function AddData(n: Node, s: string): Node {
    n.(tagData := Some(if n.tagData.Some? then n.tagData.value + s else s))
  }

  function AddChild(n: Node, child: Node): Node {
    n.(children := n.children + [child])
  }

  function TagOpen(a: PhpArray, name: string, attrs: seq<Attr>): PhpArray {
    ArrayPush(a, Node(name, attrs, None, []))
  }

  function TagData(a: PhpArray, s: string): PhpArray {
    var top := |a.entries| - 1;
    if Survives(s) then Put(a, top, AddData(Get(a, top), s)) else a
  }

  function TagClosed(a: PhpArray): PhpArray {
    var n := |a.entries|;
    ArrayPop(Put(a, n - 2, AddChild(Get(a, n - 2), Get(a, n - 1))))
  }

  class Xml2Array {
    var arrOutput: PhpArray

    constructor ()
      ensures arrOutput == PhpArray([], 0)
    {
      arrOutput := PhpArray([], 0);
    }

    method tagOpen(name: string, attrs: seq<Attr>)
      modifies this
      ensures arrOutput == TagOpen(old(arrOutput), name, attrs)
    {
      var tag := Node(name, attrs, None, []);
      arrOutput := ArrayPush(arrOutput, tag);
    }

    method tagData(s: string)
      modifies this
      ensures arrOutput == TagData(old(arrOutput), s)
    {
      if Survives(s) {
        var key := |arrOutput.entries| - 1;
        var top := Get(arrOutput, key);
        if top.tagData.Some? {
          arrOutput := Put(arrOutput, key, top.(tagData := Some(top.tagData.value + s)));
        } else {
          arrOutput := Put(arrOutput, key, top.(tagData := Some(s)));
        }
      }
    }

    method tagClosed(name: string)
      modifies this
      ensures arrOutput == TagClosed(old(arrOutput))
    {
      var key := |arrOutput.entries| - 2;
      var parent, child := Get(arrOutput, key), Get(arrOutput, key + 1);
      arrOutput := Put(arrOutput, key, parent.(children := parent.children + [child]));
      arrOutput := ArrayPop(arrOutput);
    }

    /** The parser calls the handlers for what it reports, in document order and with names in upper case. The result of
        xml_parse is tested the wrong way round: the script ends (None) when the text was well-formed. */
    method parse(reported: seq<Event>, wellFormed: bool) returns (r: Option<PhpArray>)
      modifies this
      ensures arrOutput == RunArray(old(arrOutput), reported)
      ensures r == if wellFormed then None else Some(arrOutput)
    {
      var i := 0;
      while i < |reported|
        invariant 0 <= i <= |reported|
        invariant RunArray(old(arrOutput), reported) == RunArray(arrOutput, reported[i..])
      {
        match reported[i] {
          case Open(name, attrs) => tagOpen(ToUpper(name), FoldAttrs(attrs));
          case Chars(text) => tagData(text);
          case Close(name) => tagClosed(ToUpper(name));
        }
        i := i + 1;
      }
      if wellFormed {
        return None;
      }
      r := Some(arrOutput);
    }
  }

  /** Case folding of attribute names, XML_OPTION_CASE_FOLDING of PHP's parser. */
  function FoldAttrs(attrs: seq<Attr>): (r: seq<Attr>)
    ensures |r| == |attrs| && forall i | 0 <= i < |attrs| :: r[i] == Attr(ToUpper(attrs[i].key), attrs[i].value)
  {
    seq(|attrs|, i requires 0 <= i < |attrs| => Attr(ToUpper(attrs[i].key), attrs[i].value))
  }

  function HandleArray(a: PhpArray, e: Event): PhpArray {
    match e
    case Open(name, attrs) => TagOpen(a, ToUpper(name), FoldAttrs(attrs))
    case Chars(text) => TagData(a, text)
    case Close(_) => TagClosed(a)
  }

  function RunArray(a: PhpArray, es: seq<Event>): PhpArray
    decreases |es|
  {
    if es == [] then a else RunArray(HandleArray(a, es[0]), es[1..])
  }

  // ----- the array is a stack -----

  /** The array that holds a stack: keys 0, 1, 2, ... in order. */
  function Stacked(st: seq<Node>): PhpArray {
    PhpArray(seq(|st|, i requires 0 <= i < |st| => (i, st[i])), |st|)
  }

  lemma {:induction false} IndexOfKey(entries: seq<(int, Node)>, key: int)
    requires 0 <= key < |entries| && forall j | 0 <= j < |entries| :: entries[j].0 == j
    ensures IndexOf(entries, key) == key
  {
    assert entries[key].0 == key;
  }

  lemma IndexOfMissing(entries: seq<(int, Node)>, key: int)
    requires forall j | 0 <= j < |entries| :: entries[j].0 != key
    ensures IndexOf(entries, key) == |entries|
  {
  }

  lemma GetStacked(st: seq<Node>, key: int)
    ensures Get(Stacked(st), key) == if 0 <= key < |st| then st[key] else EMPTY
  {
    if 0 <= key < |st| {
      IndexOfKey(Stacked(st).entries, key);
    } else {
      IndexOfMissing(Stacked(st).entries, key);
    }
  }

  lemma PutStacked(st: seq<Node>, key: int, v: Node)
    requires 0 <= key < |st|
    ensures Put(Stacked(st), key, v) == Stacked(st[key := v])
  {
    IndexOfKey(Stacked(st).entries, key);
  }

  lemma PushStacked(st: seq<Node>, v: Node)
    ensures ArrayPush(Stacked(st), v) == Stacked(st + [v])
  {
    IndexOfMissing(Stacked(st).entries, |st|);
  }

  lemma PopStacked(st: seq<Node>)
    requires st != []
    ensures ArrayPop(Stacked(st)) == Stacked(st[..|st| - 1])
  {
  }

  function Top(st: seq<Node>): Node
    requires st != []
  {
    st[|st| - 1]
  }

  /** What the handlers do to the stack. Closing the root leaves it in place. */
  function Handle(st: seq<Node>, e: Event): seq<Node>
    requires e.Open? || st != []
  {
    var n := |st|;
    match e
    case Open(name, attrs) => st + [Node(ToUpper(name), FoldAttrs(attrs), None, [])]
    case Chars(text) => if Survives(text) then st[n - 1 := AddData(st[n - 1], text)] else st
    case Close(_) => if n == 1 then st else st[..n - 1][n - 2 := AddChild(st[n - 2], st[n - 1])]
  }

  /** On an array that holds a stack the handlers are stack operations. When the root is closed, index -1 gets a
      fresh entry behind the root, and that entry is the one popped. */
  lemma {:induction false} HandlersAreStackOperations(st: seq<Node>, e: Event)
    requires e.Open? || st != []
    ensures HandleArray(Stacked(st), e) == Stacked(Handle(st, e))
  {
    var n := |st|;
    match e {
      case Open(name, attrs) =>
        PushStacked(st, Node(ToUpper(name), FoldAttrs(attrs), None, []));
      case Chars(text) =>
        GetStacked(st, n - 1);
        PutStacked(st, n - 1, AddData(st[n - 1], text));
      case Close(_) =>
        GetStacked(st, n - 1);
        GetStacked(st, n - 2);
        if n == 1 {
          IndexOfMissing(Stacked(st).entries, -1);
          CloseRoot(st);
        } else {
          var st1 := st[n - 2 := AddChild(st[n - 2], st[n - 1])];
          PutStacked(st, n - 2, AddChild(st[n - 2], st[n - 1]));
          PopStacked(st1);
          assert st1[..n - 1] == st[..n - 1][n - 2 := AddChild(st[n - 2], st[n - 1])];
        }
    }
  }

  lemma CloseRoot(st: seq<Node>)
    requires |st| == 1
    ensures ArrayPop(Put(Stacked(st), -1, AddChild(EMPTY, st[0]))) == Stacked(st)
  {
    IndexOfMissing(Stacked(st).entries, -1);
  }

  // ----- the stack builds trees -----

  /** The node that an element becomes. */
  function Built(x: Tree): Node
    requires x.Elem?
    decreases x, 1
  {
    var n := Node(ToUpper(x.name), FoldAttrs(x.attrs), None, []);
    var data := SurvivingText(x.content);
    n.(tagData := if data == [] then None else Some(Join(data)), children := BuiltAll(x.content))
  }

  /** The nodes of the element children, in order. */
  function BuiltAll(xs: seq<Tree>): seq<Node>
    decreases xs, 0
  {
    if xs == [] then []
    else if xs[0].Elem? then [Built(xs[0])] + BuiltAll(xs[1..])
    else BuiltAll(xs[1..])
  }

  /** The chunks of character data that pass the trim test. */
  function SurvivingText(xs: seq<Tree>): seq<string> {
    if xs == [] then []
    else if xs[0].Txt? && Survives(xs[0].text) then [xs[0].text] + SurvivingText(xs[1..])
    else SurvivingText(xs[1..])
  }

  function Join(ss: seq<string>): string {
    if ss == [] then "" else ss[0] + Join(ss[1..])
  }

  function AddTexts(n: Node, ss: seq<string>): Node {
    if ss == [] then n
    else n.(tagData := Some((if n.tagData.Some? then n.tagData.value else "") + Join(ss)))
  }

  function AddContent(n: Node, xs: seq<Tree>): Node {
    var m := AddTexts(n, SurvivingText(xs));
    m.(children := m.children + BuiltAll(xs))
  }

  function SetTop(st: seq<Node>, n: Node): seq<Node>
    requires st != []
  {
    st[|st| - 1 := n]
  }

  /** One event on an array that holds a stack. */
  lemma RunStep(st: seq<Node>, e: Event, es: seq<Event>)
    requires e.Open? || st != []
    ensures RunArray(Stacked(st), [e] + es) == RunArray(Stacked(Handle(st, e)), es)
  {
    assert ([e] + es)[1..] == es;
    HandlersAreStackOperations(st, e);
  }

  function Fresh(x: Tree): Node
    requires x.Elem?
  {
    Node(ToUpper(x.name), FoldAttrs(x.attrs), None, [])
  }

  lemma FreshFilled(x: Tree)
    requires x.Elem?
    ensures AddContent(Fresh(x), x.content) == Built(x)
  {
    var data := SurvivingText(x.content);
    assert "" + Join(data) == Join(data);
    assert [] + BuiltAll(x.content) == BuiltAll(x.content);
  }

  lemma EventsSplit(x: Tree, es: seq<Event>)
    requires x.Elem?
    ensures Events(x) + es == [Open(x.name, x.attrs)] + (EventsAll(x.content) + ([Close(x.name)] + es))
  {
  }

  lemma CloseOn(st: seq<Node>, node: Node, name: string)
    requires st != []
    ensures Handle(st + [node], Close(name)) == SetTop(st, AddChild(Top(st), node))
  {
    assert (st + [node])[..|st|] == st;
  }

  /** Stack-builder correctness: on any non-empty stack the events of an element append its node to the children of
      the top and change nothing else, whatever events follow. */
  lemma {:induction false} ElementAppends(st: seq<Node>, x: Tree, es: seq<Event>)
    requires st != [] && x.Elem?
    ensures RunArray(Stacked(st), Events(x) + es) == RunArray(Stacked(SetTop(st, AddChild(Top(st), Built(x)))), es)
    decreases x, 1
  {
    var end := [Close(x.name)] + es;
    EventsSplit(x, es);
    RunStep(st, Open(x.name, x.attrs), EventsAll(x.content) + end);
    var st1 := st + [Fresh(x)];
    ContentAppends(st1, x.content, end);
    FreshFilled(x);
    assert SetTop(st1, Built(x)) == st + [Built(x)];
    RunStep(st + [Built(x)], Close(x.name), es);
    CloseOn(st, Built(x), x.name);
  }

  lemma {:induction false} ContentAppends(st: seq<Node>, xs: seq<Tree>, es: seq<Event>)
    requires st != []
    ensures RunArray(Stacked(st), EventsAll(xs) + es) == RunArray(Stacked(SetTop(st, AddContent(Top(st), xs))), es)
    decreases xs, 0
  {
    if xs == [] {
      assert EventsAll(xs) + es == es;
      assert SetTop(st, AddContent(Top(st), [])) == st by {
        assert Top(st).children + [] == Top(st).children;
      }
    } else {
      var more := EventsAll(xs[1..]) + es;
      assert EventsAll(xs) + es == Events(xs[0]) + more;
      var n1 := AddOne(Top(st), xs[0]);
      OneAppends(st, xs[0], more);
      ContentAppends(SetTop(st, n1), xs[1..], es);
      AddContentSplit(Top(st), xs);
      assert SetTop(SetTop(st, n1), AddContent(n1, xs[1..])) == SetTop(st, AddContent(n1, xs[1..]));
    }
  }

  function AddOne(n: Node, x: Tree): Node {
    match x
    case Comment(_) => n
    case Txt(t) => if Survives(t) then AddData(n, t) else n
    case Elem(_, _, _) => AddChild(n, Built(x))
  }

  lemma {:induction false} OneAppends(st: seq<Node>, x: Tree, es: seq<Event>)
    requires st != []
    ensures RunArray(Stacked(st), Events(x) + es) == RunArray(Stacked(SetTop(st, AddOne(Top(st), x))), es)
    decreases x, 2
  {
    match x {
      case Comment(_) =>
        assert [] + es == es;
        assert SetTop(st, Top(st)) == st;
      case Txt(t) =>
        RunStep(st, Chars(t), es);
        assert Handle(st, Chars(t)) == SetTop(st, AddOne(Top(st), x));
      case Elem(_, _, _) =>
        ElementAppends(st, x, es);
    }
  }

  lemma AddContentSplit(n: Node, xs: seq<Tree>)
    requires xs != []
    ensures AddContent(n, xs) == AddContent(AddOne(n, xs[0]), xs[1..])
  {
    assert xs == [xs[0]] + xs[1..];
    if xs[0].Txt? {
      TextFirst(n, xs[0].text, xs[1..]);
    } else if xs[0].Elem? {
      var c := Built(xs[0]);
      assert n.children + [c] + BuiltAll(xs[1..]) == n.children + ([c] + BuiltAll(xs[1..]));
    }
  }

  lemma TextFirst(n: Node, t: string, xs: seq<Tree>)
    ensures AddContent(if Survives(t) then AddData(n, t) else n, xs) == AddContent(n, [Txt(t)] + xs)
  {
    assert ([Txt(t)] + xs)[1..] == xs;
    var rest := SurvivingText(xs);
    assert Join([t] + rest) == t + Join(rest) by { assert ([t] + rest)[1..] == rest; }
    var old' := if n.tagData.Some? then n.tagData.value else "";
    assert old' + (t + Join(rest)) == old' + t + Join(rest);
    if rest == [] {
      assert old' + t + "" == old' + t;
    }
    assert n.tagData.None? ==> "" + t == t;
  }

  /** From the empty array the events of a document leave its root, at index 0. */
  lemma DocumentBuilds(x: Tree)
    requires x.Elem?
    ensures RunArray(PhpArray([], 0), Events(x)) == Stacked([Built(x)])
  {
    assert PhpArray([], 0) == Stacked([]);
    EventsSplit(x, []);
    assert Events(x) + [] == Events(x);
    var end := [Close(x.name)] + [];
    RunStep([], Open(x.name, x.attrs), EventsAll(x.content) + end);
    assert [] + [Fresh(x)] == [Fresh(x)];
    ContentAppends([Fresh(x)], x.content, end);
    FreshFilled(x);
    assert SetTop([Fresh(x)], Built(x)) == [Built(x)];
    RunStep([Built(x)], Close(x.name), []);
  }

  // ----- what the trim test accepts -----

  /** The characters that trim removes at both ends. */
  const BLANKS := " \t\n\r\0\U{000B}"

  predicate AllBlank(s: string) {
    forall i | 0 <= i < |s| :: s[i] in BLANKS
  }

  /** Nothing but blanks, or a zero among blanks. */
  ghost predicate IsDropped(s: string) {
    AllBlank(s) || exists i | 0 <= i < |s| :: s[i] == '0' && AllBlank(s[..i]) && AllBlank(s[i + 1..])
  }

  lemma BlanksAre(c: char)
    ensures c in BLANKS <==> TrimChar(c)
  {
    assert BLANKS[0] == ' ' && BLANKS[1] == '\t' && BLANKS[2] == '\n' && BLANKS[3] == '\r' && BLANKS[4] == '\0';
    assert BLANKS[5] == 11 as char;
  }

  /** What is left of a text between the blanks at its ends. */
  lemma {:induction false} TrimLeftIs(s: string) returns (k: nat)
    ensures k <= |s| && TrimLeft(s) == s[k..] && AllBlank(s[..k])
    ensures k < |s| ==> s[k] !in BLANKS
  {
    k := 0;
    if s != "" {
      BlanksAre(s[0]);
      if TrimChar(s[0]) {
        k := TrimLeftIs(s[1..]);
        assert s[1..][k..] == s[k + 1..];
        assert forall i | 1 <= i < k + 1 :: s[i] == s[1..][..k][i - 1];
        k := k + 1;
      }
    }
  }

  lemma {:induction false} TrimRightIs(s: string) returns (k: nat)
    ensures k <= |s| && TrimRight(s) == s[..k] && AllBlank(s[k..])
    ensures k > 0 ==> s[k - 1] !in BLANKS
    decreases |s|
  {
    k := |s|;
    if s != "" {
      BlanksAre(s[|s| - 1]);
      if TrimChar(s[|s| - 1]) {
        k := TrimRightIs(s[..|s| - 1]);
        assert forall i | k <= i < |s| - 1 :: s[i] == s[..|s| - 1][k..][i - k];
      }
    }
  }

  lemma TrimIs(s: string) returns (a: nat, b: nat)
    ensures a <= b <= |s| && TrimRight(TrimLeft(s)) == s[a..b] && AllBlank(s[..a]) && AllBlank(s[b..])
    ensures a < b ==> s[a] !in BLANKS && s[b - 1] !in BLANKS
  {
    a := TrimLeftIs(s);
    var t := s[a..];
    var k := TrimRightIs(t);
    b := a + k;
    assert t[..k] == s[a..b] && t[k..] == s[b..];
  }

  /** The trim test drops a text exactly when it is all blank, or a zero between blanks. */
  lemma DroppedExactly(s: string)
    ensures Survives(s) <==> !IsDropped(s)
  {
    var a, b := TrimIs(s);
    if a == b {
      AllBlankParts(s, a);
    } else {
      assert !AllBlank(s);
      if s[a..b] == "0" {
        assert s[a] == s[a..b][0] == '0' && b == a + 1;
      }
      if i :| 0 <= i < |s| && s[i] == '0' && AllBlank(s[..i]) && AllBlank(s[i + 1..]) {
        OnlyAt(s, i, a);
        OnlyAt(s, i, b - 1);
        assert s[a..b] == "0";
      }
    }
  }

  lemma AllBlankParts(s: string, a: nat)
    requires a <= |s| && AllBlank(s[..a]) && AllBlank(s[a..])
    ensures AllBlank(s) && IsDropped(s)
  {
    forall i | 0 <= i < |s| ensures s[i] in BLANKS {
      assert s[i] == if i < a then s[..a][i] else s[a..][i - a];
    }
  }

  lemma OnlyAt(s: string, i: nat, k: nat)
    requires i < |s| && k < |s| && AllBlank(s[..i]) && AllBlank(s[i + 1..]) && s[k] !in BLANKS
    ensures k == i
  {
    forall j | 0 <= j < i ensures s[j] in BLANKS {
      assert s[..i][j] == s[j];
    }
    forall j | i < j < |s| ensures s[j] in BLANKS {
      assert s[i + 1..][j - i - 1] == s[j];
    }
  }

  /** What the text handler does to the entry on top, in full: it appends the text, unless that is all blank or a zero
      between blanks. */
  lemma TagDataAppendsExactly(st: seq<Node>, s: string)
    requires st != []
    ensures var n := |st| - 1; var data := if st[n].tagData.Some? then st[n].tagData.value else "";
            TagData(Stacked(st), s) == Stacked(if IsDropped(s) then st else st[n := st[n].(tagData := Some(data + s))])
  {
    DroppedExactly(s);
    HandlersAreStackOperations(st, Chars(s));
    assert "" + s == s;
  }

  // ----- how text is cut into chunks -----

  function AsText(chunks: seq<string>): seq<Tree> {
    seq(|chunks|, i requires 0 <= i < |chunks| => Txt(chunks[i]))
  }

  /** The text collected from chunks is the whole text exactly when no chunk but an empty one fails the trim test. */
  lemma {:induction false} ChunksJoin(chunks: seq<string>)
    ensures |Join(SurvivingText(AsText(chunks)))| <= |Join(chunks)|
    ensures Join(SurvivingText(AsText(chunks))) == Join(chunks)
            <==> forall i | 0 <= i < |chunks| :: chunks[i] == "" || Survives(chunks[i])
  {
    if chunks != [] {
      var c, rest := chunks[0], chunks[1..];
      assert AsText(chunks)[1..] == AsText(rest);
      ChunksJoin(rest);
      var mine := SurvivingText(AsText(rest));
      assert chunks == [c] + rest;
      if Survives(c) {
        assert ([c] + mine)[1..] == mine;
        assert Join(SurvivingText(AsText(chunks))) == c + Join(mine);
        assert c + Join(mine) == c + Join(rest) <==> Join(mine) == Join(rest) by {
          assert (c + Join(mine))[|c|..] == Join(mine) && (c + Join(rest))[|c|..] == Join(rest);
        }
      } else {
        assert Join(chunks) == c + Join(rest);
        assert c == "" ==> Join(chunks) == Join(rest);
      }
    }
  }
}
