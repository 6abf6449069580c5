/** The part of XML 1.0 that the programs emit: elements, attributes, character data and CDATA sections. The parsers
    themselves (expat, libxml2) are libraries; this is a model of what they report for such text. */
module Xml {
  import opened Text

  datatype Attr = Attr(key: string, value: string)

  /** What a parser reports, in document order. */
  datatype Event = Open(name: string, attrs: seq<Attr>) | Chars(text: string) | Close(name: string)

  /** A document: elements, and the character data and comments between their tags. */
  datatype Tree = Elem(name: string, attrs: seq<Attr>, content: seq<Tree>) | Txt(text: string) | Comment(text: string)

  function Events(x: Tree): seq<Event>
    decreases x, 1
  {
    match x
    case Txt(t) => [Chars(t)]
    case Comment(_) => []
    case Elem(name, attrs, content) => [Open(name, attrs)] + EventsAll(content) + [Close(name)]
  }

  function EventsAll(xs: seq<Tree>): seq<Event>
    decreases xs, 0
  {
    if xs == [] then [] else Events(xs[0]) + EventsAll(xs[1..])
  }

  // ----- characters -----

  predicate NameChar(c: char) {
    'a' <= c <= 'z' || 'A' <= c <= 'Z' || '0' <= c <= '9' || c == '-' || c == '_' || c == '.' || c == ':'
  }

  predicate NameStart(c: char) {
    'a' <= c <= 'z' || 'A' <= c <= 'Z' || c == '_' || c == ':'
  }

  predicate IsName(s: string) {
    s != "" && NameStart(s[0]) && forall i | 0 <= i < |s| :: NameChar(s[i])
  }

  predicate IsBlank(c: char) {
    c == '\t' || c == LF || c == CR
  }

  /** The characters that a document may hold at all (section 2.2 of XML 1.0). */
  predicate XmlChar(c: char) {
    c == '\t' || c == LF || c == CR || (' ' <= c && c != '\U{FFFE}' && c != '\U{FFFF}')
  }

  predicate Legal(s: string) {
    forall i | 0 <= i < |s| :: XmlChar(s[i])
  }

  /** Attribute values print and read back literally when they need no escaping and no normalisation
      (section 3.3.3 of XML 1.0). */
  predicate PlainValue(s: string) {
    Legal(s) && forall i | 0 <= i < |s| :: s[i] != '"' && s[i] != '<' && s[i] != '&' && !IsBlank(s[i])
  }

  predicate NoMarkup(s: string) {
    forall i | 0 <= i < |s| :: s[i] != '<' && s[i] != '&' && s[i] != CR
  }

  /** What character data may not hold besides markup (section 2.4 of XML 1.0). */
  predicate Acceptable(s: string) {
    Legal(s) && !Contains(s, CDEND)
  }

  /** Character data that needs no escaping. */
  predicate PlainText(s: string) {
    NoMarkup(s) && Acceptable(s)
  }

  lemma NoEndWithin(s: string)
    requires '>' !in s
    ensures !Contains(s, CDEND)
  {
    if Contains(s, CDEND) {
      assert CDEND[2] == '>';
      ContainsCharacters(s, CDEND, '>');
    }
  }

  lemma EndWithin(s: string, from: nat, until: nat)
    requires from <= until <= |s|
    ensures Contains(s[from..until], CDEND) ==> Contains(s, CDEND)
  {
    var part := s[from..until];
    if Contains(part, CDEND) {
      var k: nat :| k <= |part| && OccursAt(part, CDEND, k);
      SliceOfSlice(s, from, until, k, k + |CDEND|);
      assert OccursAt(s, CDEND, from + k);
    }
  }

  lemma PlainPart(s: string, from: nat, until: nat)
    requires PlainText(s) && from <= until <= |s|
    ensures PlainText(s[from..until])
  {
    EndWithin(s, from, until);
  }

  predicate DistinctKeys(attrs: seq<Attr>) {
    forall i, j | 0 <= i < j < |attrs| :: attrs[i].key != attrs[j].key
  }

  predicate PlainItems(attrs: seq<Attr>) {
    forall i | 0 <= i < |attrs| :: IsName(attrs[i].key) && PlainValue(attrs[i].value)
  }

  /** No attribute name may stand twice in a tag (section 3.1 of XML 1.0). */
  predicate PlainAttrs(attrs: seq<Attr>) {
    PlainItems(attrs) && DistinctKeys(attrs)
  }

  // ----- lexer -----

  /** The longest prefix of name characters. */
  function TakeName(s: string): (n: string)
    ensures n <= s
  {
    if s == "" || !NameChar(s[0]) then "" else [s[0]] + TakeName(s[1..])
  }

  /** The text up to the first occurrence of `stop`. */
  function TakeUntil(s: string, stop: char): (t: string)
    ensures |t| <= |s|
  {
    if s == "" || s[0] == stop then "" else [s[0]] + TakeUntil(s[1..], stop)
  }

  lemma {:induction false} TakeUntilIs(s: string, stop: char)
    ensures var t := TakeUntil(s, stop);
            t <= s && stop !in t && (|t| < |s| ==> s[|t|] == stop)
  {
    if s != "" && s[0] != stop {
      TakeUntilIs(s[1..], stop);
    }
  }

  function Blanked(value: string): string {
    seq(|value|, i requires 0 <= i < |value| => if IsBlank(value[i]) then ' ' else value[i])
  }

  datatype AttrsRead = AttrsRead(attrs: seq<Attr>, rest: string)

  /** The attributes of a start tag, each behind a blank, up to the end of the tag. */
  function TakeAttrs(s: string): (r: Option<AttrsRead>)
    ensures r.Some? ==> |r.value.rest| <= |s|
    decreases |s|
  {
    if s == "" then None
    else if s[0] == '>' || s[0] == '/' then Some(AttrsRead([], s))
    else if s[0] != ' ' then None
    else
      var key := TakeName(s[1..]);
      if key == "" then TakeAttrs(s[1..])
      else
        var s1 := s[1 + |key|..];
        if !("=\"" <= s1) then None
        else
          var value := TakeUntil(s1[2..], '"');
          var s2 := s1[2 + |value|..];
          if s2 == "" || '<' in value || '&' in value || !Legal(value) then None
          else
            match TakeAttrs(s2[1..])
            case None => None
            case Some(r) => Some(AttrsRead([Attr(key, Blanked(value))] + r.attrs, r.rest))
  }

  const CDATA := "<![CDATA["
  const CDEND := "]]>"

  function Prepend(es: seq<Event>, r: Option<seq<Event>>): Option<seq<Event>> {
    match r
    case None => None
    case Some(rest) => Some(es + rest)
  }

  /** The events of a text whose line ends are already normalised; None when it is not of the modelled kind. */
  function Lex(s: string): (r: Option<seq<Event>>)
    decreases |s|
  {
    if s == "" then Some([])
    else if s[0] != '<' then
      var text := TakeUntil(s, '<');
      if '&' in text || !Acceptable(text) then None else Prepend([Chars(text)], Lex(s[|text|..]))
    else if CDATA <= s then
      var end := Find(s, CDEND, |CDATA|);
      if end.None? then None
      else
        var text := s[|CDATA|..end.value];
        if !Legal(text) then None
        else Prepend(if text == "" then [] else [Chars(text)], Lex(s[end.value + |CDEND|..]))
    else if "</" <= s then
      var name := TakeName(s[2..]);
      var s1 := s[2 + |name|..];
      if !IsName(name) || !(">" <= s1) then None
      else Prepend([Close(name)], Lex(s1[1..]))
    else LexStart(s)
  }

  /** A start tag or an empty-element tag. */
  function LexStart(s: string): (r: Option<seq<Event>>)
    requires s != ""
    decreases |s|, 0
  {
    var name := TakeName(s[1..]);
    if !IsName(name) then None
    else
      match TakeAttrs(s[1 + |name|..])
      case None => None
      case Some(a) =>
        if !DistinctKeys(a.attrs) then None
        else if ">" <= a.rest then Prepend([Open(name, a.attrs)], Lex(a.rest[1..]))
        else if "/>" <= a.rest then Prepend([Open(name, a.attrs), Close(name)], Lex(a.rest[2..]))
        else None
  }

  /** Line ends are normalised before anything else (section 2.11 of XML 1.0). */
  function NormalLines(s: string): string {
    if s == "" then ""
    else if s[0] == CR then [LF] + NormalLines(if |s| > 1 && s[1] == LF then s[2..] else s[1..])
    else [s[0]] + NormalLines(s[1..])
  }

  function Parse(s: string): Option<seq<Event>> {
    Lex(NormalLines(s))
  }

  lemma {:induction false} NormalLinesSame(s: string)
    requires CR !in s
    ensures NormalLines(s) == s
  {
    if s != "" {
      assert s == [s[0]] + s[1..];
      NormalLinesSame(s[1..]);
    }
  }

  // ----- what the lexer makes of printed pieces -----

  lemma {:induction false} TakeNameOf(name: string, s: string)
    requires forall i | 0 <= i < |name| :: NameChar(name[i])
    requires s == "" || !NameChar(s[0])
    ensures TakeName(name + s) == name
  {
    if name == "" {
      assert name + s == s;
    } else {
      assert (name + s)[1..] == name[1..] + s;
      TakeNameOf(name[1..], s);
    }
  }

  lemma {:induction false} TakeUntilOf(text: string, stop: char, s: string)
    requires stop !in text && (s == "" || s[0] == stop)
    ensures TakeUntil(text + s, stop) == text
  {
    if text == "" {
      assert text + s == s;
    } else {
      assert (text + s)[1..] == text[1..] + s;
      TakeUntilOf(text[1..], stop, s);
    }
  }

  function KeyValue(a: Attr): string {
    a.key + "=\"" + a.value + "\""
  }

  function AttrItem(a: Attr): string {
    " " + KeyValue(a)
  }

  function AttrText(attrs: seq<Attr>): string {
    if attrs == [] then "" else AttrItem(attrs[0]) + AttrText(attrs[1..])
  }

  lemma Regroup5(a: string, b: string, c: string, d: string, e: string)
    ensures a + b + c + d + e == a + b + (c + (d + e))
  {
  }

  lemma BlankedPlain(value: string)
    requires PlainValue(value)
    ensures Blanked(value) == value && '"' !in value && '<' !in value && '&' !in value
  {
  }

  lemma OneAttrSplit(a: Attr, more: string)
    ensures var t := AttrItem(a) + more; var s1 := "=\"" + a.value + "\"" + more;
            && t[1..] == a.key + s1 && t[1 + |a.key|..] == s1
            && s1[2..] == a.value + ("\"" + more)
            && s1[2 + |a.value|..] == "\"" + more
            && "=\"" <= s1
  {
    var t := AttrItem(a) + more;
    var s1 := "=\"" + a.value + "\"" + more;
    assert t[1..] == a.key + s1;
    assert t[1 + |a.key|..] == t[1..][|a.key|..];
  }

  /** One attribute of a start tag: its key and its value are cut off. */
  lemma OneAttr(a: Attr, more: string)
    requires IsName(a.key) && PlainValue(a.value)
    ensures var t := AttrItem(a) + more;
            && TakeName(t[1..]) == a.key
            && var s1 := t[1 + |a.key|..];
            && "=\"" <= s1
            && TakeUntil(s1[2..], '"') == a.value
            && s1[2 + |a.value|..] == "\"" + more
  {
    var key, value := a.key, a.value;
    var s1 := "=\"" + value + "\"" + more;
    OneAttrSplit(a, more);
    TakeNameOf(key, s1);
    BlankedPlain(value);
    TakeUntilOf(value, '"', "\"" + more);
  }

  lemma TakeAttrsStep(a: Attr, more: string)
    requires IsName(a.key) && PlainValue(a.value) && TakeAttrs(more).Some?
    ensures TakeAttrs(AttrItem(a) + more)
         == Some(AttrsRead([a] + TakeAttrs(more).value.attrs, TakeAttrs(more).value.rest))
  {
    OneAttr(a, more);
    BlankedPlain(a.value);
    assert ("\"" + more)[1..] == more;
    assert (AttrItem(a) + more)[0] == ' ';
    assert Attr(a.key, a.value) == a;
  }

  lemma HeadTail(attrs: seq<Attr>)
    requires attrs != []
    ensures [attrs[0]] + attrs[1..] == attrs
  {
  }

  /** Printed attributes read back as they are, whatever follows the tag. */
  lemma {:induction false} TakeAttrsOf(attrs: seq<Attr>, s: string)
    requires PlainItems(attrs) && s != "" && (s[0] == '>' || s[0] == '/')
    ensures TakeAttrs(AttrText(attrs) + s) == Some(AttrsRead(attrs, s))
  {
    if attrs == [] {
      assert AttrText(attrs) + s == s;
    } else {
      TakeAttrsOf(attrs[1..], s);
      TakeAttrsStep(attrs[0], AttrText(attrs[1..]) + s);
      Regroup(AttrItem(attrs[0]), AttrText(attrs[1..]), s);
      HeadTail(attrs);
    }
  }

  lemma NameFacts(name: string)
    requires IsName(name)
    ensures name[0] != '<' && name[0] != '!' && name[0] != '/'
  {
  }

  lemma IsStartTag(name: string, more: string)
    requires IsName(name)
    ensures Lex("<" + name + more) == LexStart("<" + name + more)
  {
    var t := "<" + name + more;
    NameFacts(name);
    assert t[0] == '<' && t[1] == name[0];
    assert CDATA[1] == '!' && "</"[1] == '/';
    assert !(CDATA <= t) && !("</" <= t);
  }

  lemma TagSplit(name: string, more: string)
    requires IsName(name) && more != "" && !NameChar(more[0])
    ensures TakeName(("<" + name + more)[1..]) == name && ("<" + name + more)[1 + |name|..] == more
  {
    assert ("<" + name + more)[1..] == name + more;
    TakeNameOf(name, more);
  }

  lemma {:induction false} LexStartIs(t: string, name: string, attrs: seq<Attr>, end: string)
    requires |t| > |name| && TakeName(t[1..]) == name && IsName(name) && DistinctKeys(attrs)
    requires TakeAttrs(t[1 + |name|..]) == Some(AttrsRead(attrs, end))
    ensures ">" <= end ==> LexStart(t) == Prepend([Open(name, attrs)], Lex(end[1..]))
    ensures "/>" <= end ==> LexStart(t) == Prepend([Open(name, attrs), Close(name)], Lex(end[2..]))
  {
    assert ">"[0] == '>' && "/>"[0] == '/';
    assert ">" <= end ==> end[0] == '>';
  }

  /** A start tag whose attributes have been read up to `end`. */
  lemma {:induction false} LexTag(name: string, attrs: seq<Attr>, more: string, end: string)
    requires IsName(name) && more != "" && !NameChar(more[0]) && DistinctKeys(attrs)
    requires TakeAttrs(more) == Some(AttrsRead(attrs, end))
    ensures ">" <= end ==> Lex("<" + name + more) == Prepend([Open(name, attrs)], Lex(end[1..]))
    ensures "/>" <= end ==> Lex("<" + name + more) == Prepend([Open(name, attrs), Close(name)], Lex(end[2..]))
  {
    IsStartTag(name, more);
    TagSplit(name, more);
    LexStartIs("<" + name + more, name, attrs, end);
  }

  lemma AttrTextStart(attrs: seq<Attr>, end: string)
    requires end != "" && (end[0] == '>' || end[0] == '/')
    ensures AttrText(attrs) + end != "" && !NameChar((AttrText(attrs) + end)[0])
  {
  }

  lemma LexOpen(name: string, attrs: seq<Attr>, s: string)
    requires IsName(name) && PlainAttrs(attrs)
    ensures Lex("<" + name + AttrText(attrs) + ">" + s) == Prepend([Open(name, attrs)], Lex(s))
  {
    var end := ">" + s;
    TakeAttrsOf(attrs, end);
    AttrTextStart(attrs, end);
    LexTag(name, attrs, AttrText(attrs) + end, end);
    Regroup5("<", name, AttrText(attrs), ">", s);
    assert end[1..] == s;
  }

  lemma LexEmpty(name: string, attrs: seq<Attr>, s: string)
    requires IsName(name) && PlainAttrs(attrs)
    ensures Lex("<" + name + AttrText(attrs) + "/>" + s) == Prepend([Open(name, attrs), Close(name)], Lex(s))
  {
    var end := "/>" + s;
    TakeAttrsOf(attrs, end);
    AttrTextStart(attrs, end);
    LexTag(name, attrs, AttrText(attrs) + end, end);
    Regroup5("<", name, AttrText(attrs), "/>", s);
    assert end[2..] == s;
  }

  lemma LexClose(name: string, s: string)
    requires IsName(name)
    ensures Lex("</" + name + ">" + s) == Prepend([Close(name)], Lex(s))
  {
    var t := "</" + name + ">" + s;
    assert t[1] == '/';
    assert !(CDATA <= t) by { assert CDATA[1] == '!'; }
    assert t[..2] == "</";
    assert t[2..] == name + (">" + s);
    TakeNameOf(name, ">" + s);
    assert t[2 + |name|..] == ">" + s && (">" + s)[1..] == s;
  }

  lemma LexText(text: string, s: string)
    requires text != "" && PlainText(text) && (s == "" || s[0] == '<')
    ensures Lex(text + s) == Prepend([Chars(text)], Lex(s))
  {
    TakeUntilOf(text, '<', s);
    assert (text + s)[|text|..] == s;
  }

  /** Text that a document may not hold makes a parser refuse it. */
  lemma LexRefuses(text: string, s: string)
    requires text != "" && '<' !in text && !Acceptable(text) && (s == "" || s[0] == '<')
    ensures Lex(text + s).None?
  {
    TakeUntilOf(text, '<', s);
  }

  lemma Pieces(a: string, b: string, c: string, d: string)
    ensures var t := a + b + c + d; var k := |a| + |b|;
            t[..|a|] == a && t[|a|..k] == b && t[k..k + |c|] == c && t[k + |c|..] == d
  {
  }

  /** A CDATA end behind the text is the first one when the text has none. */
  lemma FirstEnd(t: string, text: string, from: nat)
    requires from + |text| + |CDEND| <= |t| && t[from..from + |text|] == text && !Contains(text, CDEND)
    requires t[from + |text|..from + |text| + |CDEND|] == CDEND
    ensures Find(t, CDEND, from) == Some(from + |text|)
  {
    var k := from + |text|;
    forall j: nat | from <= j < k ensures !OccursAt(t, CDEND, j) {
      if OccursAt(t, CDEND, j) {
        NoOverlap(t, j, k);
        SliceOfSlice(t, from, k, j - from, j - from + |CDEND|);
        assert OccursAt(text, CDEND, j - from);
      }
    }
    FindIs(t, CDEND, from, k);
  }

  lemma NoOverlap(t: string, j: nat, k: nat)
    requires j < k && OccursAt(t, CDEND, j) && OccursAt(t, CDEND, k)
    ensures j + |CDEND| <= k
  {
    var a, b := t[j..j + 3], t[k..k + 3];
    assert a[1] == t[j + 1] && a[2] == t[j + 2] && b[0] == t[k] && b[1] == t[k + 1];
    assert a[2] == '>' && a[1] == ']' && b[0] == ']' && b[1] == ']';
  }

  lemma LexCData(text: string, s: string)
    requires text != "" && Acceptable(text)
    ensures Lex(CDATA + text + CDEND + s) == Prepend([Chars(text)], Lex(s))
  {
    Pieces(CDATA, text, CDEND, s);
    FirstEnd(CDATA + text + CDEND + s, text, |CDATA|);
  }
}
