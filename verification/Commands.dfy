/** Commands::createCommand (lib/commands.cc) and what the daemon reads out of a HELO (daemon/threads.cc). */
module Commands {
  import opened Text
  import opened Xml
  import opened XmlDoc
  import opened ExtractNode

  datatype Cmd = NOP | LIST | POLL | HELO | RESULT | EVENT

  /** The element that a HELO carries. The arguments are split at their first blank. */
  function HeloTree(args: string): Tree {
    var pos := Find(args, " ", 0);
    Elem("helo", [], if pos.None? then [Leaf("hostname", args)]
                     else [Leaf("hostname", args[..pos.value]), Leaf("user", args[pos.value + 1..])])
  }

  /** The element of a command; EVENT adds nothing. */
  function CommandContent(cmd: Cmd, args: string): seq<Tree> {
    match cmd
    case LIST => [Leaf("list", args)]
    case POLL => [Leaf("poll", args)]
    case NOP => [Leaf("nop", args)]
    case RESULT => [Leaf("result", args)]
    case HELO => [HeloTree(args)]
    case EVENT => []
  }

  /** The text of a command. A RESULT is appended to the caller's string without the enclosing element. */
  function CommandText(cmd: Cmd, args: string, str: string): string {
    if cmd == RESULT then str + WriteAll(CommandContent(cmd, args))
    else Write(Elem("command", [], CommandContent(cmd, args))) + "\n"
  }

  lemma WriteOne(x: Tree)
    ensures WriteAll([x]) == Write(x)
  {
    assert [x][1..] == [];
    assert Write(x) + "" == Write(x);
  }

  lemma WriteElem(name: string, content: seq<Tree>)
    ensures Write(Elem(name, [], content)) == "<" + name + ">" + WriteAll(content) + ("</" + name + ">")
  {
    var close := "</" + name + ">";
    assert AttrText([]) == "";
    assert "<" + name + "" + ">" == "<" + name + ">";
    Regroup("<" + name + ">", WriteAll(content), close);
  }

  lemma WriteLeaf(name: string, text: string)
    ensures Write(Leaf(name, text)) == "<" + name + ">" + text + ("</" + name + ">")
  {
    WriteElem(name, Leaf(name, text).content);
    if text != "" {
      WriteOne(Txt(text));
    }
  }

  /** The text between the helo tags. */
  function HeloData(args: string): string {
    var pos := Find(args, " ", 0);
    if pos.None? then "<hostname>" + args + "</hostname>"
    else "<hostname>" + args[..pos.value] + "</hostname>" + ("<user>" + args[pos.value + 1..] + "</user>")
  }

  lemma WriteTwo(x: Tree, y: Tree)
    ensures WriteAll([x, y]) == Write(x) + Write(y)
  {
    assert [x, y][1..] == [y];
    WriteOne(y);
  }

  lemma WriteHostname(host: string)
    ensures Write(Leaf("hostname", host)) == "<hostname>" + host + "</hostname>"
  {
    WriteLeaf("hostname", host);
    assert "<" + "hostname" + ">" == "<hostname>" && "</" + "hostname" + ">" == "</hostname>";
  }

  lemma WriteUser(user: string)
    ensures Write(Leaf("user", user)) == "<user>" + user + "</user>"
  {
    WriteLeaf("user", user);
    assert "<" + "user" + ">" == "<user>" && "</" + "user" + ">" == "</user>";
  }

  lemma WriteHeloContent(args: string)
    ensures WriteAll(HeloTree(args).content) == HeloData(args)
  {
    var pos := Find(args, " ", 0);
    if pos.None? {
      WriteHostname(args);
      WriteOne(Leaf("hostname", args));
    } else {
      var host, user := args[..pos.value], args[pos.value + 1..];
      WriteHostname(host);
      WriteUser(user);
      WriteTwo(Leaf("hostname", host), Leaf("user", user));
    }
  }

  lemma WriteHelo(args: string)
    ensures Write(HeloTree(args)) == "<helo>" + HeloData(args) + "</helo>"
  {
    WriteElem("helo", HeloTree(args).content);
    WriteHeloContent(args);
    assert "<" + "helo" + ">" == "<helo>" && "</" + "helo" + ">" == "</helo>";
  }

  /** The element of a command as createCommand spells it. */
  function Spelled(cmd: Cmd, args: string): string {
    match cmd
    case LIST => "<list>" + args + "</list>"
    case POLL => "<poll>" + args + "</poll>"
    case NOP => "<nop>" + args + "</nop>"
    case RESULT => "<result>" + args + "</result>"
    case HELO => "<helo>" + HeloData(args) + "</helo>"
    case EVENT => ""
  }

  lemma WriteContent(cmd: Cmd, args: string)
    ensures WriteAll(CommandContent(cmd, args)) == Spelled(cmd, args)
  {
    match cmd {
      case LIST =>
        WriteLeaf("list", args);
        assert "<" + "list" + ">" == "<list>" && "</" + "list" + ">" == "</list>";
        WriteOne(Leaf("list", args));
      case POLL =>
        WriteLeaf("poll", args);
        assert "<" + "poll" + ">" == "<poll>" && "</" + "poll" + ">" == "</poll>";
        WriteOne(Leaf("poll", args));
      case NOP =>
        WriteLeaf("nop", args);
        assert "<" + "nop" + ">" == "<nop>" && "</" + "nop" + ">" == "</nop>";
        WriteOne(Leaf("nop", args));
      case RESULT =>
        WriteLeaf("result", args);
        assert "<" + "result" + ">" == "<result>" && "</" + "result" + ">" == "</result>";
        WriteOne(Leaf("result", args));
      case HELO =>
        WriteHelo(args);
        WriteOne(HeloTree(args));
      case EVENT =>
    }
  }

  lemma WriteEnclosed(content: seq<Tree>)
    ensures Write(Elem("command", [], content)) + "\n" == "<command>" + WriteAll(content) + "</command>\n"
  {
    WriteElem("command", content);
    assert "<" + "command" + ">" == "<command>" && "</" + "command" + ">" == "</command>";
    assert "</command>" + "\n" == "</command>\n";
    Regroup("<command>" + WriteAll(content), "</command>", "\n");
  }

  lemma WriteCommand(cmd: Cmd, args: string)
    ensures CommandText(cmd, args, "") == if cmd == RESULT then Spelled(cmd, args)
                                          else "<command>" + Spelled(cmd, args) + "</command>\n"
  {
    WriteContent(cmd, args);
    WriteEnclosed(CommandContent(cmd, args));
    assert "" + Spelled(cmd, args) == Spelled(cmd, args);
  }

  /** The text of each command but HELO. */
  lemma CommandTexts(args: string)
    ensures CommandText(LIST, args, "") == "<command>" + ("<list>" + args + "</list>") + "</command>\n"
    ensures CommandText(POLL, args, "") == "<command>" + ("<poll>" + args + "</poll>") + "</command>\n"
    ensures CommandText(NOP, args, "") == "<command>" + ("<nop>" + args + "</nop>") + "</command>\n"
    ensures CommandText(RESULT, args, "") == "<result>" + args + "</result>"
    ensures CommandText(EVENT, args, "") == "<command>" + "" + "</command>\n"
  {
    WriteCommand(LIST, args);
    WriteCommand(POLL, args);
    WriteCommand(NOP, args);
    WriteCommand(RESULT, args);
    WriteCommand(EVENT, args);
  }

  /** The text of a HELO with a host name alone, and with a user behind the first blank. */
  lemma HeloTexts(host: string, user: string)
    requires ' ' !in host
    ensures CommandText(HELO, host, "")
            == "<command>" + ("<helo>" + ("<hostname>" + host + "</hostname>") + "</helo>") + "</command>\n"
    ensures CommandText(HELO, host + " " + user, "")
            == "<command>" + ("<helo>" + ("<hostname>" + host + "</hostname>" + ("<user>" + user + "</user>")) + "</helo>")
               + "</command>\n"
  {
    WriteCommand(HELO, host);
    WriteCommand(HELO, host + " " + user);
    HeloDataIs(host, user);
  }

  lemma HeloDataIs(host: string, user: string)
    requires ' ' !in host
    ensures HeloData(host) == "<hostname>" + host + "</hostname>"
    ensures HeloData(host + " " + user) == "<hostname>" + host + "</hostname>" + ("<user>" + user + "</user>")
  {
    NoBlankFound(host);
    SplitAtBlank(host, user);
    var all := host + " " + user;
    assert all[..|host|] == host && all[|host| + 1..] == user;
  }

  lemma NoBlankFound(s: string)
    requires ' ' !in s
    ensures Find(s, " ", 0).None?
  {
    forall k: nat | k < |s| ensures !OccursAt(s, " ", k) {
      assert s[k..k + 1] == [s[k]] && s[k] in s;
    }
  }

  method CreateCommand(cmd: Cmd, args: string, str: string) returns (r: string)
    ensures r == (if cmd == RESULT then str else "") + CommandText(cmd, args, "")
  {
    r := str;
    if cmd != RESULT {
      r := "<command>";
    }
    ghost var head := r;
    match cmd {
      case LIST => r := r + ("<list>" + args + "</list>");
      case POLL => r := r + ("<poll>" + args + "</poll>");
      case NOP => r := r + ("<nop>" + args + "</nop>");
      case RESULT => r := r + ("<result>" + args + "</result>");
      case HELO =>
        var data := "<hostname>";
        var pos := Find(args, " ", 0);
        if pos.None? {
          data := data + args;
        } else {
          data := data + args[..pos.value];
        }
        data := data + "</hostname>";
        if pos.Some? {
          data := data + ("<user>" + args[pos.value + 1..] + "</user>");
        }
        r := r + ("<helo>" + data + "</helo>");
      case EVENT =>
        assert r == r + "";
    }
    assert r == head + Spelled(cmd, args);
    if cmd != RESULT {
      r := r + "</command>\n";
    }
    WriteCommand(cmd, args);
    assert "" + CommandText(cmd, args, "") == CommandText(cmd, args, "");
  }

  // ----- HELO from one end to the other -----

  /** What the daemon takes from a message: the value of the first child of a helo. */
  function HostOf(text: string): Option<string> {
    match ParseDoc(text)
    case None => None
    case Some(root) =>
      var xml := Extract(root);
      if Extractable(root) && xml.children != [] && xml.children[0].name == "helo" && xml.children[0].children != []
      then Some(xml.children[0].children[0].value)
      else None
  }

  /** The daemon takes a host from no other element. */
  lemma OnlyHeloHasHost(text: string)
    requires HostOf(text).Some?
    ensures var root := ParseDoc(text);
            && root.Some? && Extract(root.value).children != [] && Extract(root.value).children[0].name == "helo"
            && Extract(root.value).children[0].children != []
            && HostOf(text).value == Extract(root.value).children[0].children[0].value
  {
  }

  lemma PlainTwo(x: Tree, y: Tree)
    requires Plain(x) && x.Elem? && Plain(y)
    ensures PlainAll([x, y])
  {
    assert [x, y][1..] == [y] && [y][1..] == [] && PlainAll([]);
    assert PlainAll([y]);
  }

  lemma PlainHostUser(host: string, user: string)
    requires PlainText(host) && PlainText(user)
    ensures Plain(Elem("helo", [], [Leaf("hostname", host), Leaf("user", user)]))
  {
    PlainLeaf("hostname", host);
    PlainLeaf("user", user);
    PlainTwo(Leaf("hostname", host), Leaf("user", user));
  }

  lemma PlainHost(host: string)
    requires PlainText(host)
    ensures Plain(Elem("helo", [], [Leaf("hostname", host)]))
  {
    PlainLeaf("hostname", host);
    assert [Leaf("hostname", host)][1..] == [] && PlainAll([]);
    assert PlainAll([Leaf("hostname", host)]);
  }

  lemma PlainHelo(args: string)
    requires PlainText(args)
    ensures Plain(HeloTree(args))
  {
    var pos := Find(args, " ", 0);
    if pos.None? {
      PlainHost(args);
    } else {
      PlainPart(args, 0, pos.value);
      PlainPart(args, pos.value + 1, |args|);
      assert args[0..pos.value] == args[..pos.value] && args[pos.value + 1..|args|] == args[pos.value + 1..];
      PlainHostUser(args[..pos.value], args[pos.value + 1..]);
    }
  }

  lemma ExtractTwo(x: Tree, y: Tree)
    requires x.Elem? && y.Elem?
    ensures ExtractAll([x, y]) == [Extract(x), Extract(y)]
  {
    ExtractOne(x);
    ExtractOne(y);
    assert [x, y] == [x] + [y];
    ExtractAllAppend([x], [y]);
  }

  function NameNode(name: string, text: string): XmlNode {
    XmlNode(name, FirstLine(text), map[], [])
  }

  /** The nodes of the host and the user, each up to a line feed. */
  function HeloNodes(args: string): seq<XmlNode> {
    var pos := Find(args, " ", 0);
    if pos.None? then [NameNode("hostname", args)]
    else [NameNode("hostname", args[..pos.value]), NameNode("user", args[pos.value + 1..])]
  }

  /** The tree that the daemon extracts from a HELO. */
  lemma ExtractHelo(args: string)
    ensures var n := Extract(HeloTree(args)); n.name == "helo" && n.children == HeloNodes(args)
  {
    var pos := Find(args, " ", 0);
    if pos.None? {
      ExtractHost(args);
    } else {
      ExtractHostUser(args[..pos.value], args[pos.value + 1..]);
    }
  }

  lemma ExtractHost(host: string)
    ensures ExtractAll([Leaf("hostname", host)]) == [NameNode("hostname", host)]
  {
    ExtractLeaf("hostname", host);
    ExtractOne(Leaf("hostname", host));
  }

  lemma ExtractHostUser(host: string, user: string)
    ensures ExtractAll([Leaf("hostname", host), Leaf("user", user)]) == [NameNode("hostname", host), NameNode("user", user)]
  {
    ExtractTwo(Leaf("hostname", host), Leaf("user", user));
    ExtractLeaf("hostname", host);
    ExtractLeaf("user", user);
  }

  /** A HELO without markup arrives as the host up to its first blank and line feed, and the user up to a line feed. */
  lemma HeloArrives(args: string)
    requires PlainText(args)
    ensures var text := CommandText(HELO, args, ""); var pos := Find(args, " ", 0);
            && ParseDoc(text) == Some(Elem("command", [], [HeloTree(args)]))
            && HostOf(text) == Some(FirstLine(if pos.None? then args else args[..pos.value]))
  {
    PlainHelo(args);
    ParseCommand(HeloTree(args));
    HeloHost(args);
    HeloExtractable(args);
    HostOfHelo(CommandText(HELO, args, ""), HeloTree(args));
  }

  lemma TwoExtractable(x: Tree, y: Tree)
    requires Extractable(x) && Extractable(y)
    ensures ExtractableAll([x, y])
  {
    assert [x, y] == [x] + [y];
    OneExtractable(x);
    OneExtractable(y);
    ExtractableAppend([x], [y]);
  }

  lemma HeloExtractable(args: string)
    ensures Extractable(HeloTree(args))
  {
    var pos := Find(args, " ", 0);
    if pos.None? {
      LeafExtractable("hostname", args);
      OneExtractable(Leaf("hostname", args));
    } else {
      LeafExtractable("hostname", args[..pos.value]);
      LeafExtractable("user", args[pos.value + 1..]);
      TwoExtractable(Leaf("hostname", args[..pos.value]), Leaf("user", args[pos.value + 1..]));
    }
  }

  lemma HeloHost(args: string)
    ensures var n := Extract(HeloTree(args)); var pos := Find(args, " ", 0);
            && n.name == "helo" && n.children != []
            && n.children[0].value == FirstLine(if pos.None? then args else args[..pos.value])
  {
    ExtractHelo(args);
  }

  lemma HostOfHelo(text: string, h: Tree)
    requires h.Elem? && ParseDoc(text) == Some(Elem("command", [], [h]))
    requires Extractable(h) && Extract(h).name == "helo" && Extract(h).children != []
    ensures HostOf(text) == Some(Extract(h).children[0].value)
  {
    ExtractCommand(h);
    OneExtractable(h);
  }

  lemma ParseCommand(h: Tree)
    requires Plain(h) && h.Elem?
    ensures ParseDoc(Write(Elem("command", [], [h])) + "\n") == Some(Elem("command", [], [h]))
  {
    assert [h][1..] == [] && PlainAll([]);
    assert PlainAll([h]);
    ParseWrite(Elem("command", [], [h]), "\n");
  }

  lemma ExtractCommand(h: Tree)
    requires h.Elem?
    ensures Extract(Elem("command", [], [h])).children == [Extract(h)]
  {
    assert [h][1..] == [];
    assert ExtractAll([h]) == [Extract(h)] + ExtractAll([]);
  }

  /** The handshake: the daemon stores the host name that the client sent exactly when the name has no blank and no line
      feed, and neither it nor the user has text that XML forbids. */
  lemma HostArrivesExactly(host: string, user: string)
    requires NoMarkup(host) && NoMarkup(user)
    ensures HostOf(CommandText(HELO, host + " " + user, "")) == Some(host)
            <==> ' ' !in host && LF !in host && Acceptable(host) && Acceptable(user)
  {
    var args := host + " " + user;
    SplitAtBlank(host, user);
    PartsAcceptable(host, user);
    if Acceptable(args) {
      HostStored(args);
      FirstWord(host, user);
    } else {
      HeloRefused(args);
    }
  }

  lemma PartsAcceptable(a: string, b: string)
    ensures Acceptable(a + " " + b) <==> Acceptable(a) && Acceptable(b)
  {
    var s := a + " " + b;
    var n := |a| + 1;
    assert s[0..|a|] == a && s[n..|s|] == b;
    EndWithin(s, 0, |a|);
    EndWithin(s, n, |s|);
    if Contains(s, CDEND) {
      EndInParts(a, b);
    }
    LegalParts(a, b);
  }

  lemma LegalParts(a: string, b: string)
    ensures Legal(a + " " + b) <==> Legal(a) && Legal(b)
  {
    var s := a + " " + b;
    assert forall i | 0 <= i < |a| :: s[i] == a[i];
    assert forall i | 0 <= i < |b| :: s[|a| + 1 + i] == b[i];
  }

  lemma EndInParts(a: string, b: string)
    requires Contains(a + " " + b, CDEND)
    ensures Contains(a, CDEND) || Contains(b, CDEND)
  {
    var s := a + " " + b;
    var n := |a| + 1;
    var k: nat :| k <= |s| && OccursAt(s, CDEND, k);
    var mark := s[k..k + 3];
    assert mark[0] == s[k] && mark[1] == s[k + 1] && mark[2] == s[k + 2];
    assert s[|a|] == ' ';
    if k < |a| {
      assert a[k..k + 3] == mark;
      assert OccursAt(a, CDEND, k);
    } else {
      assert b[k - n..k - n + 3] == mark;
      assert OccursAt(b, CDEND, k - n);
    }
  }

  /** A HELO with text that XML forbids is refused as a whole. */
  lemma HeloRefused(args: string)
    requires NoMarkup(args) && !Acceptable(args) && Find(args, " ", 0).Some?
    ensures HostOf(CommandText(HELO, args, "")) == None
  {
    var pos := Find(args, " ", 0).value;
    var host, user := args[..pos], args[pos + 1..];
    assert args[pos..pos + 1] == " ";
    assert args == host + " " + user;
    PartsAcceptable(host, user);
    SentIsRefused(host, user);
    WriteCommand(HELO, args);
    HeloText(host, user);
  }

  const HELO_END := "</user></helo></command>\n"

  function Behind(user: string): string {
    "</hostname>" + ("<user>" + (user + HELO_END))
  }

  function SentHelo(host: string, user: string): string {
    "<command>" + ("<helo>" + ("<hostname>" + (host + Behind(user))))
  }

  lemma Assemble(a: string, b: string, c: string, host: string, d: string, e: string, user: string, f: string, g: string,
                 h: string)
    ensures a + (b + (c + host + d + (e + user + f)) + g) + h == a + (b + (c + (host + (d + (e + (user + (f + g + h)))))))
  {
  }

  lemma HeloText(host: string, user: string)
    ensures "<command>" + ("<helo>" + ("<hostname>" + host + "</hostname>" + ("<user>" + user + "</user>")) + "</helo>")
            + "</command>\n" == SentHelo(host, user)
  {
    assert HELO_END == "</user>" + "</helo>" + "</command>\n";
    Assemble("<command>", "<helo>", "<hostname>", host, "</hostname>", "<user>", user, "</user>", "</helo>", "</command>\n");
  }

  lemma SentIsRefused(host: string, user: string)
    requires NoMarkup(host) && NoMarkup(user) && !(Acceptable(host) && Acceptable(user))
    ensures Parse(SentHelo(host, user)).None?
  {
    HostRefused(host, user);
    HeloTags();
    TagsRefused("command", "helo", "hostname", "<command>", "<helo>", "<hostname>", host + Behind(user));
    SentLacksCR(host, user);
    NormalLinesSame(SentHelo(host, user));
  }

  lemma SentLacksCR(host: string, user: string)
    requires CR !in host && CR !in user
    ensures CR !in SentHelo(host, user)
  {
    assert CR !in HELO_END;
    assert CR !in Behind(user);
  }

  lemma LexTagOpen(name: string, s: string)
    requires IsName(name)
    ensures Lex("<" + name + ">" + s) == Prepend([Open(name, [])], Lex(s))
  {
    assert AttrText([]) == "" && "<" + name + "" + ">" == "<" + name + ">";
    LexOpen(name, [], s);
  }

  /** A start tag in front, spelled as a literal. */
  predicate IsTag(name: string, tag: string) {
    IsName(name) && "<" + name + ">" == tag
  }

  lemma HeloTags()
    ensures IsTag("command", "<command>") && IsTag("helo", "<helo>")
    ensures IsTag("hostname", "<hostname>") && IsTag("user", "<user>")
    ensures "</" + "hostname" + ">" == "</hostname>"
  {
  }

  lemma TagsRefused(a: string, b: string, c: string, ta: string, tb: string, tc: string, rest: string)
    requires IsTag(a, ta) && IsTag(b, tb) && IsTag(c, tc) && Lex(rest).None?
    ensures Lex(ta + (tb + (tc + rest))).None?
  {
    TagRefused(c, tc, rest);
    TagRefused(b, tb, tc + rest);
    TagRefused(a, ta, tb + (tc + rest));
  }

  lemma TagRefused(name: string, tag: string, rest: string)
    requires IsTag(name, tag) && Lex(rest).None?
    ensures Lex(tag + rest).None?
  {
    LexTagOpen(name, rest);
  }

  lemma HostRefused(host: string, user: string)
    requires NoMarkup(host) && NoMarkup(user) && !(Acceptable(host) && Acceptable(user))
    ensures Lex(host + Behind(user)).None?
  {
    var behind := Behind(user);
    assert behind[0] == '<';
    if !Acceptable(host) {
      LexRefuses(host, behind);
    } else {
      LexRefuses(user, HELO_END);
      HeloTags();
      TagRefused("user", "<user>", user + HELO_END);
      CloseRefused("hostname", "</hostname>", "<user>" + (user + HELO_END));
      if host == "" {
        assert host + behind == behind;
      } else {
        LexText(host, behind);
      }
    }
  }

  lemma CloseRefused(name: string, close: string, rest: string)
    requires IsName(name) && close == "</" + name + ">" && Lex(rest).None?
    ensures Lex(close + rest).None?
  {
    LexClose(name, rest);
  }

  lemma HostStored(args: string)
    requires PlainText(args) && Find(args, " ", 0).Some?
    ensures HostOf(CommandText(HELO, args, "")) == Some(FirstLine(args[..Find(args, " ", 0).value]))
  {
    HeloArrives(args);
  }

  lemma FirstWord(host: string, user: string)
    requires Find(host + " " + user, " ", 0).Some?
    ensures var args := host + " " + user;
            FirstLine(args[..Find(args, " ", 0).value]) == host <==> ' ' !in host && LF !in host
  {
    var args := host + " " + user;
    SplitAtBlank(host, user);
    var head := args[..Find(args, " ", 0).value];
    if ' ' in host {
      assert |FirstLine(head)| <= |head| < |host|;
    } else {
      assert head == host;
      assert FirstLine(host) == host <==> LF !in host;
    }
  }

  /** The first blank of the arguments ends the host name, or lies within it. */
  lemma SplitAtBlank(host: string, user: string)
    ensures var args := host + " " + user; var pos := Find(args, " ", 0);
            pos.Some? && pos.value <= |host| && (' ' in host <==> pos.value < |host|)
            && args[..pos.value] == host[..pos.value]
  {
    var args := host + " " + user;
    assert forall i | 0 <= i < |host| :: args[i] == host[i];
    assert forall i | 0 <= i < |args| :: args[i..i + 1] == [args[i]];
    assert OccursAt(args, " ", |host|);
    var p := Find(args, " ", 0).value;
    assert args[p] == ' ';
    if k: nat :| k < |host| && host[k] == ' ' {
      assert OccursAt(args, " ", k);
    }
  }
}
