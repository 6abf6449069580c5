/** The client's and the daemon's message layer (lib/msgs.cc): printers, the method table, and the recursive dispatch
    over a received tree. */
module MessageLayer {
  import opened Text
  import opened Xml
  import opened XmlDoc
  import opened ExtractNode

  datatype NetMode = NONET | DAEMON | CLIENT

  datatype StatusTag = SYSVERSION | REVISION | OPMODE | ERRORMODE | WARNINGMODE

  datatype MsgType = METER | STATUS | COMMAND | CONFIG | HEARTBEAT | RESPONSE

  // ----- printers -----

  function TagName(tag: StatusTag): string {
    match tag
    case SYSVERSION => "sysversion"
    case REVISION => "revision"
    case OPMODE => "opmode"
    case ERRORMODE => "errormode"
    case WARNINGMODE => "warningmode"
  }

  function TypeName(t: MsgType): string {
    match t
    case METER => "meters"
    case STATUS => "status"
    case COMMAND => "command"
    case CONFIG => "config"
    case HEARTBEAT => "heartbeat"
    case RESPONSE => "response"
  }

  function Header(version: string, inner: Tree): Tree {
    Elem("powerguru", [Attr("version", version)], [inner])
  }

  function RequestDoc(version: string, tag: StatusTag): Tree {
    Header(version, Leaf("status", TagName(tag)))
  }

  function ResponseDoc(version: string, t: MsgType, tag: string, val: string): Tree {
    Header(version, Elem(TypeName(t), [], [Leaf(tag, val)]))
  }

  lemma WriteHeader(version: string, inner: Tree)
    ensures Write(Header(version, inner)) == "<powerguru version=\"" + version + "\">" + Write(inner) + "</powerguru>"
  {
    var attrs := [Attr("version", version)];
    assert attrs[1..] == [] && AttrText([]) == "";
    assert AttrText(attrs) == " " + ("version" + "=\"" + version + "\"");
    assert [inner][1..] == [];
    assert WriteAll([inner]) == Write(inner);
    assert "<" + "powerguru" + (" " + ("version" + "=\"" + version + "\"")) + ">" == "<powerguru version=\"" + version + "\">";
    assert "</" + "powerguru" + ">" == "</powerguru>";
    Regroup("<powerguru version=\"" + version + "\">", Write(inner), "</powerguru>");
  }

  lemma WriteInner(name: string, content: seq<Tree>)
    ensures Write(Elem(name, [], content)) == "<" + name + ">" + WriteAll(content) + "</" + name + ">"
  {
    assert AttrText([]) == "";
    assert "<" + name + "" + ">" == "<" + name + ">";
    assert "<" + name + ">" + (WriteAll(content) + ("</" + name + ">"))
        == "<" + name + ">" + WriteAll(content) + "</" + name + ">";
  }

  lemma WriteText(text: string)
    ensures WriteAll(if text == "" then [] else [Txt(text)]) == text
  {
    if text != "" {
      assert [Txt(text)][1..] == [];
      assert text + "" == text;
    }
  }

  // ----- the method table -----

  /** The handlers of the table. Only the first two are modelled; the others have no status tag. */
  datatype Handler = Powerguru | Status | Helo | Client | Server | Meters | Meter | Config | Command

  type Table = map<string, Handler>

  /** What the table says about the tags of status messages. "sysversion" is not among its keys. */
  predicate StatusTable(t: Table) {
    && "powerguru" in t && t["powerguru"] == Powerguru
    && "status" in t && t["status"] == Status
    && "revision" in t && t["revision"] == Status
    && "opmode" in t && t["opmode"] == Status
    && "errormode" in t && t["errormode"] == Status
    && "warningmode" in t && t["warningmode"] == Status
    && "sysversion" !in t
  }

  // ----- the method table -----

  function MeterHandlers(t: Table): Table {
    var r := t["meters" := Meters]["charge-mps" := Meter]["load-amps" := Meter]["pv-amps" := Meter]["pv-volts" := Meter];
    var r := r["daily-kwh" := Meter]["hertz" := Meter]["battery-volts" := Meter]["buy-amps" := Meter]["sell-amps" := Meter];
    r["ac-volts-out" := Meter]["ac1-volts-in" := Meter]["ac2-volts-in" := Meter]
  }

  function StatusHandlers(t: Table): Table {
    t["status" := Status]["version" := Status]["revision" := Status]["opmode" := Status]["errormode" := Status]
     ["warningmode" := Status]
  }

  function ConfigHandlers(t: Table): Table {
    t["config" := Config]["generator" := Config]["grid" := Config]["buy" := Config]["sell" := Config]
     ["start" := Config]["end" := Config]
  }

  function CommandHandlers(t: Table): Table {
    t["command" := Command]["auxilary" := Command]["relay" := Command]["poll" := Command]["inverter" := Command]
     ["charger" := Command]
  }

  /** The table after initialisation, from what it was before. */
  function Handlers(t: Table): Table {
    var top := t["powerguru" := Powerguru]["helo" := Helo]["client" := Client]["server" := Server];
    CommandHandlers(ConfigHandlers(StatusHandlers(MeterHandlers(top))))
  }

  function Preloaded(cache: map<string, string>, version: string): map<string, string> {
    cache["version" := version]["revision" := version]
         ["battery-volts" := "88888888"]["charge-amps" := "777777777"]["load-amps" := "66666666"]
         ["pv-amps" := "55555555"]["sell-amps" := "444444444444"]
  }

  /** The part of the table that is there before the status tags are added. */
  predicate HeadTable(t: Table) {
    "powerguru" in t && t["powerguru"] == Powerguru && "sysversion" !in t
  }

  lemma MetersKeepHead(t: Table)
    requires HeadTable(t)
    ensures HeadTable(MeterHandlers(t))
  {
  }

  lemma StatusTagsAdded(t: Table)
    requires HeadTable(t)
    ensures StatusTable(StatusHandlers(t))
  {
  }

  lemma ConfigsKeepTable(t: Table)
    requires StatusTable(t)
    ensures StatusTable(ConfigHandlers(t))
  {
  }

  lemma CommandsKeepTable(t: Table)
    requires StatusTable(t)
    ensures StatusTable(CommandHandlers(t))
  {
  }

  /** However often it is initialised, the table serves the status tags, and has no entry for "sysversion". */
  lemma HandlersAreStatusTable(t: Table)
    requires "sysversion" !in t
    ensures StatusTable(Handlers(t))
  {
    var top := t["powerguru" := Powerguru]["helo" := Helo]["client" := Client]["server" := Server];
    MetersKeepHead(top);
    var meters := MeterHandlers(top);
    StatusTagsAdded(meters);
    ConfigsKeepTable(StatusHandlers(meters));
    CommandsKeepTable(ConfigHandlers(StatusHandlers(meters)));
  }

  /** All of these names have this handler. */
  predicate AllHave(t: Table, names: seq<string>, h: Handler) {
    forall i | 0 <= i < |names| :: names[i] in t && t[names[i]] == h
  }

  lemma MeterEntries(t: Table)
    ensures AllHave(MeterHandlers(t), ["charge-mps", "load-amps", "pv-amps", "pv-volts", "daily-kwh", "hertz",
                                       "battery-volts", "buy-amps", "sell-amps", "ac-volts-out", "ac1-volts-in",
                                       "ac2-volts-in"], Meter)
    ensures AllHave(MeterHandlers(t), ["meters"], Meters)
  {
  }

  lemma StatusEntries(t: Table)
    ensures AllHave(StatusHandlers(t), ["status", "version", "revision", "opmode", "errormode", "warningmode"], Status)
  {
  }

  lemma ConfigEntries(t: Table)
    ensures AllHave(ConfigHandlers(t), ["config", "generator", "grid", "buy", "sell", "start", "end"], Config)
  {
  }

  lemma CommandEntries(t: Table)
    ensures AllHave(CommandHandlers(t), ["command", "auxilary", "relay", "poll", "inverter", "charger"], Command)
  {
  }

  predicate TopTable(t: Table) {
    && "powerguru" in t && t["powerguru"] == Powerguru && "helo" in t && t["helo"] == Helo
    && "client" in t && t["client"] == Client && "server" in t && t["server"] == Server
  }

  lemma TopEntries(t: Table)
    ensures TopTable(Handlers(t))
  {
    var top := t["powerguru" := Powerguru]["helo" := Helo]["client" := Client]["server" := Server];
    MetersKeepTop(top);
    StatusKeepsTop(MeterHandlers(top));
    ConfigsKeepTop(StatusHandlers(MeterHandlers(top)));
    CommandsKeepTop(ConfigHandlers(StatusHandlers(MeterHandlers(top))));
  }

  lemma MetersKeepTop(t: Table)
    requires TopTable(t)
    ensures TopTable(MeterHandlers(t))
  {
  }

  lemma StatusKeepsTop(t: Table)
    requires TopTable(t)
    ensures TopTable(StatusHandlers(t))
  {
  }

  lemma ConfigsKeepTop(t: Table)
    requires TopTable(t)
    ensures TopTable(ConfigHandlers(t))
  {
  }

  lemma CommandsKeepTop(t: Table)
    requires TopTable(t)
    ensures TopTable(CommandHandlers(t))
  {
  }

  lemma PreloadedValues(version: string)
    ensures var c := Preloaded(map[], version);
            && c.Keys == {"version", "revision", "battery-volts", "charge-amps", "load-amps", "pv-amps", "sell-amps"}
            && c["version"] == version && c["revision"] == version
            && c["battery-volts"] == "88888888" && c["charge-amps"] == "777777777" && c["load-amps"] == "66666666"
            && c["pv-amps"] == "55555555" && c["sell-amps"] == "444444444444"
  {
  }

  // ----- what processing a tree does -----

  /** The cache, and the texts written to the network. */
  datatype Effect = Effect(cache: map<string, string>, out: seq<string>)

  function Response(version: string, tag: string, val: string): string {
    Write(ResponseDoc(version, STATUS, tag, val)) + [NUL]
  }

  /** The reply of the daemon to a status request; an empty text to anything else. */
  function Reply(version: string, value: string): string {
    if value == "sysversion" then Response(version, value, version)
    else if value == "revision" then Response(version, value, "0.0")
    else if value == "opmode" || value == "warningmode" || value == "errormode" then Response(version, value, "none")
    else ""
  }

  /** The daemon has nothing to say to any other text. */
  lemma ReplyIsEmptyExactly(version: string, value: string)
    ensures Reply(version, value) == ""
            <==> value !in ["sysversion", "revision", "opmode", "errormode", "warningmode"]
  {
    assert forall v :: Response(version, value, v) != "";
  }

  function StatusEffect(mode: NetMode, version: string, e: Effect, node: XmlNode): Effect {
    match mode
    case NONET => e
    case DAEMON => e.(out := e.out + [Reply(version, node.value)])
    case CLIENT => if node.name == "status" then e else e.(cache := e.cache[node.name := node.value])
  }

  /** Process a node and then its children. None where the source uses a pointer that it has not set, or calls a
      handler that is not modelled. */
  function NodeEffect(t: Table, mode: NetMode, version: string, e: Effect, node: XmlNode): Option<Effect>
    decreases node, 1
  {
    if node.name !in t then None
    else
      match t[node.name]
      case Powerguru => NodesEffect(t, mode, version, e, node.children)
      case Status => NodesEffect(t, mode, version, StatusEffect(mode, version, e, node), node.children)
      case _ => None
  }

  function NodesEffect(t: Table, mode: NetMode, version: string, e: Effect, nodes: seq<XmlNode>): Option<Effect>
    decreases nodes, 0
  {
    if nodes == [] then Some(e)
    else
      match NodeEffect(t, mode, version, e, nodes[0])
      case None => None
      case Some(e1) => NodesEffect(t, mode, version, e1, nodes[1..])
  }

  /** A received text: parsed, extracted and processed. */
  function Receive(t: Table, mode: NetMode, version: string, e: Effect, text: string): Option<Effect> {
    match ParseDoc(text)
    case None => None
    case Some(doc) => if Extractable(doc) then NodeEffect(t, mode, version, e, Extract(doc)) else None
  }

  // ----- the class -----

  class Msgs {
    const version: string
    const mode: NetMode
    var methods: Table
    var cache: map<string, string>
    var body: string
    var net: seq<string>

    ghost function Now(): Effect
      reads this
    {
      Effect(cache, net)
    }

    constructor (mode: NetMode, version: string)
      ensures StatusTable(methods)
      ensures this.mode == mode && this.version == version && net == []
      ensures cache == if mode == DAEMON then Preloaded(map[], version) else map[]
    {
      this.mode := mode;
      this.version := version;
      body, net := "", [];
      methods, cache := map[], map[];
      new;
      Init();
    }

    /** The table of handlers; the daemon also loads some values into the cache. */
    method Init()
      modifies this
      ensures methods == Handlers(old(methods)) && ("sysversion" !in old(methods) ==> StatusTable(methods))
      ensures net == old(net) && cache == if mode == DAEMON then Preloaded(old(cache), version) else old(cache)
    {
      if "sysversion" !in methods {
        HandlersAreStatusTable(methods);
      }
      methods := Handlers(methods);
      if mode == DAEMON {
        cache := Preloaded(cache, version);
      }
    }

    method RequestCreate(tag: StatusTag) returns (r: string)
      modifies this`body
      ensures r == Write(RequestDoc(version, tag)) + [NUL]
    {
      body := "<powerguru version=\"" + version + "\"><status>";
      ghost var head := body;
      match tag {
        case SYSVERSION => body := body + "sysversion";
        case REVISION => body := body + "revision";
        case ERRORMODE => body := body + "errormode";
        case WARNINGMODE => body := body + "warningmode";
        case OPMODE => body := body + "opmode";
      }
      assert body == head + TagName(tag);
      body := body + "</status></powerguru>";
      RequestIs(version, tag);
      body := body + [NUL];
      r := body;
    }

    method ResponseCreate(t: MsgType, tag: string, val: string) returns (r: string)
      modifies this`body
      ensures r == Write(ResponseDoc(version, t, tag, val)) + [NUL]
    {
      var str := TypeName(t);
      body := "<powerguru version=\"";
      body := body + version + "\"><" + str;
      body := body + "><" + tag + ">";
      body := body + val;
      body := body + "</" + tag + "></" + str;
      body := body + "></powerguru>";
      ResponseIs(version, t, tag, val);
      body := body + [NUL];
      r := body;
    }

    /** The body of powerguruProcess compares the versions and reports the outcome, nothing more. */
    method PowerguruProcess(node: XmlNode)
      modifies this`body
    {
      body := version;
    }

    method StatusProcess(node: XmlNode)
      modifies this`body, this`net, this`cache
      ensures Now() == StatusEffect(mode, version, old(Now()), node)
    {
      var str := "";
      body := version;
      if mode == DAEMON {
        if node.value == "sysversion" {
          str := ResponseCreate(STATUS, node.value, body);
        } else if node.value == "revision" {
          str := ResponseCreate(STATUS, node.value, "0.0");
        } else if node.value == "opmode" {
          str := ResponseCreate(STATUS, node.value, "none");
        } else if node.value == "warningmode" {
          str := ResponseCreate(STATUS, node.value, "none");
        } else if node.value == "errormode" {
          str := ResponseCreate(STATUS, node.value, "none");
        }
        net := net + [str];
      } else if mode == CLIENT {
        if node.name != "status" {
          cache := cache[node.name := node.value];
        }
      }
    }

    /** process(): the handler of the node's tag, then the children. False where the outcome is undefined or not
        modelled. */
    method Process(xml: XmlNode) returns (ok: bool)
      modifies this`body, this`net, this`cache
      ensures match NodeEffect(methods, mode, version, old(Now()), xml)
              case None => !ok
              case Some(e) => ok && Now() == e
      decreases xml
    {
      if xml.name !in methods {
        return false;
      }
      match methods[xml.name] {
        case Powerguru => PowerguruProcess(xml);
        case Status => StatusProcess(xml);
        case _ => return false;
      }
      var i := 0;
      ghost var start := Now();
      while i < |xml.children|
        invariant 0 <= i <= |xml.children|
        invariant NodesEffect(methods, mode, version, start, xml.children)
               == NodesEffect(methods, mode, version, Now(), xml.children[i..])
      {
        var done := Process(xml.children[i]);
        if !done {
          return false;
        }
        i := i + 1;
      }
      ok := true;
    }
  }

  lemma RequestIs(version: string, tag: StatusTag)
    ensures Write(RequestDoc(version, tag))
         == "<powerguru version=\"" + version + "\"><status>" + TagName(tag) + "</status></powerguru>"
  {
    WriteHeader(version, Leaf("status", TagName(tag)));
    WriteInner("status", [Txt(TagName(tag))]);
    WriteText(TagName(tag));
    RequestText("<powerguru version=\"" + version, TagName(tag));
  }

  lemma ResponseIs(version: string, t: MsgType, tag: string, val: string)
    ensures Write(ResponseDoc(version, t, tag, val))
         == "<powerguru version=\"" + version + "\"><" + TypeName(t) + "><" + tag + ">" + val + "</" + tag + "></"
            + TypeName(t) + "></powerguru>"
  {
    var leaf := Leaf(tag, val);
    WriteHeader(version, Elem(TypeName(t), [], [leaf]));
    WriteInner(TypeName(t), [leaf]);
    assert [leaf][1..] == [] && Write(leaf) + "" == Write(leaf);
    WriteInner(tag, leaf.content);
    WriteText(val);
    ResponseText("<powerguru version=\"" + version, TypeName(t), tag, val);
  }

  /** The five requests, tag by tag. */
  lemma RequestTexts(v: string)
    ensures Write(RequestDoc(v, SYSVERSION))
            == "<powerguru version=\"" + v + "\"><status>" + "sysversion" + "</status></powerguru>"
    ensures Write(RequestDoc(v, REVISION))
            == "<powerguru version=\"" + v + "\"><status>" + "revision" + "</status></powerguru>"
    ensures Write(RequestDoc(v, OPMODE))
            == "<powerguru version=\"" + v + "\"><status>" + "opmode" + "</status></powerguru>"
    ensures Write(RequestDoc(v, ERRORMODE))
            == "<powerguru version=\"" + v + "\"><status>" + "errormode" + "</status></powerguru>"
    ensures Write(RequestDoc(v, WARNINGMODE))
            == "<powerguru version=\"" + v + "\"><status>" + "warningmode" + "</status></powerguru>"
  {
    RequestIs(v, SYSVERSION);
    RequestIs(v, REVISION);
    RequestIs(v, OPMODE);
    RequestIs(v, ERRORMODE);
    RequestIs(v, WARNINGMODE);
  }

  /** A response around its two names, for each of the six types. */
  function Enclosed(v: string, str: string, tag: string, val: string): string {
    "<powerguru version=\"" + v + "\"><" + str + "><" + tag + ">" + val + "</" + tag + "></" + str + "></powerguru>"
  }

  lemma ResponseTexts(v: string, tag: string, val: string)
    ensures Write(ResponseDoc(v, METER, tag, val)) == Enclosed(v, "meters", tag, val)
    ensures Write(ResponseDoc(v, STATUS, tag, val)) == Enclosed(v, "status", tag, val)
    ensures Write(ResponseDoc(v, COMMAND, tag, val)) == Enclosed(v, "command", tag, val)
    ensures Write(ResponseDoc(v, CONFIG, tag, val)) == Enclosed(v, "config", tag, val)
    ensures Write(ResponseDoc(v, HEARTBEAT, tag, val)) == Enclosed(v, "heartbeat", tag, val)
    ensures Write(ResponseDoc(v, RESPONSE, tag, val)) == Enclosed(v, "response", tag, val)
  {
    ResponseIs(v, METER, tag, val);
    ResponseIs(v, STATUS, tag, val);
    ResponseIs(v, COMMAND, tag, val);
    ResponseIs(v, CONFIG, tag, val);
    ResponseIs(v, HEARTBEAT, tag, val);
    ResponseIs(v, RESPONSE, tag, val);
  }

  lemma RequestText(head: string, name: string)
    ensures head + "\">" + ("<" + "status" + ">" + name + "</" + "status" + ">") + "</powerguru>"
         == head + "\"><status>" + name + "</status></powerguru>"
  {
    assert "\">" + ("<" + "status" + ">") == "\"><status>";
    assert "</" + "status" + ">" + "</powerguru>" == "</status></powerguru>";
  }

  lemma ResponseText(head: string, str: string, tag: string, val: string)
    ensures head + "\">" + ("<" + str + ">" + ("<" + tag + ">" + val + "</" + tag + ">") + "</" + str + ">") + "</powerguru>"
         == head + "\"><" + str + "><" + tag + ">" + val + "</" + tag + "></" + str + "></powerguru>"
  {
    assert "\">" + "<" == "\"><" && ">" + "<" == "><" && ">" + "</" == "></";
  }
}
