/** Status requests and replies between a client and the daemon over two FIFO byte streams, read through the framing of
    lib/tcpip.cc. Safety over every run. */
module StatusProtocol {
  import opened Text
  import opened Xml
  import opened Framing
  import opened MessageLayer
  import M = StatusMessages

  /** "sysversion" is left out: the client has no handler for the reply. */
  type PolledTag = t: StatusTag | t != SYSVERSION witness REVISION

  /** What one end does with a received text. */
  type Handling = (Effect, string) -> Option<Effect>

  /** The messages of the two ends, and how they handle them. */
  datatype Link = Link(request: PolledTag -> string, answer: PolledTag -> string,
                       name: PolledTag -> string, value: PolledTag -> string,
                       client: Handling, daemon: Handling)

  /** The client and the daemon of lib/msgs.cc. */
  function LinkOf(x: M.Ends): Link {
    Link((tag: PolledTag) => M.Request(x.client, tag), (tag: PolledTag) => M.Answer(x.daemon, tag),
         (tag: PolledTag) => TagName(tag), (tag: PolledTag) => M.ValueOf(x.daemon, tag),
         (e: Effect, text: string) => Receive(x.clientTable, CLIENT, x.client, e, text),
         (e: Effect, text: string) => Receive(x.daemonTable, DAEMON, x.daemon, e, text))
  }

  // ----- the system -----

  /** The texts in flight in each direction, the requests made so far, how many replies the client has consumed, and
      both caches. */
  datatype System = System(toDaemon: seq<string>, toClient: seq<string>, sent: seq<PolledTag>, consumed: nat,
                           clientCache: map<string, string>, daemonCache: map<string, string>)

  /** Receive the messages of one read, in order. */
  function ReceiveAll(h: Handling, e: Effect, msgs: seq<string>): Option<Effect>
    decreases |msgs|
  {
    if msgs == [] then Some(e)
    else
      match h(e, msgs[0])
      case None => None
      case Some(e1) => ReceiveAll(h, e1, msgs[1..])
  }

  predicate CanRead(stream: seq<string>, n: nat) {
    0 < n <= |stream| && |Wire(stream[..n])| <= INBUF - 2
  }

  /** A read that takes the first `n` texts off a stream: what anydata makes of the bytes. */
  function ReadMessages(stream: seq<string>, n: nat): seq<string>
    requires n <= |stream|
  {
    Received(Wire(stream[..n])).msgs
  }

  /** The texts written to the network, without their NULs. */
  function Sent(texts: seq<string>): seq<string> {
    seq(|texts|, i requires 0 <= i < |texts| => if texts[i] == "" then "" else texts[i][..|texts[i]| - 1])
  }

  predicate ClientAsks(k: Link, s: System, s': System, tag: PolledTag) {
    s' == s.(toDaemon := s.toDaemon + [k.request(tag)], sent := s.sent + [tag])
  }

  /** The daemon reads `n` texts. If handling them has no defined effect, the next state may be anything. */
  predicate DaemonReads(k: Link, s: System, s': System, n: nat) {
    && CanRead(s.toDaemon, n)
    && match ReceiveAll(k.daemon, Effect(s.daemonCache, []), ReadMessages(s.toDaemon, n))
       case None => true
       case Some(e) => s' == s.(toDaemon := s.toDaemon[n..], toClient := s.toClient + Sent(e.out), daemonCache := e.cache)
  }

  predicate ClientReads(k: Link, s: System, s': System, n: nat) {
    && CanRead(s.toClient, n)
    && match ReceiveAll(k.client, Effect(s.clientCache, []), ReadMessages(s.toClient, n))
       case None => true
       case Some(e) => s' == s.(toClient := s.toClient[n..], toDaemon := s.toDaemon + Sent(e.out),
                                consumed := s.consumed + n, clientCache := e.cache)
  }

  ghost predicate Next(k: Link, s: System, s': System) {
    || (exists tag: PolledTag :: ClientAsks(k, s, s', tag))
    || (exists n: nat :: DaemonReads(k, s, s', n))
    || (exists n: nat :: ClientReads(k, s, s', n))
  }

  predicate Init(s: System, daemonCache: map<string, string>) {
    s == System([], [], [], 0, map[], daemonCache)
  }

  ghost predicate IsRun(k: Link, run: seq<System>, c: map<string, string>) {
    && |run| > 0 && Init(run[0], c)
    && forall i | 0 <= i < |run| - 1 :: Next(k, run[i], run[i + 1])
  }

  // ----- the invariant -----

  /** The cache after the replies to some requests. */
  function Filed(k: Link, tags: seq<PolledTag>): map<string, string> {
    if tags == [] then map[]
    else
      var last := tags[|tags| - 1];
      Filed(k, tags[..|tags| - 1])[k.name(last) := k.value(last)]
  }

  function Requests(k: Link, tags: seq<PolledTag>): (r: seq<string>)
    ensures |r| == |tags| && forall i | 0 <= i < |r| :: r[i] == k.request(tags[i])
  {
    seq(|tags|, i requires 0 <= i < |tags| => k.request(tags[i]))
  }

  function Answers(k: Link, tags: seq<PolledTag>): (r: seq<string>)
    ensures |r| == |tags| && forall i | 0 <= i < |r| :: r[i] == k.answer(tags[i])
  {
    seq(|tags|, i requires 0 <= i < |tags| => k.answer(tags[i]))
  }

  /** Every request is consumed, answered and in flight, or in flight itself, in the order of sending; the client's
      cache is what the consumed replies filed; and the daemon's cache never changes. */
  ghost predicate Inv(k: Link, s: System, c: map<string, string>) {
    && |s.sent| == s.consumed + |s.toClient| + |s.toDaemon|
    && s.toClient == Answers(k, s.sent[s.consumed..s.consumed + |s.toClient|])
    && s.toDaemon == Requests(k, s.sent[s.consumed + |s.toClient|..])
    && s.clientCache == Filed(k, s.sent[..s.consumed])
    && s.daemonCache == c
  }

  // ----- what makes a link safe -----

  /** Both kinds of message pass through the framing. */
  ghost predicate Framed(k: Link) {
    && (forall tag: PolledTag :: IsFrame(k.request(tag)) && LF !in k.request(tag))
    && (forall tag: PolledTag :: IsFrame(k.answer(tag)) && LF !in k.answer(tag))
  }

  /** The daemon answers each request with one text, and keeps its cache. */
  ghost predicate AnswersRequests(k: Link) {
    forall e: Effect, tag: PolledTag ::
      k.daemon(e, k.request(tag)) == Some(Effect(e.cache, e.out + [k.answer(tag) + [NUL]]))
  }

  /** The client files each answer under the name of its tag. */
  ghost predicate FilesAnswers(k: Link) {
    forall e: Effect, tag: PolledTag ::
      k.client(e, k.answer(tag)) == Some(Effect(e.cache[k.name(tag) := k.value(tag)], e.out))
  }

  ghost predicate NamesDiffer(k: Link) {
    forall a: PolledTag, b: PolledTag :: k.name(a) == k.name(b) ==> a == b
  }

  ghost predicate Sound(k: Link) {
    Framed(k) && AnswersRequests(k) && FilesAnswers(k)
  }

  /** The messages of lib/msgs.cc make a sound link. */
  lemma LinkIsSound(x: M.Ends)
    requires M.WellSet(x)
    ensures Sound(LinkOf(x)) && NamesDiffer(LinkOf(x))
  {
    var k := LinkOf(x);
    forall tag: PolledTag ensures IsFrame(k.request(tag)) && LF !in k.request(tag) {
      M.RequestFrame(x.client, tag);
    }
    forall tag: PolledTag ensures IsFrame(k.answer(tag)) && LF !in k.answer(tag) {
      M.AnswerFrame(x.daemon, tag);
    }
    forall e: Effect, tag: PolledTag
      ensures k.daemon(e, k.request(tag)) == Some(Effect(e.cache, e.out + [k.answer(tag) + [NUL]]))
    {
      M.DaemonAnswers(x, e, tag);
    }
    forall e: Effect, tag: PolledTag
      ensures k.client(e, k.answer(tag)) == Some(Effect(e.cache[k.name(tag) := k.value(tag)], e.out))
    {
      M.ClientFiles(x, e, tag);
    }
    forall a: PolledTag, b: PolledTag ensures k.name(a) == k.name(b) ==> a == b {
      TagNamesDiffer(a, b);
    }
  }

  lemma TagNamesDiffer(a: StatusTag, b: StatusTag)
    ensures TagName(a) == TagName(b) <==> a == b
  {
    assert "sysversion"[0] == 's' && "revision"[0] == 'r' && "opmode"[0] == 'o' && "errormode"[0] == 'e'
           && "warningmode"[0] == 'w';
  }

  // ----- steps -----

  /** A read of whole messages without line feeds gives back the messages. */
  lemma ReadsBack(stream: seq<string>, n: nat, msgs: seq<string>)
    requires n <= |stream| && stream[..n] == msgs
    requires forall i | 0 <= i < |msgs| :: IsFrame(msgs[i]) && LF !in msgs[i]
    ensures ReadMessages(stream, n) == msgs
  {
    WholeFramesArrive(msgs);
    forall i | 0 <= i < |msgs| ensures CutAll(msgs)[i] == msgs[i] {
      CutEnds(msgs[i]);
    }
    assert CutAll(msgs) == msgs;
  }

  function Replies(k: Link, tags: seq<PolledTag>): (r: seq<string>)
    ensures |r| == |tags| && forall i | 0 <= i < |r| :: r[i] == k.answer(tags[i]) + [NUL]
  {
    seq(|tags|, i requires 0 <= i < |tags| => k.answer(tags[i]) + [NUL])
  }

  lemma ReceiveFirst(h: Handling, e: Effect, msgs: seq<string>, e1: Effect)
    requires msgs != [] && h(e, msgs[0]) == Some(e1)
    ensures ReceiveAll(h, e, msgs) == ReceiveAll(h, e1, msgs[1..])
  {
  }

  lemma Tails(k: Link, tags: seq<PolledTag>)
    requires tags != []
    ensures Requests(k, tags)[1..] == Requests(k, tags[1..]) && Answers(k, tags)[1..] == Answers(k, tags[1..])
  {
  }

  lemma RepliesMore(k: Link, out: seq<string>, tags: seq<PolledTag>)
    ensures tags == [] ==> out + Replies(k, tags) == out
    ensures tags != [] ==> out + [k.answer(tags[0]) + [NUL]] + Replies(k, tags[1..]) == out + Replies(k, tags)
  {
  }

  /** All requests of a read are answered, one text each, in order. */
  lemma {:induction false} AnswersAll(k: Link, e: Effect, tags: seq<PolledTag>)
    requires AnswersRequests(k)
    ensures ReceiveAll(k.daemon, e, Requests(k, tags)) == Some(Effect(e.cache, e.out + Replies(k, tags)))
    decreases |tags|
  {
    RepliesMore(k, e.out, tags);
    if tags != [] {
      var e1 := Effect(e.cache, e.out + [k.answer(tags[0]) + [NUL]]);
      ReceiveFirst(k.daemon, e, Requests(k, tags), e1);
      Tails(k, tags);
      AnswersAll(k, e1, tags[1..]);
    }
  }

  lemma FiledMore(k: Link, tags: seq<PolledTag>, tag: PolledTag)
    ensures Filed(k, tags + [tag]) == Filed(k, tags)[k.name(tag) := k.value(tag)]
  {
    assert (tags + [tag])[..|tags|] == tags;
  }

  lemma OneByOne(before: seq<PolledTag>, tags: seq<PolledTag>)
    ensures tags == [] ==> before + tags == before
    ensures tags != [] ==> before + [tags[0]] + tags[1..] == before + tags
  {
  }

  lemma {:induction false} FilesAll(k: Link, before: seq<PolledTag>, tags: seq<PolledTag>)
    requires FilesAnswers(k)
    ensures ReceiveAll(k.client, Effect(Filed(k, before), []), Answers(k, tags))
         == Some(Effect(Filed(k, before + tags), []))
    decreases |tags|
  {
    OneByOne(before, tags);
    if tags != [] {
      var more := before + [tags[0]];
      FiledMore(k, before, tags[0]);
      ReceiveFirst(k.client, Effect(Filed(k, before), []), Answers(k, tags), Effect(Filed(k, more), []));
      Tails(k, tags);
      FilesAll(k, more, tags[1..]);
    }
  }

  lemma SentReplies(k: Link, tags: seq<PolledTag>)
    ensures Sent(Replies(k, tags)) == Answers(k, tags)
  {
    var r := Replies(k, tags);
    forall i | 0 <= i < |tags| ensures Sent(r)[i] == k.answer(tags[i]) {
      assert r[i][..|r[i]| - 1] == k.answer(tags[i]);
    }
  }

  lemma RequestsReadBack(k: Link, stream: seq<string>, n: nat, tags: seq<PolledTag>)
    requires Framed(k) && stream == Requests(k, tags) && n <= |tags|
    ensures ReadMessages(stream, n) == Requests(k, tags[..n])
  {
    assert stream[..n] == Requests(k, tags[..n]);
    ReadsBack(stream, n, Requests(k, tags[..n]));
  }

  lemma AnswersReadBack(k: Link, stream: seq<string>, n: nat, tags: seq<PolledTag>)
    requires Framed(k) && stream == Answers(k, tags) && n <= |tags|
    ensures ReadMessages(stream, n) == Answers(k, tags[..n])
  {
    assert stream[..n] == Answers(k, tags[..n]);
    ReadsBack(stream, n, Answers(k, tags[..n]));
  }

  /** The next requests that the daemon reads, and the next answers that the client reads. */
  function Waiting(s: System): seq<PolledTag>
    requires s.consumed + |s.toClient| <= |s.sent|
  {
    s.sent[s.consumed + |s.toClient|..]
  }

  function Answered(s: System): seq<PolledTag>
    requires s.consumed + |s.toClient| <= |s.sent|
  {
    s.sent[s.consumed..s.consumed + |s.toClient|]
  }

  lemma AnswersFromNothing(k: Link, cache: map<string, string>, tags: seq<PolledTag>)
    requires Sound(k)
    ensures ReceiveAll(k.daemon, Effect(cache, []), Requests(k, tags)) == Some(Effect(cache, Replies(k, tags)))
  {
    AnswersAll(k, Effect(cache, []), tags);
    NothingBefore(Replies(k, tags));
  }

  lemma NothingBefore(texts: seq<string>)
    ensures [] + texts == texts
  {
  }

  /** What the daemon does with a read, in a state that meets the invariant: one reply for each request. */
  lemma DaemonReading(k: Link, s: System, n: nat, c: map<string, string>)
    requires Sound(k) && Inv(k, s, c) && CanRead(s.toDaemon, n)
    ensures ReceiveAll(k.daemon, Effect(s.daemonCache, []), ReadMessages(s.toDaemon, n))
         == Some(Effect(s.daemonCache, Replies(k, Waiting(s)[..n])))
  {
    RequestsReadBack(k, s.toDaemon, n, Waiting(s));
    AnswersFromNothing(k, s.daemonCache, Waiting(s)[..n]);
  }

  lemma Shift(k: Link, all: seq<PolledTag>, a: nat, b: nat, n: nat)
    requires a <= b && b + n <= |all|
    ensures Answers(k, all[a..b]) + Answers(k, all[b..][..n]) == Answers(k, all[a..b + n])
    ensures Requests(k, all[b..])[n..] == Requests(k, all[b + n..])
  {
  }

  /** A read of the daemon moves as many texts to the other stream. */
  lemma DaemonStepKeeps(k: Link, s: System, s': System, n: nat, c: map<string, string>)
    requires Sound(k) && Inv(k, s, c) && DaemonReads(k, s, s', n)
    ensures Inv(k, s', c)
    ensures s'.consumed == s.consumed && |s'.toClient| == |s.toClient| + n && |s'.toDaemon| == |s.toDaemon| - n
  {
    DaemonReading(k, s, n, c);
    DaemonEffect(k, s, s', n, c);
  }

  /** The answers join those that are already in the stream to the client. */
  lemma AnswersJoin(k: Link, s: System, n: nat, c: map<string, string>)
    requires Inv(k, s, c) && n <= |s.toDaemon|
    ensures var b := s.consumed + |s.toClient|;
            s.toClient + Sent(Replies(k, Waiting(s)[..n])) == Answers(k, s.sent[s.consumed..b + n])
  {
    SentReplies(k, Waiting(s)[..n]);
    Shift(k, s.sent, s.consumed, s.consumed + |s.toClient|, n);
  }

  /** The requests behind those that were read stay in the stream to the daemon. */
  lemma RequestsLeft(k: Link, s: System, n: nat, c: map<string, string>)
    requires Inv(k, s, c) && n <= |s.toDaemon|
    ensures s.toDaemon[n..] == Requests(k, s.sent[s.consumed + |s.toClient| + n..])
  {
    Shift(k, s.sent, s.consumed, s.consumed + |s.toClient|, n);
  }

  lemma DaemonEffect(k: Link, s: System, s': System, n: nat, c: map<string, string>)
    requires Inv(k, s, c) && n <= |s.toDaemon|
    requires s' == s.(toDaemon := s.toDaemon[n..], toClient := s.toClient + Sent(Replies(k, Waiting(s)[..n])))
    ensures Inv(k, s', c)
  {
    AnswersJoin(k, s, n, c);
    RequestsLeft(k, s, n, c);
    assert |s'.toClient| == |s.toClient| + n;
  }

  lemma ClientReading(k: Link, s: System, n: nat, c: map<string, string>)
    requires Sound(k) && Inv(k, s, c) && CanRead(s.toClient, n)
    ensures ReceiveAll(k.client, Effect(s.clientCache, []), ReadMessages(s.toClient, n))
         == Some(Effect(Filed(k, s.sent[..s.consumed + n]), []))
  {
    Advance(k, s.sent, s.consumed, s.consumed + |s.toClient|, n);
    ReadAndFile(k, s.toClient, n, s.sent[..s.consumed], Answered(s), s.sent[..s.consumed + n], s.clientCache);
  }

  lemma ReadAndFile(k: Link, stream: seq<string>, n: nat, before: seq<PolledTag>, tags: seq<PolledTag>,
                    after: seq<PolledTag>, cache: map<string, string>)
    requires Sound(k) && stream == Answers(k, tags) && n <= |tags| && after == before + tags[..n]
    requires cache == Filed(k, before)
    ensures ReceiveAll(k.client, Effect(cache, []), ReadMessages(stream, n)) == Some(Effect(Filed(k, after), []))
  {
    AnswersReadBack(k, stream, n, tags);
    FilesAll(k, before, tags[..n]);
  }

  lemma Advance(k: Link, all: seq<PolledTag>, a: nat, b: nat, n: nat)
    requires a + n <= b <= |all|
    ensures all[..a] + all[a..b][..n] == all[..a + n]
    ensures Answers(k, all[a..b])[n..] == Answers(k, all[a + n..b])
  {
  }

  lemma ClientStepKeeps(k: Link, s: System, s': System, n: nat, c: map<string, string>)
    requires Sound(k) && Inv(k, s, c) && ClientReads(k, s, s', n)
    ensures Inv(k, s', c)
    ensures s'.consumed == s.consumed + n && |s'.toClient| == |s.toClient| - n && s'.toDaemon == s.toDaemon
  {
    ClientReading(k, s, n, c);
    ClientEffect(k, s, s', n, c);
  }

  /** The answers behind those that were read stay in the stream to the client. */
  lemma AnswersLeft(k: Link, s: System, n: nat, c: map<string, string>)
    requires Inv(k, s, c) && n <= |s.toClient|
    ensures s.toClient[n..] == Answers(k, s.sent[s.consumed + n..s.consumed + |s.toClient|])
  {
    Advance(k, s.sent, s.consumed, s.consumed + |s.toClient|, n);
  }

  lemma NothingSent(texts: seq<string>)
    ensures texts + Sent([]) == texts
  {
  }

  lemma ClientEffect(k: Link, s: System, s': System, n: nat, c: map<string, string>)
    requires Inv(k, s, c) && n <= |s.toClient|
    requires s' == s.(toClient := s.toClient[n..], toDaemon := s.toDaemon + Sent([]), consumed := s.consumed + n,
                      clientCache := Filed(k, s.sent[..s.consumed + n]))
    ensures Inv(k, s', c) && s'.toDaemon == s.toDaemon
  {
    NothingSent(s.toDaemon);
    AnswersLeft(k, s, n, c);
  }

  lemma AskKeeps(k: Link, s: System, s': System, tag: PolledTag, c: map<string, string>)
    requires Inv(k, s, c) && ClientAsks(k, s, s', tag)
    ensures Inv(k, s', c)
  {
    var p := s.consumed + |s.toClient|;
    assert s'.sent[..s.consumed] == s.sent[..s.consumed];
    assert s'.sent[s.consumed..p] == s.sent[s.consumed..p];
    assert s'.sent[p..] == s.sent[p..] + [tag];
    assert s'.toDaemon == Requests(k, s'.sent[p..]);
  }

  lemma StepKeeps(k: Link, s: System, s': System, c: map<string, string>)
    requires Sound(k) && Inv(k, s, c) && Next(k, s, s')
    ensures Inv(k, s', c)
  {
    if tag: PolledTag :| ClientAsks(k, s, s', tag) {
      AskKeeps(k, s, s', tag, c);
    } else if n: nat :| DaemonReads(k, s, s', n) {
      DaemonStepKeeps(k, s, s', n, c);
    } else {
      var n: nat :| ClientReads(k, s, s', n);
      ClientStepKeeps(k, s, s', n, c);
    }
  }

  // ----- runs -----

  /** Safety over every run: conservation and order of the requests, and the client's cache. */
  lemma {:induction false} RunsAreSafe(k: Link, run: seq<System>, c: map<string, string>)
    requires Sound(k) && IsRun(k, run, c)
    ensures forall i | 0 <= i < |run| :: Inv(k, run[i], c)
    decreases |run|
  {
    if |run| > 1 {
      var n := |run| - 1;
      var front := run[..n];
      assert front[0] == run[0];
      forall i | 0 <= i < |front| - 1 ensures Next(k, front[i], front[i + 1]) {
        assert Next(k, run[i], run[i + 1]);
      }
      RunsAreSafe(k, front, c);
      assert Inv(k, front[n - 1], c) && Next(k, run[n - 1], run[n]);
      StepKeeps(k, run[n - 1], run[n], c);
      forall i | 0 <= i < |run| ensures Inv(k, run[i], c) {
        assert i < n ==> run[i] == front[i];
      }
    } else {
      assert run[0].toClient == Answers(k, []) && run[0].toDaemon == Requests(k, []);
    }
  }

  lemma {:induction false} FiledIs(k: Link, tags: seq<PolledTag>, tag: PolledTag)
    requires NamesDiffer(k)
    ensures k.name(tag) in Filed(k, tags) <==> tag in tags
    ensures tag in tags ==> Filed(k, tags)[k.name(tag)] == k.value(tag)
    decreases |tags|
  {
    if tags != [] {
      var n := |tags| - 1;
      FiledIs(k, tags[..n], tag);
      assert tags == tags[..n] + [tags[n]];
    }
  }

  /** In every reachable state of client and daemon the client knows a tag exactly when a reply to a request for it has
      been consumed, and the value is the daemon's; and requests sent are requests in flight, replies in flight and
      replies consumed. */
  lemma CacheIsDaemons(x: M.Ends, run: seq<System>, c: map<string, string>, i: nat, tag: PolledTag)
    requires M.WellSet(x) && IsRun(LinkOf(x), run, c) && i < |run|
    ensures var s := run[i];
            && |s.sent| == |s.toDaemon| + |s.toClient| + s.consumed
            && (TagName(tag) in s.clientCache <==> tag in s.sent[..s.consumed])
            && (TagName(tag) in s.clientCache ==> s.clientCache[TagName(tag)] == M.ValueOf(x.daemon, tag))
            && s.daemonCache == c
  {
    var k := LinkOf(x);
    LinkIsSound(x);
    RunsAreSafe(k, run, c);
    assert Inv(k, run[i], c);
    FiledIs(k, run[i].sent[..run[i].consumed], tag);
    assert k.name(tag) == TagName(tag) && k.value(tag) == M.ValueOf(x.daemon, tag);
  }

  /** The client's cache in every reachable state, key by key: it has no other keys than these four. */
  lemma ClientCacheIs(x: M.Ends, run: seq<System>, c: map<string, string>, i: nat)
    requires M.WellSet(x) && IsRun(LinkOf(x), run, c) && i < |run|
    ensures run[i].consumed <= |run[i].sent|
    ensures var cache := run[i].clientCache; var consumed := run[i].sent[..run[i].consumed];
            && cache.Keys <= {"revision", "opmode", "errormode", "warningmode"}
            && ("revision" in cache <==> REVISION in consumed) && ("revision" in cache ==> cache["revision"] == "0.0")
            && ("opmode" in cache <==> OPMODE in consumed) && ("opmode" in cache ==> cache["opmode"] == "none")
            && ("errormode" in cache <==> ERRORMODE in consumed)
            && ("errormode" in cache ==> cache["errormode"] == "none")
            && ("warningmode" in cache <==> WARNINGMODE in consumed)
            && ("warningmode" in cache ==> cache["warningmode"] == "none")
  {
    NamedInCache(x, run, c, i, REVISION, "revision", "0.0");
    NamedInCache(x, run, c, i, OPMODE, "opmode", "none");
    NamedInCache(x, run, c, i, ERRORMODE, "errormode", "none");
    NamedInCache(x, run, c, i, WARNINGMODE, "warningmode", "none");
    OnlyNames(x, run, c, i);
  }

  lemma NamedInCache(x: M.Ends, run: seq<System>, c: map<string, string>, i: nat, tag: PolledTag, name: string, val: string)
    requires M.WellSet(x) && IsRun(LinkOf(x), run, c) && i < |run| && M.StatusPair(x.daemon, tag, name, val)
    ensures run[i].consumed <= |run[i].sent|
    ensures name in run[i].clientCache <==> tag in run[i].sent[..run[i].consumed]
    ensures name in run[i].clientCache ==> run[i].clientCache[name] == val
  {
    CacheIsDaemons(x, run, c, i, tag);
    M.PairIs(x.daemon, tag, name, val);
  }

  lemma {:induction false} FiledNames(k: Link, tags: seq<PolledTag>, name: string)
    requires name in Filed(k, tags)
    ensures exists tag: PolledTag :: k.name(tag) == name
    decreases |tags|
  {
    var n := |tags| - 1;
    if k.name(tags[n]) != name {
      FiledNames(k, tags[..n], name);
    }
  }

  lemma OnlyNames(x: M.Ends, run: seq<System>, c: map<string, string>, i: nat)
    requires M.WellSet(x) && IsRun(LinkOf(x), run, c) && i < |run|
    ensures run[i].clientCache.Keys <= {"revision", "opmode", "errormode", "warningmode"}
  {
    var k := LinkOf(x);
    LinkIsSound(x);
    RunsAreSafe(k, run, c);
    assert Inv(k, run[i], c);
    forall name | name in run[i].clientCache ensures name in {"revision", "opmode", "errormode", "warningmode"} {
      FiledNames(k, run[i].sent[..run[i].consumed], name);
      var tag: PolledTag :| k.name(tag) == name;
      assert name == TagName(tag);
    }
  }
}
