/** Tcpip::anydata (lib/tcpip.cc): one read from the socket into a fixed buffer, cut into NUL-terminated messages. */
module Framing {
  import opened Text
  import opened Xml

  const INBUF := 2048

  /** What goes over the wire: each text followed by a NUL. */
  function Wire(frames: seq<string>): string {
    if frames == [] then "" else frames[0] + [NUL] + Wire(frames[1..])
  }

  /** The texts of a read that ends with a NUL. */
  function Frames(data: string): seq<string>
    decreases |data|
  {
    if data == "" then []
    else
      var f := TakeUntil(data, NUL);
      [f] + (if |f| < |data| then Frames(data[|f| + 1..]) else [])
  }

  /** Position of the last line feed. */
  function LastLF(s: string): (r: Option<nat>)
    ensures r.Some? ==> r.value < |s| && s[r.value] == LF
    ensures r.Some? ==> forall i | r.value < i < |s| :: s[i] != LF
    ensures r.None? ==> LF !in s
  {
    if s == "" then None
    else if s[|s| - 1] == LF then Some(|s| - 1)
    else LastLF(s[..|s| - 1])
  }

  /** strrchr for a line feed, and a NUL in its place: the text in front of the last line feed. */
  function Cut(s: string): string {
    match LastLF(s)
    case None => s
    case Some(i) => s[..i]
  }

  predicate IsMarkup(s: string) {
    s != "" && s[0] == '<'
  }

  /** The messages of a read, and the text kept for the next one. */
  datatype Delivery = Delivery(msgs: seq<string>, leftover: Option<string>)

  /** The loop over several messages: it stops at the first text that does not start with '<', and keeps the text
      behind that one. */
  function Scan(frames: seq<string>): Delivery {
    if frames == [] then Delivery([], None)
    else if IsMarkup(frames[0]) then
      var d := Scan(frames[1..]);
      Delivery([Cut(frames[0])] + d.msgs, d.leftover)
    else Delivery([], if |frames| > 1 && frames[1] != "" then Some(frames[1]) else None)
  }

  /** A single message takes a short cut. */
  function Deliver(frames: seq<string>): Delivery {
    if |frames| == 1 then Delivery([Cut(frames[0])], None) else Scan(frames)
  }

  /** What a read comes to without leftover text: the short cut is taken when the data is one text and its NUL. */
  function Received(data: string): Delivery {
    var f := TakeUntil(data, NUL);
    if |data| == |f| + 1 then Delivery([Cut(f)], None) else Scan(Frames(data))
  }

  /** The data from a position on. */
  function From(data: string, k: nat): string {
    if k < |data| then data[k..] else ""
  }

  /** What a read comes to with a leftover text. The short cut leaves it alone. Otherwise it goes in front of the first
      text, and the character behind that one's NUL is skipped. */
  function Completed(l: string, data: string): Delivery {
    var f := TakeUntil(data, NUL);
    var rest := From(data, |f| + 2);
    if |data| == |f| + 1 then Delivery([Cut(f)], Some(l))
    else if IsMarkup(l + f) then Prefixed([Cut(l + f)], Scan(Frames(rest)))
    else Delivery([], Kept(TakeUntil(rest, NUL)))
  }

  function ReceivedWith(leftover: Option<string>, data: string): Delivery {
    match leftover
    case None => Received(data)
    case Some(l) => Completed(l, data)
  }

  function Prefixed(msgs: seq<string>, d: Delivery): Delivery {
    Delivery(msgs + d.msgs, d.leftover)
  }

  /** The text kept when the loop breaks off: the one behind, unless it is empty. */
  function Kept(s: string): Option<string> {
    if s != "" then Some(s) else None
  }

  // ----- the method -----

  class Tcpip {
    var leftover: Option<string>

    constructor ()
      ensures leftover == None
    {
      leftover := None;
    }

    /** memset and read: the data at the start of a zeroed buffer. */
    static method Read(data: string) returns (buf: array<char>)
      requires IsRead(data)
      ensures fresh(buf) && buf.Length == 2048 && Loaded(buf[..], Terminated(data))
    {
      buf := new char[INBUF](_ => NUL);
      var ret := 0;
      while ret < |data|
        invariant 0 <= ret <= |data|
        invariant forall i | 0 <= i < ret :: buf[i] == data[i]
        invariant forall i | ret <= i < INBUF :: buf[i] == NUL
      {
        buf[ret] := data[ret];
        ret := ret + 1;
      }
    }

    /** strlen at a position of the buffer. */
    static method StrLen(buf: array<char>, p: nat) returns (n: nat)
      requires p < buf.Length && buf[buf.Length - 1] == NUL
      ensures p + n < buf.Length && buf[p..p + n] == CString(buf[..], p)
    {
      n := 0;
      while buf[p + n] != NUL
        invariant p + n < buf.Length
        invariant NUL !in buf[p..p + n]
        decreases buf.Length - n
      {
        assert buf[p..p + n + 1] == buf[p..p + n] + [buf[p + n]];
        n := n + 1;
      }
      assert buf[..][p..] == buf[p..p + n] + buf[p + n..];
      TakeUntilOf(buf[p..p + n], NUL, buf[p + n..]);
    }

    /** strcpy from a position counted from the start of a part of the buffer. */
    static method StrCpy(buf: array<char>, base: nat, ptr: nat, ghost part: seq<char>) returns (packet: string)
      requires base + ptr < buf.Length && buf[buf.Length - 1] == NUL && IsPart(part, buf[..], base)
      ensures packet == CString(part, ptr)
    {
      var cr := StrLen(buf, base + ptr);
      packet := buf[base + ptr..base + ptr + cr];
      CStringFrom(part, buf[..], base, ptr);
    }

    /** The part of anydata behind the system call: `data` is what read() returned. */
    method AnyData(data: string) returns (ok: bool, msgs: seq<string>)
      requires IsRead(data) && (leftover.Some? ==> IsReadBehind(data))
      modifies this
      ensures Delivery(msgs, leftover) == ReceivedWith(old(leftover), data)
      ensures ok == (msgs != [])
    {
      var buf := Read(data);
      var ret := |data|;
      var cr := StrLen(buf, 0);
      FirstText(buf[..], data);
      if ret == cr + 1 {
        return true, [Cut(buf[0..cr])];
      }
      var remainder;
      if leftover.Some? {
        msgs, remainder := Complete(buf, leftover.value, cr, data);
      } else {
        TerminatedFrames(data);
        msgs, remainder := SplitMessages(buf, 0, buf[..], Terminated(data));
      }
      leftover := if |remainder| > 0 then Some(remainder) else None;
      ok := |msgs| > 0;
    }

    /** The turn of the loop that puts the leftover text in front of the first one, and the turns behind it. */
    static method Complete(buf: array<char>, left: string, cr: nat, ghost data: string)
        returns (msgs: seq<string>, remainder: string)
      requires IsRead(data) && IsReadBehind(data) && buf.Length == INBUF && Loaded(buf[..], Terminated(data))
      requires |data| != cr + 1 && cr <= buf.Length && buf[0..cr] == TakeUntil(data, NUL)
      ensures Delivery(msgs, Kept(remainder)) == Completed(left, data)
    {
      var packet := left + buf[0..cr];
      var ptr := cr + 2;
      ghost var part := RestIsLoaded(buf[..], data, cr);
      if |packet| > 0 && packet[0] == '<' {
        msgs, remainder := SplitMessages(buf, ptr, part, Behind(data, ptr));
        CompletedOn(left, data, msgs, Kept(remainder));
        msgs := [Cut(packet)] + msgs;
      } else {
        msgs := [];
        remainder := StrCpy(buf, ptr, 0, part);
        FirstBehind(part, data, ptr);
      }
    }

    /** The loop that breaks the buffer into messages, from a position on, up to the text where it breaks off. */
    static method TakeMessages(buf: array<char>, base: nat, ghost part: seq<char>, ghost data: string)
        returns (msgs: seq<string>, ptr: nat, packet: string)
      requires IsPart(part, buf[..], base) && Loaded(part, data)
      ensures ptr <= |data| && packet == CString(part, ptr) && !IsMarkup(packet)
      ensures ScanFrom(part, 0) == Prefixed(msgs, ScanFrom(part, ptr))
    {
      LastOfPart(part, buf[..], base, data);
      msgs, ptr := [], 0;
      packet := StrCpy(buf, base, ptr, part);
      ghost var rest := NothingYet(part);
      while |packet| > 0 && packet[0] == '<'
        invariant ptr <= |data| && packet == CString(part, ptr)
        invariant rest == ScanFrom(part, ptr) && Prefixed(msgs, rest) == ScanFrom(part, 0)
        decreases |data| - ptr
      {
        rest := NextFrame(part, data, msgs, packet, ptr);
        msgs := msgs + [Cut(packet)];
        ptr := ptr + |packet| + 1;
        packet := StrCpy(buf, base, ptr, part);
      }
    }

    /** The messages from a position on, and the remainder behind them. */
    static method SplitMessages(buf: array<char>, base: nat, ghost part: seq<char>, ghost data: string)
        returns (msgs: seq<string>, remainder: string)
      requires IsPart(part, buf[..], base) && Loaded(part, data)
      ensures Delivery(msgs, Kept(remainder)) == Scan(Frames(data))
    {
      var ptr, packet;
      msgs, ptr, packet := TakeMessages(buf, base, part, data);
      LastOfPart(part, buf[..], base, data);
      InData(part, data, ptr);
      remainder := StrCpy(buf, base, ptr + |packet| + 1, part);
      BreakLeaves(part, data, msgs, packet, ptr, remainder);
    }
  }

  /** The loop on the buffer itself, from a position on. */
  function ScanFrom(buf: seq<char>, p: nat): Delivery
    requires p <= |buf|
    decreases |buf| - p
  {
    var f := CString(buf, p);
    var q := p + |f| + 1;
    if q > |buf| then Delivery([], None)
    else if IsMarkup(f) then Prefixed([Cut(f)], ScanFrom(buf, q))
    else Delivery([], Kept(CString(buf, q)))
  }

  lemma InData(buf: seq<char>, data: string, p: nat)
    requires Loaded(buf, data) && p <= |data|
    ensures var f := CString(buf, p); p + |f| + 1 < |buf| && (IsMarkup(f) ==> p + |f| < |data|)
  {
    if p == |data| {
      EmptyBehind(buf, data, p);
    } else {
      Remaining(buf, data, p);
    }
  }

  lemma ScanFromTakes(buf: seq<char>, p: nat, q: nat, frames: seq<string>, rest: seq<string>)
    requires p <= |buf| && q == p + |CString(buf, p)| + 1 <= |buf| && ScanFrom(buf, q) == Scan(rest)
    requires IsMarkup(CString(buf, p)) && Scan(frames) == Prefixed([Cut(CString(buf, p))], Scan(rest))
    ensures ScanFrom(buf, p) == Scan(frames)
  {
  }

  lemma ScanFromStops(buf: seq<char>, p: nat)
    requires p <= |buf| && !IsMarkup(CString(buf, p))
    ensures var q := p + |CString(buf, p)| + 1; q <= |buf| ==> ScanFrom(buf, p) == Delivery([], Kept(CString(buf, q)))
  {
  }

  /** On a loaded buffer the loop takes the frames of the data. */
  lemma {:induction false} ScanFromIsScan(buf: seq<char>, data: string, p: nat, frames: seq<string>)
    requires Loaded(buf, data) && p <= |data| && frames == Frames(data[p..])
    ensures ScanFrom(buf, p) == Scan(frames)
    decreases |data| - p
  {
    if p == |data| {
      NothingBehind(buf, data);
      Exhausted(data);
    } else if IsMarkup(CString(buf, p)) {
      var q, rest := FramesBehind(buf, data, p, frames);
      ScanFromIsScan(buf, data, q, rest);
      ScanFromTakes(buf, p, q, frames, rest);
    } else {
      BreakIsScan(buf, data, p, frames);
    }
  }

  lemma FramesBehind(buf: seq<char>, data: string, p: nat, frames: seq<string>) returns (q: nat, rest: seq<string>)
    requires Loaded(buf, data) && p < |data| && frames == Frames(data[p..]) && IsMarkup(CString(buf, p))
    ensures p < q == p + |CString(buf, p)| + 1 <= |data| && rest == Frames(data[q..])
    ensures Scan(frames) == Prefixed([Cut(CString(buf, p))], Scan(rest))
  {
    q, rest := SecondFrame(buf, data, p);
    ScanTakes(frames, CString(buf, p), rest);
  }

  lemma SecondFrame(buf: seq<char>, data: string, p: nat) returns (q: nat, rest: seq<string>)
    requires Loaded(buf, data) && p < |data|
    ensures p < q == p + |CString(buf, p)| + 1 <= |data| && rest == Frames(data[q..])
    ensures Frames(data[p..]) == [CString(buf, p)] + rest
  {
    Remaining(buf, data, p);
    q := p + |CString(buf, p)| + 1;
    rest := Frames(data[p + |CString(buf, p)| + 1..]);
  }

  lemma ScanTakes(frames: seq<string>, f: string, rest: seq<string>)
    requires frames == [f] + rest && IsMarkup(f)
    ensures Scan(frames) == Prefixed([Cut(f)], Scan(rest))
  {
    assert frames[1..] == rest;
  }

  lemma NothingBehind(buf: seq<char>, data: string)
    requires Loaded(buf, data)
    ensures ScanFrom(buf, |data|) == Delivery([], None)
  {
    EmptyBehind(buf, data, |data|);
    EmptyBehind(buf, data, |data| + 1);
    ScanFromStops(buf, |data|);
  }

  lemma BreakIsScan(buf: seq<char>, data: string, p: nat, frames: seq<string>)
    requires Loaded(buf, data) && p < |data| && frames == Frames(data[p..]) && !IsMarkup(CString(buf, p))
    ensures ScanFrom(buf, p) == Scan(frames)
  {
    var q, kept := FramesStop(buf, data, p, frames);
    ScanFromKeeps(buf, p, q, kept);
  }

  lemma FramesStop(buf: seq<char>, data: string, p: nat, frames: seq<string>) returns (q: nat, kept: Option<string>)
    requires Loaded(buf, data) && p < |data| && frames == Frames(data[p..]) && !IsMarkup(CString(buf, p))
    ensures p < q == p + |CString(buf, p)| + 1 <= |data| && kept == Kept(CString(buf, q))
    ensures Scan(frames) == Delivery([], kept)
  {
    var rest;
    q, rest := SecondFrame(buf, data, p);
    kept := KeptBehind(buf, data, q, rest);
    StopsAt(frames, CString(buf, p), rest, kept);
  }

  lemma ScanFromKeeps(buf: seq<char>, p: nat, q: nat, kept: Option<string>)
    requires p <= |buf| && !IsMarkup(CString(buf, p)) && q == p + |CString(buf, p)| + 1 <= |buf|
    requires kept == Kept(CString(buf, q))
    ensures ScanFrom(buf, p) == Delivery([], kept)
  {
    ScanFromStops(buf, p);
  }

  lemma KeptBehind(buf: seq<char>, data: string, q: nat, rest: seq<string>) returns (kept: Option<string>)
    requires Loaded(buf, data) && q <= |data| && rest == Frames(data[q..])
    ensures kept == Kept(CString(buf, q)) && kept == if rest == [] then None else Kept(rest[0])
  {
    KeptIs(buf, data, q);
    kept := Kept(CString(buf, q));
  }

  lemma StopsAt(frames: seq<string>, f: string, rest: seq<string>, kept: Option<string>)
    requires frames == [f] + rest && !IsMarkup(f) && kept == if rest == [] then None else Kept(rest[0])
    ensures Scan(frames) == Delivery([], kept)
  {
    ScanStops(f, rest);
  }

  lemma ScanFromStart(buf: seq<char>, data: string)
    requires Loaded(buf, data)
    ensures ScanFrom(buf, 0) == Scan(Frames(data))
  {
    assert data[0..] == data;
    ScanFromIsScan(buf, data, 0, Frames(data));
  }

  lemma NothingYet(buf: seq<char>) returns (rest: Delivery)
    ensures rest == ScanFrom(buf, 0) && Prefixed([], rest) == rest
  {
    rest := ScanFrom(buf, 0);
    assert [] + rest.msgs == rest.msgs;
  }

  /** A text that starts with '<' is the next message. */
  lemma NextFrame(buf: seq<char>, data: string, msgs: seq<string>, f: string, p: nat) returns (rest: Delivery)
    requires Loaded(buf, data) && p <= |data| && f == CString(buf, p) && IsMarkup(f)
    ensures p + |f| < |data| && p + |f| + 1 <= |buf| && rest == ScanFrom(buf, p + |f| + 1)
    ensures Prefixed(msgs, ScanFrom(buf, p)) == Prefixed(msgs + [Cut(f)], rest)
  {
    InData(buf, data, p);
    rest := ScanFrom(buf, p + |f| + 1);
    PrefixedTwice(msgs, [Cut(f)], rest);
  }

  /** Where the loop breaks off, the text behind the rejected one is kept. */
  lemma BreakLeaves(buf: seq<char>, data: string, msgs: seq<string>, f: string, p: nat, remainder: string)
    requires Loaded(buf, data) && p <= |data| && f == CString(buf, p) && !IsMarkup(f)
    requires p + |f| + 1 <= |buf| && remainder == CString(buf, p + |f| + 1)
    requires ScanFrom(buf, 0) == Prefixed(msgs, ScanFrom(buf, p))
    ensures Scan(Frames(data)) == Delivery(msgs, Kept(remainder))
  {
    BreakKeeps(buf, msgs, f, p);
    ScanFromStart(buf, data);
  }

  lemma BreakKeeps(buf: seq<char>, msgs: seq<string>, f: string, p: nat)
    requires p <= |buf| && f == CString(buf, p) && !IsMarkup(f) && p + |f| + 1 <= |buf|
    requires ScanFrom(buf, 0) == Prefixed(msgs, ScanFrom(buf, p))
    ensures ScanFrom(buf, 0) == Delivery(msgs, Kept(CString(buf, p + |f| + 1)))
  {
    ScanFromStops(buf, p);
    PrefixedLast(msgs, Kept(CString(buf, p + |f| + 1)));
  }

  /** The part of a buffer from a position on. */
  ghost predicate IsPart(part: seq<char>, buf: seq<char>, base: nat) {
    base + |part| == |buf| && forall i | 0 <= i < |part| :: part[i] == buf[base + i]
  }

  lemma LastOfPart(part: seq<char>, buf: seq<char>, base: nat, data: string)
    requires IsPart(part, buf, base) && Loaded(part, data)
    ensures base < |buf| && buf[|buf| - 1] == NUL
  {
    assert part[|part| - 1] == NUL;
  }

  lemma CStringFrom(part: seq<char>, buf: seq<char>, base: nat, p: nat)
    requires IsPart(part, buf, base) && base + p <= |buf|
    ensures CString(part, p) == CString(buf, base + p)
  {
    assert part[p..] == buf[base + p..];
  }

  lemma PrefixedTwice(a: seq<string>, b: seq<string>, d: Delivery)
    ensures Prefixed(a, Prefixed(b, d)) == Prefixed(a + b, d)
  {
    assert a + (b + d.msgs) == a + b + d.msgs;
  }

  /** What read() may return: not empty, and within the size asked for. Of that full size it must end with a NUL, for the
      loop would otherwise look beyond the buffer. */
  predicate IsRead(data: string) {
    0 < |data| <= INBUF - 2 && (|data| == INBUF - 2 ==> data[|data| - 1] == NUL)
  }

  /** The data up to and with the NUL that ends its last text. In the zeroed buffer there always is one. */
  function Terminated(data: string): string
    requires data != ""
  {
    if data[|data| - 1] == NUL then data else data + [NUL]
  }

  lemma FirstText(buf: seq<char>, data: string)
    requires IsRead(data) && |buf| == INBUF && Loaded(buf, Terminated(data))
    ensures CString(buf, 0) == TakeUntil(data, NUL)
  {
    assert buf[0..] == buf && data < buf && buf[|data|] == NUL;
    TakeUntilSame(data, buf);
  }

  lemma TakeUntilSame(text: string, longer: string)
    requires text < longer && longer[|text|] == NUL
    ensures TakeUntil(longer, NUL) == TakeUntil(text, NUL)
  {
    TakeUntilIs(text, NUL);
    var f := TakeUntil(text, NUL);
    assert longer[|f|] == NUL;
    assert longer == f + longer[|f|..];
    TakeUntilOf(f, NUL, longer[|f|..]);
  }

  lemma LastFrame(data: string)
    requires data != "" && NUL !in data
    ensures Frames(data) == [data]
  {
    TakeUntilIs(data, NUL);
    assert TakeUntil(data, NUL) == data;
  }

  /** A text without its NUL at the end of the data counts as a frame like the others. */
  lemma {:induction false} TerminatedFrames(data: string)
    requires data != ""
    ensures Frames(Terminated(data)) == Frames(data)
    decreases |data|
  {
    if data[|data| - 1] != NUL {
      TakeUntilIs(data, NUL);
      TakeUntilSame(data, data + [NUL]);
      FirstFrame(data + [NUL]);
      if NUL in data {
        FirstFrame(data);
        OneMoreNul(data, |TakeUntil(data, NUL)| + 1);
        TerminatedFrames(data[|TakeUntil(data, NUL)| + 1..]);
      } else {
        LastFrame(data);
        assert TakeUntil(data, NUL) == data;
        assert (data + [NUL])[|data| + 1..] == "";
      }
    }
  }

  lemma OneMoreNul(data: string, n: nat)
    requires 0 < n <= |data| && data[n - 1] == NUL && data[|data| - 1] != NUL
    ensures data[n..] != "" && data[n..][|data| - n - 1] != NUL && (data + [NUL])[n..] == data[n..] + [NUL]
  {
  }

  /** What read() may return while there is leftover text: the first text is skipped by one character more. */
  predicate IsReadBehind(data: string) {
    NUL in data || |data| <= INBUF - 4
  }

  /** Data that is empty or ends with a NUL, with room for the loop to look one text beyond it. */
  predicate IsWhole(data: string, room: nat) {
    |data| <= room - 2 && (|data| > 0 ==> data[|data| - 1] == NUL)
  }

  /** A buffer, or the part of it from a position on, with such data in it and NULs behind. */
  ghost predicate Loaded(buf: seq<char>, data: string) {
    && IsWhole(data, |buf|)
    && (forall i | 0 <= i < |data| :: buf[i] == data[i])
    && (forall i | |data| <= i < |buf| :: buf[i] == NUL)
  }

  /** The data behind a skipped first text, up to and with the NUL that ends its last text. */
  function Behind(data: string, k: nat): string {
    if k < |data| then Terminated(data[k..]) else ""
  }

  lemma RestIsWhole(data: string, cr: nat)
    requires IsRead(data) && IsReadBehind(data) && |data| != cr + 1 && cr == |TakeUntil(data, NUL)|
    ensures cr + 2 <= INBUF - 2 && IsWhole(Behind(data, cr + 2), INBUF - (cr + 2))
  {
    TakeUntilIs(data, NUL);
  }

  /** The part of the buffer behind a skipped first text. */
  lemma RestIsLoaded(buf: seq<char>, data: string, cr: nat) returns (part: seq<char>)
    requires IsRead(data) && IsReadBehind(data) && |buf| == INBUF && Loaded(buf, Terminated(data))
    requires |data| != cr + 1 && cr == |TakeUntil(data, NUL)|
    ensures IsPart(part, buf, cr + 2) && Loaded(part, Behind(data, cr + 2)) && |part| > 1
  {
    RestIsWhole(data, cr);
    var k, n := cr + 2, |Terminated(data)|;
    part := buf[k..];
    forall i | 0 <= i < |part| ensures part[i] == if k + i < n then Terminated(data)[k + i] else NUL {
      assert part[i] == buf[k + i];
    }
  }

  lemma ScanBehind(data: string, k: nat)
    ensures Scan(Frames(Behind(data, k))) == Scan(Frames(From(data, k)))
  {
    if k < |data| {
      TerminatedFrames(data[k..]);
    }
  }

  /** A completed message in front of what the rest of the data comes to. */
  lemma CompletedOn(l: string, data: string, msgs: seq<string>, kept: Option<string>)
    requires var f := TakeUntil(data, NUL); |data| != |f| + 1 && IsMarkup(l + f)
                                            && Delivery(msgs, kept) == Scan(Frames(Behind(data, |f| + 2)))
    ensures Completed(l, data) == Delivery([Cut(l + TakeUntil(data, NUL))] + msgs, kept)
  {
    ScanBehind(data, |TakeUntil(data, NUL)| + 2);
  }

  lemma FirstBehind(part: seq<char>, data: string, k: nat)
    requires Loaded(part, Behind(data, k)) && |part| > 1
    ensures CString(part, 0) == TakeUntil(From(data, k), NUL)
  {
    assert part[0..] == part;
    if k < |data| {
      var rest := data[k..];
      assert rest < part && part[|rest|] == NUL;
      TakeUntilSame(rest, part);
    } else {
      assert part[0] == NUL;
    }
  }

  /** The C string at a position. */
  function CString(buf: seq<char>, p: nat): string
    requires p <= |buf|
  {
    TakeUntil(buf[p..], NUL)
  }

  /** The string at a position of the buffer is the next frame of the read. */
  lemma Remaining(buf: seq<char>, data: string, p: nat)
    requires Loaded(buf, data) && p < |data|
    ensures var f := CString(buf, p);
            p + |f| < |data| && Frames(data[p..]) == [f] + Frames(data[p + |f| + 1..])
  {
    LastIsNul(data, p);
    FirstFrame(data[p..]);
    RestInBuffer(buf, data, p);
    SliceTwice(data, p, |CString(buf, p)| + 1);
  }

  lemma Exhausted(data: string)
    ensures Frames(data[|data|..]) == []
  {
  }

  lemma LastIsNul(data: string, p: nat)
    requires p < |data| && data[|data| - 1] == NUL
    ensures NUL in data[p..]
  {
    assert data[p..][|data| - 1 - p] == NUL;
  }

  lemma SliceTwice(data: string, p: nat, n: nat)
    requires p + n <= |data|
    ensures data[p..][n..] == data[p + n..]
  {
  }

  /** A text with a NUL starts with its first frame. */
  lemma FirstFrame(data: string)
    requires NUL in data
    ensures var f := TakeUntil(data, NUL); |f| < |data| && Frames(data) == [f] + Frames(data[|f| + 1..])
  {
    TakeUntilIs(data, NUL);
    assert TakeUntil(data, NUL) != data;
  }

  lemma RestInBuffer(buf: seq<char>, data: string, p: nat)
    requires Loaded(buf, data) && p < |data|
    ensures CString(buf, p) == TakeUntil(data[p..], NUL)
  {
    var rest, longer := data[p..], buf[p..];
    assert rest < longer && longer[|rest|] == buf[|data|];
    TakeUntilSame(rest, longer);
  }

  lemma ScanStops(f: string, rest: seq<string>)
    requires !IsMarkup(f)
    ensures Scan([f] + rest) == Delivery([], if rest == [] then None else Kept(rest[0]))
  {
  }

  lemma KeptIs(buf: seq<char>, data: string, q: nat)
    requires Loaded(buf, data) && q <= |data|
    ensures var rest := Frames(data[q..]);
            Kept(CString(buf, q)) == if rest == [] then None else Kept(rest[0])
  {
    if q == |data| {
      EmptyBehind(buf, data, q);
      Exhausted(data);
    } else {
      Remaining(buf, data, q);
    }
  }

  lemma PrefixedLast(msgs: seq<string>, kept: Option<string>)
    ensures Prefixed(msgs, Delivery([], kept)) == Delivery(msgs, kept)
  {
  }

  lemma EmptyBehind(buf: seq<char>, data: string, q: nat)
    requires Loaded(buf, data) && |data| <= q < |buf|
    ensures CString(buf, q) == ""
  {
    assert buf[q..][0] == NUL;
  }

  // ----- whole frames arrive -----

  predicate IsFrame(s: string) {
    IsMarkup(s) && NUL !in s
  }

  lemma FramesStep(f: string, rest: string)
    requires NUL !in f
    ensures Frames(f + [NUL] + rest) == [f] + Frames(rest)
  {
    var data := f + [NUL] + rest;
    assert data == f + ([NUL] + rest);
    TakeUntilOf(f, NUL, [NUL] + rest);
    assert data[|f| + 1..] == rest;
  }

  lemma {:induction false} FramesOfWire(frames: seq<string>)
    requires forall i | 0 <= i < |frames| :: NUL !in frames[i]
    ensures Frames(Wire(frames)) == frames
  {
    if frames != [] {
      FramesStep(frames[0], Wire(frames[1..]));
      FramesOfWire(frames[1..]);
    }
  }

  function CutAll(frames: seq<string>): (r: seq<string>)
    ensures |r| == |frames| && forall i | 0 <= i < |frames| :: r[i] == Cut(frames[i])
  {
    seq(|frames|, i requires 0 <= i < |frames| => Cut(frames[i]))
  }

  lemma {:induction false} ScanMarkup(frames: seq<string>)
    requires forall i | 0 <= i < |frames| :: IsMarkup(frames[i])
    ensures Scan(frames) == Delivery(CutAll(frames), None)
  {
    if frames != [] {
      ScanMarkup(frames[1..]);
      assert CutAll(frames) == [Cut(frames[0])] + CutAll(frames[1..]);
    }
  }

  lemma {:induction false} ScanFallsShort(frames: seq<string>, i: nat)
    requires i < |frames| && !IsMarkup(frames[i])
    ensures |Scan(frames).msgs| <= i
  {
    if i > 0 {
      assert frames[1..][i - 1] == frames[i];
      ScanFallsShort(frames[1..], i - 1);
    }
  }

  /** The loop delivers every text and keeps nothing exactly when every text starts with '<'. */
  lemma {:induction false} ScanAll(frames: seq<string>)
    ensures Scan(frames) == Delivery(CutAll(frames), None) <==> forall i | 0 <= i < |frames| :: IsMarkup(frames[i])
  {
    if i: nat :| i < |frames| && !IsMarkup(frames[i]) {
      ScanFallsShort(frames, i);
    } else {
      ScanMarkup(frames);
    }
  }

  /** A text up to its last line feed. */
  predicate UpToLastLine(s: string, m: string) {
    if '\n' !in s then m == s else |m| < |s| && s[..|m|] == m && s[|m|] == '\n' && '\n' !in s[|m| + 1..]
  }

  predicate StartsWithTag(s: string) {
    s != "" && s[0] == '<'
  }

  lemma CutIs(s: string)
    ensures UpToLastLine(s, Cut(s))
  {
    var i := LastLF(s);
    if i.Some? {
      assert s[i.value] in s;
    }
  }

  /** The loop in full, for any texts: it delivers those in front of the first one that does not start with '<', each up
      to its last line feed, and keeps the text behind that one unless it is empty. */
  lemma {:induction false} ScanIs(frames: seq<string>)
    ensures var d := Scan(frames); var n := |d.msgs|;
            && n <= |frames|
            && (forall i | 0 <= i < n :: StartsWithTag(frames[i]) && UpToLastLine(frames[i], d.msgs[i]))
            && (n < |frames| ==> !StartsWithTag(frames[n]))
            && d.leftover == if n + 1 < |frames| && frames[n + 1] != "" then Some(frames[n + 1]) else None
  {
    if frames != [] && IsMarkup(frames[0]) {
      ScanIs(frames[1..]);
      CutIs(frames[0]);
      assert forall i | 1 <= i < |Scan(frames).msgs| :: Scan(frames).msgs[i] == Scan(frames[1..]).msgs[i - 1];
    }
  }

  /** The reads for which the loop stays within the buffer. */
  lemma ReadSizes(data: string)
    ensures IsRead(data) <==> 1 <= |data| <= 2045 || (|data| == 2046 && data[2045] == '\0')
    ensures IsReadBehind(data) <==> '\0' in data || |data| <= 2044
  {
  }

  /** The short cut for one message agrees with the loop. */
  lemma FastPathAgrees(frame: string)
    requires IsMarkup(frame)
    ensures Deliver([frame]) == Scan([frame])
  {
    assert [frame][1..] == [];
  }

  /** On data that ends with a NUL a read comes to its frames. */
  lemma ReceivedIsDeliver(data: string)
    requires data != "" ==> data[|data| - 1] == NUL
    ensures Received(data) == Deliver(Frames(data))
  {
    if data == "" {
      return;
    }
    TakeUntilIs(data, NUL);
    var f := TakeUntil(data, NUL);
    assert f != data;
    var rest := data[|f| + 1..];
    assert Frames(data) == [f] + Frames(rest);
    assert |rest| == 0 ==> Frames(rest) == [];
  }

  lemma {:induction false} WireEnds(frames: seq<string>)
    ensures var data := Wire(frames); data != "" ==> data[|data| - 1] == NUL
  {
    if frames != [] {
      WireEnds(frames[1..]);
    }
  }

  /** A partial message at the end of a read is delivered as if it were a whole one. */
  lemma PartialIsDelivered(frames: seq<string>, part: string)
    requires (forall i | 0 <= i < |frames| :: IsFrame(frames[i])) && IsFrame(part)
    ensures Received(Wire(frames) + part) == Delivery(CutAll(frames + [part]), None)
  {
    var all := frames + [part];
    assert forall i | 0 <= i < |all| :: IsMarkup(all[i]);
    FramesWithPart(frames, part);
    ScanAll(all);
    PartIsNoShortCut(frames, part);
  }

  lemma {:induction false} FramesWithPart(frames: seq<string>, part: string)
    requires (forall i | 0 <= i < |frames| :: NUL !in frames[i]) && part != "" && NUL !in part
    ensures Frames(Wire(frames) + part) == frames + [part]
  {
    if frames == [] {
      assert Wire(frames) + part == part;
      assert part + "" == part;
      TakeUntilOf(part, NUL, "");
    } else {
      var f, rest := frames[0], frames[1..];
      FramesWithPart(rest, part);
      Regroup(f + [NUL], Wire(rest), part);
      FramesStep(f, Wire(rest) + part);
      assert [f] + (rest + [part]) == frames + [part];
    }
  }

  lemma PartIsNoShortCut(frames: seq<string>, part: string)
    requires (forall i | 0 <= i < |frames| :: NUL !in frames[i]) && part != "" && NUL !in part
    ensures var data := Wire(frames) + part; |data| != |TakeUntil(data, NUL)| + 1
  {
    var data := Wire(frames) + part;
    TakeUntilIs(data, NUL);
    assert data[|data| - 1] == part[|part| - 1] != NUL;
  }

  lemma ReceivedWire(frames: seq<string>)
    requires forall i | 0 <= i < |frames| :: NUL !in frames[i]
    ensures Received(Wire(frames)) == Deliver(frames)
  {
    WireEnds(frames);
    ReceivedIsDeliver(Wire(frames));
    FramesOfWire(frames);
  }

  lemma DeliverAll(frames: seq<string>)
    requires forall i | 0 <= i < |frames| :: IsMarkup(frames[i])
    ensures Deliver(frames) == Delivery(CutAll(frames), None)
  {
    ScanAll(frames);
    if |frames| == 1 {
      assert frames == [frames[0]];
      FastPathAgrees(frames[0]);
    }
  }

  /** Whole-frame reads deliver every message, each cut at its last line feed, and nothing is left over. */
  lemma WholeFramesArrive(frames: seq<string>)
    requires forall i | 0 <= i < |frames| :: IsFrame(frames[i])
    ensures Received(Wire(frames)) == Delivery(CutAll(frames), None)
  {
    ReceivedWire(frames);
    DeliverAll(frames);
  }

  lemma {:induction false} CutEnds(m: string)
    ensures Cut(m + [LF]) == m
    ensures Cut(m) == m <==> LF !in m
  {
    assert (m + [LF])[..|m|] == m;
    var i := LastLF(m);
    if i.Some? {
      assert |Cut(m)| < |m|;
    }
  }

  /** The frames of messages, each with or without a line feed behind it. */
  function Fed(msgs: seq<string>, feeds: seq<bool>): (frames: seq<string>)
    requires |feeds| == |msgs|
    ensures |frames| == |msgs| && forall i | 0 <= i < |msgs| :: frames[i] == if feeds[i] then msgs[i] + [LF] else msgs[i]
  {
    seq(|msgs|, i requires 0 <= i < |msgs| => if feeds[i] then msgs[i] + [LF] else msgs[i])
  }

  /** Framing inverse: messages, each sent with or without a line feed and with a NUL behind it, arrive as they were sent
      exactly when those without a line feed behind them hold none themselves. */
  lemma FramingInverse(msgs: seq<string>, feeds: seq<bool>)
    requires |feeds| == |msgs| && forall i | 0 <= i < |msgs| :: IsFrame(msgs[i])
    ensures Received(Wire(Fed(msgs, feeds))) == Delivery(msgs, None)
            <==> forall i | 0 <= i < |msgs| :: feeds[i] || LF !in msgs[i]
  {
    var frames := Fed(msgs, feeds);
    WholeFramesArrive(frames);
    forall i | 0 <= i < |msgs| ensures CutAll(frames)[i] == msgs[i] <==> feeds[i] || LF !in msgs[i] {
      CutEnds(msgs[i]);
    }
    if forall i | 0 <= i < |msgs| :: feeds[i] || LF !in msgs[i] {
      assert CutAll(frames) == msgs;
    }
  }

  // ----- reads that do not end where a message ends -----

  lemma WireStep(f: string, frames: seq<string>)
    ensures Wire([f] + frames) == f + "\0" + Wire(frames)
  {
    assert ([f] + frames)[1..] == frames;
  }

  lemma Scissors(head: string, tail: string, n: nat)
    requires n <= |head + tail|
    ensures n <= |head| ==> (head + tail)[..n] == head[..n] && (head + tail)[n..] == head[n..] + tail
    ensures n >= |head| ==> (head + tail)[..n] == head + tail[..n - |head|] && (head + tail)[n..] == tail[n - |head|..]
  {
  }

  /** Where a position in the wire text falls: behind the NUL of a message, or inside one. */
  ghost predicate FallsAt(frames: seq<string>, n: nat, k: nat, a: string, b: string)
    requires n <= |Wire(frames)|
  {
    && k <= |frames|
    && Wire(frames)[..n] == Wire(frames[..k]) + a
    && if a == "" then Wire(frames)[n..] == Wire(frames[k..])
       else k < |frames| && frames[k] == a + b && Wire(frames)[n..] == b + [NUL] + Wire(frames[k + 1..])
  }

  lemma {:induction false} CutWire(frames: seq<string>, n: nat) returns (k: nat, a: string, b: string)
    requires n <= |Wire(frames)|
    ensures FallsAt(frames, n, k, a, b)
  {
    if n == 0 {
      k, a, b := 0, "", "";
      assert frames[..0] == [] && frames[0..] == frames;
    } else {
      var f, rest := frames[0], frames[1..];
      Scissors(f + [NUL], Wire(rest), n);
      if n <= |f| {
        k, a, b := 0, f[..n], f[n..];
        Scissors(f, [NUL], n);
        assert frames[..0] == [];
      } else {
        var j;
        j, a, b := CutWire(rest, n - |f| - 1);
        k := j + 1;
        FallsBehind(frames, n, j, a, b);
      }
    }
  }

  lemma FallsBehind(frames: seq<string>, n: nat, j: nat, a: string, b: string)
    requires frames != [] && |frames[0]| < n <= |Wire(frames)|
    requires FallsAt(frames[1..], n - |frames[0]| - 1, j, a, b)
    ensures FallsAt(frames, n, j + 1, a, b)
  {
    var f, rest := frames[0], frames[1..];
    Scissors(f + [NUL], Wire(rest), n);
    HeadOfWire(f, rest, j, a);
    assert frames[..j + 1] == [f] + rest[..j];
    assert frames[j + 1..] == rest[j..];
    assert a != "" ==> frames[j + 2..] == rest[j + 1..];
  }

  lemma HeadOfWire(f: string, rest: seq<string>, j: nat, a: string)
    requires j <= |rest|
    ensures Wire([f] + rest[..j]) + a == f + [NUL] + (Wire(rest[..j]) + a)
  {
    WireStep(f, rest[..j]);
  }

  /** A read that starts inside a message: the number of its messages is never that of the whole ones in it. */
  lemma TornRead(b: string, post: seq<string>)
    requires NUL !in b && forall i | 0 <= i < |post| :: IsFrame(post[i])
    ensures |Received(b + [NUL] + Wire(post)).msgs| != |post|
  {
    var all := [b] + post;
    WireStep(b, post);
    ReceivedWire(all);
    if post != [] {
      if IsMarkup(b) {
        ScanMarkup(all);
      } else {
        ScanFallsShort(all, 0);
      }
    }
  }

  /** What two reads come to. */
  function TwoReads(first: string, second: string): Delivery {
    var d := Received(first);
    Prefixed(d.msgs, ReceivedWith(d.leftover, second))
  }

  lemma CutBetween(pre: seq<string>, post: seq<string>)
    requires forall i | 0 <= i < |pre| :: IsFrame(pre[i])
    requires forall i | 0 <= i < |post| :: IsFrame(post[i])
    ensures TwoReads(Wire(pre), Wire(post)) == Delivery(CutAll(pre) + CutAll(post), None)
  {
    WholeFramesArrive(pre);
    WholeFramesArrive(post);
  }

  lemma CutAllAppend(pre: seq<string>, post: seq<string>)
    ensures CutAll(pre + post) == CutAll(pre) + CutAll(post)
  {
  }

  lemma CutInside(pre: seq<string>, a: string, b: string, post: seq<string>)
    requires forall i | 0 <= i < |pre| :: IsFrame(pre[i])
    requires forall i | 0 <= i < |post| :: IsFrame(post[i])
    requires IsFrame(a) && NUL !in b
    ensures |TwoReads(Wire(pre) + a, b + [NUL] + Wire(post)).msgs| != |pre| + 1 + |post|
  {
    PartialIsDelivered(pre, a);
    TornRead(b, post);
  }

  lemma SplitFrame(f: string, a: string, b: string)
    requires IsFrame(f) && f == a + b && a != ""
    ensures IsFrame(a) && NUL !in b && a[|a| - 1] != NUL
  {
  }

  ghost predicate ArriveByTwo(frames: seq<string>, first: string, second: string) {
    TwoReads(first, second) == Delivery(CutAll(frames), None)
  }

  /** A first read that ends with a message. */
  lemma FirstEnds(frames: seq<string>, k: nat, first: string, second: string)
    requires k <= |frames| && forall i | 0 <= i < |frames| :: IsFrame(frames[i])
    requires first == Wire(frames[..k]) && first != "" && second == Wire(frames[k..])
    ensures ArriveByTwo(frames, first, second) && first[|first| - 1] == NUL
  {
    CutBetween(frames[..k], frames[k..]);
    CutAllAppend(frames[..k], frames[k..]);
    assert frames[..k] + frames[k..] == frames;
    WireEnds(frames[..k]);
  }

  /** A first read that ends inside a message. */
  lemma FirstTears(frames: seq<string>, k: nat, a: string, b: string, first: string, second: string)
    requires k < |frames| && forall i | 0 <= i < |frames| :: IsFrame(frames[i])
    requires frames[k] == a + b && a != "" && first == Wire(frames[..k]) + a
    requires second == b + [NUL] + Wire(frames[k + 1..])
    ensures !ArriveByTwo(frames, first, second) && first[|first| - 1] != NUL
  {
    SplitFrame(frames[k], a, b);
    CutInside(frames[..k], a, b, frames[k + 1..]);
  }

  lemma CutFirst(frames: seq<string>, first: string, second: string) returns (k: nat, a: string, b: string)
    requires first + second == Wire(frames)
    ensures k <= |frames| && (a == "" ==> first == Wire(frames[..k]) && second == Wire(frames[k..]))
    ensures a != "" ==> k < |frames| && frames[k] == a + b && first == Wire(frames[..k]) + a
                        && second == b + [NUL] + Wire(frames[k + 1..])
  {
    k, a, b := CutWire(frames, |first|);
    assert Wire(frames)[..|first|] == first && Wire(frames)[|first|..] == second;
    assert a == "" ==> Wire(frames[..k]) + a == Wire(frames[..k]);
  }

  /** Messages sent in one text and received by two reads arrive exactly when the first read ends with the NUL of a
      message. */
  lemma TwoReadsExactly(frames: seq<string>, first: string, second: string)
    requires forall i | 0 <= i < |frames| :: IsFrame(frames[i])
    requires first + second == Wire(frames) && first != "" && second != ""
    ensures TwoReads(first, second) == Delivery(CutAll(frames), None) <==> first[|first| - 1] == NUL
  {
    ArriveExactly(frames, first, second);
  }

  lemma ArriveExactly(frames: seq<string>, first: string, second: string)
    requires forall i | 0 <= i < |frames| :: IsFrame(frames[i])
    requires first + second == Wire(frames) && first != ""
    ensures ArriveByTwo(frames, first, second) <==> first[|first| - 1] == NUL
  {
    var k, a, b := CutFirst(frames, first, second);
    if a == "" {
      FirstEnds(frames, k, first, second);
    } else {
      FirstTears(frames, k, a, b, first, second);
    }
  }

  /** A leftover text is completed by the next read, and the messages behind it arrive, exactly when that read holds the
      rest of the message alone, without a NUL. */
  lemma LeftoverIsCompletedExactly(l: string, f: string, ended: bool, behind: seq<string>)
    requires IsMarkup(l) && NUL !in f && forall i | 0 <= i < |behind| :: IsFrame(behind[i])
    requires behind != [] ==> ended
    ensures Completed(l, if ended then f + [NUL] + Wire(behind) else f) == Delivery([Cut(l + f)] + CutAll(behind), None)
            <==> !ended
  {
    if !ended {
      RestAlone(l, f);
    } else if behind == [] {
      NulIsShortCut(l, f);
    } else {
      TakesRest(l, f, behind[0], behind[1..]);
      assert [behind[0]] + behind[1..] == behind;
    }
  }

  lemma RestAlone(l: string, f: string)
    requires IsMarkup(l) && NUL !in f
    ensures Completed(l, f) == Delivery([Cut(l + f)], None)
  {
    assert f + "" == f;
    TakeUntilOf(f, NUL, "");
  }

  /** With its NUL the rest of a message takes the short cut, which leaves the leftover text alone. */
  lemma NulIsShortCut(l: string, f: string)
    requires NUL !in f
    ensures Completed(l, f + [NUL] + Wire([])) == Delivery([Cut(f)], Some(l))
  {
    assert f + [NUL] + Wire([]) == f + [NUL];
    TakeUntilOf(f, NUL, [NUL]);
  }

  /** Of the messages behind the rest, the first one loses its first character. */
  lemma TakesRest(l: string, f: string, g: string, rest: seq<string>)
    requires IsMarkup(l) && NUL !in f && IsFrame(g) && forall i | 0 <= i < |rest| :: IsFrame(rest[i])
    ensures var d := Completed(l, f + [NUL] + Wire([g] + rest));
            && d == Prefixed([Cut(l + f)], Scan([g[1..]] + rest))
            && d.msgs != [Cut(l + f)] + CutAll([g] + rest)
  {
    WireStep(g, rest);
    FramesStep(g[1..], Wire(rest));
    FramesOfWire(rest);
    CompletedSkips(l, f, g, Wire(rest));
    LosesItsStart(g, rest);
    SameHead(Cut(l + f), Scan([g[1..]] + rest).msgs, CutAll([g] + rest));
  }

  lemma CompletedSkips(l: string, f: string, g: string, wire: string)
    requires IsMarkup(l) && NUL !in f && g != ""
    ensures Completed(l, f + [NUL] + (g + [NUL] + wire))
            == Prefixed([Cut(l + f)], Scan(Frames(g[1..] + [NUL] + wire)))
  {
    var tail := g + [NUL] + wire;
    var data := f + [NUL] + tail;
    assert data == f + ([NUL] + tail);
    TakeUntilOf(f, NUL, [NUL] + tail);
    assert From(data, |f| + 2) == tail[1..] == g[1..] + [NUL] + wire;
  }

  lemma SameHead(m: string, a: seq<string>, b: seq<string>)
    requires a != b
    ensures [m] + a != [m] + b
  {
    assert ([m] + a)[1..] == a && ([m] + b)[1..] == b;
  }

  lemma LosesItsStart(g: string, rest: seq<string>)
    requires IsFrame(g) && forall i | 0 <= i < |rest| :: IsFrame(rest[i])
    ensures Scan([g[1..]] + rest).msgs != CutAll([g] + rest)
  {
    var all := [g[1..]] + rest;
    if IsMarkup(g[1..]) {
      ScanMarkup(all);
      CutShorter(g);
      assert CutAll(all)[0] != CutAll([g] + rest)[0];
    } else {
      ScanFallsShort(all, 0);
    }
  }

  lemma {:induction false} CutShorter(s: string)
    requires IsMarkup(s)
    ensures |Cut(s[1..])| < |Cut(s)|
    decreases |s|
  {
    if |s| > 1 {
      assert s[1..][|s| - 2] == s[|s| - 1];
      assert s[1..][..|s| - 2] == s[..|s| - 1][1..];
      if s[|s| - 1] != LF {
        CutShorter(s[..|s| - 1]);
      }
    }
  }
}
