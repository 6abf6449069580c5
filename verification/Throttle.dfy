/** The sampling loop of the 433 MHz handler (python/rtl433.py): of each sensor's readings it records no more than
    one per interval. */
module Throttle {
  import opened Text

  const DAY := 86400

  // ----- lines -----

  /** A line of the receiver's output, as far as the loop tells lines apart: the header, a device that the loop gives
      no id, and a reading. The time stamp is None where strptime fails. */
  datatype Line = Header | Unknown | Reading(id: string, model: string, channel: string, timestamp: Option<int>)

  /** A line and the clock when it is read, in whole seconds. */
  datatype Input = Input(line: Line, now: int)

  datatype Sensor = Sensor(alias: string, channel: string)

  datatype Row = Row(id: string, timestamp: int)

  /** The dictionary of last time stamps, the known sensors, and the rows inserted. */
  datatype State = State(previous: map<string, int>, sensors: map<string, Sensor>, rows: seq<Row>)

  // ----- one line -----

  /** timedelta normalises a difference to days and a non-negative number of seconds. */
  function Days(delta: int): int {
    delta / DAY
  }

  function Seconds(delta: int): int {
    delta % DAY
  }

  /** The test of the loop: a reading at `t` is recorded after one at `prev`. */
  predicate Records(interval: nat, prev: int, t: int) {
    !(Seconds(t - prev) <= interval && Days(t - prev) != -1)
  }

  function Register(sensors: map<string, Sensor>, r: Line): map<string, Sensor>
    requires r.Reading?
  {
    if r.id in sensors then sensors else sensors[r.id := Sensor(r.model, r.channel)]
  }

  function Step(interval: nat, s: State, x: Input): State {
    match x.line
    case Header => s
    case Unknown => s
    case Reading(id, model, channel, timestamp) =>
      var previous := if id in s.previous then s.previous else s.previous[id := x.now];
      if timestamp.None? || !Records(interval, previous[id], timestamp.value) then s.(previous := previous)
      else State(previous[id := timestamp.value], Register(s.sensors, x.line), s.rows + [Row(id, timestamp.value)])
  }

  function Run(interval: nat, s: State, xs: seq<Input>): State
    decreases |xs|
  {
    if xs == [] then s else Run(interval, Step(interval, s, xs[0]), xs[1..])
  }

  class Rtl433 {
    const interval: nat
    var previous: map<string, int>
    var sensors: map<string, Sensor>
    var rows: seq<Row>

    ghost function Now(): State
      reads this
    {
      State(previous, sensors, rows)
    }

    constructor (interval: nat, sensors: map<string, Sensor>)
      ensures this.interval == interval && Now() == State(map[], sensors, [])
    {
      this.interval := interval;
      this.sensors := sensors;
      previous, rows := map[], [];
    }

    method Handle(out: seq<Input>)
      modifies this
      ensures Now() == Run(interval, old(Now()), out)
    {
      var i := 0;
      while i < |out|
        invariant 0 <= i <= |out|
        invariant Run(interval, old(Now()), out) == Run(interval, Now(), out[i..])
      {
        RunNext(interval, Now(), out, i);
        var line := out[i].line;
        if line.Reading? {
          if line.id !in previous {
            previous := previous[line.id := out[i].now];
          }
          if line.timestamp.Some? {
            var tdelta := line.timestamp.value - previous[line.id];
            if !(Seconds(tdelta) <= interval && Days(tdelta) != -1) {
              previous := previous[line.id := line.timestamp.value];
              if line.id !in sensors {
                sensors := sensors[line.id := Sensor(line.model, line.channel)];
              }
              rows := rows + [Row(line.id, line.timestamp.value)];
            }
          }
        }
        i := i + 1;
      }
    }
  }

  lemma RunNext(interval: nat, s: State, xs: seq<Input>, i: nat)
    requires i < |xs|
    ensures Run(interval, s, xs[i..]) == Run(interval, Step(interval, s, xs[i]), xs[i + 1..])
  {
    assert xs[i..][0] == xs[i] && xs[i..][1..] == xs[i + 1..];
  }

  // ----- one sensor -----

  predicate Of(id: string, x: Input) {
    x.line.Reading? && x.line.id == id
  }

  /** The lines of one sensor. */
  function Substream(id: string, xs: seq<Input>): seq<Input> {
    if xs == [] then []
    else if Of(id, xs[0]) then [xs[0]] + Substream(id, xs[1..])
    else Substream(id, xs[1..])
  }

  /** The time stamps recorded for one sensor. */
  function RowsOf(id: string, rows: seq<Row>): seq<int> {
    if rows == [] then []
    else RowsOf(id, rows[..|rows| - 1]) + (if rows[|rows| - 1].id == id then [rows[|rows| - 1].timestamp] else [])
  }

  /** The readable time stamps of a sensor's lines. */
  function Stamps(xs: seq<Input>): seq<int> {
    if xs == [] then []
    else (if xs[0].line.Reading? && xs[0].line.timestamp.Some? then [xs[0].line.timestamp.value] else []) + Stamps(xs[1..])
  }

  /** The throttle of a single sensor: what it records of a stream after a record at `prev`. */
  function Sampled(interval: nat, prev: int, ts: seq<int>): seq<int>
    decreases |ts|
  {
    if ts == [] then []
    else if Records(interval, prev, ts[0]) then [ts[0]] + Sampled(interval, ts[0], ts[1..])
    else Sampled(interval, prev, ts[1..])
  }

  /** The value that the first line of a sensor is compared with: its last record, or else the clock. */
  function FirstPrevious(id: string, s: State, xs: seq<Input>): int {
    if id in s.previous then s.previous[id]
    else
      var sub := Substream(id, xs);
      if sub == [] then 0 else sub[0].now
  }

  lemma RowsOfMore(id: string, rows: seq<Row>, r: Row)
    ensures RowsOf(id, rows + [r]) == RowsOf(id, rows) + (if r.id == id then [r.timestamp] else [])
  {
    assert (rows + [r])[..|rows|] == rows;
  }

  lemma OtherSensorStep(interval: nat, s: State, x: Input, id: string)
    requires !Of(id, x)
    ensures var s1 := Step(interval, s, x);
            RowsOf(id, s1.rows) == RowsOf(id, s.rows)
            && (id in s1.previous <==> id in s.previous) && (id in s.previous ==> s1.previous[id] == s.previous[id])
  {
    var s1 := Step(interval, s, x);
    if s1.rows != s.rows {
      RowsOfMore(id, s.rows, s1.rows[|s.rows|]);
    }
  }

  lemma OwnStep(interval: nat, s: State, x: Input, id: string)
    requires Of(id, x)
    ensures var s1 := Step(interval, s, x);
            var prev := if id in s.previous then s.previous[id] else x.now;
            && id in s1.previous
            && (x.line.timestamp.Some? && Records(interval, prev, x.line.timestamp.value) ==>
                  s1.previous[id] == x.line.timestamp.value
                  && RowsOf(id, s1.rows) == RowsOf(id, s.rows) + [x.line.timestamp.value])
            && (x.line.timestamp.None? || !Records(interval, prev, x.line.timestamp.value) ==>
                  s1.previous[id] == prev && RowsOf(id, s1.rows) == RowsOf(id, s.rows))
  {
    if x.line.timestamp.Some? {
      RowsOfMore(id, s.rows, Row(id, x.line.timestamp.value));
    }
  }

  /** Non-interference: whatever the other sensors send in between, a sensor's rows are what the single-sensor throttle
      makes of its own lines. */
  lemma {:induction false} SensorsDoNotInterfere(interval: nat, s: State, xs: seq<Input>, id: string)
    ensures RowsOf(id, Run(interval, s, xs).rows)
         == RowsOf(id, s.rows) + Sampled(interval, FirstPrevious(id, s, xs), Stamps(Substream(id, xs)))
    decreases |xs|
  {
    if xs == [] {
      assert RowsOf(id, s.rows) + [] == RowsOf(id, s.rows);
    } else {
      var s1 := Step(interval, s, xs[0]);
      SensorsDoNotInterfere(interval, s1, xs[1..], id);
      if Of(id, xs[0]) {
        OwnLineFirst(interval, s, xs[0], xs[1..], id);
        assert [xs[0]] + xs[1..] == xs;
      } else {
        OtherSensorStep(interval, s, xs[0], id);
        assert Substream(id, xs) == Substream(id, xs[1..]);
        if id !in s.previous && Substream(id, xs) == [] {
          assert Stamps(Substream(id, xs)) == [];
        }
      }
    }
  }

  lemma OwnLineFirst(interval: nat, s: State, x: Input, rest: seq<Input>, id: string)
    requires Of(id, x)
    ensures var s1 := Step(interval, s, x); var xs := [x] + rest;
            RowsOf(id, s1.rows) + Sampled(interval, FirstPrevious(id, s1, rest), Stamps(Substream(id, rest)))
            == RowsOf(id, s.rows) + Sampled(interval, FirstPrevious(id, s, xs), Stamps(Substream(id, xs)))
  {
    var xs, sub := [x] + rest, Substream(id, rest);
    var prev := FirstPrevious(id, s, xs);
    assert xs[0] == x && xs[1..] == rest;
    assert Substream(id, xs) == [x] + sub && ([x] + sub)[1..] == sub;
    OwnStep(interval, s, x, id);
    var t, ts := x.line.timestamp, Stamps(sub);
    SampledFirst(interval, prev, t, ts);
    if t.Some? && Records(interval, prev, t.value) {
      var more := Sampled(interval, t.value, ts);
      Regroup3(RowsOf(id, s.rows), [t.value], more);
    }
  }

  lemma Regroup3(a: seq<int>, b: seq<int>, c: seq<int>)
    ensures a + b + c == a + (b + c)
  {
  }

  lemma SampledFirst(interval: nat, prev: int, t: Option<int>, ts: seq<int>)
    ensures Sampled(interval, prev, (if t.Some? then [t.value] else []) + ts)
         == if t.Some? && Records(interval, prev, t.value) then [t.value] + Sampled(interval, t.value, ts)
            else Sampled(interval, prev, ts)
  {
    if t.Some? {
      assert ([t.value] + ts)[1..] == ts;
    } else {
      assert [] + ts == ts;
    }
  }

  /** The rows of a sensor are those of its own substream. */
  lemma OwnSubstreamDecides(interval: nat, s: State, xs: seq<Input>, id: string)
    ensures RowsOf(id, Run(interval, s, xs).rows) == RowsOf(id, Run(interval, s, Substream(id, xs)).rows)
  {
    SensorsDoNotInterfere(interval, s, xs, id);
    SensorsDoNotInterfere(interval, s, Substream(id, xs), id);
    SubstreamTwice(id, xs);
  }

  lemma {:induction false} SubstreamTwice(id: string, xs: seq<Input>)
    ensures Substream(id, Substream(id, xs)) == Substream(id, xs)
  {
    if xs != [] {
      SubstreamTwice(id, xs[1..]);
      if Of(id, xs[0]) {
        assert ([xs[0]] + Substream(id, xs[1..]))[1..] == Substream(id, xs[1..]);
      }
    }
  }

  // ----- gaps -----

  /** What the test comes to: the gap exceeds the interval up to whole days, or the new reading is up to a day older. */
  lemma RecordsMeans(interval: nat, prev: int, t: int)
    ensures Records(interval, prev, t) <==> (t - prev) % 86400 > interval || 0 < prev - t <= 86400
  {
  }

  /** Consecutive records of a sensor, the one before the stream included, pass the test. */
  lemma {:induction false} GapsPassTheTest(interval: nat, prev: int, ts: seq<int>, i: nat)
    requires i < |Sampled(interval, prev, ts)|
    ensures var r := Sampled(interval, prev, ts);
            Records(interval, if i == 0 then prev else r[i - 1], r[i])
    decreases |ts|
  {
    if Records(interval, prev, ts[0]) {
      if i > 0 {
        GapsPassTheTest(interval, ts[0], ts[1..], i - 1);
      }
    } else {
      GapsPassTheTest(interval, prev, ts[1..], i);
    }
  }

  /** For a reading that is not older, the test is the intended one exactly when the days that it ignores do not
      matter: it goes wrong for a reading one or more days later whose seconds are within the interval. An interval of
      a day or more lets no such reading through. */
  lemma TestIsIntendedExactly(interval: nat, prev: int, t: int)
    requires prev <= t
    ensures interval < DAY ==>
              ((Records(interval, prev, t) <==> t - prev > interval)
               <==> !(t - prev >= DAY && (t - prev) % DAY <= interval))
    ensures interval >= DAY ==> !Records(interval, prev, t)
  {
    assert t - prev >= DAY || (t - prev) % DAY == t - prev;
    assert Days(t - prev) >= 0;
  }

  // ----- greedy optimality -----

  ghost predicate Nondecreasing(ts: seq<int>) {
    forall i, j | 0 <= i < j < |ts| :: ts[i] <= ts[j]
  }

  /** All gaps, the one from `prev` included, exceed the interval. */
  predicate Spaced(interval: nat, prev: int, c: seq<int>)
    decreases |c|
  {
    c == [] || (c[0] - prev > interval && Spaced(interval, c[0], c[1..]))
  }

  predicate IsSubsequence(c: seq<int>, ts: seq<int>) {
    c == [] || (ts != [] && ((c[0] == ts[0] && IsSubsequence(c[1..], ts[1..])) || IsSubsequence(c, ts[1..])))
  }

  /** The intended throttle: a reading is recorded when more than the interval has passed. */
  function Greedy(interval: nat, prev: int, ts: seq<int>): seq<int>
    decreases |ts|
  {
    if ts == [] then []
    else if ts[0] - prev > interval then [ts[0]] + Greedy(interval, ts[0], ts[1..])
    else Greedy(interval, prev, ts[1..])
  }

  /** A reading whose gap is long enough, but whose seconds, without the whole days, are not. */
  predicate Wrapped(interval: nat, prev: int, t: int) {
    t - prev > interval && (t - prev) % DAY <= interval
  }

  /** No reading is wrapped after the record that the intended throttle compares it with. */
  predicate NeverWraps(interval: nat, prev: int, ts: seq<int>)
    decreases |ts|
  {
    ts == [] ||
    (!Wrapped(interval, prev, ts[0])
     && NeverWraps(interval, if ts[0] - prev > interval then ts[0] else prev, ts[1..]))
  }

  /** Each reading follows the one before by less than `gap`, and is not older. */
  predicate Close(gap: int, last: int, ts: seq<int>)
    decreases |ts|
  {
    ts == [] || (last <= ts[0] < last + gap && Close(gap, ts[0], ts[1..]))
  }

  /** A sensor that reports often enough never wraps: steps below a day less the interval suffice. */
  lemma {:induction false} FrequentReadingsNeverWrap(interval: nat, prev: int, last: int, ts: seq<int>)
    requires prev <= last <= prev + interval && Close(DAY - interval, last, ts)
    ensures NeverWraps(interval, prev, ts)
    decreases |ts|
  {
    if ts != [] {
      var gap := ts[0] - prev;
      assert 0 <= gap < DAY && gap % DAY == gap;
      if gap > interval {
        FrequentReadingsNeverWrap(interval, ts[0], ts[0], ts[1..]);
      } else {
        FrequentReadingsNeverWrap(interval, prev, ts[0], ts[1..]);
      }
    }
  }

  lemma {:induction false} TailIsSubsequence(c: seq<int>, ts: seq<int>)
    requires c != [] && IsSubsequence(c, ts)
    ensures IsSubsequence(c[1..], ts) && IsSubsequence(c[1..], ts[1..]) && c[0] in ts
    decreases |ts|
  {
    if c[0] == ts[0] && IsSubsequence(c[1..], ts[1..]) {
    } else {
      TailIsSubsequence(c, ts[1..]);
    }
  }

  /** Moving the starting point back keeps a sequence spaced. */
  lemma SpacedFromEarlier(interval: nat, prev: int, prev': int, c: seq<int>)
    requires Spaced(interval, prev, c) && prev' <= prev
    ensures Spaced(interval, prev', c)
  {
  }

  lemma TailNondecreasing(prev: int, ts: seq<int>)
    requires ts != [] && Nondecreasing(ts) && prev <= ts[0]
    ensures var rest := ts[1..]; Nondecreasing(rest) && (rest != [] ==> prev <= ts[0] <= rest[0])
  {
    var rest := ts[1..];
    assert rest != [] ==> ts[0] <= ts[1] == rest[0];
  }

  /** A recorded reading that is not older is never too close. */
  lemma RecordsIsApart(interval: nat, prev: int, t: int)
    requires prev <= t
    ensures Records(interval, prev, t) <==> t - prev > interval && !Wrapped(interval, prev, t)
  {
    assert (t - prev) % DAY <= t - prev;
  }

  /** Whatever the gaps, the records are a subsequence with all gaps greater than the interval. */
  lemma {:induction false} SampledIsSpaced(interval: nat, prev: int, ts: seq<int>)
    requires Nondecreasing(ts) && (ts != [] ==> prev <= ts[0])
    ensures Spaced(interval, prev, Sampled(interval, prev, ts)) && IsSubsequence(Sampled(interval, prev, ts), ts)
    decreases |ts|
  {
    if ts != [] {
      TailNondecreasing(prev, ts);
      RecordsIsApart(interval, prev, ts[0]);
      if Records(interval, prev, ts[0]) {
        SampledIsSpaced(interval, ts[0], ts[1..]);
        var r := Sampled(interval, ts[0], ts[1..]);
        assert ([ts[0]] + r)[1..] == r;
      } else {
        SampledIsSpaced(interval, prev, ts[1..]);
      }
    }
  }

  lemma {:induction false} GreedyIsSpaced(interval: nat, prev: int, ts: seq<int>)
    ensures var g := Greedy(interval, prev, ts); Spaced(interval, prev, g) && IsSubsequence(g, ts)
    decreases |ts|
  {
    if ts != [] {
      if ts[0] - prev > interval {
        GreedyIsSpaced(interval, ts[0], ts[1..]);
        var g := Greedy(interval, ts[0], ts[1..]);
        assert ([ts[0]] + g)[1..] == g;
      } else {
        GreedyIsSpaced(interval, prev, ts[1..]);
      }
    }
  }

  /** No spaced subsequence is longer than the intended one. */
  lemma {:induction false} GreedyIsLongest(interval: nat, prev: int, ts: seq<int>, c: seq<int>)
    requires Nondecreasing(ts) && (ts != [] ==> prev <= ts[0])
    requires IsSubsequence(c, ts) && Spaced(interval, prev, c)
    ensures |c| <= |Greedy(interval, prev, ts)|
    decreases |ts|
  {
    if c != [] {
      TailNondecreasing(prev, ts);
      TailIsSubsequence(c, ts);
      var k :| 0 <= k < |ts| && ts[k] == c[0];
      assert ts[0] <= c[0];
      if ts[0] - prev > interval {
        SpacedFromEarlier(interval, c[0], ts[0], c[1..]);
        GreedyIsLongest(interval, ts[0], ts[1..], c[1..]);
      } else {
        assert c[0] != ts[0];
        GreedyIsLongest(interval, prev, ts[1..], c);
      }
    }
  }

  /** The throttle does what is intended of a whole stream exactly when no reading is wrapped after the record that the
      intended throttle compares it with. */
  lemma {:induction false} SampledIsGreedyExactly(interval: nat, prev: int, ts: seq<int>)
    requires Nondecreasing(ts) && (ts != [] ==> prev <= ts[0])
    ensures Sampled(interval, prev, ts) == Greedy(interval, prev, ts) <==> NeverWraps(interval, prev, ts)
    decreases |ts|
  {
    if ts != [] {
      var t, rest := ts[0], ts[1..];
      TailNondecreasing(prev, ts);
      RecordsIsApart(interval, prev, t);
      if Wrapped(interval, prev, t) {
        // the reading itself is dropped, and what is recorded in its place is another one
        var r := Sampled(interval, prev, rest);
        if r != [] {
          GapsPassTheTest(interval, prev, rest, 0);
          assert r[0] != t;
        }
        assert Greedy(interval, prev, ts)[0] == t;
      } else if t - prev > interval {
        SampledIsGreedyExactly(interval, t, rest);
        assert ([t] + Sampled(interval, t, rest))[1..] == Sampled(interval, t, rest);
        assert ([t] + Greedy(interval, t, rest))[1..] == Greedy(interval, t, rest);
      } else {
        SampledIsGreedyExactly(interval, prev, rest);
      }
    }
  }

  // ----- a first reading that is older than the clock -----

  /** The first reading of a new sensor is compared with the clock, which is read after the time stamp was made. */
  predicate StartsOlder(prev: int, ts: seq<int>) {
    ts != [] && ts[0] < prev
  }

  /** Spaced from the first reading that the throttle goes by. */
  predicate Fits(interval: nat, prev: int, ts: seq<int>, c: seq<int>) {
    if StartsOlder(prev, ts) then c == [] || Spaced(interval, c[0], c[1..]) else Spaced(interval, prev, c)
  }

  function Intended(interval: nat, prev: int, ts: seq<int>): seq<int> {
    if StartsOlder(prev, ts) then [ts[0]] + Greedy(interval, ts[0], ts[1..]) else Greedy(interval, prev, ts)
  }

  predicate Unwrapped(interval: nat, prev: int, ts: seq<int>) {
    if StartsOlder(prev, ts) then NeverWraps(interval, ts[0], ts[1..]) else NeverWraps(interval, prev, ts)
  }

  /** A first reading that is older is recorded at once, unless it is older by more than a day and its seconds are within
      the interval. The clock then plays no further part. */
  lemma OlderIsRecordedExactly(interval: nat, prev: int, t: int)
    requires t < prev
    ensures Records(interval, prev, t) <==> prev - t <= DAY || (t - prev) % DAY > interval
  {
    RecordsMeans(interval, prev, t);
  }

  /** The stream behind the leading readings that are older than what they are compared with and are not recorded. */
  function Heard(interval: nat, prev: int, ts: seq<int>): (r: seq<int>)
    ensures |r| <= |ts|
  {
    if StartsOlder(prev, ts) && !Records(interval, prev, ts[0]) then Heard(interval, prev, ts[1..]) else ts
  }

  lemma {:induction false} HeardSamples(interval: nat, prev: int, ts: seq<int>)
    requires Nondecreasing(ts)
    ensures var h := Heard(interval, prev, ts);
            Ordered(interval, prev, h) && Sampled(interval, prev, h) == Sampled(interval, prev, ts)
  {
    if StartsOlder(prev, ts) && !Records(interval, prev, ts[0]) {
      TailNondecreasing(ts[0], ts);
      HeardSamples(interval, prev, ts[1..]);
    }
  }

  /** What is left out is at the front, older than what it is compared with, and not recorded. */
  lemma {:induction false} HeardIs(interval: nat, prev: int, ts: seq<int>) returns (k: nat)
    ensures k <= |ts| && Heard(interval, prev, ts) == ts[k..]
    ensures forall i | 0 <= i < k :: ts[i] < prev && !Records(interval, prev, ts[i])
  {
    if StartsOlder(prev, ts) && !Records(interval, prev, ts[0]) {
      k := HeardIs(interval, prev, ts[1..]);
      forall i | 0 <= i < k + 1 ensures ts[i] < prev && !Records(interval, prev, ts[i]) {
        assert i > 0 ==> ts[i] == ts[1..][i - 1];
      }
      assert ts[1..][k..] == ts[k + 1..];
      k := k + 1;
    } else {
      k := 0;
      assert ts[0..] == ts;
    }
  }

  lemma {:induction false} DropIsSubsequence(c: seq<int>, ts: seq<int>, k: nat)
    requires k <= |ts| && IsSubsequence(c, ts[k..])
    ensures IsSubsequence(c, ts)
    decreases k
  {
    if k > 0 {
      assert ts[1..][k - 1..] == ts[k..];
      DropIsSubsequence(c, ts[1..], k - 1);
    } else {
      assert ts[0..] == ts;
    }
  }

  /** An ordered stream whose first reading is recorded if it is older than what it is compared with. */
  ghost predicate Ordered(interval: nat, prev: int, ts: seq<int>) {
    Nondecreasing(ts) && (StartsOlder(prev, ts) ==> Records(interval, prev, ts[0]))
  }

  lemma SampledFits(interval: nat, prev: int, ts: seq<int>)
    requires Ordered(interval, prev, ts)
    ensures var r := Sampled(interval, prev, ts);
            && Fits(interval, prev, ts, r) && IsSubsequence(r, ts)
            && (r == Intended(interval, prev, ts) <==> Unwrapped(interval, prev, ts))
  {
    if StartsOlder(prev, ts) {
      var t, rest := ts[0], ts[1..];
      TailNondecreasing(t, ts);
      SampledIsSpaced(interval, t, rest);
      SampledIsGreedyExactly(interval, t, rest);
      assert ([t] + Sampled(interval, t, rest))[1..] == Sampled(interval, t, rest);
      assert ([t] + Greedy(interval, t, rest))[1..] == Greedy(interval, t, rest);
    } else {
      SampledIsSpaced(interval, prev, ts);
      SampledIsGreedyExactly(interval, prev, ts);
    }
  }

  lemma IntendedIsLongest(interval: nat, prev: int, ts: seq<int>, c: seq<int>)
    requires Nondecreasing(ts) && IsSubsequence(c, ts) && Fits(interval, prev, ts, c)
    ensures |c| <= |Intended(interval, prev, ts)|
  {
    if StartsOlder(prev, ts) {
      if c != [] {
        TailNondecreasing(ts[0], ts);
        TailIsSubsequence(c, ts);
        SpacedFromEarlier(interval, c[0], ts[0], c[1..]);
        GreedyIsLongest(interval, ts[0], ts[1..], c[1..]);
      }
    } else {
      GreedyIsLongest(interval, prev, ts, c);
    }
  }

  lemma IntendedFits(interval: nat, prev: int, ts: seq<int>)
    requires Nondecreasing(ts)
    ensures var g := Intended(interval, prev, ts); Fits(interval, prev, ts, g) && IsSubsequence(g, ts)
  {
    if StartsOlder(prev, ts) {
      TailNondecreasing(ts[0], ts);
      GreedyIsSpaced(interval, ts[0], ts[1..]);
      assert ([ts[0]] + Greedy(interval, ts[0], ts[1..]))[1..] == Greedy(interval, ts[0], ts[1..]);
    } else {
      GreedyIsSpaced(interval, prev, ts);
    }
  }

  /** Greedy optimality, for every sensor of every interleaved stream whose own time stamps do not decrease. Leading
      readings that are older than what they are compared with and are not recorded count for nothing; `h` is the stream
      behind them. The rows that a run adds always are a choice of its readings with all gaps greater than the interval.
      They are the intended choice exactly when no reading is wrapped, and a largest choice exactly when they are as many
      as intended. */
  lemma RowsAreALargestChoice(interval: nat, s: State, xs: seq<Input>, id: string)
    requires Nondecreasing(Stamps(Substream(id, xs)))
    ensures var ts := Stamps(Substream(id, xs)); var prev := FirstPrevious(id, s, xs); var h := Heard(interval, prev, ts);
            var before, after := RowsOf(id, s.rows), RowsOf(id, Run(interval, s, xs).rows);
            && before <= after
            && var added := after[|before|..];
            && IsSubsequence(added, ts) && IsSubsequence(added, h) && Fits(interval, prev, h, added)
            && (added == Intended(interval, prev, h) <==> Unwrapped(interval, prev, h))
            && ((forall c | IsSubsequence(c, h) && Fits(interval, prev, h, c) :: |c| <= |added|)
                <==> |added| == |Intended(interval, prev, h)|)
  {
    var ts, prev := Stamps(Substream(id, xs)), FirstPrevious(id, s, xs);
    var h := Heard(interval, prev, ts);
    SensorsDoNotInterfere(interval, s, xs, id);
    HeardSamples(interval, prev, ts);
    var k := HeardIs(interval, prev, ts);
    SampledFits(interval, prev, h);
    DropIsSubsequence(Sampled(interval, prev, h), ts, k);
    forall c | IsSubsequence(c, h) && Fits(interval, prev, h, c) ensures |c| <= |Intended(interval, prev, h)| {
      IntendedIsLongest(interval, prev, h, c);
    }
    IntendedFits(interval, prev, h);
  }

  /** Beyond a day the throttle can fall short: a reading exactly one day after the last record is dropped. */
  lemma DayWrapDropsReading()
    ensures Sampled(300, 0, [DAY]) == [] && Greedy(300, 0, [DAY]) == [DAY] && Wrapped(300, 0, DAY)
  {
    assert [DAY][1..] == [] && Greedy(300, DAY, []) == [];
    assert Seconds(DAY - 0) == 0 && Days(DAY - 0) == 1;
  }

  /** A sensor is known after a run exactly when it was known before or a row of it was recorded. */
  lemma {:induction false} SensorsAreRegistered(interval: nat, s: State, xs: seq<Input>, id: string)
    ensures var r := Run(interval, s, xs);
            id in r.sensors <==> id in s.sensors || |RowsOf(id, r.rows)| > |RowsOf(id, s.rows)|
    ensures |RowsOf(id, Run(interval, s, xs).rows)| >= |RowsOf(id, s.rows)|
    decreases |xs|
  {
    if xs != [] {
      var s1 := Step(interval, s, xs[0]);
      if Of(id, xs[0]) {
        OwnStep(interval, s, xs[0], id);
      } else {
        OtherSensorStep(interval, s, xs[0], id);
      }
      SensorsAreRegistered(interval, s1, xs[1..], id);
    }
  }

  /** A sensor that is known keeps its entry. */
  lemma {:induction false} KnownSensorKeeps(interval: nat, s: State, xs: seq<Input>, id: string)
    requires id in s.sensors
    ensures var r := Run(interval, s, xs); id in r.sensors && r.sensors[id] == s.sensors[id]
    decreases |xs|
  {
    if xs != [] {
      KnownSensorKeeps(interval, Step(interval, s, xs[0]), xs[1..], id);
    }
  }

  lemma RunSplit(interval: nat, s: State, xs: seq<Input>, i: nat)
    requires i < |xs|
    ensures Run(interval, s, xs[..i + 1]) == Run(interval, Step(interval, s, xs[0]), xs[1..][..i])
  {
    assert xs[..i + 1][0] == xs[0] && xs[..i + 1][1..] == xs[1..][..i];
  }

  /** Line `i` is the first one of a sensor that is recorded. */
  ghost predicate FirstRecorded(interval: nat, s: State, xs: seq<Input>, id: string, i: nat) {
    && i < |xs| && Of(id, xs[i]) && xs[i].line.timestamp.Some?
    && RowsOf(id, Run(interval, s, xs[..i]).rows) == RowsOf(id, s.rows)
    && RowsOf(id, Run(interval, s, xs[..i + 1]).rows) == RowsOf(id, s.rows) + [xs[i].line.timestamp.value]
  }

  /** A sensor that becomes known has the model and the channel of its first recorded line. */
  lemma {:induction false} NewSensorIs(interval: nat, s: State, xs: seq<Input>, id: string) returns (i: nat)
    requires id !in s.sensors && id in Run(interval, s, xs).sensors
    ensures FirstRecorded(interval, s, xs, id, i)
    ensures var sensor := Run(interval, s, xs).sensors[id];
            sensor.alias == xs[i].line.model && sensor.channel == xs[i].line.channel
    decreases |xs|
  {
    var s1 := Step(interval, s, xs[0]);
    if id in s1.sensors {
      i := 0;
      KnownSensorKeeps(interval, s1, xs[1..], id);
      OwnStep(interval, s, xs[0], id);
      RunSplit(interval, s, xs, 0);
    } else {
      i := NewSensorIs(interval, s1, xs[1..], id);
      NotYetRecorded(interval, s, xs[0], id);
      LaterIsFirst(interval, s, xs, id, i);
      i := i + 1;
    }
  }

  lemma NotYetRecorded(interval: nat, s: State, x: Input, id: string)
    requires id !in s.sensors && id !in Step(interval, s, x).sensors
    ensures RowsOf(id, Step(interval, s, x).rows) == RowsOf(id, s.rows)
  {
    if Of(id, x) {
      OwnStep(interval, s, x, id);
    } else {
      OtherSensorStep(interval, s, x, id);
    }
  }

  lemma LaterIsFirst(interval: nat, s: State, xs: seq<Input>, id: string, i: nat)
    requires xs != [] && RowsOf(id, Step(interval, s, xs[0]).rows) == RowsOf(id, s.rows)
    requires FirstRecorded(interval, Step(interval, s, xs[0]), xs[1..], id, i)
    ensures FirstRecorded(interval, s, xs, id, i + 1)
  {
    RunSplit(interval, s, xs, i);
    RunSplit(interval, s, xs, i + 1);
  }
}
