/** The database merge (python/mergedb.py): resume after the last row of the destination, select the newer rows of the
    source in time order, and insert them one by one. Every insert commits by itself, so a run may stop anywhere. */
module Merge {
  import opened Text

  /** A row of the weather table. `key` is what ON CONFLICT looks at; `rest` are the other columns. */
  datatype Row = Row(key: int, timestamp: int, rest: string)

  type Table = set<Row>

  // ----- the run -----

  /** SELECT timestamp ... ORDER BY timestamp DESC LIMIT 1: the latest time stamp, if there is a row. */
  ghost predicate IsLatest(t: Table, latest: Option<int>) {
    match latest
    case None => t == {}
    case Some(m) => (exists r :: r in t && r.timestamp == m) && (forall r | r in t :: r.timestamp <= m)
  }

  /** The WHERE clause built from it; without it everything is selected. */
  predicate Newer(latest: Option<int>, r: Row) {
    latest.None? || r.timestamp > latest.value
  }

  function Selected(source: Table, latest: Option<int>): Table {
    set r | r in source && Newer(latest, r)
  }

  function RowSet(rows: seq<Row>): Table {
    set r | r in rows
  }

  /** A result set of the ordered query: each selected row once, in time order. Ties come in any order. */
  ghost predicate IsResult(rows: seq<Row>, selected: Table) {
    && RowSet(rows) == selected
    && (forall i, j | 0 <= i < j < |rows| :: rows[i] != rows[j] && rows[i].timestamp <= rows[j].timestamp)
  }

  /** INSERT ... ON CONFLICT DO NOTHING. */
  function Insert(dest: Table, r: Row): Table {
    if exists d :: d in dest && d.key == r.key then dest else dest + {r}
  }

  function InsertAll(dest: Table, rows: seq<Row>): Table
    decreases |rows|
  {
    if rows == [] then dest else InsertAll(Insert(dest, rows[0]), rows[1..])
  }

  class MergeRun {
    var dest: Table

    constructor (dest: Table)
      ensures this.dest == dest
    {
      this.dest := dest;
    }

    /** The row loop, stopped after `stop` rows. */
    method InsertRows(rows: seq<Row>, stop: nat)
      requires stop <= |rows|
      modifies this
      ensures dest == InsertAll(old(dest), rows[..stop])
    {
      var i := 0;
      assert rows[..stop] == rows[0..stop];
      while i < stop
        invariant 0 <= i <= stop
        invariant InsertAll(old(dest), rows[..stop]) == InsertAll(dest, rows[i..stop])
      {
        dest := Insert(dest, rows[i]);
        assert rows[i..stop][1..] == rows[i + 1..stop];
        i := i + 1;
      }
    }
  }

  /** A run that stops after `stop` rows of its result set. */
  ghost predicate RunsTo(source: Table, dest: Table, rows: seq<Row>, stop: nat, dest': Table) {
    && stop <= |rows|
    && (exists latest :: IsLatest(dest, latest) && IsResult(rows, Selected(source, latest)))
    && dest' == InsertAll(dest, rows[..stop])
  }

  // ----- what holds between runs -----

  ghost predicate KeysDiffer(t: Table) {
    forall a, b | a in t && b in t && a.key == b.key :: a == b
  }

  /** The destination is the source up to a time: it holds only source rows, and no row that it lacks is as old as one
      that it has. */
  ghost predicate UpToATime(source: Table, dest: Table) {
    && dest <= source
    && forall d, r | d in dest && r in source && r !in dest :: d.timestamp < r.timestamp
  }

  /** Rows of the source that the destination lacks are inserted; no key conflicts. */
  lemma {:induction false} InsertsMissing(source: Table, dest: Table, rows: seq<Row>)
    requires KeysDiffer(source) && dest <= source && RowSet(rows) <= source
    ensures InsertAll(dest, rows) == dest + RowSet(rows)
    decreases |rows|
  {
    if rows == [] {
      assert dest + RowSet(rows) == dest;
    } else {
      var r := rows[0];
      assert r in RowSet(rows) && RowSet(rows[1..]) <= RowSet(rows);
      var dest1 := Insert(dest, r);
      if d :| d in dest && d.key == r.key {
        assert d == r;
      }
      assert dest1 == dest + {r};
      InsertsMissing(source, dest1, rows[1..]);
      assert rows == [r] + rows[1..];
      assert dest + {r} + RowSet(rows[1..]) == dest + RowSet(rows);
    }
  }

  lemma RunAdds(source: Table, dest: Table, rows: seq<Row>, stop: nat, dest': Table, latest: Option<int>)
    requires KeysDiffer(source) && dest <= source && stop <= |rows|
    requires IsResult(rows, Selected(source, latest)) && dest' == InsertAll(dest, rows[..stop])
    ensures dest' == dest + RowSet(rows[..stop]) && dest' <= source
  {
    assert RowSet(rows[..stop]) <= RowSet(rows);
    InsertsMissing(source, dest, rows[..stop]);
  }

  /** A complete run makes the destination equal to the source exactly when every row that it lacked was newer than
      all that it had. */
  lemma CompleteRunMergesExactly(source: Table, dest: Table, rows: seq<Row>, dest': Table)
    requires KeysDiffer(source) && dest <= source && RunsTo(source, dest, rows, |rows|, dest')
    ensures dest' == source <==> UpToATime(source, dest)
  {
    var latest :| IsLatest(dest, latest) && IsResult(rows, Selected(source, latest));
    assert rows[..|rows|] == rows;
    RunAdds(source, dest, rows, |rows|, dest', latest);
    if dest' == source {
      forall d, r | d in dest && r in source && r !in dest ensures d.timestamp < r.timestamp {
        assert r in RowSet(rows) && Newer(latest, r);
      }
    }
    if UpToATime(source, dest) {
      MissingAreSelected(source, dest, latest);
    }
  }

  /** What an up-to-a-time destination lacks is exactly what the run selects. */
  lemma MissingAreSelected(source: Table, dest: Table, latest: Option<int>)
    requires UpToATime(source, dest) && IsLatest(dest, latest)
    ensures Selected(source, latest) == source - dest
  {
    forall r | r in source ensures Newer(latest, r) <==> r !in dest {
      if r !in dest && latest.Some? {
        var d :| d in dest && d.timestamp == latest.value;
      }
    }
  }

  /** The run stopped between two rows of the same time. */
  predicate TieCut(rows: seq<Row>, stop: nat) {
    0 < stop < |rows| && rows[stop - 1].timestamp == rows[stop].timestamp
  }

  /** A run that stops keeps the invariant exactly when it does not stop between two rows of the same time. */
  lemma StoppedRunKeepsExactly(source: Table, dest: Table, rows: seq<Row>, stop: nat, dest': Table)
    requires KeysDiffer(source) && UpToATime(source, dest) && RunsTo(source, dest, rows, stop, dest')
    ensures UpToATime(source, dest') <==> !TieCut(rows, stop)
    ensures dest <= dest' <= source
  {
    var latest :| IsLatest(dest, latest) && IsResult(rows, Selected(source, latest));
    RunAdds(source, dest, rows, stop, dest', latest);
    MissingAreSelected(source, dest, latest);
    if TieCut(rows, stop) {
      TieBreaks(source, dest, rows, stop);
    } else {
      CutKeeps(source, dest, rows, stop);
    }
  }

  lemma CutKeeps(source: Table, dest: Table, rows: seq<Row>, stop: nat)
    requires UpToATime(source, dest) && IsResult(rows, source - dest) && stop <= |rows| && !TieCut(rows, stop)
    ensures UpToATime(source, dest + RowSet(rows[..stop]))
  {
    var done := rows[..stop];
    assert RowSet(done) <= RowSet(rows);
    forall d, r | d in dest + RowSet(done) && r in source && r !in dest + RowSet(done)
      ensures d.timestamp < r.timestamp
    {
      if d !in dest {
        assert r in RowSet(rows);
        var j := Position(rows, r);
        var i := Position(done, d);
        assert forall x | 0 <= x < stop :: rows[x] == done[x] && done[x] in done;
        assert stop <= j;
        Across(rows, stop, i, j);
      }
    }
  }

  lemma Position(rows: seq<Row>, r: Row) returns (i: nat)
    requires r in rows
    ensures i < |rows| && rows[i] == r
  {
    i :| i < |rows| && rows[i] == r;
  }

  /** Rows on either side of a cut differ in time. */
  lemma Across(rows: seq<Row>, stop: nat, i: nat, j: nat)
    requires i < stop <= j < |rows| && !TieCut(rows, stop)
    requires forall i, j | 0 <= i < j < |rows| :: rows[i] != rows[j] && rows[i].timestamp <= rows[j].timestamp
    ensures rows[i].timestamp < rows[j].timestamp
  {
    assert i < stop - 1 ==> rows[i].timestamp <= rows[stop - 1].timestamp;
    assert stop < j ==> rows[stop].timestamp <= rows[j].timestamp;
    assert rows[stop - 1].timestamp <= rows[stop].timestamp;
  }

  lemma TieBreaks(source: Table, dest: Table, rows: seq<Row>, stop: nat)
    requires IsResult(rows, source - dest) && TieCut(rows, stop)
    ensures !UpToATime(source, dest + RowSet(rows[..stop]))
  {
    var d, r := rows[stop - 1], rows[stop];
    assert rows[..stop][stop - 1] == d;
    assert forall i | 0 <= i < stop :: rows[..stop][i] == rows[i] && rows[i] != rows[stop];
    assert r in RowSet(rows) && r !in rows[..stop];
  }

  // ----- growth of the source -----

  /** A source that grows keeps the invariant exactly when its new rows are newer than all that was merged. */
  lemma GrowthKeepsExactly(source: Table, dest: Table, source': Table)
    requires UpToATime(source, dest) && source <= source'
    ensures UpToATime(source', dest) <==>
              forall d, r | d in dest && r in source' && r !in source :: d.timestamp < r.timestamp
  {
  }

  // ----- any history -----

  /** The source and the destination at one moment. */
  datatype Moment = Moment(source: Table, dest: Table)

  /** Between two moments a run happens, stopped anywhere but between rows of the same time, or the source grows by
      rows newer than what was merged. */
  ghost predicate Event(a: Moment, b: Moment) {
    || (b.source == a.source
        && exists rows, stop :: RunsTo(a.source, a.dest, rows, stop, b.dest) && !TieCut(rows, stop))
    || (b.dest == a.dest && a.source <= b.source && KeysDiffer(b.source)
        && forall d, r | d in a.dest && r in b.source && r !in a.source :: d.timestamp < r.timestamp)
  }

  ghost predicate IsHistory(h: seq<Moment>) {
    && |h| > 0 && KeysDiffer(h[0].source) && UpToATime(h[0].source, h[0].dest)
    && forall i | 0 <= i < |h| - 1 :: Event(h[i], h[i + 1])
  }

  lemma EventKeeps(a: Moment, b: Moment)
    requires KeysDiffer(a.source) && UpToATime(a.source, a.dest) && Event(a, b)
    ensures KeysDiffer(b.source) && UpToATime(b.source, b.dest)
    ensures a.dest <= b.dest && a.source <= b.source
  {
    if b.source == a.source && exists rows, stop :: RunsTo(a.source, a.dest, rows, stop, b.dest) && !TieCut(rows, stop) {
      var rows, stop :| RunsTo(a.source, a.dest, rows, stop, b.dest) && !TieCut(rows, stop);
      StoppedRunKeepsExactly(a.source, a.dest, rows, stop, b.dest);
    } else {
      GrowthKeepsExactly(a.source, a.dest, b.source);
    }
  }

  lemma {:induction false} HistoryKeeps(h: seq<Moment>)
    requires IsHistory(h)
    ensures var last := h[|h| - 1];
            KeysDiffer(last.source) && UpToATime(last.source, last.dest)
    decreases |h|
  {
    if |h| > 1 {
      var n := |h| - 1;
      var front := h[..n];
      forall i | 0 <= i < |front| - 1 ensures Event(front[i], front[i + 1]) {
        assert Event(h[i], h[i + 1]);
      }
      HistoryKeeps(front);
      assert front[n - 1] == h[n - 1] && Event(h[n - 1], h[n]);
      EventKeeps(h[n - 1], h[n]);
    }
  }

  /** Crash and resume: after any history of stopped runs and growth, one complete run makes the destination equal to
      the source, and any run after that selects nothing. */
  lemma ResumeCompletes(h: seq<Moment>, rows: seq<Row>, dest': Table)
    requires IsHistory(h)
    requires RunsTo(h[|h| - 1].source, h[|h| - 1].dest, rows, |rows|, dest')
    ensures dest' == h[|h| - 1].source
    ensures forall again, stop, dest'' | RunsTo(dest', dest', again, stop, dest'') :: again == [] && dest'' == dest'
  {
    var m := h[|h| - 1];
    HistoryKeeps(h);
    CompleteRunMergesExactly(m.source, m.dest, rows, dest');
    forall again, stop, dest'' | RunsTo(dest', dest', again, stop, dest'') ensures again == [] && dest'' == dest' {
      NothingLeft(dest', again, stop, dest'');
    }
  }

  lemma NothingLeft(t: Table, rows: seq<Row>, stop: nat, t': Table)
    requires RunsTo(t, t, rows, stop, t')
    ensures rows == [] && t' == t
  {
    assert rows == [] || rows[0] in RowSet(rows);
    var latest :| IsLatest(t, latest) && IsResult(rows, Selected(t, latest));
    MissingAreSelected(t, t, latest);
  }

  /** With the time stamp itself as the key, as the table of powerguru.sql declares it, no run can stop between rows of
      the same time. */
  lemma TimestampKeyHasNoTies(source: Table, latest: Option<int>, rows: seq<Row>, stop: nat)
    requires KeysDiffer(source) && (forall r | r in source :: r.key == r.timestamp)
    requires IsResult(rows, Selected(source, latest))
    ensures !TieCut(rows, stop)
  {
    if 0 < stop < |rows| {
      var a, b := rows[stop - 1], rows[stop];
      assert a in RowSet(rows) && b in RowSet(rows) && a != b;
    }
  }

  /** The time stamp is the key, and the key is unique, at every moment. */
  ghost predicate KeyedByTime(t: Table) {
    KeysDiffer(t) && forall r | r in t :: r.key == r.timestamp
  }

  /** A run happens, stopped anywhere, or the source grows by rows newer than what was merged. */
  ghost predicate OpenEvent(a: Moment, b: Moment) {
    || (b.source == a.source && exists rows, stop :: RunsTo(a.source, a.dest, rows, stop, b.dest))
    || (b.dest == a.dest && a.source <= b.source
        && forall d, r | d in a.dest && r in b.source && r !in a.source :: d.timestamp < r.timestamp)
  }

  ghost predicate IsTimedHistory(h: seq<Moment>) {
    && |h| > 0 && UpToATime(h[0].source, h[0].dest)
    && (forall i | 0 <= i < |h| :: KeyedByTime(h[i].source))
    && forall i | 0 <= i < |h| - 1 :: OpenEvent(h[i], h[i + 1])
  }

  lemma TimedEventIsEvent(a: Moment, b: Moment)
    requires KeyedByTime(a.source) && KeyedByTime(b.source) && OpenEvent(a, b)
    ensures Event(a, b)
  {
    if b.source == a.source && exists rows, stop :: RunsTo(a.source, a.dest, rows, stop, b.dest) {
      var rows, stop :| RunsTo(a.source, a.dest, rows, stop, b.dest);
      var latest :| IsLatest(a.dest, latest) && IsResult(rows, Selected(a.source, latest));
      TimestampKeyHasNoTies(a.source, latest, rows, stop);
    }
  }

  /** Crash and resume for the table as the schema declares it: the runs may stop anywhere. */
  lemma TimedResumeCompletes(h: seq<Moment>, rows: seq<Row>, dest': Table)
    requires IsTimedHistory(h)
    requires RunsTo(h[|h| - 1].source, h[|h| - 1].dest, rows, |rows|, dest')
    ensures dest' == h[|h| - 1].source
    ensures forall again, stop, dest'' | RunsTo(dest', dest', again, stop, dest'') :: again == [] && dest'' == dest'
  {
    forall i | 0 <= i < |h| - 1 ensures Event(h[i], h[i + 1]) {
      assert KeyedByTime(h[i].source) && KeyedByTime(h[i + 1].source) && OpenEvent(h[i], h[i + 1]);
      TimedEventIsEvent(h[i], h[i + 1]);
    }
    assert KeyedByTime(h[0].source);
    ResumeCompletes(h, rows, dest');
  }

  // ----- a row that was passed over -----

  /** The row is missing although the destination has one that is as new. */
  ghost predicate PassedOver(dest: Table, r: Row) {
    r !in dest && exists d :: d in dest && r.timestamp <= d.timestamp
  }

  lemma {:induction false} InsertsWithin(dest: Table, rows: seq<Row>)
    ensures dest <= InsertAll(dest, rows) <= dest + RowSet(rows)
    decreases |rows|
  {
    if rows != [] {
      InsertsWithin(Insert(dest, rows[0]), rows[1..]);
      assert rows == [rows[0]] + rows[1..];
      assert RowSet(rows) == {rows[0]} + RowSet(rows[1..]);
    }
  }

  /** A row that was passed over is not selected again, whatever the source and wherever the run stops. */
  lemma PassedOverStays(source: Table, dest: Table, rows: seq<Row>, stop: nat, dest': Table, r: Row)
    requires PassedOver(dest, r) && RunsTo(source, dest, rows, stop, dest')
    ensures PassedOver(dest', r)
  {
    var latest :| IsLatest(dest, latest) && IsResult(rows, Selected(source, latest));
    var d :| d in dest && r.timestamp <= d.timestamp;
    InsertsWithin(dest, rows[..stop]);
    assert r !in RowSet(rows) && RowSet(rows[..stop]) <= RowSet(rows);
    assert d in dest';
  }

  /** Anything may happen to the source, and runs may stop anywhere. */
  ghost predicate AnyEvent(a: Moment, b: Moment) {
    b.dest == a.dest || exists rows, stop :: RunsTo(a.source, a.dest, rows, stop, b.dest)
  }

  /** Once passed over, a row is missing for good. */
  lemma {:induction false} PassedOverForGood(h: seq<Moment>, r: Row, i: nat)
    requires i < |h| && PassedOver(h[0].dest, r)
    requires forall k | 0 <= k < |h| - 1 :: AnyEvent(h[k], h[k + 1])
    ensures PassedOver(h[i].dest, r)
  {
    if i > 0 {
      PassedOverForGood(h, r, i - 1);
      var a, b := h[i - 1], h[i];
      assert AnyEvent(h[i - 1], h[i - 1 + 1]);
      if b.dest != a.dest {
        var rows, stop :| RunsTo(a.source, a.dest, rows, stop, b.dest);
        PassedOverStays(a.source, a.dest, rows, stop, b.dest, r);
      }
    }
  }

  /** A run that stops between two rows of the same time passes over the second one, and so loses it for good. */
  lemma TieCutPassesOver(source: Table, dest: Table, rows: seq<Row>, stop: nat, dest': Table)
    requires KeysDiffer(source) && UpToATime(source, dest) && RunsTo(source, dest, rows, stop, dest') && TieCut(rows, stop)
    ensures rows[stop] in source && PassedOver(dest', rows[stop])
  {
    var latest :| IsLatest(dest, latest) && IsResult(rows, Selected(source, latest));
    RunAdds(source, dest, rows, stop, dest', latest);
    MissingAreSelected(source, dest, latest);
    var d, r := rows[stop - 1], rows[stop];
    assert rows[..stop][stop - 1] == d;
    assert forall i | 0 <= i < stop :: rows[..stop][i] == rows[i] && rows[i] != rows[stop];
    assert r in RowSet(rows) && r !in rows[..stop];
    assert d in dest';
  }

  // ----- conflicts -----

  /** Row `i` of a result set is the first one with its key, and the destination has no row with it. */
  predicate IsNew(dest: Table, rows: seq<Row>, i: nat) {
    && i < |rows|
    && (forall d | d in dest :: d.key != rows[i].key)
    && forall j | 0 <= j < i :: rows[j].key != rows[i].key
  }

  ghost predicate Adds(dest: Table, rows: seq<Row>, r: Row) {
    exists i: nat :: IsNew(dest, rows, i) && rows[i] == r
  }

  /** What the row loop leaves in the destination: what was there, and of the rows with a key that was not there the
      first one with each. */
  lemma {:induction false} InsertsExactly(dest: Table, rows: seq<Row>, r: Row)
    ensures r in InsertAll(dest, rows) <==> r in dest || Adds(dest, rows, r)
    decreases |rows|
  {
    if rows != [] {
      InsertsExactly(Insert(dest, rows[0]), rows[1..], r);
      AddsFirst(dest, rows, r);
    }
  }

  lemma AddsFirst(dest: Table, rows: seq<Row>, r: Row)
    requires rows != []
    ensures r in Insert(dest, rows[0]) || Adds(Insert(dest, rows[0]), rows[1..], r) <==> r in dest || Adds(dest, rows, r)
  {
    var dest1, rest := Insert(dest, rows[0]), rows[1..];
    if i: nat :| IsNew(dest1, rest, i) && rest[i] == r {
      NewBehind(dest, rows, i);
      assert IsNew(dest, rows, i + 1) && rows[i + 1] == r;
    }
    if i: nat :| IsNew(dest, rows, i) && rows[i] == r {
      if i > 0 {
        NewBehind(dest, rows, i - 1);
        assert IsNew(dest1, rest, i - 1) && rest[i - 1] == r;
      }
    }
    assert rows[0] in dest1 && rows[0] !in dest ==> IsNew(dest, rows, 0);
  }

  lemma NewBehind(dest: Table, rows: seq<Row>, i: nat)
    requires i + 1 < |rows|
    ensures IsNew(Insert(dest, rows[0]), rows[1..], i) <==> IsNew(dest, rows, i + 1)
  {
    var rest := rows[1..];
    assert forall j | 0 <= j < |rest| :: rest[j] == rows[j + 1];
    if IsNew(Insert(dest, rows[0]), rest, i) {
      assert (exists d :: d in Insert(dest, rows[0]) && d.key == rows[0].key) ==> rows[0].key != rest[i].key;
      forall j | 0 <= j < i + 1 ensures rows[j].key != rows[i + 1].key {
        assert j > 0 ==> rows[j] == rest[j - 1];
      }
    }
  }

  /** So the keys of the destination stay unique whatever is inserted. */
  lemma {:induction false} KeysStayUnique(dest: Table, rows: seq<Row>)
    requires KeysDiffer(dest)
    ensures KeysDiffer(InsertAll(dest, rows))
    decreases |rows|
  {
    if rows != [] {
      KeysStayUnique(Insert(dest, rows[0]), rows[1..]);
    }
  }
}
