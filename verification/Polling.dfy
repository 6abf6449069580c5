/** PollMeters (devices/xantrex-trace.cc): down and up through the meters menu, a record each way. */
module Polling {
  import opened Text
  import opened Display
  import opened Menu
  import opened Navigation

  const METERS := 4
  const FIRST := 1
  const ITEMS := 7
  const INFO_ITEM := 10

  /** The fields of meter_data_t that PollMeters sets; every other field of a record is zero. */
  datatype MeterData = MeterData(ac_load_amps: int, battery_volts: real, tempcomp_volts: real, ac_volts_out: real,
                                 ac1_volts_in: real, ac2_volts_in: real, hertz: int)

  const BLANK := MeterData(0, 0.0, 0.0, 0.0, 0.0, 0.0, 0)

  predicate Has(text: string, pos: nat, word: string) {
    Substr(text, pos, |word|) == Some(word)
  }

  /** The chain of label tests. `text.substr(8, ...)` throws on a label of fewer than eight characters: None. */
  function Assign(m: MeterData, text: string, load: bool, intval: int, fltval: real): Option<MeterData> {
    if |text| < 8 then None
    else
      var m := if load then m.(ac_load_amps := intval) else m;
      var m := if Has(text, 8, "actual") then m.(battery_volts := fltval) else m;
      var m := if Has(text, 8, "TempComp") then m.(tempcomp_volts := fltval) else m;
      var m := if Has(text, 0, "Inverter") then m.(ac_volts_out := intval as real) else m;
      var m := if Has(text, 0, "Grid") then m.(ac1_volts_in := fltval) else m;
      var m := if Has(text, 0, "Generator") then m.(ac2_volts_in := fltval) else m;
      Some(m)
  }

  function AssignDown(m: MeterData, text: string, intval: int, fltval: real): Option<MeterData> {
    match Assign(m, text, Has(text, 0, "Load"), intval, fltval)
    case None => None
    case Some(m1) => Some(if Has(text, 0, "Read Freq") then m1.(hertz := intval) else m1)
  }

  /** Going up the load test compares four characters with the five of "Load ". */
  function AssignUp(m: MeterData, text: string, intval: int, fltval: real, hertz: int): Option<MeterData> {
    match Assign(m, text, Substr(text, 0, 4) == Some("Load "), intval, fltval)
    case None => None
    case Some(m1) => Some(m1.(hertz := hertz))
  }

  function IntOf(kind: Kind, str: string): int {
    if kind == INT then GetIntValue(str) else 0
  }

  function FloatOf(w: World, kind: Kind, str: string): real {
    if kind == FLOAT then w.atof(GetValue(str)) else 0.0
  }

  datatype Pass = Pass(s: Session, m: MeterData)

  /** What one step of a pass comes to: go on, leave the loop at an INFO item, or an exception. */
  datatype Step = Next(p: Pass) | Leave(p: Pass) | Throw

  function DownStep(w: World, s: Session, m: MeterData): Step {
    var str := s.menudisp;
    if |str| <= 1 then Next(Pass(s, m))
    else
      match Lookup(w.items, s.menuheading, s.menuitem)
      case None => Throw
      case Some(ti) =>
        if ti.kind == INFO then Leave(Pass(s, m))
        else
          match AssignDown(m, ti.text, IntOf(ti.kind, str), FloatOf(w, ti.kind, str))
          case None => Throw
          case Some(m1) => Next(Pass(s, m1))
  }

  /** `n` more steps down. */
  function Down(w: World, p: Pass, n: nat): Option<Pass>
    decreases n
  {
    if n == 0 then Some(p)
    else
      match DownStep(w, MenuItemMinus(w, p.s), p.m)
      case Next(q) => Down(w, q, n - 1)
      case Leave(q) => Some(q)
      case Throw => None
  }

  function UpStep(w: World, s: Session, m: MeterData, hertz: int): Step {
    var str := s.menudisp;
    if |str| == 0 then Next(Pass(s, m))
    else
      match Lookup(w.items, s.menuheading, s.menuitem)
      case None => Throw
      case Some(ti) =>
        match AssignUp(m, ti.text, IntOf(ti.kind, str), FloatOf(w, ti.kind, str), hertz)
        case None => Throw
        case Some(m1) => Next(Pass(s, m1))
  }

  /** `n` more steps up. */
  function Up(w: World, p: Pass, hertz: int, n: nat): Option<Pass>
    decreases n
  {
    if n == 0 then Some(p)
    else
      match UpStep(w, MenuItemPlus(w, p.s), p.m, hertz)
      case Next(q) => Up(w, q, hertz, n - 1)
      case Leave(q) => Some(q)
      case Throw => None
  }

  lemma DownNext(w: World, p: Pass, n: nat)
    ensures var st := DownStep(w, MenuItemMinus(w, p.s), p.m);
            Down(w, p, n + 1) ==
            if st.Next? then Down(w, st.p, n) else if st.Leave? then Some(st.p) else None
  {
  }

  lemma UpNext(w: World, p: Pass, hertz: int, n: nat)
    ensures var st := UpStep(w, MenuItemPlus(w, p.s), p.m, hertz);
            Up(w, p, hertz, n + 1) ==
            if st.Next? then Up(w, st.p, hertz, n) else if st.Leave? then Some(st.p) else None
  {
  }

  /** The way down skips a display of at most one character, and the way up only an empty one. */
  lemma ShortDisplays(w: World, s: Session, m: MeterData, hertz: int)
    requires Lookup(w.items, s.menuheading, s.menuitem).None?
    ensures DownStep(w, s, m) == if |s.menudisp| < 2 then Next(Pass(s, m)) else Throw
    ensures UpStep(w, s, m, hertz) == if |s.menudisp| < 1 then Next(Pass(s, m)) else Throw
  {
  }

  predicate HasAt(text: string, pos: nat, word: string) {
    pos + |word| <= |text| && text[pos..pos + |word|] == word
  }

  /** Which label sets which field on the way down, for any label. */
  lemma LabelsDecide(text: string, iv: int, fv: real)
    ensures var r := AssignDown(BLANK, text, iv, fv);
            && (r.None? <==> |text| < 8)
            && (r.Some? ==> r.value == MeterData(
                  if HasAt(text, 0, "Load") then iv else 0,
                  if HasAt(text, 8, "actual") then fv else 0.0,
                  if HasAt(text, 8, "TempComp") then fv else 0.0,
                  if HasAt(text, 0, "Inverter") then iv as real else 0.0,
                  if HasAt(text, 0, "Grid") then fv else 0.0,
                  if HasAt(text, 0, "Generator") then fv else 0.0,
                  if HasAt(text, 0, "Read Freq") then iv else 0))
  {
  }

  /** And on the way up: a load is never set, and the frequency is the one given. */
  lemma LabelsDecideUp(text: string, iv: int, fv: real, hertz: int)
    ensures var d, u := AssignDown(BLANK, text, iv, fv), AssignUp(BLANK, text, iv, fv, hertz);
            && (u.None? <==> d.None?)
            && (u.Some? ==> u.value == d.value.(ac_load_amps := 0, hertz := hertz))
  {
    var four := Substr(text, 0, 4);
    assert four.value != "Load " by {
      assert |four.value| <= 4;
    }
  }

  datatype Poll = Poll(s: Session, meters: seq<MeterData>)

  function OneLoop(w: World, p: Poll, items: nat): Option<Poll> {
    match Down(w, Pass(p.s, BLANK), items + 1)
    case None => None
    case Some(d) =>
      match Up(w, Pass(d.s, BLANK), d.m.hertz, items)
      case None => None
      case Some(u) => Some(Poll(u.s, p.meters + [d.m, u.m]))
  }

  function Loops(w: World, p: Poll, n: nat, items: nat): Option<Poll> {
    if n == 0 then Some(p)
    else
      match Loops(w, p, n - 1, items)
      case None => None
      case Some(q) => OneLoop(w, q, items)
  }

  function PollMeters(w: World, s: Session, loops: nat): Option<Poll> {
    match Loops(w, Poll(GotoMenuItem(w, s, METERS, FIRST), []), loops, ITEMS)
    case None => None
    case Some(p) => Some(p.(s := MenuHeadingMinus(w, MenuHeadingPlus(w, p.s))))
  }

  // ----- the meters menu -----

  function Field(i: nat, m: MeterData, intval: int, fltval: real): MeterData {
    match i
    case 3 => m.(ac_load_amps := intval)
    case 4 => m.(battery_volts := fltval)
    case 5 => m.(tempcomp_volts := fltval)
    case 6 => m.(ac_volts_out := intval as real)
    case 7 => m.(ac1_volts_in := fltval)
    case 8 => m.(ac2_volts_in := fltval)
    case 9 => m.(hertz := intval)
    case _ => m
  }

  function FieldUp(i: nat, m: MeterData, intval: int, fltval: real, hertz: int): MeterData {
    (if i == 3 then m else Field(i, m, intval, fltval)).(hertz := hertz)
  }

  /** What a pass over the items 2 to 9 of the meters menu relies on: both sides have the same number items there, the
      labels tell the inverter's lines apart, and each label selects the field of its own item. */
  ghost predicate NumbersMenu(w: World) {
    && LastItem(w.menu, METERS) >= INFO_ITEM
    && (forall i: nat | 2 <= i < INFO_ITEM :: NumberItem(w, i))
    && (forall i: nat | 2 <= i < INFO_ITEM :: Apart(w, i))
  }

  /** What a pass that goes on to item 10 relies on: the host finds that item, and it is an INFO item. */
  ghost predicate MetersMenu(w: World) {
    NumbersMenu(w) && InfoItem(w) && Apart(w, INFO_ITEM)
  }

  ghost predicate NumberItem(w: World, i: nat) {
    var it := Lookup(w.items, METERS, i);
    && it.Some?
    && it.value.kind == KindOf(i)
    && FaceAt(w.menu, Cursor(METERS, i)) == Some(Face(it.value.text, it.value.kind))
    && Quiet(it.value.text)
    && (forall m, iv, fv :: AssignDown(m, it.value.text, iv, fv) == Some(Field(i, m, iv, fv)))
    && (forall m, iv, fv, hz :: AssignUp(m, it.value.text, iv, fv, hz) == Some(FieldUp(i, m, iv, fv, hz)))
  }

  predicate InfoItem(w: World) {
    var it := Lookup(w.items, METERS, INFO_ITEM);
    it.Some? && it.value.kind == INFO
  }

  function KindOf(i: nat): Kind {
    if i == 4 || i == 5 then FLOAT else if i < INFO_ITEM then INT else INFO
  }

  ghost predicate Apart(w: World, i: nat) {
    Distinct(w, METERS, i, 0, INFO_ITEM)
  }

  /** Of the next five keys enough are obeyed for a call that starts with the inverter behind. */
  predicate KeysSuffice(w: World, s: Session) {
    Obeyed(w, s.device.clock, s.device.clock + RETRIES) >= Lag(s) + 1
  }

  predicate TwoOfFive(w: World, t: nat) {
    Obeyed(w, t, t + RETRIES) >= 2
  }

  // ----- what a record holds -----

  /** `v` is one of the values measured for a meters item at time `t`. */
  ghost predicate IntRead(w: World, t: nat, i: nat, v: int) {
    v >= 0 && v in w.amps(t, Cursor(METERS, i))
  }

  /** `v` is what atof makes of one of the voltages measured at time `t`, with or without the blank behind it. */
  ghost predicate FloatRead(w: World, t: nat, i: nat, v: real) {
    exists k: nat | k < |w.volts(t, Cursor(METERS, i))| ::
      var text := w.volts(t, Cursor(METERS, i))[k];
      v == w.atof(text) || v == w.atof(text + " ")
  }

  ghost predicate IntBetween(w: World, t0: nat, t1: nat, i: nat, v: int) {
    exists t: nat | t0 < t <= t1 :: IntRead(w, t, i, v)
  }

  ghost predicate FloatBetween(w: World, t0: nat, t1: nat, i: nat, v: real) {
    exists t: nat | t0 < t <= t1 :: FloatRead(w, t, i, v)
  }

  /** An integer value stored in a float field. */
  ghost predicate RealRead(w: World, t: nat, i: nat, v: real) {
    exists k: nat | k < |w.amps(t, Cursor(METERS, i))| :: v == w.amps(t, Cursor(METERS, i))[k] as real
  }

  ghost predicate RealBetween(w: World, t0: nat, t1: nat, i: nat, v: real) {
    exists t: nat | t0 < t <= t1 :: RealRead(w, t, i, v)
  }

  /** The voltages of a record after reading the items in `read` between two times: each one is a value that its
      own item measured. Both AC inputs take the float value, but their items are integers: they stay zero. */
  ghost predicate VoltsRead(w: World, t0: nat, t1: nat, read: set<nat>, m: MeterData) {
    && (if 4 in read then FloatBetween(w, t0, t1, 4, m.battery_volts) else m.battery_volts == 0.0)
    && (if 5 in read then FloatBetween(w, t0, t1, 5, m.tempcomp_volts) else m.tempcomp_volts == 0.0)
    && (if 6 in read then RealBetween(w, t0, t1, 6, m.ac_volts_out) else m.ac_volts_out == 0.0)
    && m.ac1_volts_in == 0.0 && m.ac2_volts_in == 0.0
  }

  /** A record made on the way down. */
  ghost predicate DownRecord(w: World, t0: nat, t1: nat, read: set<nat>, m: MeterData) {
    && VoltsRead(w, t0, t1, read, m)
    && (if 3 in read then IntBetween(w, t0, t1, 3, m.ac_load_amps) else m.ac_load_amps == 0)
    && (if 9 in read then IntBetween(w, t0, t1, 9, m.hertz) else m.hertz == 0)
  }

  /** A record made on the way up from item `hi` to item `lo`: the load is never set, and the frequency is that of the way down. */
  ghost predicate UpRecord(w: World, t0: nat, t1: nat, lo: nat, hi: nat, hertz: int, m: MeterData) {
    && VoltsRead(w, t0, t1, Span(lo, hi), m)
    && m.ac_load_amps == 0
    && m.hertz == (if lo > hi then 0 else hertz)
  }

  /** The values that a step decodes from the line of a number item. */
  lemma DecodesItem(w: World, t: nat, i: nat)
    requires NumbersMenu(w) && 2 <= i < INFO_ITEM
    ensures var str := Shows(w, t, Cursor(METERS, i)); var kind := KindOf(i);
            && |str| > 1
            && (kind == INT ==> IntRead(w, t, i, IntOf(kind, str)) && FloatOf(w, kind, str) == 0.0)
            && (kind == FLOAT ==> FloatRead(w, t, i, FloatOf(w, kind, str)))
  {
    assert NumberItem(w, i);
    var it := Lookup(w.items, METERS, i).value;
    if KindOf(i) == INT {
      IntReadingIsShown(it.text, w.amps(t, Cursor(METERS, i)));
    } else {
      var ts := AsTokens(w.volts(t, Cursor(METERS, i)));
      GetValueOfLine(it.text, ts);
      assert ts[Best(ts)] == w.volts(t, Cursor(METERS, i))[Best(ts)];
    }
  }

  /** Later times and one more item. */
  lemma VoltsStep(w: World, t0: nat, t1: nat, t2: nat, read: set<nat>, i: nat, m: MeterData, iv: int, fv: real)
    requires VoltsRead(w, t0, t1, read, m) && t0 <= t1 < t2 && 2 <= i < INFO_ITEM
    requires KindOf(i) == INT ==> IntRead(w, t2, i, iv) && fv == 0.0
    requires KindOf(i) == FLOAT ==> FloatRead(w, t2, i, fv)
    ensures VoltsRead(w, t0, t2, read + {i}, Field(i, m, iv, fv))
  {
    var m2 := Field(i, m, iv, fv);
    if 4 in read && i != 4 {
      var t: nat :| t0 < t <= t1 && FloatRead(w, t, 4, m.battery_volts);
    }
    if 5 in read && i != 5 {
      var t: nat :| t0 < t <= t1 && FloatRead(w, t, 5, m.tempcomp_volts);
    }
    if 6 in read && i != 6 {
      var t: nat :| t0 < t <= t1 && RealRead(w, t, 6, m.ac_volts_out);
    }
    if i == 6 {
      assert RealRead(w, t2, 6, iv as real) by {
        var k :| 0 <= k < |w.amps(t2, Cursor(METERS, 6))| && w.amps(t2, Cursor(METERS, 6))[k] == iv;
      }
    }
  }

  lemma LaterInt(w: World, t0: nat, t1: nat, t2: nat, i: nat, v: int)
    requires IntBetween(w, t0, t1, i, v) && t1 <= t2
    ensures IntBetween(w, t0, t2, i, v)
  {
    var t: nat :| t0 < t <= t1 && IntRead(w, t, i, v);
  }

  lemma DownRecordStep(w: World, t0: nat, t1: nat, t2: nat, read: set<nat>, i: nat, m: MeterData, iv: int, fv: real)
    requires DownRecord(w, t0, t1, read, m) && t0 <= t1 < t2 && 2 <= i < INFO_ITEM
    requires KindOf(i) == INT ==> IntRead(w, t2, i, iv) && fv == 0.0
    requires KindOf(i) == FLOAT ==> FloatRead(w, t2, i, fv)
    ensures DownRecord(w, t0, t2, read + {i}, Field(i, m, iv, fv))
  {
    VoltsStep(w, t0, t1, t2, read, i, m, iv, fv);
    if 3 in read && i != 3 {
      LaterInt(w, t0, t1, t2, 3, m.ac_load_amps);
    }
    if 9 in read && i != 9 {
      LaterInt(w, t0, t1, t2, 9, m.hertz);
    }
  }

  lemma UpRecordStep(w: World, t0: nat, t1: nat, t2: nat, i: nat, hi: nat, m: MeterData, iv: int, fv: real, hertz: int)
    requires UpRecord(w, t0, t1, i + 1, hi, hertz, m) && t0 <= t1 < t2 && 2 <= i < INFO_ITEM && i <= hi
    requires KindOf(i) == INT ==> IntRead(w, t2, i, iv) && fv == 0.0
    requires KindOf(i) == FLOAT ==> FloatRead(w, t2, i, fv)
    ensures UpRecord(w, t0, t2, i, hi, hertz, FieldUp(i, m, iv, fv, hertz))
  {
    VoltsStep(w, t0, t1, t2, Span(i + 1, hi), i, m, iv, fv);
    assert Span(i + 1, hi) + {i} == Span(i, hi);
  }

  // ----- the passes -----

  function Span(lo: nat, hi: nat): set<nat> {
    set i: nat | i <= hi && Within(lo, i)
  }

  predicate Within(lo: nat, i: nat) {
    lo <= i
  }

  /** The host and the inverter in the meters menu with the inverter at most one item behind. */
  predicate AtMeters(s: Session, item: nat) {
    s.menuheading == METERS && SameHeading(s) && s.menuitem == item && 0 <= Lag(s) <= 1
  }

  function Min(a: nat, b: nat): nat {
    if a <= b then a else b
  }

  /** Whether the way down from item `c` by `n` steps stays on the number items, or the INFO item behind them is found. */
  ghost predicate CanGoDown(w: World, c: nat, n: nat) {
    NumbersMenu(w) && (c + n < INFO_ITEM || MetersMenu(w))
  }

  /** One step down brings the cursors together and shows the line of the next item. */
  lemma StepDown(w: World, s: Session, c: nat)
    requires CanGoDown(w, c, 1) && AtMeters(s, c) && 1 <= c < INFO_ITEM && KeysSuffice(w, s)
    ensures var r := MenuItemMinus(w, s);
            && AtMeters(r, c + 1) && InSync(r) && s.device.clock < r.device.clock
            && r.menudisp == Shows(w, r.device.clock, Cursor(METERS, c + 1))
  {
    assert Apart(w, c + 1);
    DistinctFrom(w, METERS, c + 1, 0, s.device.at.item, INFO_ITEM, c + 1);
    MinusAbsorbsLag(w, s);
  }

  lemma StepUp(w: World, s: Session, c: nat)
    requires NumbersMenu(w) && AtMeters(s, c) && InSync(s) && 2 < c <= INFO_ITEM && OneOfFive(w, s.device.clock)
    ensures var r := MenuItemPlus(w, s);
            && AtMeters(r, c - 1) && InSync(r) && s.device.clock < r.device.clock
            && r.menudisp == Shows(w, r.device.clock, Cursor(METERS, c - 1))
  {
    assert Apart(w, c - 1);
    DistinctFrom(w, METERS, c - 1, 0, c - 1, INFO_ITEM, c);
    PlusAbsorbsLead(w, s);
  }

  /** What a step down does with the line of item `i`. */
  lemma DownStepReads(w: World, s: Session, m: MeterData, i: nat, read: set<nat>, t0: nat, t1: nat)
    requires NumbersMenu(w) && 2 <= i < INFO_ITEM && s.menuheading == METERS && s.menuitem == i
    requires s.menudisp == Shows(w, s.device.clock, Cursor(METERS, i))
    requires t0 <= t1 < s.device.clock && DownRecord(w, t0, t1, read, m)
    ensures var r := DownStep(w, s, m);
            r.Next? && r.p.s == s && DownRecord(w, t0, s.device.clock, read + {i}, r.p.m)
  {
    assert NumberItem(w, i);
    var ti := Lookup(w.items, METERS, i).value;
    DecodesItem(w, s.device.clock, i);
    DownRecordStep(w, t0, t1, s.device.clock, read, i, m, IntOf(ti.kind, s.menudisp), FloatOf(w, ti.kind, s.menudisp));
  }

  lemma DownStepLeaves(w: World, s: Session, m: MeterData)
    requires MetersMenu(w) && s.menuheading == METERS && s.menuitem == INFO_ITEM
    requires s.menudisp == Shows(w, s.device.clock, Cursor(METERS, INFO_ITEM))
    ensures DownStep(w, s, m) == Leave(Pass(s, m))
  {
    ShowsSomething(w, s.device.clock, Cursor(METERS, INFO_ITEM));
  }

  /** Wherever the inverter is in the meters menu, its display is not empty. */
  lemma ShowsSomething(w: World, t: nat, c: Cursor)
    requires FaceAt(w.menu, c).Some?
    ensures |Shows(w, t, c)| > 1
  {
  }

  lemma UpStepReads(w: World, s: Session, m: MeterData, i: nat, hi: nat, hertz: int, t0: nat, t1: nat)
    requires NumbersMenu(w) && 2 <= i < INFO_ITEM && s.menuheading == METERS && s.menuitem == i
    requires s.menudisp == Shows(w, s.device.clock, Cursor(METERS, i))
    requires t0 <= t1 < s.device.clock && i <= hi && UpRecord(w, t0, t1, i + 1, hi, hertz, m)
    ensures var r := UpStep(w, s, m, hertz);
            r.Next? && r.p.s == s && UpRecord(w, t0, s.device.clock, i, hi, hertz, r.p.m)
  {
    assert NumberItem(w, i);
    var ti := Lookup(w.items, METERS, i).value;
    DecodesItem(w, s.device.clock, i);
    var iv, fv := IntOf(ti.kind, s.menudisp), FloatOf(w, ti.kind, s.menudisp);
    UpRecordStep(w, t0, t1, s.device.clock, i, hi, m, iv, fv, hertz);
  }

  /** One turn of the way down: a key sequence and what is done with the line. */
  lemma DownTurn(w: World, p: Pass, lo: nat, c: nat, t0: nat)
    requires CanGoDown(w, c, 1) && AtMeters(p.s, c) && KeysSuffice(w, p.s)
    requires 1 <= c < INFO_ITEM && 2 <= lo <= c + 1 && t0 <= p.s.device.clock
    requires DownRecord(w, t0, p.s.device.clock, Span(lo, c), p.m)
    ensures var s := MenuItemMinus(w, p.s); var st := DownStep(w, s, p.m);
            && AtMeters(s, c + 1) && InSync(s) && p.s.device.clock < s.device.clock
            && DownTurned(w, st, s, lo, c + 1, t0)
  {
    StepDown(w, p.s, c);
    var s := MenuItemMinus(w, p.s);
    if c + 1 == INFO_ITEM {
      DownTurnLeaves(w, s, p.m, lo, t0, p.s.device.clock);
    } else {
      DownTurnReads(w, s, p.m, lo, c + 1, t0, p.s.device.clock);
    }
  }

  /** After a turn to item `i` the session is as the keys left it, and the record holds the items from `lo` on. */
  ghost predicate DownTurned(w: World, st: Step, s: Session, lo: nat, i: nat, t0: nat) {
    && (if i < INFO_ITEM then st.Next? else st.Leave?)
    && st.p.s == s
    && DownRecord(w, t0, s.device.clock, Span(lo, Min(i, INFO_ITEM - 1)), st.p.m)
  }

  lemma DownTurnLeaves(w: World, s: Session, m: MeterData, lo: nat, t0: nat, t1: nat)
    requires MetersMenu(w) && s.menuheading == METERS && s.menuitem == INFO_ITEM
    requires s.menudisp == Shows(w, s.device.clock, Cursor(METERS, INFO_ITEM))
    requires t1 <= s.device.clock && DownRecord(w, t0, t1, Span(lo, INFO_ITEM - 1), m)
    ensures DownTurned(w, DownStep(w, s, m), s, lo, INFO_ITEM, t0)
  {
    DownStepLeaves(w, s, m);
    DownRecordLater(w, t0, t1, s.device.clock, Span(lo, INFO_ITEM - 1), m);
  }

  lemma DownTurnReads(w: World, s: Session, m: MeterData, lo: nat, i: nat, t0: nat, t1: nat)
    requires NumbersMenu(w) && s.menuheading == METERS && s.menuitem == i && 2 <= i < INFO_ITEM && lo <= i
    requires s.menudisp == Shows(w, s.device.clock, Cursor(METERS, i))
    requires t0 <= t1 < s.device.clock && DownRecord(w, t0, t1, Span(lo, i - 1), m)
    ensures DownTurned(w, DownStep(w, s, m), s, lo, i, t0)
  {
    DownStepReads(w, s, m, i, Span(lo, i - 1), t0, t1);
    assert Span(lo, i - 1) + {i} == Span(lo, i);
  }

  /** The pass down has reached item `i`: the cursors are together and the number items from `lo` on are recorded. */
  ghost predicate WentDown(w: World, q: Pass, lo: nat, i: nat, t0: nat) {
    AtMeters(q.s, i) && DownRecord(w, t0, q.s.device.clock, Span(lo, Min(i, INFO_ITEM - 1)), q.m)
  }

  lemma DownOnce(w: World, p: Pass, n: nat, lo: nat, c: nat, t0: nat) returns (q: Pass)
    requires n > 0 && CanGoDown(w, c, 1) && WentDown(w, p, lo, c, t0) && KeysSuffice(w, p.s)
    requires 1 <= c < INFO_ITEM && 2 <= lo <= c + 1 && t0 <= p.s.device.clock
    ensures Down(w, p, n) == if c + 1 < INFO_ITEM then Down(w, q, n - 1) else Some(q)
    ensures WentDown(w, q, lo, c + 1, t0) && InSync(q.s) && p.s.device.clock < q.s.device.clock
  {
    DownTurn(w, p, lo, c, t0);
    DownNext(w, p, n - 1);
    q := DownStep(w, MenuItemMinus(w, p.s), p.m).p;
  }

  /** The way down from item `c` to item `i`: it records the items up to 9, and stops at the INFO item. */
  lemma {:induction false} DownPass(w: World, p: Pass, n: nat, lo: nat, c: nat, i: nat, t0: nat)
    requires CanGoDown(w, c, n) && WentDown(w, p, lo, c, t0) && KeysSuffice(w, p.s) && Attentive(w, p.s.device.clock)
    requires 1 <= c < INFO_ITEM && 2 <= lo <= c + 1 && t0 <= p.s.device.clock && n > 0 && i == Min(c + n, INFO_ITEM)
    ensures Down(w, p, n).Some?
    ensures var q := Down(w, p, n).value;
            WentDown(w, q, lo, i, t0) && InSync(q.s) && p.s.device.clock < q.s.device.clock
    decreases n
  {
    var q := DownOnce(w, p, n, lo, c, t0);
    if c + 1 < INFO_ITEM && n > 1 {
      assert OneOfFive(w, q.s.device.clock);
      DownPass(w, q, n - 1, lo, c + 1, i, t0);
    }
  }

  lemma DownRecordLater(w: World, t0: nat, t1: nat, t2: nat, read: set<nat>, m: MeterData)
    requires DownRecord(w, t0, t1, read, m) && t1 <= t2
    ensures DownRecord(w, t0, t2, read, m)
  {
    if 4 in read {
      var t: nat :| t0 < t <= t1 && FloatRead(w, t, 4, m.battery_volts);
    }
    if 5 in read {
      var t: nat :| t0 < t <= t1 && FloatRead(w, t, 5, m.tempcomp_volts);
    }
    if 6 in read {
      var t: nat :| t0 < t <= t1 && RealRead(w, t, 6, m.ac_volts_out);
    }
    if 3 in read {
      LaterInt(w, t0, t1, t2, 3, m.ac_load_amps);
    }
    if 9 in read {
      LaterInt(w, t0, t1, t2, 9, m.hertz);
    }
  }

  /** The pass up has reached item `c`: the cursors are together and the items up to `hi` are recorded. */
  ghost predicate CameUp(w: World, r: Option<Pass>, hertz: int, hi: nat, c: nat, t0: nat) {
    && r.Some?
    && AtMeters(r.value.s, c) && InSync(r.value.s)
    && UpRecord(w, t0, r.value.s.device.clock, c, hi, hertz, r.value.m)
  }

  /** One turn of the way up. */
  lemma UpTurn(w: World, p: Pass, hertz: int, n: nat, hi: nat, c: nat, t0: nat) returns (q: Pass)
    requires NumbersMenu(w) && AtMeters(p.s, c) && InSync(p.s) && Attentive(w, p.s.device.clock)
    requires n > 0 && 3 <= c <= hi + 1 <= INFO_ITEM && t0 <= p.s.device.clock
    requires UpRecord(w, t0, p.s.device.clock, c, hi, hertz, p.m)
    ensures Up(w, p, hertz, n) == Up(w, q, hertz, n - 1)
    ensures CameUp(w, Some(q), hertz, hi, c - 1, t0) && p.s.device.clock < q.s.device.clock
  {
    assert OneOfFive(w, p.s.device.clock);
    StepUp(w, p.s, c);
    var s := MenuItemPlus(w, p.s);
    UpStepReads(w, s, p.m, c - 1, hi, hertz, t0, p.s.device.clock);
    UpNext(w, p, hertz, n - 1);
    q := UpStep(w, s, p.m, hertz).p;
  }

  /** The way up from item `c`, one item below `hi + 1`, to item `lo`. */
  lemma {:induction false} UpPass(w: World, p: Pass, hertz: int, n: nat, hi: nat, c: nat, lo: nat, t0: nat)
    requires NumbersMenu(w) && AtMeters(p.s, c) && InSync(p.s) && Attentive(w, p.s.device.clock)
    requires 2 <= lo && lo + n == c <= hi + 1 <= INFO_ITEM && t0 <= p.s.device.clock
    requires UpRecord(w, t0, p.s.device.clock, c, hi, hertz, p.m)
    ensures CameUp(w, Up(w, p, hertz, n), hertz, hi, lo, t0)
    ensures p.s.device.clock <= Up(w, p, hertz, n).value.s.device.clock
    decreases n
  {
    if n > 0 {
      var q := UpTurn(w, p, hertz, n, hi, c, t0);
      UpPass(w, q, hertz, n - 1, hi, c - 1, lo, t0);
    }
  }

  // ----- the loops -----

  /** The host's item at the head of loop `k`: 1, 2, 3, 3, 3, ... */
  function Head(k: nat): nat {
    if k < 2 then k + 1 else 3
  }

  /** The pair of records that loop `k` adds. Only the first two loops pass over the load item going down. */
  ghost predicate LoopRecords(w: World, k: nat, t0: nat, t1: nat, d: MeterData, u: MeterData) {
    exists t: nat | t0 < t <= t1 :: LoopTurnsAt(w, k, t0, t, t1, d, u)
  }

  ghost predicate LoopTurnsAt(w: World, k: nat, t0: nat, t: nat, t1: nat, d: MeterData, u: MeterData) {
    && DownRecord(w, t0, t, Span(Head(k) + 1, 9), d)
    && UpRecord(w, t, t1, if k == 0 then 2 else 3, if k == 0 then 8 else 9, d.hertz, u)
  }

  lemma BlankRecord(w: World, t: nat, lo: nat, hi: nat, hertz: int)
    requires hi < lo
    ensures DownRecord(w, t, t, Span(lo, hi), BLANK) && UpRecord(w, t, t, lo, hi, hertz, BLANK)
  {
    assert Span(lo, hi) == {};
  }

  lemma DownHalf(w: World, s: Session, k: nat)
    requires CanGoDown(w, Head(k), 8) && AtMeters(s, Head(k)) && KeysSuffice(w, s) && Attentive(w, s.device.clock)
    ensures Down(w, Pass(s, BLANK), ITEMS + 1).Some?
    ensures var q := Down(w, Pass(s, BLANK), ITEMS + 1).value;
            && AtMeters(q.s, Min(Head(k) + 8, INFO_ITEM)) && InSync(q.s) && s.device.clock < q.s.device.clock
            && DownRecord(w, s.device.clock, q.s.device.clock, Span(Head(k) + 1, 9), q.m)
  {
    BlankRecord(w, s.device.clock, Head(k) + 1, Head(k), 0);
    DownPass(w, Pass(s, BLANK), ITEMS + 1, Head(k) + 1, Head(k), Min(Head(k) + 8, INFO_ITEM), s.device.clock);
  }

  lemma UpHalf(w: World, s: Session, k: nat, hertz: int)
    requires NumbersMenu(w) && AtMeters(s, Min(Head(k) + 8, INFO_ITEM)) && InSync(s) && Attentive(w, s.device.clock)
    ensures Up(w, Pass(s, BLANK), hertz, ITEMS).Some?
    ensures var q := Up(w, Pass(s, BLANK), hertz, ITEMS).value;
            && AtMeters(q.s, Head(k + 1)) && InSync(q.s) && s.device.clock <= q.s.device.clock
            && UpRecord(w, s.device.clock, q.s.device.clock, if k == 0 then 2 else 3, if k == 0 then 8 else 9, hertz, q.m)
  {
    var e := Min(Head(k) + 8, INFO_ITEM);
    BlankRecord(w, s.device.clock, e, e - 1, hertz);
    UpPass(w, Pass(s, BLANK), hertz, ITEMS, e - 1, e, e - ITEMS, s.device.clock);
  }

  lemma LoopPolls(w: World, p: Poll, k: nat)
    requires CanGoDown(w, Head(k), 8) && AtMeters(p.s, Head(k)) && KeysSuffice(w, p.s) && Attentive(w, p.s.device.clock)
    ensures OneLoop(w, p, ITEMS).Some?
    ensures var q := OneLoop(w, p, ITEMS).value;
            && AtMeters(q.s, Head(k + 1)) && InSync(q.s) && p.s.device.clock < q.s.device.clock
            && |q.meters| == |p.meters| + 2 && p.meters <= q.meters
            && LoopRecords(w, k, p.s.device.clock, q.s.device.clock, q.meters[|p.meters|], q.meters[|p.meters| + 1])
  {
    DownHalf(w, p.s, k);
    var d := Down(w, Pass(p.s, BLANK), ITEMS + 1).value;
    UpHalf(w, d.s, k, d.m.hertz);
    var u := Up(w, Pass(d.s, BLANK), d.m.hertz, ITEMS).value;
    assert LoopTurnsAt(w, k, p.s.device.clock, d.s.device.clock, u.s.device.clock, d.m, u.m);
  }

  /** Loop `k` adds records 2k and 2k + 1, read between times `k` and `k + 1`. */
  ghost predicate AllLoops(w: World, n: nat, ts: seq<nat>, meters: seq<MeterData>) {
    && |ts| == n + 1 && |meters| == 2 * n
    && forall k | 0 <= k < n :: LoopRecords(w, k, ts[k], ts[k + 1], meters[2 * k], meters[2 * k + 1])
  }

  lemma OneMoreLoop(w: World, n: nat, ts: seq<nat>, t: nat, meters: seq<MeterData>, more: seq<MeterData>)
    requires AllLoops(w, n, ts, meters) && meters <= more && |more| == 2 * n + 2
    requires LoopRecords(w, n, ts[n], t, more[2 * n], more[2 * n + 1])
    ensures AllLoops(w, n + 1, ts + [t], more)
  {
    var ts1 := ts + [t];
    forall k | 0 <= k < n + 1 ensures LoopRecords(w, k, ts1[k], ts1[k + 1], more[2 * k], more[2 * k + 1]) {
      if k < n {
        assert more[2 * k] == meters[2 * k] && more[2 * k + 1] == meters[2 * k + 1];
      }
    }
  }

  /** After `n` loops from `p` the cursors are together at the next loop head. Times `ts` separate the loops. */
  ghost predicate Looped(w: World, items: nat, p: Poll, n: nat, ts: seq<nat>) {
    && Loops(w, p, n, items).Some?
    && var q := Loops(w, p, n, items).value;
    && AtMeters(q.s, Head(n)) && (n > 0 ==> InSync(q.s)) && p.s.device.clock <= q.s.device.clock
    && AllLoops(w, n, ts, q.meters)
    && ts[0] == p.s.device.clock && ts[n] == q.s.device.clock
  }

  lemma LoopOnce(w: World, items: nat, p: Poll, n: nat, ts: seq<nat>) returns (ts': seq<nat>)
    requires items == ITEMS && NumbersMenu(w) && (n == 0 || MetersMenu(w)) && Looped(w, items, p, n, ts)
    requires Attentive(w, p.s.device.clock) && KeysSuffice(w, p.s)
    ensures Looped(w, items, p, n + 1, ts')
  {
    KeysForNextLoop(w, items, p, n, ts);
    var q := Loops(w, p, n, items).value;
    LoopPolls(w, q, n);
    var r := OneLoop(w, q, items).value;
    OneMoreLoop(w, n, ts, r.s.device.clock, q.meters, r.meters);
    ts' := ts + [r.s.device.clock];
    LoopsNext(w, items, p, n);
  }

  lemma LoopsNext(w: World, items: nat, p: Poll, n: nat)
    requires Loops(w, p, n, items).Some?
    ensures Loops(w, p, n + 1, items) == OneLoop(w, Loops(w, p, n, items).value, items)
  {
  }

  /** The loops keep the two cursors together. The first loop stays on the number items; every later one goes on to the
      INFO item. */
  lemma {:induction false} LoopsPoll(w: World, items: nat, p: Poll, n: nat) returns (ts: seq<nat>)
    requires items == ITEMS && NumbersMenu(w) && (n <= 1 || MetersMenu(w))
    requires AtMeters(p.s, Head(0)) && KeysSuffice(w, p.s) && Attentive(w, p.s.device.clock) && p.meters == []
    ensures Looped(w, items, p, n, ts)
  {
    if n == 0 {
      ts := NotLooped(w, items, p, n);
    } else {
      ts := LoopsPoll(w, items, p, n - 1);
      ts := LoopOnce(w, items, p, n - 1, ts);
    }
  }

  lemma NotLooped(w: World, items: nat, p: Poll, n: nat) returns (ts: seq<nat>)
    requires n == 0 && AtMeters(p.s, Head(0)) && p.meters == []
    ensures Looped(w, items, p, n, ts)
  {
    ts := [p.s.device.clock];
  }

  lemma KeysForNextLoop(w: World, items: nat, p: Poll, n: nat, ts: seq<nat>)
    requires Looped(w, items, p, n, ts) && Attentive(w, p.s.device.clock) && KeysSuffice(w, p.s)
    ensures KeysSuffice(w, Loops(w, p, n, items).value.s)
  {
    if n > 0 {
      assert OneOfFive(w, Loops(w, p, n, items).value.s.device.clock);
    }
  }

  /** The keys that a poll needs: the search finds the start, the heading keys that follow it are obeyed, as they are not
      retried, two of the next five keys are obeyed, as the inverter is one item behind by then, and one of any five. */
  ghost predicate KeysForPoll(w: World, s: Session) {
    var t := GotoMenuStart(w, s).device.clock;
    && 1 <= s.device.at.heading && StartIsFound(w, s.device)
    && ObeyedFor(w, t, METERS - 1) && TwoOfFive(w, t + (METERS - 1)) && Attentive(w, s.device.clock)
  }

  /** PollMeters returns two records per loop, every value in them was measured by the item the field belongs to, and the
      cursors are together again at the meters heading if the last two keys are obeyed. Times `ts` separate the loops. */
  ghost predicate PolledWell(w: World, s: Session, n: nat, ts: seq<nat>) {
    && PollMeters(w, s, n).Some?
    && var q := PollMeters(w, s, n).value;
    && AllLoops(w, n, ts, q.meters) && s.device.clock < ts[0] && ts[n] + 2 == q.s.device.clock
    && (w.obeys(ts[n]) && w.obeys(ts[n] + 1) ==> InSync(q.s) && q.s.device.at == Cursor(METERS, 0))
    && q.s.device.at.heading == 4 + (if w.obeys(ts[n]) then 1 else 0) - (if w.obeys(ts[n] + 1) then 1 else 0)
  }

  /** PollMeters from anywhere in the user menus with keys lost, for one loop, and for any number of loops if the host
      finds the INFO item behind the number items. */
  lemma PollMetersIsSafe(w: World, s: Session, n: nat) returns (ts: seq<nat>)
    requires StartMenu(w) && NumbersMenu(w) && (n <= 1 || MetersMenu(w)) && KeysForPoll(w, s)
    ensures PolledWell(w, s, n, ts)
  {
    StartPoll(w, s);
    var g := GotoMenuItem(w, s, METERS, FIRST);
    ts := LoopsPoll(w, ITEMS, Poll(g, []), n);
    PollMetersEnds(w, s, n, ts);
  }

  /** With every key obeyed one loop polls well from every user menu. */
  lemma PollsFromAnyUserMenu(w: World, s: Session) returns (ts: seq<nat>)
    requires StartMenu(w) && NumbersMenu(w) && AllObeyed(w, s.device.clock) && 1 <= s.device.at.heading <= 9
    ensures PolledWell(w, s, 1, ts)
  {
    GotoMenuStartSyncs(w, s);
    ObeyedAll(w, s.device.clock, s.device.clock + 22);
    assert w.obeys(s.device.clock);
    AllKeysForPoll(w, s);
    ts := PollMetersIsSafe(w, s, 1);
  }

  lemma AllKeysForPoll(w: World, s: Session)
    requires StartIsFound(w, s.device) && 1 <= s.device.at.heading && AllObeyed(w, s.device.clock)
    requires GotoMenuStart(w, s).device.clock >= s.device.clock
    ensures KeysForPoll(w, s)
  {
    var t := GotoMenuStart(w, s).device.clock;
    ObeyedAll(w, t + (METERS - 1), t + (METERS - 1) + RETRIES);
    forall k: nat | s.device.clock <= k ensures OneOfFive(w, k) {
      ObeyedAll(w, k, k + RETRIES);
    }
  }

  lemma PollMetersEnds(w: World, s: Session, n: nat, ts: seq<nat>)
    requires METERS < LastHeading(w.menu)
    requires var p := Loops(w, Poll(GotoMenuItem(w, s, METERS, FIRST), []), n, ITEMS);
             && p.Some? && AllLoops(w, n, ts, p.value.meters) && ts[n] == p.value.s.device.clock
             && p.value.s.menuheading == METERS && SameHeading(p.value.s)
    ensures var q := PollMeters(w, s, n);
            && q.Some? && AllLoops(w, n, ts, q.value.meters) && ts[n] + 2 == q.value.s.device.clock
            && (w.obeys(ts[n]) && w.obeys(ts[n] + 1) ==>
                  InSync(q.value.s) && q.value.s.device.at == Cursor(METERS, 0))
            && q.value.s.device.at.heading
               == 4 + (if w.obeys(ts[n]) then 1 else 0) - (if w.obeys(ts[n] + 1) then 1 else 0)
  {
    var p := Loops(w, Poll(GotoMenuItem(w, s, METERS, FIRST), []), n, ITEMS).value;
    PollMetersIs(w, s, n, p);
    EndPoll(w, p.s);
  }

  lemma PollMetersIs(w: World, s: Session, n: nat, p: Poll)
    requires Loops(w, Poll(GotoMenuItem(w, s, METERS, FIRST), []), n, ITEMS) == Some(p)
    ensures PollMeters(w, s, n) == Some(p.(s := MenuHeadingMinus(w, MenuHeadingPlus(w, p.s))))
  {
  }

  lemma StartPoll(w: World, s: Session)
    requires StartMenu(w) && KeysForPoll(w, s)
    ensures var g := GotoMenuItem(w, s, METERS, FIRST);
            AtMeters(g, FIRST) && KeysSuffice(w, g) && s.device.clock < g.device.clock
  {
    GotoMenuStartSyncs(w, s);
    GotoMenuItemLagsByOne(w, s, METERS, FIRST);
    FirstItemFrom(w, GotoMenuStart(w, s), METERS, FIRST);
  }

  lemma EndPoll(w: World, s: Session)
    requires s.menuheading == METERS && SameHeading(s) && METERS < LastHeading(w.menu)
    ensures var r := MenuHeadingMinus(w, MenuHeadingPlus(w, s));
            && r.device.clock == s.device.clock + 2
            && (w.obeys(s.device.clock) && w.obeys(s.device.clock + 1) ==> InSync(r) && r.device.at == Cursor(METERS, 0))
            && r.device.at.heading
               == 4 + (if w.obeys(s.device.clock) then 1 else 0) - (if w.obeys(s.device.clock + 1) then 1 else 0)
  {
  }

  /** The load is in the records of the first two loops only: later loops turn round at item 3, before they reach
      its line going down, and going up it is never stored. */
  lemma LoadOnlyInFirstLoops(w: World, k: nat, t0: nat, t1: nat, d: MeterData, u: MeterData)
    requires LoopRecords(w, k, t0, t1, d, u)
    ensures k < 2 ==> IntBetween(w, t0, t1, 3, d.ac_load_amps)
    ensures k >= 2 ==> d.ac_load_amps == 0
    ensures u.ac_load_amps == 0 && u.hertz == d.hertz && IntBetween(w, t0, t1, 9, d.hertz)
    ensures FloatBetween(w, t0, t1, 4, d.battery_volts) && FloatBetween(w, t0, t1, 4, u.battery_volts)
    ensures d.ac1_volts_in == 0.0 && d.ac2_volts_in == 0.0 && u.ac1_volts_in == 0.0 && u.ac2_volts_in == 0.0
  {
    var t: nat :| t0 < t <= t1 && LoopTurnsAt(w, k, t0, t, t1, d, u);
    var up := if k == 0 then Span(2, 8) else Span(3, 9);
    assert 4 in up && 4 in Span(Head(k) + 1, 9) && 9 in Span(Head(k) + 1, 9);
    LaterInt(w, t0, t, t1, 9, d.hertz);
    if k < 2 {
      LaterInt(w, t0, t, t1, 3, d.ac_load_amps);
    }
    var a: nat :| t0 < a <= t && FloatRead(w, a, 4, d.battery_volts);
    var b: nat :| t < b <= t1 && FloatRead(w, b, 4, u.battery_volts);
  }

  // ----- where the second loop breaks off -----

  /** Without a label to look for the downward loop presses all its keys and shows where the inverter is then. */
  lemma {:induction false} SeekBlank(w: World, s: Session, until: nat)
    requires s.device.clock < until && LabelAt(w.items, s.menuheading, s.menuitem) == ""
    requires s.device.at.item <= LastItem(w.menu, s.device.at.heading)
    ensures var r := Seek(w, s, D, until);
            && r.menuheading == s.menuheading && r.menuitem == s.menuitem
            && r.device.at.heading == s.device.at.heading && r.device.at.item <= LastItem(w.menu, r.device.at.heading)
            && r.device.clock == until && r.menudisp == Shows(w, r.device.clock, r.device.at)
    decreases until - s.device.clock
  {
    var s1 := KeyPress(w, s, D);
    if s1.device.clock < until {
      SeekBlank(w, s1, until);
    }
  }

  /** The host looks up an item that it does not have. */
  lemma StepToNowhere(w: World, s: Session, m: MeterData)
    requires NumbersMenu(w) && Lookup(w.items, METERS, INFO_ITEM).None?
    requires AtMeters(s, INFO_ITEM - 1)
    ensures DownStep(w, MenuItemMinus(w, s), m).Throw?
  {
    SeekBlank(w, s.(menuitem := s.menuitem + 1), s.device.clock + RETRIES);
    var r := MenuItemMinus(w, s);
    ShowsSomething(w, r.device.clock, r.device.at);
  }

  lemma DownStepGoesOn(w: World, s: Session, m: MeterData, i: nat)
    requires NumbersMenu(w) && 2 <= i < INFO_ITEM && s.menuheading == METERS && s.menuitem == i
    ensures var r := DownStep(w, s, m); r.Next? && r.p.s == s
  {
    assert NumberItem(w, i);
  }

  /** A way down that goes past the number items is not defined. */
  lemma {:induction false} DownThrows(w: World, p: Pass, n: nat, c: nat)
    requires NumbersMenu(w) && Lookup(w.items, METERS, INFO_ITEM).None?
    requires AtMeters(p.s, c) && InSync(p.s) && Attentive(w, p.s.device.clock) && 1 <= c < INFO_ITEM <= c + n
    ensures Down(w, p, n).None?
    decreases n
  {
    if c + 1 == INFO_ITEM {
      DownNext(w, p, n - 1);
      StepToNowhere(w, p.s, p.m);
    } else {
      var q := DownGoesOn(w, p, n, c);
      DownThrows(w, q, n - 1, c + 1);
    }
  }

  lemma DownGoesOn(w: World, p: Pass, n: nat, c: nat) returns (q: Pass)
    requires NumbersMenu(w) && n > 0 && AtMeters(p.s, c) && InSync(p.s) && Attentive(w, p.s.device.clock)
    requires 1 <= c && c + 1 < INFO_ITEM
    ensures Down(w, p, n) == Down(w, q, n - 1)
    ensures AtMeters(q.s, c + 1) && InSync(q.s) && p.s.device.clock < q.s.device.clock
  {
    assert OneOfFive(w, p.s.device.clock);
    StepDown(w, p.s, c);
    var s := MenuItemMinus(w, p.s);
    DownStepGoesOn(w, s, p.m, c + 1);
    DownNext(w, p, n - 1);
    q := DownStep(w, s, p.m).p;
  }

  lemma {:induction false} LoopsThrow(w: World, items: nat, p: Poll, k: nat, n: nat)
    requires k <= n && Loops(w, p, k, items).None?
    ensures Loops(w, p, n, items).None?
    decreases n - k
  {
    if k < n {
      LoopsThrow(w, items, p, k + 1, n);
    }
  }

  lemma SecondLoopThrows(w: World, items: nat, p: Poll)
    requires items == ITEMS && NumbersMenu(w) && Lookup(w.items, METERS, INFO_ITEM).None?
    requires AtMeters(p.s, Head(0)) && KeysSuffice(w, p.s) && Attentive(w, p.s.device.clock) && p.meters == []
    ensures Loops(w, p, 2, items).None?
  {
    var ts := LoopsPoll(w, items, p, 1);
    var q := Loops(w, p, 1, items).value;
    DownThrows(w, Pass(q.s, BLANK), ITEMS + 1, Head(1));
    LoopsNext(w, items, p, 1);
  }

  /** Without an item 10 in the host's tree PollMeters is defined exactly for at most one loop. */
  lemma PollsOnceExactly(w: World, s: Session, n: nat) returns (ts: seq<nat>)
    requires StartMenu(w) && NumbersMenu(w) && Lookup(w.items, METERS, INFO_ITEM).None? && KeysForPoll(w, s)
    ensures PollMeters(w, s, n).Some? <==> n <= 1
    ensures n <= 1 ==> PolledWell(w, s, n, ts)
  {
    if n <= 1 {
      ts := PollMetersIsSafe(w, s, n);
    } else {
      ts := [];
      StartPoll(w, s);
      var p := Poll(GotoMenuItem(w, s, METERS, FIRST), []);
      SecondLoopThrows(w, ITEMS, p);
      LoopsThrow(w, ITEMS, p, 2, n);
    }
  }

  // ----- readings and lost keys -----

  /** Where a call of the way down leads, with the inverter any number of items behind. */
  lemma ReachesItem(w: World, s: Session)
    requires NumbersMenu(w) && s.menuheading == METERS && SameHeading(s)
    requires Lag(s) >= 0 && 2 <= s.menuitem + 1 < INFO_ITEM
    ensures var r := MenuItemMinus(w, s);
            && r.menuheading == METERS && r.menuitem == s.menuitem + 1
            && r.device.at.heading == METERS && r.device.at.item <= r.menuitem
            && (r.device.at.item == r.menuitem <==> KeysSuffice(w, s))
            && (Obeyed(w, s.device.clock, s.device.clock + RETRIES) == 0 ==> r.device.at == s.device.at)
            && r.menudisp == Shows(w, r.device.clock, r.device.at)
  {
    var i := s.menuitem + 1;
    assert Apart(w, i);
    DistinctFrom(w, METERS, i, 0, s.device.at.item, INFO_ITEM, i);
    MinusAbsorbsLag(w, s);
  }

  /** What a step down makes of a display: it goes to the field of the item that the host is at. */
  lemma FilesUnderHost(w: World, s: Session, m: MeterData)
    requires NumbersMenu(w) && s.menuheading == METERS && 2 <= s.menuitem < INFO_ITEM && |s.menudisp| > 1
    ensures var i := s.menuitem;
            DownStep(w, s, m)
            == Next(Pass(s, Field(i, m, IntOf(KindOf(i), s.menudisp), FloatOf(w, KindOf(i), s.menudisp))))
  {
    assert NumberItem(w, s.menuitem);
  }

  /** A call of the way down with the inverter any number of items behind: the reading is the one of the item that the
      inverter reached, and is filed under the field of the item that the host is at. That is the reading's own field
      exactly when at least as many of the five keys are obeyed as there are items to go. */
  lemma ReadsOwnFieldExactly(w: World, s: Session, m: MeterData)
    requires NumbersMenu(w) && s.menuheading == METERS && SameHeading(s)
    requires Lag(s) >= 0 && 2 <= s.menuitem + 1 < INFO_ITEM
    ensures var r := MenuItemMinus(w, s); var i, j := s.menuitem + 1, r.device.at.item;
            && r.menudisp == Shows(w, r.device.clock, Cursor(METERS, j))
            && DownStep(w, r, m)
               == Next(Pass(r, Field(i, m, IntOf(KindOf(i), r.menudisp), FloatOf(w, KindOf(i), r.menudisp))))
            && (j == i <==> KeysSuffice(w, s))
  {
    ReachesItem(w, s);
    var r := MenuItemMinus(w, s);
    ShowsSomething(w, r.device.clock, r.device.at);
    FilesUnderHost(w, r, m);
  }

  /** The failing case: with all five keys ignored the battery voltage is filed as the temperature-compensated one. */
  lemma LostKeysMisfile(w: World, s: Session, m: MeterData)
    requires NumbersMenu(w) && InSync(s) && s.menuheading == METERS && s.menuitem == 4
    requires Obeyed(w, s.device.clock, s.device.clock + RETRIES) == 0
    ensures var r := MenuItemMinus(w, s);
            && r.menuitem == 5 && r.device.at == Cursor(METERS, 4)
            && exists v :: FloatRead(w, r.device.clock, 4, v)
                        && DownStep(w, r, m) == Next(Pass(r, m.(tempcomp_volts := v)))
  {
    ReachesItem(w, s);
    Misfiled(w, MenuItemMinus(w, s), m);
  }

  lemma Misfiled(w: World, r: Session, m: MeterData)
    requires NumbersMenu(w) && r.menuheading == METERS && r.menuitem == 5
    requires r.menudisp == Shows(w, r.device.clock, Cursor(METERS, 4))
    ensures exists v :: FloatRead(w, r.device.clock, 4, v)
                     && DownStep(w, r, m) == Next(Pass(r, m.(tempcomp_volts := v)))
  {
    DecodesItem(w, r.device.clock, 4);
    FilesUnderHost(w, r, m);
    var v := FloatOf(w, FLOAT, r.menudisp);
    assert FloatRead(w, r.device.clock, 4, v) && DownStep(w, r, m) == Next(Pass(r, m.(tempcomp_volts := v)));
  }
}
