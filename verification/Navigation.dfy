/** Driving the inverter's menu from the host (devices/xantrex-trace.cc). The host keeps a software cursor and
    checks it against the label on the LCD; the inverter keeps the real cursor and may ignore keys. */
module Navigation {
  import opened Text
  import opened Display
  import opened Menu

  /** The host's cursor and last display, next to the inverter at the other end. */
  datatype Session = Session(menuheading: nat, menuitem: nat, menudisp: string, device: Inverter)

  const RETRIES := 5
  const START_TRIES := 22

  // ----- what the methods compute -----

  /** Write a key, then ReadSerial. */
  function KeyPress(w: World, s: Session, key: Key): Session {
    var d := Press(w, s.device, key);
    s.(device := d, menudisp := Shows(w, d.clock, d.at))
  }

  function Expected(w: World, s: Session): string {
    LabelAt(w.items, s.menuheading, s.menuitem)
  }

  /** The test that ends the retry loops. Only the downward loop insists on a non-empty label. */
  predicate Matched(w: World, s: Session, key: Key) {
    (key == U || |Expected(w, s)| > 0) && Contains(s.menudisp, Expected(w, s))
  }

  /** A retry loop: press the key until the display matches, at the latest when the clock reaches `until`. */
  function Seek(w: World, s: Session, key: Key, until: nat): Session
    decreases until - s.device.clock
  {
    if s.device.clock >= until then s
    else
      var s1 := KeyPress(w, s, key);
      if Matched(w, s1, key) then s1 else Seek(w, s1, key, until)
  }

  function MenuHeadingMinus(w: World, s: Session): Session {
    var s1 := KeyPress(w, s, L);
    s1.(menuheading := if s.menuheading > 1 then s.menuheading - 1 else s.menuheading, menuitem := 0)
  }

  function MenuHeadingPlus(w: World, s: Session): Session {
    var s1 := KeyPress(w, s, R);
    s1.(menuheading := s.menuheading + 1, menuitem := 0)
  }

  function MenuItemMinus(w: World, s: Session): Session {
    Seek(w, s.(menuitem := s.menuitem + 1), D, s.device.clock + RETRIES)
  }

  function MenuItemPlus(w: World, s: Session): Session {
    Seek(w, s.(menuitem := if s.menuitem > 1 then s.menuitem - 1 else s.menuitem), U, s.device.clock + RETRIES)
  }

  function SeekStart(w: World, s: Session, until: nat): Session
    decreases until - s.device.clock
  {
    if s.device.clock >= until then s
    else
      var s1 := KeyPress(w, s, L);
      if Contains(s1.menudisp, "Inverter") then s1 else SeekStart(w, s1, until)
  }

  function GotoMenuStart(w: World, s: Session): Session {
    SeekStart(w, s, s.device.clock + START_TRIES).(menuheading := 1, menuitem := 0)
  }

  function HeadingsPlus(w: World, s: Session, n: nat): Session {
    if n == 0 then s else MenuHeadingPlus(w, HeadingsPlus(w, s, n - 1))
  }

  function ItemsMinus(w: World, s: Session, n: nat): Session {
    if n == 0 then s else MenuItemMinus(w, ItemsMinus(w, s, n - 1))
  }

  lemma ItemsMinusNext(w: World, s: Session, n: nat)
    ensures ItemsMinus(w, s, n + 1) == MenuItemMinus(w, ItemsMinus(w, s, n))
  {
  }

  function ItemsPlus(w: World, s: Session, n: nat): Session {
    if n == 0 then s else MenuItemPlus(w, ItemsPlus(w, s, n - 1))
  }

  /** How often a loop from 0 to n - 1 runs. */
  function Before(n: nat): nat {
    if n > 0 then n - 1 else 0
  }

  /** The two loops of GotoMenuItem and the assignment of the host's cursor behind them. */
  function GotoFromStart(w: World, s: Session, mh: nat, mi: nat): Session {
    var s1 := HeadingsPlus(w, s, Before(mh));
    var s2 := ItemsMinus(w, s1, Before(mi));
    s2.(menuheading := mh, menuitem := mi)
  }

  function GotoMenuItem(w: World, s: Session, mh: nat, mi: nat): Session {
    GotoFromStart(w, GotoMenuStart(w, s), mh, mi)
  }

  // ----- the two cursors -----

  predicate SameHeading(s: Session) {
    s.menuheading == s.device.at.heading
  }

  /** How far the inverter is behind the host; negative when it is ahead. */
  function Lag(s: Session): int {
    s.menuitem - s.device.at.item
  }

  predicate InSync(s: Session) {
    SameHeading(s) && Lag(s) == 0
  }

  /** The number of keys obeyed from time `from` up to time `until`. */
  function Obeyed(w: World, from: nat, until: nat): (r: nat)
    ensures from <= until ==> r <= until - from
    decreases until - from
  {
    if from >= until then 0 else (if w.obeys(from) then 1 else 0) + Obeyed(w, from + 1, until)
  }

  lemma {:induction false} ObeyedAll(w: World, from: nat, until: nat)
    requires from <= until && forall k: nat | from <= k < until :: w.obeys(k)
    ensures Obeyed(w, from, until) == until - from
    decreases until - from
  {
    if from < until {
      ObeyedAll(w, from + 1, until);
    }
  }

  /** Among the inverter's lines from item `lo` up to and including `hi`, the label that the host has for item `target`
      is on that item's line and on no other. */
  ghost predicate Distinct(w: World, h: nat, target: nat, lo: nat, hi: nat) {
    && |LabelAt(w.items, h, target)| > 0
    && forall i: nat, t: nat | lo <= i <= hi ::
         Contains(Shows(w, t, Cursor(h, i)), LabelAt(w.items, h, target)) <==> i == target
  }

  /** The retry loop going down: it stops at the target if enough keys are obeyed, and otherwise ends as many
      items further on as keys were obeyed. */
  lemma {:induction false} SeekDown(w: World, s: Session, until: nat)
    requires s.device.clock < until
    requires SameHeading(s) && Lag(s) > 0 && s.menuitem <= LastItem(w.menu, s.menuheading)
    requires Distinct(w, s.menuheading, s.menuitem, s.device.at.item, s.menuitem)
    ensures var r := Seek(w, s, D, until); var o := Obeyed(w, s.device.clock, until);
            && r.menuheading == s.menuheading && r.menuitem == s.menuitem && SameHeading(r)
            && Lag(r) == (if o >= Lag(s) then 0 else Lag(s) - o)
            && s.device.clock < r.device.clock <= until
            && r.menudisp == Shows(w, r.device.clock, r.device.at)
    decreases until - s.device.clock
  {
      var s1 := KeyPress(w, s, D);
      if Lag(s1) == 0 {
        assert Matched(w, s1, D);
      } else {
        assert !Matched(w, s1, D);
        if s1.device.clock < until {
          SeekDown(w, s1, until);
        }
      }
  }

  /** The retry loop going up, with the inverter at a later item than the target. */
  lemma {:induction false} SeekUp(w: World, s: Session, until: nat)
    requires s.device.clock < until
    requires SameHeading(s) && Lag(s) < 0
    requires Distinct(w, s.menuheading, s.menuitem, s.menuitem, s.device.at.item)
    ensures var r := Seek(w, s, U, until); var o := Obeyed(w, s.device.clock, until);
            && r.menuheading == s.menuheading && r.menuitem == s.menuitem && SameHeading(r)
            && Lag(r) == (if o >= -Lag(s) then 0 else Lag(s) + o)
            && s.device.clock < r.device.clock <= until
            && r.menudisp == Shows(w, r.device.clock, r.device.at)
    decreases until - s.device.clock
  {
      var s1 := KeyPress(w, s, U);
      if Lag(s1) == 0 {
        assert Matched(w, s1, U);
      } else {
        assert !Matched(w, s1, U);
        if s1.device.clock < until {
          SeekUp(w, s1, until);
        }
      }
  }

  // ----- self-stabilisation -----

  /** One MenuItemMinus with the inverter `Lag(s)` items behind: the retries absorb the lag when at least
      Lag(s) + 1 of the five keys are obeyed, and shorten it by what they can otherwise. */
  lemma MinusAbsorbsLag(w: World, s: Session)
    requires SameHeading(s) && Lag(s) >= 0 && s.menuitem < LastItem(w.menu, s.menuheading)
    requires Distinct(w, s.menuheading, s.menuitem + 1, s.device.at.item, s.menuitem + 1)
    ensures var r := MenuItemMinus(w, s); var o := Obeyed(w, s.device.clock, s.device.clock + RETRIES);
            && r.menuheading == s.menuheading && r.menuitem == s.menuitem + 1 && SameHeading(r)
            && (InSync(r) <==> o >= Lag(s) + 1)
            && (o <= Lag(s) ==> Lag(r) == Lag(s) + 1 - o)
            && s.device.clock < r.device.clock <= s.device.clock + RETRIES
            && r.menudisp == Shows(w, r.device.clock, r.device.at)
  {
    SeekDown(w, s.(menuitem := s.menuitem + 1), s.device.clock + RETRIES);
  }

  /** One MenuItemPlus with the inverter ahead, away from the first item. */
  lemma PlusAbsorbsLead(w: World, s: Session)
    requires SameHeading(s) && Lag(s) <= 0 && s.menuitem > 1
    requires Distinct(w, s.menuheading, s.menuitem - 1, s.menuitem - 1, s.device.at.item)
    ensures var r := MenuItemPlus(w, s); var o := Obeyed(w, s.device.clock, s.device.clock + RETRIES);
            && r.menuheading == s.menuheading && r.menuitem == s.menuitem - 1 && SameHeading(r)
            && (InSync(r) <==> o >= 1 - Lag(s))
            && (o <= -Lag(s) ==> Lag(r) == Lag(s) - 1 + o)
            && s.device.clock < r.device.clock <= s.device.clock + RETRIES
            && r.menudisp == Shows(w, r.device.clock, r.device.at)
  {
    SeekUp(w, s.(menuitem := s.menuitem - 1), s.device.clock + RETRIES);
  }

  ghost predicate AllObeyed(w: World, from: nat) {
    forall k: nat | from <= k :: w.obeys(k)
  }

  lemma DistinctFrom(w: World, h: nat, target: nat, lo: nat, lo': nat, hi: nat, hi': nat)
    requires Distinct(w, h, target, lo, hi) && lo <= lo' && hi' <= hi
    ensures Distinct(w, h, target, lo', hi')
  {
  }

  lemma MinusShortensLag(w: World, s: Session)
    requires SameHeading(s) && Lag(s) >= 0 && s.menuitem < LastItem(w.menu, s.menuheading)
    requires AllObeyed(w, s.device.clock)
    requires Distinct(w, s.menuheading, s.menuitem + 1, s.device.at.item, s.menuitem + 1)
    ensures var r := MenuItemMinus(w, s);
            && r.menuheading == s.menuheading && r.menuitem == s.menuitem + 1 && SameHeading(r)
            && Lag(r) == (if Lag(s) <= 4 then 0 else Lag(s) - 4)
            && s.device.clock < r.device.clock
  {
    ObeyedAll(w, s.device.clock, s.device.clock + RETRIES);
    MinusAbsorbsLag(w, s);
  }

  lemma PlusShortensLead(w: World, s: Session)
    requires SameHeading(s) && Lag(s) <= 0 && s.menuitem > 1
    requires AllObeyed(w, s.device.clock)
    requires Distinct(w, s.menuheading, s.menuitem - 1, s.menuitem - 1, s.device.at.item)
    ensures var r := MenuItemPlus(w, s);
            && r.menuheading == s.menuheading && r.menuitem == s.menuitem - 1 && SameHeading(r)
            && Lag(r) == (if -Lag(s) <= 4 then 0 else Lag(s) + 4)
            && s.device.clock < r.device.clock
  {
    ObeyedAll(w, s.device.clock, s.device.clock + RETRIES);
    PlusAbsorbsLead(w, s);
  }

  /** Self-stabilisation downwards: each call removes four items of lag, so any lag is gone after a quarter as
      many calls, rounded up, and stays gone. */
  lemma {:induction false} MinusStabilises(w: World, s: Session, n: nat)
    requires SameHeading(s) && Lag(s) >= 0 && s.menuitem + n <= LastItem(w.menu, s.menuheading)
    requires AllObeyed(w, s.device.clock)
    requires forall target: nat | s.menuitem < target <= s.menuitem + n ::
               Distinct(w, s.menuheading, target, s.device.at.item, target)
    ensures var r := ItemsMinus(w, s, n);
            && r.menuheading == s.menuheading && SameHeading(r) && r.menuitem == s.menuitem + n
            && Lag(r) == (if Lag(s) <= 4 * n then 0 else Lag(s) - 4 * n)
            && r.device.clock >= s.device.clock
  {
    if n > 0 {
      MinusStabilises(w, s, n - 1);
      var r := ItemsMinus(w, s, n - 1);
      DistinctFrom(w, s.menuheading, s.menuitem + n, s.device.at.item, r.device.at.item, s.menuitem + n, s.menuitem + n);
      MinusShortensLag(w, r);
    }
  }

  /** Self-stabilisation upwards, down to the first item. */
  lemma {:induction false} PlusStabilises(w: World, s: Session, n: nat)
    requires SameHeading(s) && Lag(s) <= 0 && s.menuitem > n
    requires AllObeyed(w, s.device.clock)
    requires forall target: nat | s.menuitem - n <= target < s.menuitem ::
               Distinct(w, s.menuheading, target, target, s.device.at.item)
    ensures var r := ItemsPlus(w, s, n);
            && r.menuheading == s.menuheading && SameHeading(r) && r.menuitem == s.menuitem - n
            && Lag(r) == (if -Lag(s) <= 4 * n then 0 else Lag(s) + 4 * n)
            && r.device.clock >= s.device.clock
  {
    if n > 0 {
      PlusStabilises(w, s, n - 1);
      var r := ItemsPlus(w, s, n - 1);
      DistinctFrom(w, s.menuheading, s.menuitem - n, s.menuitem - n, s.menuitem - n, s.device.at.item, r.device.at.item);
      PlusShortensLead(w, r);
    }
  }

  /** The downward loop with the inverter already at or past the target: it presses all its keys and the
      inverter runs on to the end of the heading. */
  lemma {:induction false} SeekRunsAway(w: World, s: Session, until: nat)
    requires s.device.clock < until
    requires SameHeading(s) && Lag(s) <= 0 && s.device.at.item <= LastItem(w.menu, s.menuheading)
    requires Lag(s) == 0 ==> s.device.at.item < LastItem(w.menu, s.menuheading) && w.obeys(s.device.clock)
    requires Distinct(w, s.menuheading, s.menuitem, s.menuitem, LastItem(w.menu, s.menuheading))
    ensures var r := Seek(w, s, D, until); var o := Obeyed(w, s.device.clock, until);
            var last := LastItem(w.menu, s.menuheading);
            && r.menuitem == s.menuitem && SameHeading(r) && Lag(r) < 0
            && r.device.at.item == (if s.device.at.item + o <= last then s.device.at.item + o else last)
    decreases until - s.device.clock
  {
    var s1 := KeyPress(w, s, D);
    assert Lag(s1) < 0;
    assert !Matched(w, s1, D);
    if s1.device.clock < until {
      SeekRunsAway(w, s1, until);
    }
  }

  /** With every key obeyed and the inverter anywhere in the heading, MenuItemMinus brings the cursors together
      exactly when the inverter is zero to four items behind, or already at the last item of the heading and the
      host about to go there. It recovers from no other lead. */
  lemma MinusSyncsExactly(w: World, s: Session)
    requires SameHeading(s) && s.menuitem < LastItem(w.menu, s.menuheading)
    requires s.device.at.item <= LastItem(w.menu, s.menuheading)
    requires AllObeyed(w, s.device.clock)
    requires Distinct(w, s.menuheading, s.menuitem + 1, 0, LastItem(w.menu, s.menuheading))
    ensures InSync(MenuItemMinus(w, s)) <==>
              0 <= Lag(s) <= 4 || (Lag(s) == -1 && s.menuitem + 1 == LastItem(w.menu, s.menuheading))
  {
    ObeyedAll(w, s.device.clock, s.device.clock + RETRIES);
    if Lag(s) >= 0 {
      MinusAbsorbsLag(w, s);
    } else if s.menuitem + 1 < LastItem(w.menu, s.menuheading) {
      SeekRunsAway(w, s.(menuitem := s.menuitem + 1), s.device.clock + RETRIES);
    } else {
      SeekAtEnd(w, s.(menuitem := s.menuitem + 1), s.device.clock + RETRIES);
    }
  }

  /** The downward loop with the inverter at the target, and the target the last item: a key changes nothing. */
  lemma SeekAtEnd(w: World, s: Session, until: nat)
    requires s.device.clock < until
    requires InSync(s) && s.menuitem == LastItem(w.menu, s.menuheading)
    requires Distinct(w, s.menuheading, s.menuitem, s.menuitem, s.menuitem)
    ensures InSync(Seek(w, s, D, until))
  {
    var s1 := KeyPress(w, s, D);
    assert Matched(w, s1, D);
  }

  /** At the first item or the heading the host does not go up. From the first item, in step, the inverter goes on to the
      heading unless it ignores the first key; from the heading it stays. */
  lemma PlusAtTheTop(w: World, s: Session)
    requires InSync(s) && s.menuitem <= 1 && s.menuitem <= LastItem(w.menu, s.menuheading)
    requires Distinct(w, s.menuheading, s.menuitem, 0, s.menuitem)
    ensures var r := MenuItemPlus(w, s);
            && r.menuheading == s.menuheading && r.menuitem == s.menuitem && SameHeading(r)
            && Lag(r) == if s.menuitem == 1 && w.obeys(s.device.clock) then 1 else 0
  {
    var s1 := KeyPress(w, s, U);
    if s1.device.at.item == 0 && s.menuitem == 1 {
      SeekAtTop(w, s1, s.device.clock + RETRIES);
    } else {
      assert Matched(w, s1, U);
    }
  }

  /** Keys at the heading change nothing. */
  lemma {:induction false} SeekAtTop(w: World, s: Session, until: nat)
    requires SameHeading(s) && s.menuitem == 1 && s.device.at.item == 0 && !Matched(w, s, U)
    requires Distinct(w, s.menuheading, s.menuitem, 0, s.menuitem)
    ensures var r := Seek(w, s, U, until);
            r.menuheading == s.menuheading && r.menuitem == 1 && SameHeading(r) && Lag(r) == 1
    decreases until - s.device.clock
  {
    if s.device.clock < until {
      var s1 := KeyPress(w, s, U);
      assert s1.device.at == s.device.at;
      assert !Matched(w, s1, U);
      SeekAtTop(w, s1, until);
    }
  }

  /** The heading keys: one that is obeyed keeps host and inverter together on every heading but the last, where the host
      goes on alone; one that is ignored parts them except where the host does not move either. */
  lemma HeadingKeysExactly(w: World, s: Session)
    requires InSync(s) && 1 <= s.menuheading <= LastHeading(w.menu)
    ensures var r := MenuHeadingMinus(w, s); var h := s.menuheading;
            && r.menuheading == (if h > 1 then h - 1 else 1) && r.menuitem == 0
            && (InSync(r) <==> w.obeys(s.device.clock) || (h == 1 && s.menuitem == 0))
    ensures var r := MenuHeadingPlus(w, s); var h := s.menuheading;
            && r.menuheading == h + 1 && r.menuitem == 0
            && (InSync(r) <==> w.obeys(s.device.clock) && h < LastHeading(w.menu))
  {
  }

  lemma {:induction false} SeekWithoutLabel(w: World, s: Session, until: nat)
    requires s.device.clock <= until && LabelAt(w.items, s.menuheading, s.menuitem) == ""
    ensures Seek(w, s, D, until).device.clock == until
    decreases until - s.device.clock
  {
    if s.device.clock < until {
      SeekWithoutLabel(w, KeyPress(w, s, D), until);
    }
  }

  /** Where the host has no label: the way down presses all its five keys, and the way up only one. */
  lemma MissingLabelKeys(w: World, s: Session)
    ensures LabelAt(w.items, s.menuheading, s.menuitem + 1) == "" ==>
              MenuItemMinus(w, s).device.clock == s.device.clock + 5
    ensures LabelAt(w.items, s.menuheading, if s.menuitem > 1 then s.menuitem - 1 else s.menuitem) == "" ==>
              MenuItemPlus(w, s).device.clock == s.device.clock + 1
  {
    var down := s.(menuitem := s.menuitem + 1);
    if Expected(w, down) == "" {
      SeekWithoutLabel(w, down, s.device.clock + RETRIES);
    }
    var up := s.(menuitem := if s.menuitem > 1 then s.menuitem - 1 else s.menuitem);
    var s1 := KeyPress(w, up, U);
    if Expected(w, up) == "" {
      assert OccursAt(s1.menudisp, "", 0);
      assert Matched(w, s1, U);
    }
  }

  // ----- getting to the start of the menu -----

  const START_WORD := "Inverter"

  /** The word that the search for the start looks for is on the display of this item. */
  predicate ShowsStart(w: World, c: Cursor) {
    Contains(TextAt(w, c), START_WORD)
  }

  lemma StartWordShown(w: World, t: nat, c: Cursor)
    ensures Contains(Shows(w, t, c), START_WORD) <==> ShowsStart(w, c)
  {
    assert IsWord(START_WORD) by {
      assert PREFIX[2] == ' ';
    }
    WordIsInText(w, t, c, START_WORD);
  }

  /** Of all headings only 1 and 9 have the word in their own names. Items may have it too. */
  ghost predicate StartMenu(w: World) {
    && LastHeading(w.menu) >= 9
    && forall h: nat | 1 <= h :: ShowsStart(w, Cursor(h, 0)) <==> h == 1 || h == 9
  }

  /** The heading that the search reaches from heading `h` with `o` keys obeyed: it goes left up to heading 9 or, from
      there and from its left, up to heading 1. */
  function LeftOf(h: nat, o: nat): nat {
    var stop := if h <= 9 then 1 else 9;
    if h < stop + o then stop else h - o
  }

  /** The first key of the search was ignored, and the display shows an item that has the word: the search stops. */
  predicate StopsInPlace(w: World, d: Inverter) {
    ShowsStart(w, d.at) && !w.obeys(d.clock)
  }

  /** Where the search for the start ends, from any item and with any keys ignored. */
  lemma {:induction false} SeekStartEnds(w: World, s: Session, until: nat)
    requires StartMenu(w) && 1 <= s.device.at.heading && s.device.clock < until
    ensures var r := SeekStart(w, s, until); var o := Obeyed(w, s.device.clock, until);
            && r.device.at == (if StopsInPlace(w, s.device) || o == 0 then s.device.at
                               else Cursor(LeftOf(s.device.at.heading, o), 0))
            && s.device.clock < r.device.clock <= until
    decreases until - s.device.clock
  {
    var s1 := KeyPress(w, s, L);
    StartWordShown(w, s1.device.clock, s1.device.at);
    if !ShowsStart(w, s1.device.at) && s1.device.clock < until {
      SeekStartEnds(w, s1, until);
    }
  }

  /** GotoMenuStart brings the inverter to the start exactly in these cases. From beyond heading 9 it never does: the
      search stops at "Inverter Setup". */
  predicate StartIsFound(w: World, d: Inverter) {
    if StopsInPlace(w, d) then d.at == Cursor(1, 0)
    else
      && d.at.heading <= 9
      && Obeyed(w, d.clock, d.clock + START_TRIES) >= (if d.at.heading <= 2 then 1 else d.at.heading - 1)
  }

  lemma GotoMenuStartSyncs(w: World, s: Session)
    requires StartMenu(w) && 1 <= s.device.at.heading
    ensures var r := GotoMenuStart(w, s);
            && (InSync(r) <==> StartIsFound(w, s.device))
            && r.menuheading == 1 && r.menuitem == 0
            && s.device.clock < r.device.clock <= s.device.clock + START_TRIES
  {
    SeekStartEnds(w, s, s.device.clock + START_TRIES);
  }

  /** How far the search reaches. "Inverter" is in the names of headings 1 and 9 alone; the number of tries is 22. Unless
      it stops in place, the search leads to the start exactly from headings 1 to 9, and if as many of the next 22 keys
      are obeyed as there are headings to go. */
  lemma SearchReachesExactly(w: World, s: Session)
    requires LastHeading(w.menu) >= 9 && 1 <= s.device.at.heading
    requires forall h: nat | 1 <= h :: Contains(TextAt(w, Cursor(h, 0)), "Inverter") <==> h == 1 || h == 9
    requires !(Contains(TextAt(w, s.device.at), "Inverter") && !w.obeys(s.device.clock))
    ensures var h := s.device.at.heading; var r := GotoMenuStart(w, s);
            && r.menuheading == 1 && r.menuitem == 0
            && (r.device.at == Cursor(1, 0)
                <==> h <= 9 && Obeyed(w, s.device.clock, s.device.clock + 22) >= (if h > 2 then h - 1 else 1))
  {
    IsStartMenu(w);
    GotoMenuStartSyncs(w, s);
  }

  lemma IsStartMenu(w: World)
    requires LastHeading(w.menu) >= 9
    requires forall h: nat | 1 <= h :: Contains(TextAt(w, Cursor(h, 0)), "Inverter") <==> h == 1 || h == 9
    ensures StartMenu(w)
  {
    assert START_WORD == "Inverter";
  }

  /** With every key obeyed the search finds the start from every user menu. */
  lemma SearchFindsStart(w: World, s: Session)
    requires LastHeading(w.menu) >= 9 && 1 <= s.device.at.heading <= 9 && AllObeyed(w, s.device.clock)
    requires forall h: nat | 1 <= h :: Contains(TextAt(w, Cursor(h, 0)), "Inverter") <==> h == 1 || h == 9
    ensures InSync(GotoMenuStart(w, s)) && GotoMenuStart(w, s).device.at == Cursor(1, 0)
  {
    assert w.obeys(s.device.clock);
    ObeyedAll(w, s.device.clock, s.device.clock + 22);
    SearchReachesExactly(w, s);
  }

  /** The search fails on one lost key: at an item other than the first heading that has the word, an ignored first key
      leaves the inverter where it is while the host takes it to be at the start. */
  lemma LostKeyStrandsStart(w: World, s: Session)
    requires StopsInPlace(w, s.device) && s.device.at != Cursor(1, 0)
    ensures var r := GotoMenuStart(w, s);
            && r.device == Inverter(s.device.at, s.device.clock + 1)
            && r.menuheading == 1 && r.menuitem == 0 && !InSync(r)
  {
    StartWordShown(w, s.device.clock + 1, s.device.at);
  }

  // ----- getting to an item -----

  lemma {:induction false} ObeyedLast(w: World, from: nat, until: nat)
    requires from <= until
    ensures Obeyed(w, from, until + 1) == Obeyed(w, from, until) + if w.obeys(until) then 1 else 0
    decreases until - from
  {
    if from < until {
      ObeyedLast(w, from + 1, until);
    }
  }

  /** The heading keys are not retried: each ignored one leaves the inverter one heading short. */
  function RightOf(w: World, c: Cursor, o: nat): Cursor {
    if o == 0 then c
    else if c.heading + o <= LastHeading(w.menu) then Cursor(c.heading + o, 0)
    else Cursor(LastHeading(w.menu), 0)
  }

  lemma {:induction false} HeadingsPlusMoves(w: World, s: Session, n: nat)
    requires s.device.at.heading <= LastHeading(w.menu)
    ensures var r := HeadingsPlus(w, s, n);
            && r.device.at == RightOf(w, s.device.at, Obeyed(w, s.device.clock, s.device.clock + n))
            && r.device.clock == s.device.clock + n
  {
    if n > 0 {
      HeadingsPlusMoves(w, s, n - 1);
      ObeyedLast(w, s.device.clock, s.device.clock + n - 1);
    }
  }

  lemma {:induction false} HeadingsPlusHost(w: World, s: Session, n: nat)
    requires s.menuitem == 0
    ensures var r := HeadingsPlus(w, s, n); r.menuheading == s.menuheading + n && r.menuitem == 0
  {
    if n > 0 {
      HeadingsPlusHost(w, s, n - 1);
    }
  }

  /** GotoMenuItem for the first item, exactly: host and inverter agree on the heading, with the inverter one item
      behind, if and only if the obeyed heading keys lead from where the search ended to the heading asked for. */
  lemma GotoFirstItemExactly(w: World, s: Session, mh: nat, mi: nat)
    requires mi == 1 && StartMenu(w) && 1 <= s.device.at.heading <= LastHeading(w.menu) && 1 <= mh
    ensures var g := GotoMenuStart(w, s); var r := GotoMenuItem(w, s, mh, mi);
            && r.menuheading == mh && r.menuitem == mi
            && (SameHeading(r) && Lag(r) == 1
                <==> RightOf(w, g.device.at, Obeyed(w, g.device.clock, g.device.clock + (mh - 1))) == Cursor(mh, 0))
            && r.device.clock == g.device.clock + (mh - 1)
  {
    StartWithin(w, s);
    FirstItemFrom(w, GotoMenuStart(w, s), mh, mi);
  }

  lemma StartWithin(w: World, s: Session)
    requires StartMenu(w) && 1 <= s.device.at.heading <= LastHeading(w.menu)
    ensures GotoMenuStart(w, s).device.at.heading <= LastHeading(w.menu)
  {
    SeekStartEnds(w, s, s.device.clock + START_TRIES);
  }

  lemma FirstItemFrom(w: World, g: Session, mh: nat, mi: nat)
    requires g.device.at.heading <= LastHeading(w.menu) && mh > 0 && mi == 1
    ensures var r := GotoFromStart(w, g, mh, mi);
            && r.menuheading == mh && r.menuitem == mi
            && (SameHeading(r) && Lag(r) == 1
                <==> RightOf(w, g.device.at, Obeyed(w, g.device.clock, g.device.clock + (mh - 1))) == Cursor(mh, 0))
            && r.device.clock == g.device.clock + (mh - 1)
  {
    GotoHeadingOnly(w, g, mh, mi);
    HeadingsPlusMoves(w, g, mh - 1);
  }

  lemma GotoHeadingOnly(w: World, g: Session, mh: nat, mi: nat)
    requires mh > 0 && mi == 1
    ensures GotoFromStart(w, g, mh, mi) == HeadingsPlus(w, g, mh - 1).(menuheading := mh, menuitem := mi)
  {
  }

  ghost predicate ObeyedFor(w: World, from: nat, n: nat) {
    forall k: nat | from <= k < from + n :: w.obeys(k)
  }

  /** Each label of a heading is missing from the line before it. */
  ghost predicate Successive(w: World, h: nat, last: nat) {
    && last <= LastItem(w.menu, h)
    && forall i: nat | i < last :: DistinctNext(w, h, i)
  }

  ghost predicate DistinctNext(w: World, h: nat, i: nat) {
    Distinct(w, h, i + 1, i, i + 1)
  }

  /** Of any five keys in a row at least one is obeyed. */
  ghost predicate Attentive(w: World, from: nat) {
    forall t: nat | from <= t :: OneOfFive(w, t)
  }

  predicate OneOfFive(w: World, t: nat) {
    Obeyed(w, t, t + RETRIES) >= 1
  }

  /** From a common position one obeyed key of the five is enough. */
  lemma {:induction false} ItemsMinusMoves(w: World, s: Session, n: nat)
    requires InSync(s) && s.menuitem == 0 && Successive(w, s.menuheading, n)
    requires Attentive(w, s.device.clock)
    ensures var r := ItemsMinus(w, s, n);
            && InSync(r) && r.menuitem == n && r.menuheading == s.menuheading
            && s.device.clock <= r.device.clock <= s.device.clock + RETRIES * n
  {
    if n > 0 {
      ItemsMinusMoves(w, s, n - 1);
      InStep(w, ItemsMinus(w, s, n - 1));
    }
  }

  lemma InStep(w: World, s: Session)
    requires InSync(s) && s.menuitem < LastItem(w.menu, s.menuheading)
    requires DistinctNext(w, s.menuheading, s.menuitem) && OneOfFive(w, s.device.clock)
    ensures var r := MenuItemMinus(w, s);
            && InSync(r) && r.menuitem == s.menuitem + 1 && r.menuheading == s.menuheading
            && s.device.clock < r.device.clock <= s.device.clock + RETRIES
  {
    MinusAbsorbsLag(w, s);
  }

  lemma FromStartLagsByOne(w: World, s: Session, mh: nat, mi: nat)
    requires InSync(s) && s.menuheading == 1 && s.menuitem == 0
    requires 1 <= mh <= LastHeading(w.menu) && 1 <= mi && Successive(w, mh, mi - 1)
    requires ObeyedFor(w, s.device.clock, mh - 1) && Attentive(w, s.device.clock)
    ensures var r := GotoFromStart(w, s, mh, mi);
            && r.menuheading == mh && r.menuitem == mi
            && SameHeading(r) && Lag(r) == 1
            && s.device.clock <= r.device.clock
  {
    HeadingReached(w, s, mh);
    ItemsMinusMoves(w, HeadingsPlus(w, s, mh - 1), mi - 1);
  }

  lemma HeadingReached(w: World, s: Session, mh: nat)
    requires InSync(s) && s.menuheading == 1 && s.menuitem == 0
    requires 1 <= mh <= LastHeading(w.menu) && ObeyedFor(w, s.device.clock, mh - 1)
    ensures var r := HeadingsPlus(w, s, mh - 1);
            InSync(r) && r.menuheading == mh && r.menuitem == 0 && r.device.clock == s.device.clock + (mh - 1)
  {
    ObeyedAll(w, s.device.clock, s.device.clock + (mh - 1));
    HeadingsPlusMoves(w, s, mh - 1);
    HeadingsPlusHost(w, s, mh - 1);
  }

  /** GotoMenuItem(mh, mi) from anywhere, with keys lost: if the start is found and the heading keys are obeyed, the host
      believes it is at item `mi`, and the inverter is one item behind, because the loop runs mi - 1 times from the
      heading itself. */
  lemma GotoMenuItemLagsByOne(w: World, s: Session, mh: nat, mi: nat)
    requires StartMenu(w) && 1 <= s.device.at.heading && StartIsFound(w, s.device)
    requires 1 <= mh <= LastHeading(w.menu) && 1 <= mi && Successive(w, mh, mi - 1)
    requires ObeyedFor(w, GotoMenuStart(w, s).device.clock, mh - 1) && Attentive(w, s.device.clock)
    ensures var r := GotoMenuItem(w, s, mh, mi);
            && r.menuheading == mh && r.menuitem == mi
            && SameHeading(r) && Lag(r) == 1
            && s.device.clock < r.device.clock
  {
    GotoMenuStartSyncs(w, s);
    FromStartLagsByOne(w, GotoMenuStart(w, s), mh, mi);
  }
}
