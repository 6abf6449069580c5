/** The menu tree that the host keeps (lib/menuitem.cc, and GetItem of devices/xantrex-trace.cc) and the inverter at the
    far end of the serial link, which walks a menu of its own when a key is pressed. */
module Menu {
  import opened Text
  import opened Display

  datatype Kind = INFO | MENUHEAD | MENUITEM | BOOL | INT | FLOAT

  datatype MenuItem = MenuItem(text: string, headidx: nat, itemidx: nat, kind: Kind)

  type Items = seq<seq<MenuItem>>

  // ----- SetItem -----

  /** The class MenuItem, as far as its position and type go. The source has one SetItem for each kind of item. */
  class MenuItemObject {
    var text: string
    var headidx: nat
    var itemidx: nat
    var kind: Kind

    function Item(): MenuItem
      reads this
    {
      MenuItem(text, headidx, itemidx, kind)
    }

    constructor ()
    {
      text, headidx, itemidx, kind := "", 0, 0, INFO;
    }

    /** With an abbreviation. */
    method SetAll(lab: string, x: nat, y: nat, dtype: Kind)
      modifies this
      ensures Item() == MenuItem(lab, x, y, dtype)
    {
      text, headidx, itemidx, kind := lab, x, y, dtype;
    }

    /** Without an abbreviation: the item index is dropped. */
    method SetShort(lab: string, x: nat, y: nat, dtype: Kind)
      modifies this
      ensures Item() == MenuItem(lab, x, 0, dtype)
    {
      SetAll(lab, x, 0, dtype);
    }

    /** A heading. */
    method SetHead(lab: string, x: nat)
      modifies this
      ensures Item() == MenuItem(lab, x, 0, MENUHEAD)
    {
      SetShort(lab, x, 0, MENUHEAD);
    }

    /** A line of information. It goes by the overload that drops the item index. */
    method SetInfo(lab: string, x: nat, y: nat)
      modifies this
      ensures Item() == MenuItem(lab, x, 0, INFO)
    {
      SetShort(lab, x, y, INFO);
    }

    /** An item with a value. */
    method SetValue(lab: string, x: nat, y: nat, dtype: Kind)
      modifies this
      ensures Item() == MenuItem(lab, x, y, dtype)
    {
      SetAll(lab, x, y, dtype);
    }
  }

  // ----- GetItem -----

  function InRow(row: seq<MenuItem>, x: nat, y: nat): Option<MenuItem> {
    if row == [] then None
    else if row[0].headidx == x && row[0].itemidx == y then Some(row[0])
    else InRow(row[1..], x, y)
  }

  /** The first item, row by row, that carries the indices x and y. None stands for the end iterator that the
      source dereferences. */
  function Lookup(items: Items, x: nat, y: nat): Option<MenuItem> {
    if items == [] then None
    else
      var r := InRow(items[0], x, y);
      if r.Some? then r else Lookup(items[1..], x, y)
  }

  method GetItem(items: Items, x: nat, y: nat) returns (r: Option<MenuItem>)
    ensures r == Lookup(items, x, y)
  {
    var mh := 0;
    while mh < |items|
      invariant mh <= |items|
      invariant Lookup(items, x, y) == Lookup(items[mh..], x, y)
    {
      var it := 0;
      while it < |items[mh]|
        invariant it <= |items[mh]|
        invariant InRow(items[mh], x, y) == InRow(items[mh][it..], x, y)
      {
        if items[mh][it].headidx == x && items[mh][it].itemidx == y {
          return Some(items[mh][it]);
        }
        it := it + 1;
      }
      mh := mh + 1;
    }
    return None;
  }

  /** Position `h`, `i` is the first one, row by row, with these indices. */
  ghost predicate FirstAt(items: Items, x: nat, y: nat, h: nat, i: nat) {
    && h < |items| && i < |items[h]| && HasIndices(items[h][i], x, y)
    && (forall g, j | 0 <= g < h && 0 <= j < |items[g]| :: !HasIndices(items[g][j], x, y))
    && (forall j | 0 <= j < i :: !HasIndices(items[h][j], x, y))
  }

  /** What the search returns in any tree. */
  lemma {:induction false} LookupIsFirst(items: Items, x: nat, y: nat) returns (h: nat, i: nat)
    ensures Lookup(items, x, y).Some? ==> FirstAt(items, x, y, h, i) && Lookup(items, x, y).value == items[h][i]
    ensures Lookup(items, x, y).None? ==>
              forall g, j | 0 <= g < |items| && 0 <= j < |items[g]| :: !HasIndices(items[g][j], x, y)
  {
    h, i := 0, 0;
    if items != [] {
      var k := InRowIsFirst(items[0], x, y);
      if InRow(items[0], x, y).Some? {
        i := k;
      } else {
        h, i := LookupIsFirst(items[1..], x, y);
        assert forall g | 0 <= g < |items| - 1 :: items[1..][g] == items[g + 1];
        forall g, j | 0 <= g <= h && g < |items| && 0 <= j < |items[g]| && (g == h ==> j < i)
          ensures g > 0 && Lookup(items[1..], x, y).Some? ==> !HasIndices(items[g][j], x, y)
        {
          assert g > 0 ==> items[g] == items[1..][g - 1];
        }
        h := h + 1;
      }
    }
  }

  lemma {:induction false} InRowIsFirst(row: seq<MenuItem>, x: nat, y: nat) returns (i: nat)
    ensures var r := InRow(row, x, y);
            && (r.Some? ==> i < |row| && HasIndices(row[i], x, y) && r.value == row[i]
                            && forall j | 0 <= j < i :: !HasIndices(row[j], x, y))
            && (r.None? ==> forall j | 0 <= j < |row| :: !HasIndices(row[j], x, y))
  {
    i := 0;
    if row != [] && !HasIndices(row[0], x, y) {
      i := InRowIsFirst(row[1..], x, y);
      assert forall j | 1 <= j < |row| :: row[j] == row[1..][j - 1];
      i := i + 1;
    }
  }

  /** Every row holds items of its own heading only. */
  ghost predicate RowsApart(items: Items, base: nat) {
    forall h, i | 0 <= h < |items| && 0 <= i < |items[h]| :: items[h][i].headidx == base + h
  }

  /** Every item of a row is stored where its own item index says. */
  ghost predicate RowIndexed(row: seq<MenuItem>) {
    forall i | 0 <= i < |row| :: row[i].itemidx == i
  }

  predicate HasIndices(it: MenuItem, x: nat, y: nat) {
    it.headidx == x && it.itemidx == y
  }

  lemma {:induction false} InRowFirst(row: seq<MenuItem>, x: nat, y: nat, k: nat)
    requires k < |row| && HasIndices(row[k], x, y) && forall j | 0 <= j < k :: !HasIndices(row[j], x, y)
    ensures InRow(row, x, y) == Some(row[k])
  {
    if k > 0 {
      assert !HasIndices(row[0], x, y);
      InRowFirst(row[1..], x, y, k - 1);
    }
  }

  lemma {:induction false} InRowNone(row: seq<MenuItem>, x: nat, y: nat)
    requires forall j | 0 <= j < |row| :: !HasIndices(row[j], x, y)
    ensures InRow(row, x, y).None?
  {
    if row != [] {
      assert !HasIndices(row[0], x, y);
      InRowNone(row[1..], x, y);
    }
  }

  /** In a tree whose rows hold their own heading only, the search is the search of one row. */
  lemma {:induction false} LookupIsInRow(items: Items, base: nat, x: nat, y: nat)
    requires RowsApart(items, base)
    ensures Lookup(items, x, y) == if base <= x < base + |items| then InRow(items[x - base], x, y) else None
  {
    if items != [] {
      var rest: Items := items[1..];
      forall h, i | 0 <= h < |rest| && 0 <= i < |rest[h]| ensures rest[h][i].headidx == base + 1 + h {
        assert rest[h] == items[h + 1];
      }
      if x != base {
        InRowNone(items[0], x, y);
      } else if InRow(items[0], x, y).None? && |items| > 1 {
        LookupElsewhere(rest, base + 1, x, y);
      }
      LookupIsInRow(rest, base + 1, x, y);
    }
  }

  lemma {:induction false} LookupElsewhere(items: Items, base: nat, x: nat, y: nat)
    requires RowsApart(items, base) && x < base
    ensures Lookup(items, x, y).None?
  {
    if items != [] {
      var rest: Items := items[1..];
      forall h, i | 0 <= h < |rest| && 0 <= i < |rest[h]| ensures rest[h][i].headidx == base + 1 + h {
        assert rest[h] == items[h + 1];
      }
      InRowNone(items[0], x, y);
      LookupElsewhere(rest, base + 1, x, y);
    }
  }

  /** The search returns the item at the position asked for, and nothing else, wherever the row is stored as its item
      indices say. */
  lemma LookupFinds(items: Items, x: nat, y: nat)
    requires RowsApart(items, 0) && (x < |items| ==> RowIndexed(items[x]))
    ensures Lookup(items, x, y) == if x < |items| && y < |items[x]| then Some(items[x][y]) else None
  {
    LookupIsInRow(items, 0, x, y);
    if x < |items| {
      assert forall i | 0 <= i < |items[x]| :: items[x][i].headidx == 0 + x;
      if y < |items[x]| {
        InRowFirst(items[x], x, y, y);
      } else {
        InRowNone(items[x], x, y);
      }
    }
  }

  // ----- the inverter -----

  datatype Key = L | R | D | U

  datatype Cursor = Cursor(heading: nat, item: nat)

  /** Integer readings of one display line: the first one and its refreshes. The inverter's meters have at most
      four digits. */
  type Readings = xs: seq<nat> | |xs| > 0 && forall i | 0 <= i < |xs| :: xs[i] <= 9999 witness [0]

  predicate IsNumeral(t: string) {
    |t| > 0 && |t| <= 4 && IsDigit(t[0]) && forall i | 0 <= i < |t| :: IsDigit(t[i]) || t[i] == '.'
  }

  /** A measured voltage as the LCD prints it, such as 25.1. */
  type Numeral = t: string | IsNumeral(t) witness "0"

  type Numerals = ts: seq<Numeral> | |ts| > 0 witness ["0"]

  /** One line of the inverter's own menu. */
  datatype Face = Face(text: string, kind: Kind)

  type Faces = seq<seq<Face>>

  /** The tree that the host keeps, and everything outside the program: the menu of the inverter, which key presses it
      obeys, what its meters measure at each moment, and the C library's atof. Time counts key presses. */
  datatype World = World(items: Items,
                         menu: Faces,
                         obeys: nat -> bool,
                         amps: (nat, Cursor) -> Readings,
                         volts: (nat, Cursor) -> Numerals,
                         atof: string -> real)

  function AsTokens(ts: Numerals): (r: Tokens)
    ensures |r| == |ts| && forall i | 0 <= i < |ts| :: r[i] == ts[i]
  {
    seq(|ts|, i requires 0 <= i < |ts| => var t: Token := ts[i]; t)
  }

  function FaceAt(menu: Faces, c: Cursor): Option<Face> {
    if c.heading < |menu| && c.item < |menu[c.heading]| then Some(menu[c.heading][c.item]) else None
  }

  /** What the LCD shows at time `t` when the inverter's own menu cursor is at `c`. */
  function Shows(w: World, t: nat, c: Cursor): string {
    match FaceAt(w.menu, c)
    case None => ""
    case Some(f) =>
      match f.kind
      case INT => Line(f.text, Padded(w.amps(t, c)))
      case FLOAT => Line(f.text, AsTokens(w.volts(t, c)))
      case _ => PREFIX + f.text
  }

  /** The inverter's own name for an item. */
  function TextAt(w: World, c: Cursor): string {
    match FaceAt(w.menu, c)
    case None => ""
    case Some(f) => f.text
  }

  /** The label the host expects at a position; empty when there is no such item. */
  function LabelAt(items: Items, x: nat, y: nat): string {
    match Lookup(items, x, y)
    case None => ""
    case Some(it) => it.text
  }

  function LastHeading(menu: Faces): nat {
    if menu == [] then 0 else |menu| - 1
  }

  function LastItem(menu: Faces, h: nat): nat {
    if h < |menu| && menu[h] != [] then |menu[h]| - 1 else 0
  }

  /** The inverter's response to a key it obeys: L and R change the heading, D and U move within it. */
  function Move(menu: Faces, c: Cursor, key: Key): Cursor {
    match key
    case L => Cursor(if c.heading > 1 then c.heading - 1 else c.heading, 0)
    case R => Cursor(if c.heading < LastHeading(menu) then c.heading + 1 else c.heading, 0)
    case D => if c.item < LastItem(menu, c.heading) then c.(item := c.item + 1) else c
    case U => if c.item > 0 then c.(item := c.item - 1) else c
  }

  datatype Inverter = Inverter(at: Cursor, clock: nat)

  /** A key press takes one unit of time. An overloaded inverter ignores it. */
  function Press(w: World, d: Inverter, key: Key): Inverter {
    Inverter(if w.obeys(d.clock) then Move(w.menu, d.at, key) else d.at, d.clock + 1)
  }

  /** A line always holds the text of the item it belongs to. */
  lemma ShowsOwnText(w: World, t: nat, c: Cursor)
    ensures Contains(Shows(w, t, c), TextAt(w, c))
  {
    var s, text := Shows(w, t, c), TextAt(w, c);
    if FaceAt(w.menu, c).None? {
      assert OccursAt(s, text, 0);
    } else {
      assert PREFIX + text <= s;
      assert (PREFIX + text)[|PREFIX|..|PREFIX| + |text|] == text;
      assert s[|PREFIX|..|PREFIX| + |text|] == text;
      assert OccursAt(s, text, |PREFIX|);
    }
  }

  /** `other` has a character that neither `text` nor a printed number holds. */
  predicate Foreign(text: string, other: string) {
    exists i | 0 <= i < |other| :: IsForeign(text, other[i])
  }

  predicate IsForeign(text: string, c: char) {
    c !in text && c !in PREFIX && !IsDigit(c) && c != '.'
  }

  lemma {:induction false} BodyHolds(ts: Tokens, c: char)
    requires c != ' ' && forall i | 0 <= i < |ts| :: c !in ts[i]
    ensures c !in Body(ts)
  {
    if |ts| > 1 {
      BodyHolds(ts[1..], c);
    }
  }

  /** A word of characters that neither the leading text nor the readings of a line hold. */
  predicate IsWord(word: string) {
    word != "" && forall i | 0 <= i < |word| :: !IsDigit(word[i]) && word[i] != '.' && word[i] != ' ' && word[i] !in PREFIX
  }

  lemma WordWithin(pre: string, text: string, post: string, word: string)
    requires word != "" && word[0] !in pre && word[|word| - 1] !in post
    requires forall i | 0 <= i < |word| :: word[i] !in pre && word[i] !in post
    ensures Contains(pre + text + post, word) <==> Contains(text, word)
  {
    var s := pre + text + post;
    if Contains(s, word) {
      var k: nat :| k <= |s| && OccursAt(s, word, k);
      assert s[k..k + |word|][0] == s[k] && s[k..k + |word|][|word| - 1] == s[k + |word| - 1];
      assert |pre| <= k && k + |word| <= |pre + text|;
      assert text[k - |pre|..k - |pre| + |word|] == s[k..k + |word|];
      assert OccursAt(text, word, k - |pre|);
    }
    if Contains(text, word) {
      var k: nat :| k <= |text| && OccursAt(text, word, k);
      assert s[k + |pre|..k + |pre| + |word|] == text[k..k + |word|];
      assert OccursAt(s, word, k + |pre|);
    }
  }

  lemma WordInLine(text: string, ts: Tokens, word: string)
    requires IsWord(word) && forall i | 0 <= i < |ts| :: IsReading(ts[i])
    ensures Contains(Line(text, ts), word) <==> Contains(text, word)
  {
    var gap := Repeat(' ', Gap(text) - 1);
    forall i | 0 <= i < |word| ensures word[i] !in gap + Body(ts) {
      forall k | 0 <= k < |ts| ensures word[i] !in ts[k] {
        assert IsReading(ts[k]);
      }
      BodyHolds(ts, word[i]);
    }
    assert Line(text, ts) == PREFIX + text + (gap + Body(ts));
    WordWithin(PREFIX, text, gap + Body(ts), word);
  }

  predicate IsReading(t: string) {
    forall i | 0 <= i < |t| :: IsDigit(t[i]) || t[i] == '.'
  }

  /** A word without blanks and digits is on a line exactly when it is in the item's text. */
  lemma WordIsInText(w: World, t: nat, c: Cursor, word: string)
    requires IsWord(word)
    ensures Contains(Shows(w, t, c), word) <==> Contains(TextAt(w, c), word)
  {
    match FaceAt(w.menu, c) {
      case None =>
      case Some(f) =>
        match f.kind {
          case INT => WordInLine(f.text, Padded(w.amps(t, c)), word);
          case FLOAT => WordInLine(f.text, AsTokens(w.volts(t, c)), word);
          case _ =>
            assert PREFIX + f.text + "" == PREFIX + f.text;
            WordWithin(PREFIX, f.text, "", word);
        }
    }
  }

  /** A line never holds a label that is foreign to the item's own text. */
  lemma ShowsNoForeign(w: World, t: nat, c: Cursor, other: string)
    requires Foreign(TextAt(w, c), other)
    ensures !Contains(Shows(w, t, c), other)
  {
    var s := Shows(w, t, c);
    var text := TextAt(w, c);
    var i :| 0 <= i < |other| && IsForeign(text, other[i]);
    var ch := other[i];
    assert ' ' in PREFIX by { assert PREFIX[2] == ' '; }
    match FaceAt(w.menu, c) {
      case None =>
      case Some(f) =>
        match f.kind {
          case INT => BodyHolds(Padded(w.amps(t, c)), ch);
          case FLOAT => BodyHolds(AsTokens(w.volts(t, c)), ch);
          case _ =>
        }
    }
    assert ch !in s;
    if Contains(s, other) {
      ContainsCharacters(s, other, ch);
    }
  }
}
