/** The text of the inverter's LCD as the remote link carries it, and the parser that reads values back
    (lib/menuitem.cc, lib/menuitem.h and the value functions of devices/xantrex-trace.cc). */
module Display {
  import opened Text

  const PREFIX := "\r\n  "
  const INT_IDX := 36

  // ----- printer -----

  /** A non-negative number in a field of width 2 filled with '0'. */
  function Pad2(x: nat): (s: string)
    ensures |s| >= 2 && forall i | 0 <= i < |s| :: IsDigit(s[i])
  {
    if x < 10 then "0" + Decimal(x) else Decimal(x)
  }

  /** An int in a field of width 2 filled with '0' on the left: a sign comes after the fill. */
  function IntField(x: int): string {
    if x >= 0 then Pad2(x) else "-" + Decimal(-x)
  }

  /** Blanks after the item's text: one fill character in a field of INT_IDX - size - 1. The subtraction is
      unsigned in the source, and a field narrower than the character adds nothing. */
  function Gap(text: string): (n: nat)
    ensures n >= 1
  {
    if |text| < INT_IDX - 2 then INT_IDX - |text| - 1 else 1
  }

  /** MenuItem::SetDisplay(label, int). */
  function SetDisplay(text: string, x: int): string {
    PREFIX + text + Repeat(' ', Gap(text)) + IntField(x)
  }

  /** Where the value stands and how it is printed: behind a text of at most 34 characters in column 39, behind a longer
      one after one blank; in two digits at least, with the sign in front of a negative number alone. */
  lemma ValueColumn(text: string, x: int)
    ensures var s := SetDisplay(text, x); var n := if |text| <= 34 then 39 else |text| + 5;
            && n <= |s| && s[..4] == "\r\n  " && s[4..4 + |text|] == text
            && (forall i | 4 + |text| <= i < n :: s[i] == ' ')
            && s[n..] == (if x < 0 then "-" + Decimal(-x) else if x <= 9 then "0" + Decimal(x) else Decimal(x))
  {
    var front := PREFIX + text + Repeat(' ', Gap(text));
    assert SetDisplay(text, x) == front + IntField(x);
    assert |front| == if |text| <= 34 then 39 else |text| + 5;
    assert forall i | 0 <= i < |front| :: SetDisplay(text, x)[i] == front[i];
  }

  /** One and two digits, spelled out. */
  lemma SmallDecimals(n: nat)
    ensures n <= 9 ==> Decimal(n) == ["0123456789"[n]]
    ensures 10 <= n <= 99 ==> Decimal(n) == ["0123456789"[n / 10], "0123456789"[n % 10]]
  {
    if 10 <= n <= 99 {
      assert Decimal(n) == Decimal(n / 10) + [DigitChar(n % 10)];
    }
  }

  // ----- parser -----

  /** A search string of GetValue: a blank and the character '0' + i. */
  function LookFor(i: nat): string
    requires i <= 10
  {
    [' ', '0' + i as char]
  }

  /** The search of GetValue: the first of LookFor(i), LookFor(i + 1), ... that occurs, at its first position. */
  function Search(s: string, i: nat): (r: Option<nat>)
    requires i <= 10
    ensures r.Some? ==> r.value + 2 <= |s| && s[r.value] == ' '
    decreases 10 - i
  {
    var pos := Find(s, LookFor(i), 0);
    assert pos.Some? ==> s[pos.value] == s[pos.value..pos.value + 2][0];
    if pos.Some? || i == 10 then pos else Search(s, i + 1)
  }

  /** The substr of GetValue. Without a match `pos` is npos, so pos + 1 wraps to 0 and the length wraps with it. */
  function Cut(s: string, pos: Option<nat>): string
    requires pos.Some? ==> pos.value < |s|
  {
    match pos
    case Some(p) =>
      var pos2 := Find(s, " ", p + 1);
      var n := if pos2.Some? then pos2.value - p else 4;
      if p + 1 + n <= |s| then s[p + 1..p + 1 + n] else s[p + 1..]
    case None =>
      var pos2 := Find(s, " ", 0);
      var n := if pos2.Some? then pos2.value + 1 else 4;
      if n <= |s| then s[..n] else s
  }

  function GetValue(s: string): string {
    Cut(s, Search(s, 0))
  }

  function GetIntValue(s: string): int {
    Atoi(GetValue(s))
  }

  /** The loop of XantrexUI::GetValue as the source runs it. */
  method ReadValue(str: string) returns (r: string)
    ensures r == GetValue(str)
  {
    var i := 0;
    var pos := Find(str, LookFor(i), 0);
    while pos.None? && i < 10
      invariant 0 <= i <= 10 && pos == Find(str, LookFor(i), 0)
      invariant Search(str, i) == Search(str, 0)
    {
      i := i + 1;
      pos := Find(str, LookFor(i), 0);
    }
    assert pos == Search(str, i);
    r := Cut(str, pos);
  }

  // ----- display lines that carry several readings -----

  /** A reading as printed: it starts with a digit and holds no blank. */
  predicate IsToken(t: string) {
    |t| > 0 && IsDigit(t[0]) && ' ' !in t
  }

  type Token = t: string | IsToken(t) witness "0"

  type Tokens = ts: seq<Token> | |ts| > 0 witness ["0"]

  /** Readings in the order the inverter repeats them, two blanks apart; the blank before the first one included. */
  function Body(ts: Tokens): string {
    if |ts| == 1 then " " + ts[0] else " " + ts[0] + " " + Body(ts[1..])
  }

  function Line(text: string, ts: Tokens): string {
    PREFIX + text + Repeat(' ', Gap(text) - 1) + Body(ts)
  }

  lemma SetDisplayIsLine(text: string, x: nat)
    ensures SetDisplay(text, x) == Line(text, [Pad2(x)])
  {
    assert Repeat(' ', Gap(text)) == Repeat(' ', Gap(text) - 1) + " ";
  }

  /** A blank followed by the digit `c`. */
  predicate Mark(s: string, k: nat, c: char) {
    k + 2 <= |s| && s[k] == ' ' && s[k + 1] == c
  }

  /** No blank of the text is followed by a digit, the leading blanks of the line included. */
  ghost predicate Quiet(text: string) {
    forall k: nat, c: char | Mark(PREFIX + text, k, c) :: !IsDigit(c)
  }

  /** The first reading among those with the lowest leading digit. */
  function Best(ts: Tokens): (k: nat)
    ensures k < |ts|
    ensures forall j | 0 <= j < |ts| :: ts[k][0] <= ts[j][0]
    ensures forall j | 0 <= j < k :: ts[k][0] < ts[j][0]
  {
    if |ts| == 1 then 0
    else
      var k := Best(ts[1..]);
      if ts[0][0] <= ts[1 + k][0] then 0 else 1 + k
  }

  /** Where reading `k` starts in Body: the position of its blank. */
  function Start(ts: Tokens, k: nat): (p: nat)
    requires k < |ts|
  {
    if k == 0 then 0 else |ts[0]| + 2 + Start(ts[1..], k - 1)
  }

  lemma {:induction false} BodySuffix(ts: Tokens, k: nat)
    requires k < |ts|
    ensures Start(ts, k) <= |Body(ts)| && Body(ts)[Start(ts, k)..] == Body(ts[k..])
  {
    if k > 0 {
      BodySuffix(ts[1..], k - 1);
      assert ts[1..][k - 1..] == ts[k..];
      assert Body(ts) == (" " + ts[0] + " ") + Body(ts[1..]);
    } else {
      assert ts[0..] == ts;
    }
  }

  /** The characters of a body, reading by reading. */
  lemma BodyCharacters(ts: Tokens)
    ensures var body := Body(ts);
            && |body| >= 1 + |ts[0]| && body[0] == ' '
            && (forall i | 1 <= i <= |ts[0]| :: body[i] == ts[0][i - 1] && body[i] != ' ')
            && (|ts| == 1 ==> |body| == 1 + |ts[0]|)
            && (|ts| > 1 ==> body[1 + |ts[0]|] == ' ' && body[2 + |ts[0]|..] == Body(ts[1..]) && Body(ts[1..])[0] == ' ')
  {
    if |ts| > 1 {
      assert Body(ts) == (" " + ts[0] + " ") + Body(ts[1..]);
    }
  }

  /** The digits marked in a body are exactly the leading digits of its readings, at their starts. */
  lemma {:induction false} BodyMarks(ts: Tokens, p: nat, c: char)
    requires Mark(Body(ts), p, c) && IsDigit(c)
    ensures exists k: nat | k < |ts| :: p == Start(ts, k) && ts[k][0] == c
  {
    BodyCharacters(ts);
    var body := Body(ts);
    if p == 0 {
      assert p == Start(ts, 0) && ts[0][0] == c;
    } else {
      var n := 2 + |ts[0]|;
      assert body[n..][0] == body[n];
      assert p >= n && body[n..][p - n] == ' ' && body[n..][p - n + 1] == c;
      BodyMarks(ts[1..], p - n, c);
      var k: nat :| k < |ts| - 1 && p - n == Start(ts[1..], k) && ts[1..][k][0] == c;
      assert p == Start(ts, k + 1) && ts[k + 1][0] == c;
    }
  }

  /** Order of the readings is the order of their starts. */
  lemma {:induction false} StartMonotone(ts: Tokens, j: nat, k: nat)
    requires j < k < |ts|
    ensures Start(ts, j) < Start(ts, k)
  {
    if j > 0 {
      StartMonotone(ts[1..], j - 1, k - 1);
    }
  }

  /** In a whole line behind a quiet text, every marked digit is the leading digit of a reading. */
  lemma LineMarks(text: string, ts: Tokens, p: nat, c: char)
    requires Quiet(text) && Mark(Line(text, ts), p, c) && IsDigit(c)
    ensures exists k: nat | k < |ts| :: p == |Line(text, ts)| - |Body(ts)| + Start(ts, k) && ts[k][0] == c
  {
    var front := PREFIX + text;
    var gap := Repeat(' ', Gap(text) - 1);
    var s := Line(text, ts);
    var h := |front| + |gap|;
    assert forall i | 0 <= i < |front| :: s[i] == front[i];
    assert forall i | |front| <= i < h :: s[i] == ' ';
    assert s[h..] == Body(ts);
    assert s[h] == s[h..][0] == ' ' by { BodyCharacters(ts); }
    assert !IsDigit(' ');
    assert p + 2 <= |front| ==> Mark(front, p, c);
    assert p >= h;
    assert Mark(Body(ts), p - h, c) by { assert s[p] == s[h..][p - h] && s[p + 1] == s[h..][p - h + 1]; }
    BodyMarks(ts, p - h, c);
  }

  lemma MarkIsOccurrence(s: string, k: nat, i: nat)
    requires i < 10
    ensures OccursAt(s, LookFor(i), k) <==> Mark(s, k, DigitChar(i))
  {
    if k + 2 <= |s| {
      assert s[k..k + 2] == [s[k], s[k + 1]];
      assert LookFor(i) == [' ', DigitChar(i)];
    }
  }

  /** The search passes over the digits that are not marked. */
  lemma {:induction false} SearchFinds(s: string, i: nat, d: nat, p: nat)
    requires i <= d < 10 && Mark(s, p, DigitChar(d))
    requires forall k: nat, e: nat | i <= e < d :: !Mark(s, k, DigitChar(e))
    requires forall k: nat | k < p :: !Mark(s, k, DigitChar(d))
    ensures Search(s, i) == Some(p)
    decreases d - i
  {
    if i == d {
      forall k: nat ensures OccursAt(s, LookFor(d), k) <==> Mark(s, k, DigitChar(d)) {
        MarkIsOccurrence(s, k, d);
      }
      FindIs(s, LookFor(d), 0, p);
    } else {
      var pos := Find(s, LookFor(i), 0);
      if pos.Some? {
        MarkIsOccurrence(s, pos.value, i);
        assert false;
      }
      SearchFinds(s, i + 1, d, p);
    }
  }

  /** The search stops at the chosen reading. */
  lemma SearchOfLine(text: string, ts: Tokens)
    requires Quiet(text)
    ensures Search(Line(text, ts), 0) == Some(|Line(text, ts)| - |Body(ts)| + Start(ts, Best(ts)))
  {
    var k := Best(ts);
    var s := Line(text, ts);
    var h := |s| - |Body(ts)|;
    var p := h + Start(ts, k);
    var d := ts[k][0] as int - '0' as int;
    assert DigitChar(d) == ts[k][0];
    BestIsMarked(text, ts);
    forall q: nat, e: nat | e < d ensures !Mark(s, q, DigitChar(e)) {
      NoLowerMark(text, ts, q, e);
    }
    forall q: nat | q < p ensures !Mark(s, q, DigitChar(d)) {
      if Mark(s, q, DigitChar(d)) {
        NoEarlierMark(text, ts, q);
      }
    }
    SearchFinds(s, 0, d, p);
  }

  lemma BestIsMarked(text: string, ts: Tokens)
    ensures var p := |Line(text, ts)| - |Body(ts)| + Start(ts, Best(ts));
            p >= 0 && Mark(Line(text, ts), p, ts[Best(ts)][0])
  {
    var k := Best(ts);
    var s := Line(text, ts);
    var p := |s| - |Body(ts)| + Start(ts, k);
    LineSuffix(text, ts, k);
    BodyCharacters(ts[k..]);
    assert s[p..][0] == s[p] && s[p..][1] == s[p + 1];
  }

  lemma NoLowerMark(text: string, ts: Tokens, q: nat, e: nat)
    requires Quiet(text) && e < ts[Best(ts)][0] as int - '0' as int
    ensures !Mark(Line(text, ts), q, DigitChar(e))
  {
    if Mark(Line(text, ts), q, DigitChar(e)) {
      LineMarks(text, ts, q, DigitChar(e));
    }
  }

  lemma LineSuffix(text: string, ts: Tokens, k: nat)
    requires k < |ts|
    ensures var p := |Line(text, ts)| - |Body(ts)| + Start(ts, k);
            p <= |Line(text, ts)| && Line(text, ts)[p..] == Body(ts[k..]) && ts[k..][0] == ts[k]
  {
    var s := Line(text, ts);
    var h := |s| - |Body(ts)|;
    BodySuffix(ts, k);
    assert s[h..] == Body(ts);
    assert s[h + Start(ts, k)..] == s[h..][Start(ts, k)..];
  }

  lemma NoEarlierMark(text: string, ts: Tokens, q: nat)
    requires Quiet(text)
    requires Mark(Line(text, ts), q, ts[Best(ts)][0])
    ensures |Line(text, ts)| - |Body(ts)| + Start(ts, Best(ts)) <= q
  {
    var k := Best(ts);
    LineMarks(text, ts, q, ts[k][0]);
    var j: nat :| j < |ts| && q == |Line(text, ts)| - |Body(ts)| + Start(ts, j) && ts[j][0] == ts[k][0];
    if j > k {
      StartMonotone(ts, k, j);
    }
  }

  /** The reading that stands at a place of a text, with readings up to the end of the text behind it. */
  function ReadingOf(ts: Tokens, k: nat): string
    requires k < |ts|
  {
    if k < |ts| - 1 then ts[k] + " " else if |ts[k]| <= 4 then ts[k] else ts[k][..4]
  }

  lemma CutTail(s: string, p: nat, ts: Tokens, k: nat)
    requires k < |ts| && p < |s| && s[p..] == Body(ts[k..])
    ensures Cut(s, Some(p)) == ReadingOf(ts, k)
  {
    CutReading(s, p, ts[k..]);
    assert ts[k..][0] == ts[k];
  }

  /** What GetValue takes out of a line: the chosen reading with the blank after it, or, when that reading is
      the last one, at most four of its characters. */
  lemma GetValueOfLine(text: string, ts: Tokens)
    requires Quiet(text)
    ensures GetValue(Line(text, ts)) == ReadingOf(ts, Best(ts))
  {
    var p := WhereFound(text, ts);
    CutTail(Line(text, ts), p, ts, Best(ts));
  }

  lemma WhereFound(text: string, ts: Tokens) returns (p: nat)
    requires Quiet(text)
    ensures var s := Line(text, ts); Search(s, 0) == Some(p) && p < |s| && s[p..] == Body(ts[Best(ts)..])
  {
    SearchOfLine(text, ts);
    LineSuffix(text, ts, Best(ts));
    p := |Line(text, ts)| - |Body(ts)| + Start(ts, Best(ts));
  }

  lemma NotABlank(s: string, q: nat)
    ensures OccursAt(s, " ", q) <==> q < |s| && s[q] == ' '
  {
    if q < |s| {
      assert s[q..q + 1] == [s[q]];
    }
  }

  /** The characters of the first reading of a body that stands at the end of a text. */
  lemma ReadingStands(s: string, p: nat, ts: Tokens)
    requires p < |s| && s[p..] == Body(ts)
    ensures var n := |ts[0]|;
            && p + 1 + n <= |s| && s[p + 1..p + 1 + n] == ts[0]
            && (|ts| > 1 ==> p + 1 + n < |s| && s[p + 1 + n] == ' ' && s[p + 1..p + 2 + n] == ts[0] + " ")
            && (|ts| == 1 ==> |s| == p + 1 + n)
  {
    BodyCharacters(ts);
    var n := |ts[0]|;
    var body := s[p..];
    assert s[p + 1..p + 1 + n] == body[1..1 + n] == ts[0];
    if |ts| > 1 {
      assert s[p + 1 + n] == body[1 + n];
      assert s[p + 1..p + 2 + n] == body[1..2 + n] == ts[0] + " ";
    }
  }

  /** The blank that ends a reading is the one right behind it. */
  lemma CutReading(s: string, p: nat, ts: Tokens)
    requires p < |s| && s[p..] == Body(ts)
    ensures Cut(s, Some(p)) == if |ts| > 1 then ts[0] + " " else if |ts[0]| <= 4 then ts[0] else ts[0][..4]
  {
    ReadingStands(s, p, ts);
    var n := |ts[0]|;
    forall q: nat | p + 1 <= q < p + 1 + n ensures !OccursAt(s, " ", q) {
      assert s[q] == s[p + 1..p + 1 + n][q - p - 1];
      NotABlank(s, q);
    }
    if |ts| > 1 {
      NotABlank(s, p + 1 + n);
      FindIs(s, " ", p + 1, p + 1 + n);
    } else {
      assert Find(s, " ", p + 1).None?;
      CutShort(s, p, ts[0]);
    }
  }

  lemma CutShort(s: string, p: nat, t: string)
    requires p < |s| && |s| == p + 1 + |t| && s[p + 1..p + 1 + |t|] == t && Find(s, " ", p + 1).None?
    ensures Cut(s, Some(p)) == if |t| <= 4 then t else t[..4]
  {
    if |t| > 4 {
      assert s[p + 1..p + 5] == s[p + 1..p + 1 + |t|][..4];
    }
  }

  // ----- numbers -----

  /** Reading back a padded number, whatever non-digit text follows. */
  lemma AtoiPad2(x: nat, rest: string)
    requires rest == "" || !IsDigit(rest[0])
    ensures Atoi(Pad2(x) + rest) == x
  {
    DigitRunDecimal(x, rest);
    var s := Pad2(x) + rest;
    assert s[0] == Pad2(x)[0];
    if x < 10 {
      assert s[1..] == Decimal(x) + rest;
    }
  }

  function Padded(xs: seq<nat>): (ts: seq<Token>)
    ensures |ts| == |xs| && forall i | 0 <= i < |xs| :: ts[i] == Pad2(xs[i])
  {
    seq(|xs|, i requires 0 <= i < |xs| => var t: Token := Pad2(xs[i]); t)
  }

  /** From a line that repeats several readings, the parser returns one of the readings shown. */
  lemma IntReadingIsShown(text: string, xs: seq<nat>)
    requires Quiet(text) && |xs| > 0
    requires forall i | 0 <= i < |xs| :: xs[i] <= 9999
    ensures GetIntValue(Line(text, Padded(xs))) in xs
  {
    var ts := Padded(xs);
    var k := Best(ts);
    GetValueOfLine(text, ts);
    DecimalLength(xs[k]);
    AtoiPad2(xs[k], " ");
    AtoiPad2(xs[k], "");
    assert Pad2(xs[k]) + "" == Pad2(xs[k]);
    assert GetIntValue(Line(text, ts)) == xs[k];
  }

  /** A number of five digits or more keeps only its first four. */
  lemma TruncatedReading(text: string, x: nat)
    requires Quiet(text) && x > 9999
    ensures GetIntValue(SetDisplay(text, x)) < 10000
  {
    SetDisplayIsLine(text, x);
    GetValueOfLine(text, [Pad2(x)]);
    DecimalLength(x);
    FourDigitsBound(Pad2(x)[..4]);
  }

  lemma FourDigitsBound(t: string)
    requires |t| == 4 && IsDigit(t[0])
    ensures Atoi(t) < 10000
  {
    DigitRunBound(t, 0);
  }

  /** No digit is marked in the display line of a negative number: its sign follows the blank. */
  lemma NegativeHasNoMark(text: string, x: int, k: nat, c: char)
    requires Quiet(text) && x < 0 && IsDigit(c)
    ensures !Mark(SetDisplay(text, x), k, c)
  {
    var front := PREFIX + text;
    var h := |front| + Gap(text);
    NegativeLine(text, x);
    assert !IsDigit('-') && !IsDigit(' ');
    assert k + 2 <= |front| ==> (Mark(SetDisplay(text, x), k, c) <==> Mark(front, k, c));
  }

  lemma NegativeLine(text: string, x: int)
    requires x < 0
    ensures var s := SetDisplay(text, x); var front := PREFIX + text; var h := |front| + Gap(text);
            && |s| > h && s[h] == '-'
            && (forall i | 0 <= i < |front| :: s[i] == front[i])
            && (forall i | |front| <= i < h :: s[i] == ' ')
            && (forall i | h < i < |s| :: IsDigit(s[i]))
  {
    var tail := "-" + Decimal(-x);
    assert SetDisplay(text, x) == PREFIX + text + Repeat(' ', Gap(text)) + tail;
    assert forall i | 1 <= i < |tail| :: tail[i] == Decimal(-x)[i - 1];
  }

  /** A negative number is never found. What is read instead is zero. */
  lemma NegativeReading(text: string, x: int)
    requires Quiet(text) && x < 0
    ensures GetIntValue(SetDisplay(text, x)) == 0
  {
    var s := SetDisplay(text, x);
    forall k: nat, c: char | IsDigit(c) ensures !Mark(s, k, c) {
      NegativeHasNoMark(text, x, k, c);
    }
    SearchSkips(s, 0);
    match Search(s, 0)
    case Some(pos) =>
      // only the string " :" is left to match, and ':' starts no number
      CutStarts(s, pos);
      ColonIsZero(GetValue(s));
    case None =>
      NegativeLine(text, x);
      FirstBlank(s);
      BlanksAreZero();
  }

  lemma CutStarts(s: string, pos: nat)
    requires pos + 1 < |s|
    ensures var v := Cut(s, Some(pos)); v != "" ==> v[0] == s[pos + 1]
  {
  }

  lemma ColonIsZero(v: string)
    requires v != "" ==> v[0] == ':'
    ensures Atoi(v) == 0
  {
  }

  lemma BlanksAreZero()
    ensures Atoi("\r\n ") == 0
  {
    assert "\r\n "[1..] == "\n " && "\n "[1..] == " " && " "[1..] == "";
  }

  lemma FirstBlank(s: string)
    requires |s| > 3 && s[0] == '\r' && s[1] == '\n' && s[2] == ' '
    ensures Cut(s, None) == "\r\n "
  {
    assert s[0..1] == "\r" && s[1..2] == "\n" && s[2..3] == " ";
    assert "\r"[0] != " "[0] && "\n"[0] != " "[0];
    FindIs(s, " ", 0, 2);
  }

  lemma {:induction false} SearchSkips(s: string, i: nat)
    requires i <= 10
    requires forall k: nat, c: char | IsDigit(c) :: !Mark(s, k, c)
    ensures Search(s, i).Some? ==> s[Search(s, i).value + 1] == ':'
    decreases 10 - i
  {
    var pos := Find(s, LookFor(i), 0);
    if pos.Some? {
      var p := pos.value;
      assert s[p..p + 2][1] == s[p + 1];
      assert i < 10 ==> Mark(s, p, DigitChar(i));
    } else if i < 10 {
      SearchSkips(s, i + 1);
    }
  }

  /** The display round trip: behind any quiet text a number is read back exactly when it has at most four
      digits and no sign. */
  lemma DisplayRoundTrip(text: string, x: int)
    requires Quiet(text)
    ensures GetIntValue(SetDisplay(text, x)) == x <==> 0 <= x <= 9999
  {
    if x < 0 {
      NegativeReading(text, x);
    } else if x > 9999 {
      TruncatedReading(text, x);
    } else {
      SetDisplayIsLine(text, x);
      assert [Pad2(x)] == Padded([x]);
      IntReadingIsShown(text, [x]);
    }
  }

  /** On a text without a blank in front of a digit the search goes on to a blank in front of a colon. */
  lemma ColonIsFound(s: string, p: nat)
    requires p + 2 <= |s| && s[p] == ' ' && s[p + 1] == ':'
    requires forall k: nat | k < p :: !Mark(s, k, ':')
    requires forall k: nat, c: char | IsDigit(c) :: !Mark(s, k, c)
    ensures Search(s, 0) == Some(p)
  {
    SearchGoesOn(s, 0, p);
  }

  lemma {:induction false} SearchGoesOn(s: string, i: nat, p: nat)
    requires i <= 10 && p + 2 <= |s| && s[p] == ' ' && s[p + 1] == ':'
    requires forall k: nat | k < p :: !Mark(s, k, ':')
    requires forall k: nat, c: char | IsDigit(c) :: !Mark(s, k, c)
    ensures Search(s, i) == Some(p)
    decreases 10 - i
  {
    if i == 10 {
      assert LookFor(10) == " :";
      forall k: nat | k < p ensures !OccursAt(s, " :", k) {
        assert k + 2 <= |s| ==> s[k..k + 2] == [s[k], s[k + 1]];
        assert !Mark(s, k, ':');
      }
      assert s[p..p + 2] == " :";
      FindIs(s, LookFor(10), 0, p);
    } else {
      var pos := Find(s, LookFor(i), 0);
      if pos.Some? {
        MarkIsOccurrence(s, pos.value, i);
        assert false;
      }
      SearchGoesOn(s, i + 1, p);
    }
  }
}
