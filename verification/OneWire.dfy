/** The sensor id of a one-wire temperature reading (devices/onewire.cc). */
module OneWire {
  import opened Text

  const ID_DIGITS: nat := 12
  const WORD: nat := 0x1_0000_0000_0000_0000

  predicate IsHex(c: char) {
    IsDigit(c) || 'a' <= c <= 'f' || 'A' <= c <= 'F'
  }

  predicate AllHex(s: string) {
    forall i | 0 <= i < |s| :: IsHex(s[i])
  }

  function HexValue(c: char): (v: nat)
    requires IsHex(c)
    ensures v < 16
  {
    if IsDigit(c) then c as int - '0' as int
    else if 'a' <= c then c as int - 'a' as int + 10
    else c as int - 'A' as int + 10
  }

  function HexDigit(v: nat): (c: char)
    requires v < 16
    ensures IsHex(c) && HexValue(c) == v
  {
    if v < 10 then '0' + v as char else 'a' + (v - 10) as char
  }

  /** Value of a text of hexadecimal digits. */
  function Parse(s: string): nat
    requires AllHex(s)
  {
    if s == "" then 0 else 16 * Parse(s[..|s| - 1]) + HexValue(s[|s| - 1])
  }

  /** The hexadecimal digits at the start of a text. */
  function HexRun(s: string): (r: string)
    ensures AllHex(r) && r <= s
  {
    if s == "" || !IsHex(s[0]) then "" else [s[0]] + HexRun(s[1..])
  }

  /** An optional 0x, then digits; None when there are no digits. */
  function Magnitude(s: string): Option<nat> {
    if |s| >= 3 && s[0] == '0' && (s[1] == 'x' || s[1] == 'X') && IsHex(s[2]) then
      Some(Parse(HexRun(s[2..])))
    else if HexRun(s) == "" then None
    else Some(Parse(HexRun(s)))
  }

  /** std::stoll in base 16; None when it throws, without digits or outside 64 bits. */
  function Stoll(s: string): Option<int> {
    if s != "" && IsSpace(s[0]) then Stoll(s[1..])
    else
      var negative := s != "" && s[0] == '-';
      var m := Magnitude(if negative || (s != "" && s[0] == '+') then s[1..] else s);
      if m.None? || m.value > (if negative then WORD / 2 else WORD / 2 - 1) then None
      else Some(if negative then 0 - m.value else m.value)
  }

  lemma {:induction false} HexRunOfHex(s: string)
    requires AllHex(s)
    ensures HexRun(s) == s
  {
    if s != "" {
      HexRunOfHex(s[1..]);
    }
  }

  lemma MagnitudeOfHex(s: string)
    requires AllHex(s)
    ensures Magnitude(s) == if s == "" then None else Some(Parse(s))
  {
    HexRunOfHex(s);
    assert |s| > 1 ==> IsHex(s[1]);
  }

  lemma StollOfHex(s: string)
    requires AllHex(s)
    ensures Stoll(s) == if s == "" || Parse(s) >= WORD / 2 then None else Some(Parse(s))
  {
    HexRunOfHex(s);
    MagnitudeOfHex(s);
    assert s != "" ==> IsHex(s[0]) && !IsSpace(s[0]) && s[0] != '-' && s[0] != '+';
  }

  /** Number printed under std::hex. */
  function Hex(v: nat): string {
    if v < 16 then [HexDigit(v)] else Hex(v / 16) + [HexDigit(v % 16)]
  }

  /** std::setw with fill character '0'. */
  function Padded(s: string, width: nat): string {
    if |s| >= width then s else Repeat('0', width - |s|) + s
  }

  function Pow256(n: nat): (p: nat)
    ensures p > 0
  {
    if n == 0 then 1 else 256 * Pow256(n - 1)
  }

  /** boost::endian::endian_reverse of a word of n bytes: the lowest byte becomes the highest. */
  function EndianReverse(v: nat, n: nat): nat
    decreases n
  {
    if n == 0 then 0 else (v % 256) * Pow256(n - 1) + EndianReverse(v / 256, n - 1)
  }

  /** The id stored in a reading; None when std::stoll throws. */
  function TemperatureId(id: string): Option<string> {
    match Stoll(id)
    case None => None
    case Some(idnum) =>
      var shifted := (idnum * 0x1_0000) % WORD;
      Some(ToUpper(Padded(Hex(EndianReverse(shifted, 8)), ID_DIGITS)))
  }

  /** The same pairs of digits, last pair first. */
  function PairsReversed(s: string): (r: string)
    ensures |r| == |s|
  {
    if |s| < 2 then s
    else s[|s| - 2..] + PairsReversed(s[..|s| - 2])
  }

  // ----- parsing and printing ----------------------------------------------------------------

  lemma {:induction false} ParsePair(s: string)
    requires AllHex(s) && |s| >= 2
    ensures var n := |s| - 2;
      Parse(s) == 256 * Parse(s[..n]) + Parse(s[n..]) && Parse(s[n..]) < 256
  {
    var n := |s| - 2;
    var t := s[..n + 1];
    assert t[..n] == s[..n];
    var p := s[n..];
    assert p[..1][..0] == "" && p[..1][0] == s[n] && p[1] == s[n + 1];
    assert Parse(p[..1]) == HexValue(s[n]);
  }

  lemma Scale(a: nat, b: nat, p: nat)
    ensures 256 * (a * p + b) == a * (256 * p) + 256 * b
  {
  }

  lemma {:induction false} ParseAppend(s: string, t: string, n: nat)
    requires AllHex(s) && AllHex(t) && |t| == 2 * n
    ensures AllHex(s + t) && Parse(s + t) == Parse(s) * Pow256(n) + Parse(t)
    decreases n
  {
    if n == 0 {
      assert s + t == s;
    } else {
      var t0, t1 := t[..|t| - 2], t[|t| - 2..];
      var u := s + t;
      ParseAppend(s, t0, n - 1);
      assert u[..|u| - 2] == s + t0 && u[|u| - 2..] == t1;
      ParsePair(u);
      ParsePair(t);
      Scale(Parse(s), Parse(t0), Pow256(n - 1));
    }
  }

  lemma SplitByte(v: nat, high: nat, low: nat)
    requires v == 256 * high + low && low < 256
    ensures v % 256 == low && v / 256 == high
  {
  }

  lemma {:induction false} PairsAreHex(s: string)
    requires AllHex(s)
    ensures AllHex(PairsReversed(s))
  {
    if |s| >= 2 {
      PairsAreHex(s[..|s| - 2]);
    }
  }

  /** Reversing the bytes of a number reverses the pairs of its digits. */
  lemma {:induction false} ReverseIsPairsReversed(s: string, n: nat)
    requires AllHex(s) && |s| == 2 * n
    ensures AllHex(PairsReversed(s)) && EndianReverse(Parse(s), n) == Parse(PairsReversed(s))
    decreases n
  {
    PairsAreHex(s);
    if n > 0 {
      var s0, s1 := s[..|s| - 2], s[|s| - 2..];
      ParsePair(s);
      SplitByte(Parse(s), Parse(s0), Parse(s1));
      ReverseIsPairsReversed(s0, n - 1);
      ParseAppend(s1, PairsReversed(s0), n - 1);
    }
  }

  lemma UpperOfPrinted(c: char)
    requires IsHex(c)
    ensures Upper(HexDigit(HexValue(c))) == Upper(c)
  {
  }

  lemma UpperAppend(s: string, c: char)
    ensures ToUpper(s + [c]) == ToUpper(s) + [Upper(c)]
  {
  }

  lemma ToUpperLast(s: string)
    requires s != ""
    ensures ToUpper(s) == ToUpper(s[..|s| - 1]) + [Upper(s[|s| - 1])]
  {
  }

  lemma ZerosAppend(n: nat, s: string)
    requires |s| <= n
    ensures Padded(s, n) == Repeat('0', n - |s|) + s
  {
    if |s| == n {
      assert Repeat('0', 0) + s == s;
    }
  }

  /** Padding commutes with printing one more digit. */
  lemma PaddedStep(v: nat, d: nat, n: nat)
    requires d < 16 && 1 <= n && |Hex(v)| <= n
    ensures |Hex(16 * v + d)| <= n + 1
    ensures Padded(Hex(16 * v + d), n + 1) == Padded(Hex(v), n) + [HexDigit(d)]
  {
    var w := 16 * v + d;
    assert w / 16 == v && w % 16 == d;
    ZerosAppend(n, Hex(v));
    ZerosAppend(n + 1, Hex(w));
    if v == 0 {
      assert Repeat('0', n - 1) + ['0'] == Repeat('0', n);
    } else {
      assert Hex(w) == Hex(v) + [HexDigit(d)];
      var zeros := Repeat('0', n - |Hex(v)|);
      assert zeros + (Hex(v) + [HexDigit(d)]) == zeros + Hex(v) + [HexDigit(d)];
    }
  }

  lemma PrintOne(s: string)
    requires AllHex(s) && |s| == 1
    ensures |Hex(Parse(s))| == 1 && ToUpper(Padded(Hex(Parse(s)), 1)) == ToUpper(s)
  {
    UpperOfPrinted(s[0]);
    assert Padded(Hex(Parse(s)), 1) == [HexDigit(HexValue(s[0]))];
  }

  /** Printing a parsed number at the width of its text gives the text back in upper case. */
  lemma {:induction false} PrintParsed(s: string)
    requires AllHex(s) && s != ""
    ensures |Hex(Parse(s))| <= |s|
    ensures ToUpper(Padded(Hex(Parse(s)), |s|)) == ToUpper(s)
  {
    var n := |s| - 1;
    var s0, c := s[..n], s[n];
    ToUpperLast(s);
    UpperOfPrinted(c);
    if n == 0 {
      PrintOne(s);
    } else {
      PrintParsed(s0);
      PaddedStep(Parse(s0), HexValue(c), n);
      UpperAppend(Padded(Hex(Parse(s0)), n), HexDigit(HexValue(c)));
    }
  }

  // ----- the id ------------------------------------------------------------------------------

  lemma ShiftThenReverse(v: nat)
    ensures EndianReverse((v * 0x1_0000) % WORD, 8) == EndianReverse(v % 0x1_0000_0000_0000, 6)
  {
    var w := v % 0x1_0000_0000_0000;
    var x := (v * 0x1_0000) % WORD;
    assert x == w * 0x1_0000;
    ReverseLowZero(w * 256, 8);
    ReverseLowZero(w, 7);
    assert x == (w * 256) * 256;
  }

  lemma ReverseLowZero(v: nat, n: nat)
    requires n > 0
    ensures EndianReverse(v * 256, n) == EndianReverse(v, n - 1)
  {
    assert (v * 256) % 256 == 0 && (v * 256) / 256 == v;
  }

  /** The twelve low digits of an id, zeros standing in for digits it does not have. */
  function LowDigits(id: string): (s: string)
    requires AllHex(id)
    ensures |s| == ID_DIGITS && AllHex(s)
  {
    var s := Repeat('0', ID_DIGITS) + id;
    s[|s| - ID_DIGITS..]
  }

  lemma {:induction false} ParseZeros(n: nat, s: string)
    requires AllHex(s)
    ensures AllHex(Repeat('0', n) + s) && Parse(Repeat('0', n) + s) == Parse(s)
    decreases n + |s|
  {
    var t := Repeat('0', n) + s;
    if s != "" {
      assert t[..|t| - 1] == Repeat('0', n) + s[..|s| - 1];
      ParseZeros(n, s[..|s| - 1]);
    } else if n > 0 {
      assert t[..|t| - 1] == Repeat('0', n - 1) + s;
      ParseZeros(n - 1, s);
    }
  }

  lemma {:induction false} ParseBound(s: string, n: nat)
    requires AllHex(s) && |s| == 2 * n
    ensures Parse(s) < Pow256(n)
    decreases n
  {
    if n > 0 {
      ParsePair(s);
      ParseBound(s[..|s| - 2], n - 1);
    }
  }

  lemma LowDigitsAreLow(id: string)
    requires AllHex(id)
    ensures Parse(LowDigits(id)) == Parse(id) % 0x1_0000_0000_0000
  {
    var s := Repeat('0', ID_DIGITS) + id;
    ParseZeros(ID_DIGITS, id);
    var high, low := s[..|s| - ID_DIGITS], LowDigits(id);
    assert s == high + low;
    ParseAppend(high, low, 6);
    ParseBound(low, 6);
    LowPart(Parse(high), Parse(low));
  }

  lemma LowPart(high: nat, low: nat)
    requires low < Pow256(6)
    ensures (high * Pow256(6) + low) % 0x1_0000_0000_0000 == low
  {
    assert Pow256(6) == 0x1_0000_0000_0000;
  }

  /** For every hexadecimal id: the twelve low digits, byte pairs reversed, in upper case. */
  lemma IdIsReversed(id: string)
    requires AllHex(id)
    ensures TemperatureId(id) ==
      if id == "" || Parse(id) >= WORD / 2 then None else Some(ToUpper(PairsReversed(LowDigits(id))))
  {
    StollOfHex(id);
    if id != "" && Parse(id) < WORD / 2 {
      var low := LowDigits(id);
      ShiftThenReverse(Parse(id));
      LowDigitsAreLow(id);
      ReverseIsPairsReversed(low, 6);
      PrintParsed(PairsReversed(low));
    }
  }

  lemma {:induction false} PairsAppend(s: string, t: string)
    requires |s| % 2 == 0 && |t| % 2 == 0
    ensures PairsReversed(s + t) == PairsReversed(t) + PairsReversed(s)
    decreases |t|
  {
    var u := s + t;
    if |t| == 0 {
      assert u == s;
    } else {
      var t0, pair := t[..|t| - 2], t[|t| - 2..];
      assert t == t0 + pair;
      Regroup(s, t0, pair);
      LastPair(s + t0, pair);
      LastPair(t0, pair);
      PairsAppend(s, t0);
      Regroup(pair, PairsReversed(t0), PairsReversed(s));
    }
  }

  lemma {:induction false} PairsTwice(s: string)
    requires |s| % 2 == 0
    ensures PairsReversed(PairsReversed(s)) == s
  {
    if |s| > 0 {
      var s0, s1 := s[..|s| - 2], s[|s| - 2..];
      PairsAppend(s1, PairsReversed(s0));
      PairsTwice(s0);
      assert s == s0 + s1;
      assert PairsReversed(s1) == s1 + PairsReversed(s1[..0]);
    }
  }

  lemma LastPair(s: string, pair: string)
    requires |pair| == 2
    ensures PairsReversed(s + pair) == pair + PairsReversed(s)
  {
    var t := s + pair;
    assert t[..|t| - 2] == s && t[|t| - 2..] == pair;
  }

  lemma UpperConcat(s: string, t: string)
    ensures ToUpper(s + t) == ToUpper(s) + ToUpper(t)
  {
  }

  lemma {:induction false} UpperOfPairs(s: string)
    ensures PairsReversed(ToUpper(s)) == ToUpper(PairsReversed(s))
  {
    if |s| >= 2 {
      var s0, s1 := s[..|s| - 2], s[|s| - 2..];
      UpperOfPairs(s0);
      assert s == s0 + s1;
      UpperConcat(s0, s1);
      LastPair(ToUpper(s0), ToUpper(s1));
      UpperConcat(s1, PairsReversed(s0));
    }
  }

  lemma TwelveDigitsFit(id: string)
    requires AllHex(id) && |id| == ID_DIGITS
    ensures Parse(id) < WORD / 2 && LowDigits(id) == id
  {
    ParseBound(id, 6);
    assert Pow256(6) == 0x1_0000_0000_0000;
  }

  lemma UpperIsHex(s: string)
    requires AllHex(s)
    ensures AllHex(ToUpper(s)) && ToUpper(ToUpper(s)) == ToUpper(s)
  {
  }

  /** A twelve-digit id converts to twelve digits, and converting twice gives it back in upper case. */
  lemma IdTwice(id: string)
    requires AllHex(id) && |id| == ID_DIGITS
    ensures var once := TemperatureId(id);
      && once == Some(ToUpper(PairsReversed(id)))
      && AllHex(once.value) && |once.value| == ID_DIGITS
      && TemperatureId(once.value) == Some(ToUpper(id))
  {
    TwelveDigitsFit(id);
    IdIsReversed(id);
    PairsAreHex(id);
    UpperIsHex(PairsReversed(id));
    var once := ToUpper(PairsReversed(id));
    TwelveDigitsFit(once);
    IdIsReversed(once);
    UpperOfPairs(PairsReversed(id));
    PairsTwice(id);
    UpperIsHex(id);
  }

  /** Two ids are given the same stored id exactly when their twelve low digits are the same number. */
  lemma SameIdExactly(a: string, b: string)
    requires AllHex(a) && AllHex(b) && TemperatureId(a).Some? && TemperatureId(b).Some?
    ensures TemperatureId(a) == TemperatureId(b) <==>
      Parse(a) % 0x1_0000_0000_0000 == Parse(b) % 0x1_0000_0000_0000
  {
    IdIsReversed(a);
    IdIsReversed(b);
    LowDigitsAreLow(a);
    LowDigitsAreLow(b);
    StoredIsInjective(LowDigits(a), LowDigits(b));
  }

  lemma StoredIsInjective(x: string, y: string)
    requires AllHex(x) && AllHex(y) && |x| == |y| == ID_DIGITS
    ensures ToUpper(PairsReversed(x)) == ToUpper(PairsReversed(y)) <==> Parse(x) == Parse(y)
  {
    UpperOfPairs(x);
    UpperOfPairs(y);
    PairsTwice(ToUpper(x));
    PairsTwice(ToUpper(y));
    UpperIsParsed(x, y);
  }

  lemma UpperIsParsed(x: string, y: string)
    requires AllHex(x) && AllHex(y) && |x| == |y| > 0
    ensures ToUpper(x) == ToUpper(y) <==> Parse(x) == Parse(y)
  {
    PrintParsed(x);
    PrintParsed(y);
    UpperParses(x);
    UpperParses(y);
  }

  lemma {:induction false} UpperParses(s: string)
    requires AllHex(s)
    ensures AllHex(ToUpper(s)) && Parse(ToUpper(s)) == Parse(s)
  {
    if s != "" {
      UpperParses(s[..|s| - 1]);
      assert ToUpper(s)[..|s| - 1] == ToUpper(s[..|s| - 1]);
    }
  }
}
