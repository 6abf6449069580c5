/** The packet check of the Outback driver (devices/outbackpower.cc). */
module Checksum {
  import opened Text

  // A packet is '*', an address, then comma-separated digit fields; the last field is the checksum.
  const FIELD: nat := 45
  const FIELD_END: nat := 48

  /** What one character adds to the sum; a byte above 127 is a negative char. */
  function Weight(c: char): int {
    if c == ',' || c == '*' then 0
    else
      var byte := c as int % 256;
      (if byte < 128 then byte else byte - 256) - '0' as int
  }

  /** What the characters of a packet weigh: separators nothing, digits their value, the addresses A to K 17 to 27; a byte
      above 127 weighs less than nothing. */
  lemma WeightIs(c: char)
    ensures Weight(',') == 0 && Weight('*') == 0
    ensures forall d | 0 <= d < 10 :: Weight("0123456789"[d]) == d
    ensures forall a | 0 <= a < 11 :: Weight("ABCDEFGHIJK"[a]) == 17 + a
    ensures 128 <= c as int < 256 ==> Weight(c) == c as int - 304
  {
  }

  function Sum(s: string): int {
    if s == "" then 0 else Sum(s[..|s| - 1]) + Weight(s[|s| - 1])
  }

  function WithoutZeros(s: string): (r: string)
    ensures |r| <= |s| && '0' !in r
  {
    if s == "" then ""
    else
      var last := s[|s| - 1];
      WithoutZeros(s[..|s| - 1]) + if last == '0' then "" else [last]
  }

  // ----- strtol with base 0 ------------------------------------------------------------------

  function DigitValue(c: char): nat {
    if IsDigit(c) then c as int - '0' as int
    else if 'a' <= c <= 'z' then c as int - 'a' as int + 10
    else if 'A' <= c <= 'Z' then c as int - 'A' as int + 10
    else 36
  }

  function BaseRun(s: string, base: nat, acc: nat): nat {
    if s == "" || DigitValue(s[0]) >= base then acc
    else BaseRun(s[1..], base, base * acc + DigitValue(s[0]))
  }

  /** The prefix chooses the base: 0x is hexadecimal, 0 is octal, anything else decimal. */
  function Magnitude(s: string): nat {
    if |s| >= 3 && s[0] == '0' && (s[1] == 'x' || s[1] == 'X') && DigitValue(s[2]) < 16 then
      BaseRun(s[2..], 16, 0)
    else if s != "" && s[0] == '0' then BaseRun(s, 8, 0)
    else BaseRun(s, 10, 0)
  }

  function StrtolAnyBase(s: string): int {
    if s == "" then 0
    else if IsSpace(s[0]) then StrtolAnyBase(s[1..])
    else if s[0] == '-' then 0 - Magnitude(s[1..])
    else if s[0] == '+' then Magnitude(s[1..])
    else Magnitude(s)
  }

  lemma {:induction false} BaseTenIsDecimal(s: string, acc: nat)
    ensures BaseRun(s, 10, acc) == DigitRun(s, acc)
    decreases |s|
  {
    if s != "" && IsDigit(s[0]) {
      BaseTenIsDecimal(s[1..], 10 * acc + DigitValue(s[0]));
    }
  }

  /** With no zero in the text the base is always ten, so the number read is the decimal one. */
  lemma {:induction false} NoZeroIsDecimal(s: string)
    requires '0' !in s
    ensures StrtolAnyBase(s) == Atoi(s)
  {
    if s != "" {
      if IsSpace(s[0]) {
        NoZeroIsDecimal(s[1..]);
      } else {
        BaseTenIsDecimal(s[1..], 0);
        BaseTenIsDecimal(s, 0);
        assert s[1..] != "" ==> s[1..][0] in s;
      }
    }
  }

  lemma {:induction false} DigitRunPadded(s: string, n: nat, acc: nat)
    ensures DigitRun(s + Repeat(NUL, n), acc) == DigitRun(s, acc)
    decreases |s|
  {
    var t := s + Repeat(NUL, n);
    if s == "" {
      assert t == Repeat(NUL, n);
    } else {
      assert t[1..] == s[1..] + Repeat(NUL, n);
      if IsDigit(s[0]) {
        DigitRunPadded(s[1..], n, 10 * acc + (s[0] as int - '0' as int));
      }
    }
  }

  lemma {:induction false} AtoiPadded(s: string, n: nat)
    ensures Atoi(s + Repeat(NUL, n)) == Atoi(s)
    decreases |s|
  {
    var t := s + Repeat(NUL, n);
    DigitRunPadded(s, n, 0);
    if s == "" {
      assert t == Repeat(NUL, n);
    } else {
      assert t[1..] == s[1..] + Repeat(NUL, n);
      DigitRunPadded(s[1..], n, 0);
      AtoiPadded(s[1..], n);
    }
  }

  // ----- the check ---------------------------------------------------------------------------

  predicate Accepts(packet: string)
    requires |packet| >= FIELD_END
  {
    Sum(packet[..FIELD]) == Atoi(WithoutZeros(packet[FIELD..FIELD_END]))
  }

  /** What the zero-terminated array of the kept characters reads as. */
  lemma FieldReads(chk: string, digits: string)
    requires '0' !in digits && digits <= chk
    requires forall i | |digits| <= i < |chk| :: chk[i] == NUL
    ensures StrtolAnyBase(chk) == Atoi(digits)
  {
    assert chk == digits + Repeat(NUL, |chk| - |digits|);
    NoZeroIsDecimal(chk);
    AtoiPadded(digits, |chk| - |digits|);
  }

  lemma NextInField(s: string, from: nat, i: nat)
    requires from <= i < |s|
    ensures WithoutZeros(s[from..i + 1]) == WithoutZeros(s[from..i]) + if s[i] == '0' then "" else [s[i]]
  {
    assert s[from..i + 1][..i - from] == s[from..i];
  }

  lemma NextInSum(s: string, i: nat)
    requires i < |s|
    ensures Sum(s[..i + 1]) == Sum(s[..i]) + Weight(s[i])
  {
    assert s[..i + 1][..i] == s[..i];
  }

  /** The digits of the checksum field and the number they read as. */
  method ChecksumField(packet: string) returns (field: int)
    requires |packet| >= FIELD_END
    ensures field == Atoi(WithoutZeros(packet[FIELD..FIELD_END]))
  {
    var chk := new char[4](_ => NUL);
    var index: nat := FIELD;
    var elem: nat := 0;
    while index < FIELD_END
      invariant FIELD <= index <= FIELD_END && elem <= index - FIELD
      invariant chk[..elem] == WithoutZeros(packet[FIELD..index])
      invariant forall i | elem <= i < 4 :: chk[i] == NUL
    {
      NextInField(packet, FIELD, index);
      if packet[index] != '0' {
        chk[elem] := packet[index];
        elem := elem + 1;
      }
      index := index + 1;
    }
    FieldReads(chk[..], WithoutZeros(packet[FIELD..FIELD_END]));
    field := StrtolAnyBase(chk[..]);
  }

  /** outback::calcChecksum: true is SUCCESS. */
  method CalcChecksum(packet: string) returns (ok: bool)
    requires |packet| >= FIELD_END
    ensures ok <==> Accepts(packet)
  {
    var field := ChecksumField(packet);
    var checksum := 0;
    var ptr: nat := 0;
    while ptr < FIELD
      invariant ptr <= FIELD && checksum == Sum(packet[..ptr])
    {
      NextInSum(packet, ptr);
      if packet[ptr] != ',' && packet[ptr] != '*' {
        checksum := checksum + Weight(packet[ptr]);
      }
      ptr := ptr + 1;
    }
    ok := checksum == field;
  }

  // ----- the sum -----------------------------------------------------------------------------

  /** Widths of the fields between address and checksum, as the packet structures declare them. */
  const WIDTHS: seq<nat> := [2, 2, 2, 3, 3, 2, 2, 3, 2, 3, 3, 3]

  function Total(fields: nat): nat
    requires fields <= |WIDTHS|
  {
    if fields == 0 then 0 else Total(fields - 1) + WIDTHS[fields - 1]
  }

  /** The largest packet body with that many fields. */
  function Largest(fields: nat): (s: string)
    requires fields <= |WIDTHS|
    ensures |s| == 3 + Total(fields) + fields
    ensures forall i | 0 <= i < |s| :: IsSlot(s[i])
  {
    if fields == 0 then ['*', 'K', ',']
    else Largest(fields - 1) + (Repeat('9', WIDTHS[fields - 1]) + [','])
  }

  lemma TotalOfAll()
    ensures |WIDTHS| == 12 && Total(12) == 30
  {
    assert Total(3) == 6 && Total(6) == 14 && Total(9) == 21;
  }

  function LargestBody(): (s: string)
    ensures |s| == FIELD
    ensures forall i | 0 <= i < |s| :: IsSlot(s[i])
  {
    TotalOfAll();
    Largest(|WIDTHS|)
  }

  predicate IsSlot(c: char) { c == '*' || c == ',' || c == 'K' || c == '9' }

  predicate Fits(c: char, slot: char) {
    if slot == '9' then IsDigit(c)
    else if slot == 'K' then IsDigit(c) || 'A' <= c <= 'K'
    else c == slot
  }

  /** Start, address, commas and digits stand where the packet structures put them. */
  predicate InLayout(packet: string) {
    && |packet| >= FIELD_END
    && (forall i | 0 <= i < FIELD :: Fits(packet[i], LargestBody()[i]))
    && forall i | FIELD <= i < FIELD_END :: IsDigit(packet[i])
  }

  lemma {:induction false} SumIsMonotone(s: string, t: string)
    requires |s| == |t|
    requires forall i | 0 <= i < |s| :: 0 <= Weight(s[i]) <= Weight(t[i])
    ensures 0 <= Sum(s) <= Sum(t)
  {
    if s != "" {
      SumIsMonotone(s[..|s| - 1], t[..|t| - 1]);
    }
  }

  /** The sum of a packet in the layout is at most 297, which is attained: three digits always hold it. */
  lemma SumFitsTheField(packet: string)
    requires InLayout(packet)
    ensures 0 <= Sum(packet[..FIELD]) <= 297
    ensures Sum(LargestBody()) == 297
  {
    var s, t := packet[..FIELD], LargestBody();
    forall i | 0 <= i < FIELD ensures 0 <= Weight(s[i]) <= Weight(t[i]) {
      SlotBoundsWeight(s[i], t[i]);
    }
    SumIsMonotone(s, t);
    LargestSum(|WIDTHS|);
    TotalOfAll();
  }

  lemma SlotBoundsWeight(c: char, slot: char)
    requires IsSlot(slot) && Fits(c, slot)
    ensures 0 <= Weight(c) <= Weight(slot)
  {
  }

  lemma {:induction false} SumConcat(s: string, t: string)
    ensures Sum(s + t) == Sum(s) + Sum(t)
    decreases |t|
  {
    if t == "" {
      assert s + t == s;
    } else {
      assert (s + t)[..|s + t| - 1] == s + t[..|t| - 1];
      SumConcat(s, t[..|t| - 1]);
    }
  }

  lemma {:induction false} SumOfNines(n: nat)
    ensures Sum(Repeat('9', n)) == 9 * n
  {
    if n > 0 {
      assert Repeat('9', n)[..n - 1] == Repeat('9', n - 1);
      SumOfNines(n - 1);
    }
  }

  lemma SumOfField(front: string, width: nat)
    ensures Sum(front + (Repeat('9', width) + [','])) == Sum(front) + 9 * width
  {
    SumOfNines(width);
    assert (Repeat('9', width) + [','])[..width] == Repeat('9', width);
    SumConcat(front, Repeat('9', width) + [',']);
  }

  lemma SumOfAddress()
    ensures Sum(['*', 'K', ',']) == 27
  {
    var s := ['*', 'K', ','];
    assert s[..2][..1] == s[..1] && s[..1][..0] == "";
    assert Sum(s[..1]) == 0 && Sum(s[..2]) == 27;
  }

  lemma {:induction false} LargestSum(fields: nat)
    requires fields <= |WIDTHS|
    ensures Sum(Largest(fields)) == 27 + 9 * Total(fields)
  {
    if fields == 0 {
      SumOfAddress();
    } else {
      LargestSum(fields - 1);
      SumOfField(Largest(fields - 1), WIDTHS[fields - 1]);
    }
  }

  /** Replacing one character moves the sum by the difference of the two weights. */
  lemma {:induction false} SubstitutionMovesSum(s: string, k: nat, c: char)
    requires k < |s|
    ensures Sum(s[k := c]) == Sum(s) - Weight(s[k]) + Weight(c)
  {
    var n := |s| - 1;
    if k == n {
      assert s[k := c][..n] == s[..n];
    } else {
      assert s[k := c][..n] == s[..n][k := c];
      SubstitutionMovesSum(s[..n], k, c);
    }
  }

  /** One replaced character of an accepted packet goes unnoticed exactly when it weighs the same. */
  lemma SubstitutionIsCaughtExactly(packet: string, k: nat, c: char)
    requires |packet| >= FIELD_END && k < FIELD && Accepts(packet)
    ensures Accepts(packet[k := c]) <==> Weight(c) == Weight(packet[k])
  {
    var changed := packet[k := c];
    assert changed[..FIELD] == packet[..FIELD][k := c];
    assert changed[FIELD..FIELD_END] == packet[FIELD..FIELD_END];
    SubstitutionMovesSum(packet[..FIELD], k, c);
  }

  predicate IsSummed(c: char) { c != ',' && c != '*' && c < 128 as char }

  /** So replacing a summed character by another summed character is always caught. */
  lemma SubstitutionIsCaught(packet: string, k: nat, c: char)
    requires |packet| >= FIELD_END && k < FIELD && Accepts(packet)
    requires IsSummed(packet[k]) && IsSummed(c) && c != packet[k]
    ensures !Accepts(packet[k := c])
  {
    SubstitutionIsCaughtExactly(packet, k, c);
    assert c as int % 256 == c as int && packet[k] as int % 256 == packet[k] as int;
  }

  /** Two exchanged characters are never noticed. */
  lemma ExchangeIsMissed(packet: string, j: nat, k: nat)
    requires |packet| >= FIELD_END && j < FIELD && k < FIELD
    ensures Accepts(packet[j := packet[k]][k := packet[j]]) <==> Accepts(packet)
  {
    var half := packet[j := packet[k]];
    var full := half[k := packet[j]];
    assert half[..FIELD] == packet[..FIELD][j := packet[k]];
    assert full[..FIELD] == half[..FIELD][k := packet[j]];
    assert full[FIELD..FIELD_END] == packet[FIELD..FIELD_END];
    SubstitutionMovesSum(packet[..FIELD], j, packet[k]);
    SubstitutionMovesSum(half[..FIELD], k, packet[j]);
  }

  // ----- which packets are accepted ----------------------------------------------------------

  /** Digits that do not start with zero are the decimal form of the number they read as. */
  lemma {:induction false} DecimalOfDigits(s: string)
    requires s != "" && s[0] != '0'
    requires forall i | 0 <= i < |s| :: IsDigit(s[i])
    ensures DigitRun(s, 0) > 0 && Decimal(DigitRun(s, 0)) == s
  {
    var n := |s| - 1;
    var d := s[n] as int - '0' as int;
    assert s == s[..n] + [DigitChar(d)] + "";
    DigitRunAppend(s[..n], d, "", 0);
    if n > 0 {
      DecimalOfDigits(s[..n]);
    }
  }

  lemma {:induction false} WithoutZerosOf(s: string)
    requires forall i | 0 <= i < |s| :: IsDigit(s[i])
    ensures forall i | 0 <= i < |WithoutZeros(s)| :: IsDigit(WithoutZeros(s)[i])
    ensures WithoutZeros(s) == s <==> '0' !in s
  {
    if s != "" {
      WithoutZerosOf(s[..|s| - 1]);
      assert s == s[..|s| - 1] + [s[|s| - 1]];
    }
  }

  /** A digit string without zeros reads as n exactly when it is the decimal form of n (empty for 0). */
  lemma ReadsAs(s: string, n: nat)
    requires '0' !in s && forall i | 0 <= i < |s| :: IsDigit(s[i])
    ensures Atoi(s) == n <==> s == if n == 0 then "" else Decimal(n)
  {
    if s != "" {
      assert s[0] in s;
      DecimalOfDigits(s);
    }
    if n > 0 {
      DigitRunDecimal(n, "");
      assert Decimal(n) + "" == Decimal(n);
    }
  }

  /** Exactly which checksum fields are accepted: the decimal form of the sum, zeros strewn in anywhere. */
  lemma AcceptedFieldsExactly(packet: string)
    requires InLayout(packet)
    ensures var sum := Sum(packet[..FIELD]);
      Accepts(packet) <==>
        sum >= 0 && WithoutZeros(packet[FIELD..FIELD_END]) == if sum == 0 then "" else Decimal(sum)
  {
    SumFitsTheField(packet);
    WithoutZerosOf(packet[FIELD..FIELD_END]);
    ReadsAs(WithoutZeros(packet[FIELD..FIELD_END]), Sum(packet[..FIELD]));
  }

  /** The decimal form in three digits. */
  function ThreeDigits(n: nat): string {
    var s := Decimal(n);
    if |s| >= 3 then s else Repeat('0', 3 - |s|) + s
  }

  lemma LastOf(s: string, t: string)
    requires t != ""
    ensures (s + t)[..|s + t| - 1] == s + t[..|t| - 1]
  {
  }

  lemma ShorterRepeat(n: nat)
    requires n > 0
    ensures Repeat('0', n)[..n - 1] == Repeat('0', n - 1)
  {
  }

  lemma {:induction false} WithoutZerosConcat(s: string, t: string)
    ensures WithoutZeros(s + t) == WithoutZeros(s) + WithoutZeros(t)
    decreases |t|
  {
    if t == "" {
      assert s + t == s;
    } else {
      LastOf(s, t);
      WithoutZerosConcat(s, t[..|t| - 1]);
    }
  }

  lemma {:induction false} ZerosVanish(n: nat)
    ensures WithoutZeros(Repeat('0', n)) == ""
  {
    if n > 0 {
      ShorterRepeat(n);
      ZerosVanish(n - 1);
    }
  }

  lemma ThreeDigitsWithoutZeros(n: nat)
    ensures WithoutZeros(ThreeDigits(n)) == (if n == 0 then "" else Decimal(n)) <==> n == 0 || '0' !in Decimal(n)
  {
    var s := Decimal(n);
    WithoutZerosOf(s);
    if |s| < 3 {
      ZerosVanish(3 - |s|);
      WithoutZerosConcat(Repeat('0', 3 - |s|), s);
    }
    if n == 0 {
      assert s[..0] == "";
    }
  }

  predicate CorrectlySummed(packet: string)
    requires InLayout(packet)
  {
    Sum(packet[..FIELD]) >= 0 && packet[FIELD..FIELD_END] == ThreeDigits(Sum(packet[..FIELD]))
  }

  /** A correctly summed packet is accepted exactly when its sum is 0 or has no zero digit. */
  lemma CorrectPacketsAcceptedExactly(packet: string)
    requires InLayout(packet) && CorrectlySummed(packet)
    ensures var sum := Sum(packet[..FIELD]);
      Accepts(packet) <==> sum == 0 || '0' !in Decimal(sum)
  {
    AcceptedFieldsExactly(packet);
    ThreeDigitsWithoutZeros(Sum(packet[..FIELD]));
  }

  /** A packet whose sum has a zero digit is refused whatever its checksum field says. */
  lemma ZeroDigitIsAlwaysRefused(packet: string)
    requires InLayout(packet) && Sum(packet[..FIELD]) > 0 && '0' in Decimal(Sum(packet[..FIELD]))
    ensures !Accepts(packet)
  {
    AcceptedFieldsExactly(packet);
  }

  predicate AllDigits(s: string) {
    forall i | 0 <= i < |s| :: IsDigit(s[i])
  }

  function WithoutLeadingZeros(s: string): (r: string)
    ensures |r| <= |s| && (r != "" ==> r[0] != '0')
    ensures AllDigits(s) ==> AllDigits(r)
  {
    if s != "" && s[0] == '0' then WithoutLeadingZeros(s[1..]) else s
  }

  lemma OneMoreZero(s: string, rest: string, n: nat)
    requires s != "" && s[0] == '0' && s[1..] == Repeat('0', n) + rest
    ensures s == Repeat('0', n + 1) + rest
  {
    assert forall i | 1 <= i < |s| :: s[i] == s[1..][i - 1];
  }

  lemma {:induction false} LeadingZerosAre(s: string)
    ensures s == Repeat('0', |s| - |WithoutLeadingZeros(s)|) + WithoutLeadingZeros(s)
  {
    if s != "" && s[0] == '0' {
      LeadingZerosAre(s[1..]);
      OneMoreZero(s, WithoutLeadingZeros(s), |s| - 1 - |WithoutLeadingZeros(s)|);
    } else {
      assert Repeat('0', 0) + s == s;
    }
  }

  /** Digits that do not start with zero read as n exactly when they are its decimal form (empty for 0). */
  lemma LeadlessReadsAs(s: string, n: nat)
    requires (s != "" ==> s[0] != '0') && AllDigits(s)
    ensures StrtolAnyBase(s) == n <==> s == if n == 0 then "" else Decimal(n)
  {
    if s != "" {
      DecimalOfDigits(s);
      BaseTenIsDecimal(s, 0);
    }
    if n > 0 {
      DigitRunDecimal(n, "");
      assert Decimal(n) + "" == Decimal(n);
    }
  }

  /** A number in three digits, split into its leading zeros and the rest. */
  lemma ThreeDigitsSplit(n: nat)
    requires n <= 999
    ensures var s := if n == 0 then "" else Decimal(n);
      |s| <= 3 && (s != "" ==> s[0] != '0') && ThreeDigits(n) == Repeat('0', 3 - |s|) + s
  {
    DecimalLength(n);
    if n == 0 {
      assert Repeat('0', 2) + "0" == Repeat('0', 3) + "";
    } else {
      DecimalStartsNonZero(n);
      assert Repeat('0', 0) + Decimal(n) == Decimal(n);
    }
  }

  lemma ThreeDigitsIs(f: string, n: nat)
    requires |f| == 3 && n <= 999
    ensures f == ThreeDigits(n) <==> WithoutLeadingZeros(f) == if n == 0 then "" else Decimal(n)
  {
    var s := if n == 0 then "" else Decimal(n);
    ThreeDigitsSplit(n);
    LeadingZerosAre(f);
    LeadingZerosDrop(3 - |s|, s);
  }

  lemma {:induction false} LeadingZerosDrop(n: nat, s: string)
    requires s != "" ==> s[0] != '0'
    ensures WithoutLeadingZeros(Repeat('0', n) + s) == s
  {
    if n > 0 {
      assert (Repeat('0', n) + s)[1..] == Repeat('0', n - 1) + s;
      LeadingZerosDrop(n - 1, s);
    } else {
      assert Repeat('0', n) + s == s;
    }
  }

  lemma {:induction false} DecimalStartsNonZero(n: nat)
    requires n > 0
    ensures Decimal(n)[0] != '0'
  {
    if n >= 10 {
      DecimalStartsNonZero(n / 10);
    }
  }

  /** Dropping leading zeros only, as the comment in the source describes, accepts exactly the correct packets. */
  lemma StrippingLeadingZerosIsExact(packet: string)
    requires InLayout(packet)
    ensures Sum(packet[..FIELD]) == StrtolAnyBase(WithoutLeadingZeros(packet[FIELD..FIELD_END]))
      <==> CorrectlySummed(packet)
  {
    SumFitsTheField(packet);
    var f := packet[FIELD..FIELD_END];
    assert AllDigits(f);
    LeadlessReadsAs(WithoutLeadingZeros(f), Sum(packet[..FIELD]));
    ThreeDigitsIs(f, Sum(packet[..FIELD]));
  }
}
