/** String operations of the C++ and PHP libraries that the modelled code calls. */
module Text {
  datatype Option<+T> = None | Some(value: T)

  const CR := '\r'
  const LF := '\n'
  const NUL := '\0'

  predicate OccursAt(s: string, p: string, k: nat) {
    k + |p| <= |s| && s[k..k + |p|] == p
  }

  predicate Contains(s: string, p: string) {
    exists k | 0 <= k <= |s| :: OccursAt(s, p, k)
  }

  /** std::string::find: the first occurrence of `p` at or after `from`. */
  function Find(s: string, p: string, from: nat): (r: Option<nat>)
    ensures r.Some? ==> from <= r.value && OccursAt(s, p, r.value)
    ensures r.Some? ==> forall k: nat | from <= k < r.value :: !OccursAt(s, p, k)
    ensures r.None? ==> forall k: nat | from <= k :: !OccursAt(s, p, k)
    decreases |s| - from
  {
    if from + |p| > |s| then None
    else if s[from..from + |p|] == p then Some(from)
    else Find(s, p, from + 1)
  }

  lemma Regroup(a: string, b: string, c: string)
    ensures a + b + c == a + (b + c)
  {
  }

  lemma SliceOfSlice(s: string, from: nat, until: nat, a: nat, b: nat)
    requires from <= until <= |s| && a <= b <= until - from
    ensures s[from..until][a..b] == s[from + a..from + b]
  {
    var part := s[from..until];
    assert forall i | 0 <= i < b - a :: part[a..b][i] == part[a + i] == s[from + (a + i)] == s[from + a..from + b][i];
  }

  /** Every character of a substring is a character of the string. */
  lemma ContainsCharacters(s: string, p: string, c: char)
    requires Contains(s, p) && c in p
    ensures c in s
  {
    var k: nat :| k <= |s| && OccursAt(s, p, k);
    var i: nat :| i < |p| && p[i] == c;
    assert s[k..k + |p|][i] == s[k + i];
  }

  /** The first occurrence is unique: any index with an occurrence and none before is what Find returns. */
  lemma FindIs(s: string, p: string, from: nat, k: nat)
    requires from <= k && OccursAt(s, p, k)
    requires forall j: nat | from <= j < k :: !OccursAt(s, p, j)
    ensures Find(s, p, from) == Some(k)
  {
    var r := Find(s, p, from);
    assert r.Some?;
    assert !(r.value < k) && !(k < r.value);
  }

  /** std::string::substr: throws std::out_of_range (None) when `pos` is past the end. */
  function Substr(s: string, pos: nat, n: nat): Option<string> {
    if pos > |s| then None
    else if pos + n <= |s| then Some(s[pos..pos + n])
    else Some(s[pos..])
  }

  function Repeat(c: char, n: nat): (s: string)
    ensures |s| == n && forall i | 0 <= i < n :: s[i] == c
  {
    seq(n, _ => c)
  }

  predicate IsDigit(c: char) { '0' <= c <= '9' }

  function DigitChar(d: nat): (c: char)
    requires d < 10
    ensures IsDigit(c) && c as int - '0' as int == d
  {
    '0' + d as char
  }

  /** Decimal form of a non-negative number, without leading zeros. */
  function Decimal(n: nat): (s: string)
    ensures |s| > 0 && forall i | 0 <= i < |s| :: IsDigit(s[i])
  {
    if n < 10 then [DigitChar(n)] else Decimal(n / 10) + [DigitChar(n % 10)]
  }

  /** Value of the leading run of digits of `s`, continuing from `acc`. */
  function DigitRun(s: string, acc: nat): nat
    decreases |s|
  {
    if s == "" || !IsDigit(s[0]) then acc
    else DigitRun(s[1..], 10 * acc + (s[0] as int - '0' as int))
  }

  predicate IsSpace(c: char) {
    c == ' ' || '\t' <= c <= '\r'
  }

  /** atoi: skip white space, an optional sign, then the leading run of digits. */
  function Atoi(s: string): int
    decreases |s|
  {
    if s == "" then 0
    else if IsSpace(s[0]) then Atoi(s[1..])
    else if s[0] == '-' then 0 - DigitRun(s[1..], 0)
    else if s[0] == '+' then DigitRun(s[1..], 0)
    else DigitRun(s, 0)
  }

  /** A run of digits reads one character at a time from the right as well as from the left. */
  lemma {:induction false} DigitRunAppend(s: string, d: nat, rest: string, acc: nat)
    requires d < 10
    requires forall i | 0 <= i < |s| :: IsDigit(s[i])
    requires rest == "" || !IsDigit(rest[0])
    ensures DigitRun(s + [DigitChar(d)] + rest, acc) == 10 * DigitRun(s, acc) + d
    decreases |s|
  {
    var t := s + [DigitChar(d)] + rest;
    if s == "" {
      assert t[1..] == rest;
      assert DigitRun(rest, 10 * acc + d) == 10 * acc + d;
    } else {
      assert t[1..] == s[1..] + [DigitChar(d)] + rest;
      DigitRunAppend(s[1..], d, rest, 10 * acc + (s[0] as int - '0' as int));
    }
  }

  /** The printed decimal form reads back as the number, whatever non-digit text follows it. */
  lemma {:induction false} DigitRunDecimal(n: nat, rest: string)
    requires rest == "" || !IsDigit(rest[0])
    ensures DigitRun(Decimal(n) + rest, 0) == n
  {
    if n < 10 {
      assert Decimal(n) + rest == "" + [DigitChar(n)] + rest;
      DigitRunAppend("", n, rest, 0);
    } else {
      DigitRunDecimal(n / 10, "");
      assert Decimal(n / 10) + "" == Decimal(n / 10);
      DigitRunAppend(Decimal(n / 10), n % 10, rest, 0);
    }
  }

  /** A decimal form has at most k digits exactly when the number is below 10^k (k up to 4). */
  lemma DecimalLength(n: nat)
    ensures |Decimal(n)| <= 4 <==> n <= 9999
    ensures |Decimal(n)| <= 3 <==> n <= 999
    ensures |Decimal(n)| <= 2 <==> n <= 99
    ensures |Decimal(n)| <= 1 <==> n <= 9
  {
    if n >= 10 {
      DecimalLength(n / 10);
    }
  }

  /** The value of a run of at most four digits is below 10000. */
  lemma {:induction false} DigitRunBound(s: string, acc: nat)
    requires |s| <= 4
    ensures |s| == 4 ==> DigitRun(s, acc) < 10000 * (acc + 1)
    ensures |s| == 3 ==> DigitRun(s, acc) < 1000 * (acc + 1)
    ensures |s| == 2 ==> DigitRun(s, acc) < 100 * (acc + 1)
    ensures |s| == 1 ==> DigitRun(s, acc) < 10 * (acc + 1)
    ensures |s| == 0 ==> DigitRun(s, acc) == acc
    decreases |s|
  {
    if s != "" && IsDigit(s[0]) {
      DigitRunBound(s[1..], 10 * acc + (s[0] as int - '0' as int));
    }
  }

  /** Text before the first line feed; the whole text when there is none. */
  function FirstLine(s: string): (r: string)
    ensures LF !in r && r <= s
    ensures LF !in s ==> r == s
    ensures LF in s ==> r + [LF] <= s
  {
    if s == "" || s[0] == LF then "" else [s[0]] + FirstLine(s[1..])
  }

  function Upper(c: char): char {
    if 'a' <= c <= 'z' then c - 'a' + 'A' else c
  }

  /** The letters of the alphabet in both cases, one by one. */
  lemma UpperLetters()
    ensures var small, large := "abcdefghijklmnopqrstuvwxyz", "ABCDEFGHIJKLMNOPQRSTUVWXYZ";
            && (forall i | 0 <= i < 26 :: Upper(small[i]) == large[i])
            && (forall c: char :: c !in small ==> Upper(c) == c)
  {
    var small := "abcdefghijklmnopqrstuvwxyz";
    forall c: char | 'a' <= c <= 'z' ensures c in small {
      assert small[c as int - 'a' as int] == c;
    }
  }

  function ToUpper(s: string): (r: string)
    ensures |r| == |s| && forall i | 0 <= i < |s| :: r[i] == Upper(s[i])
  {
    seq(|s|, i requires 0 <= i < |s| => Upper(s[i]))
  }
}
