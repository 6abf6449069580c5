/** CleanUpData (devices/xantrex-trace.cc): one pass that drops line breaks and thins out blanks. */
module CleanUp {
  import opened Text

  predicate IsBreak(c: char) {
    c == CR || c == LF
  }

  /** The pass as a function: a blank is dropped when the next character of the input is a blank. */
  function Cleaned(s: string): string {
    if s == "" then ""
    else if IsBreak(s[0]) then Cleaned(s[1..])
    else if s[0] == ' ' && |s| > 1 && s[1] == ' ' then Cleaned(s[1..])
    else [s[0]] + Cleaned(s[1..])
  }

  /** The loop of the source; menudisp is the result. */
  method CleanUpData(str: string) returns (menudisp: string)
    ensures menudisp == Cleaned(str)
  {
    menudisp := "";
    var i := 0;
    while i < |str|
      invariant 0 <= i <= |str|
      invariant Cleaned(str) == menudisp + Cleaned(str[i..])
    {
      assert str[i..][0] == str[i] && str[i..][1..] == str[i + 1..];
      assert i + 1 < |str| ==> str[i..][1] == str[i + 1];
      if IsBreak(str[i]) {
      } else if str[i] == ' ' && i + 1 < |str| && str[i + 1] == ' ' {
      } else {
        menudisp := menudisp + [str[i]];
      }
      i := i + 1;
    }
  }

  // ----- what the pass keeps -----

  function Without(s: string, drop: char -> bool): string {
    if s == "" then ""
    else if drop(s[0]) then Without(s[1..], drop)
    else [s[0]] + Without(s[1..], drop)
  }

  function IsGap(): char -> bool {
    (c: char) => c == ' ' || c == '\r' || c == '\n'
  }

  /** No line break is left, and the other characters but blanks stay, in order. */
  lemma {:induction false} KeepsText(s: string)
    ensures '\r' !in Cleaned(s) && '\n' !in Cleaned(s)
    ensures Without(Cleaned(s), IsGap()) == Without(s, IsGap())
  {
    if s != "" {
      KeepsText(s[1..]);
      var rest := Cleaned(s[1..]);
      assert ([s[0]] + rest)[1..] == rest;
    }
  }

  // ----- repeating the pass -----

  predicate NoDouble(s: string) {
    forall i | 0 <= i < |s| - 1 :: !TwoBlanks(s, i)
  }

  predicate TwoBlanks(s: string, i: nat)
    requires i < |s| - 1
  {
    s[i] == ' ' && s[i + 1] == ' '
  }

  lemma NoDoubleTail(s: string)
    requires s != ""
    ensures NoDouble(s) <==> (|s| > 1 ==> !TwoBlanks(s, 0)) && NoDouble(s[1..])
  {
    var t := s[1..];
    assert forall i | 0 <= i < |t| - 1 :: TwoBlanks(t, i) <==> TwoBlanks(s, i + 1);
    if NoDouble(t) && (|s| > 1 ==> !TwoBlanks(s, 0)) {
      forall i | 0 <= i < |s| - 1 ensures !TwoBlanks(s, i) {
        if i > 0 {
          assert TwoBlanks(t, i - 1) <==> TwoBlanks(s, i - 1 + 1);
        }
      }
    }
  }

  lemma {:induction false} FixedWhenClean(s: string)
    requires CR !in s && LF !in s && NoDouble(s)
    ensures Cleaned(s) == s
  {
    if s != "" {
      var t := s[1..];
      NoDoubleTail(s);
      assert |s| > 1 ==> !TwoBlanks(s, 0);
      FixedWhenClean(t);
      assert s == [s[0]] + t;
    }
  }

  /** Without line breaks one pass leaves no two blanks together. */
  lemma {:induction false} OnePassThins(s: string)
    requires CR !in s && LF !in s
    ensures NoDouble(Cleaned(s))
    ensures (s != "" && s[0] != ' ') ==> Cleaned(s) != "" && Cleaned(s)[0] == s[0]
  {
    if s != "" {
      var t := s[1..];
      OnePassThins(t);
      var rest := Cleaned(t);
      if s[0] == ' ' && t != "" && t[0] == ' ' {
      } else {
        assert Cleaned(s) == [s[0]] + rest && Cleaned(s)[1..] == rest;
        NoDoubleTail(Cleaned(s));
        assert s[0] == ' ' && rest != "" ==> rest[0] != ' ';
      }
    }
  }

  /** On text without line breaks the pass is idempotent; on any text two passes reach a fixpoint. */
  lemma TwoPassesSettle(s: string)
    ensures CR !in s && LF !in s ==> Cleaned(Cleaned(s)) == Cleaned(s)
    ensures Cleaned(Cleaned(Cleaned(s))) == Cleaned(Cleaned(s))
  {
    KeepsText(s);
    var once := Cleaned(s);
    if CR !in s && LF !in s {
      OnePassThins(s);
      FixedWhenClean(once);
    }
    KeepsText(once);
    OnePassThins(once);
    FixedWhenClean(Cleaned(once));
  }

  // ----- one pass against strip and collapse -----

  function Strip(s: string): string {
    if s == "" then ""
    else if IsBreak(s[0]) then Strip(s[1..])
    else [s[0]] + Strip(s[1..])
  }

  /** Runs of blanks shortened to one. */
  function Collapse(s: string): string {
    if s == "" then ""
    else if s[0] == ' ' && |s| > 1 && s[1] == ' ' then Collapse(s[1..])
    else [s[0]] + Collapse(s[1..])
  }

  /** Two blanks with nothing but line breaks between them, and at least one. */
  ghost predicate SplitBlanks(s: string, i: nat, j: nat) {
    i + 1 < j < |s| && s[i] == ' ' && s[j] == ' ' && forall k | i < k < j :: IsBreak(s[k])
  }

  /** The same, starting at the first character. */
  predicate SplitFirst(s: string) {
    |s| > 1 && s[0] == ' ' && IsBreak(s[1]) && var r := Strip(s[1..]); r != "" && r[0] == ' '
  }

  lemma {:induction false} StripStart(s: string) returns (j: nat)
    ensures j <= |s| && (forall k | 0 <= k < j :: IsBreak(s[k]))
    ensures j == |s| ==> Strip(s) == ""
    ensures j < |s| ==> !IsBreak(s[j]) && Strip(s) != "" && Strip(s)[0] == s[j]
  {
    if s == "" || !IsBreak(s[0]) {
      j := 0;
    } else {
      j := StripStart(s[1..]);
      j := j + 1;
    }
  }

  lemma SplitFirstMeans(s: string)
    ensures SplitFirst(s) <==> exists j: nat :: SplitBlanks(s, 0, j)
  {
    if |s| > 1 {
      var j := StripStart(s[1..]);
      assert forall k | 0 < k < j + 1 :: s[k] == s[1..][k - 1];
      if SplitFirst(s) {
        assert SplitBlanks(s, 0, j + 1);
      }
      if m: nat :| SplitBlanks(s, 0, m) {
        assert IsBreak(s[1]);
        assert s[m] == s[1..][m - 1];
        assert j < |s[1..]|;
        assert s[1..][j] == s[j + 1];
        assert m == j + 1;
      }
    }
  }

  lemma SplitTail(s: string)
    requires s != ""
    ensures (exists i: nat, j: nat :: SplitBlanks(s, i, j)) <==>
              SplitFirst(s) || exists i: nat, j: nat :: SplitBlanks(s[1..], i, j)
  {
    SplitFirstMeans(s);
    var t := s[1..];
    assert forall k | 0 <= k < |t| :: t[k] == s[k + 1];
    if i: nat, j: nat :| SplitBlanks(s, i, j) {
      if i > 0 {
        assert SplitBlanks(t, i - 1, j - 1) by {
          forall k | i - 1 < k < j - 1 ensures IsBreak(t[k]) {
            assert IsBreak(s[k + 1]);
          }
        }
      }
    }
    if i: nat, j: nat :| SplitBlanks(t, i, j) {
      assert SplitBlanks(s, i + 1, j + 1) by {
        forall k | i + 1 < k < j + 1 ensures IsBreak(s[k]) {
          assert IsBreak(t[k - 1]);
        }
      }
    }
  }

  /** One pass does what stripping the line breaks and then collapsing the blanks does, exactly when no two blanks are
      separated by nothing but line breaks. Otherwise it leaves more. */
  lemma {:induction false} OnePassIsStripCollapseExactly(s: string)
    ensures Cleaned(s) == Collapse(Strip(s)) <==> !exists i: nat, j: nat :: SplitBlanks(s, i, j)
    ensures |Cleaned(s)| >= |Collapse(Strip(s))|
  {
    if s == "" {
    } else {
      OnePassIsStripCollapseExactly(s[1..]);
      SplitTail(s);
      OneStep(s);
    }
  }

  lemma OneStep(s: string)
    requires s != ""
    requires |Cleaned(s[1..])| >= |Collapse(Strip(s[1..]))|
    ensures Cleaned(s) == Collapse(Strip(s)) <==> !SplitFirst(s) && Cleaned(s[1..]) == Collapse(Strip(s[1..]))
    ensures |Cleaned(s)| >= |Collapse(Strip(s))|
  {
    var t := s[1..];
    var c, k := Cleaned(t), Collapse(Strip(t));
    if !IsBreak(s[0]) {
      var strip := Strip(t);
      assert ([s[0]] + strip)[1..] == strip;
      assert [s[0]] + c == [s[0]] + k <==> c == k by {
        assert ([s[0]] + c)[1..] == c && ([s[0]] + k)[1..] == k;
      }
    }
  }
}
