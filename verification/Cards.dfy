/**
 Card numbers in text, after tools/evaluate_intent.py: the Luhn sum (ISO/IEC 7812-1, Annex B) and a scanner that reads
 the text once and keeps the digits of the run it is in.
 */
module Cards {

  // ---------------------------------------------------------------- the Luhn sum

  predicate Digits(digits: seq<int>) {
    forall i :: 0 <= i < |digits| ==> 0 <= digits[i] <= 9
  }

  /** What one digit adds; every second one from the right is doubled and loses nine above nine. */
  function Weight(d: int, doubled: bool): int {
    if !doubled then d else if d * 2 > 9 then d * 2 - 9 else d * 2
  }

  function LuhnSum(digits: seq<int>): int {
    if digits == [] then 0 else Weight(digits[0], |digits| % 2 == 0) + LuhnSum(digits[1..])
  }

  predicate LuhnValid(digits: seq<int>) {
    LuhnSum(digits) % 10 == 0
  }

  method Luhn(digits: seq<int>) returns (valid: bool)
    ensures valid <==> LuhnValid(digits)
    ensures valid <==> LuhnSum(digits) % 10 == 0
  {
    var total := 0;
    var n := |digits|;
    for at := 0 to n
      invariant total == LuhnSum(digits[n - at..])
    {
      var d := digits[n - 1 - at];
      if at % 2 == 1 {
        d := d * 2;
        if d > 9 {
          d := d - 9;
        }
      }
      total := total + d;
      assert digits[n - 1 - at..][1..] == digits[n - at..];
    }
    assert digits[0..] == digits;
    valid := total % 10 == 0;
  }

  /** Read in pairs from the right, the last digit counts as it is and the one before it with the digits of its double. */
  lemma {:induction false} LuhnByPairs(front: seq<int>, a: int, b: int)
    requires 0 <= a <= 9
    ensures LuhnSum([]) == 0 && LuhnSum([b]) == b
    ensures LuhnSum(front + [a, b]) == LuhnSum(front) + (2 * a / 10 + 2 * a % 10) + b
  {
    if front == [] {
      assert [] + [a, b] == [a, b] && [a, b][1..] == [b] && [b][1..] == [];
    } else {
      LuhnByPairs(front[1..], a, b);
      assert (front + [a, b])[1..] == front[1..] + [a, b];
    }
  }

  /** Both ways of weighing a digit tell all ten digits apart. */
  lemma WeightsDiffer(a: int, b: int, doubled: bool)
    requires 0 <= a <= 9 && 0 <= b <= 9 && a != b
    ensures 0 <= Weight(a, doubled) <= 9 && 0 <= Weight(b, doubled) <= 9 && Weight(a, doubled) != Weight(b, doubled)
  {
  }

  lemma {:induction false} OneDigitSum(digits: seq<int>, at: nat, d: int)
    requires at < |digits|
    ensures var doubled := (|digits| - at) % 2 == 0;
      LuhnSum(digits[at := d]) - LuhnSum(digits) == Weight(d, doubled) - Weight(digits[at], doubled)
  {
    if at > 0 {
      OneDigitSum(digits[1..], at - 1, d);
      assert digits[at := d][1..] == digits[1..][at - 1 := d];
    } else {
      assert digits[at := d][1..] == digits[1..];
    }
  }

  lemma NotBothTens(a: int, b: int)
    requires a % 10 == 0 && a != b && -10 < b - a < 10
    ensures b % 10 != 0
  {
  }

  /** A valid number with any one digit changed is not valid, whatever its length. */
  lemma {:induction false} OneWrongDigitIsCaught(digits: seq<int>, at: nat, d: int)
    requires Digits(digits) && LuhnValid(digits) && at < |digits| && 0 <= d <= 9 && d != digits[at]
    ensures !LuhnValid(digits[at := d])
  {
    hide LuhnSum, Weight;
    OneDigitSum(digits, at, d);
    WeightsDiffer(d, digits[at], (|digits| - at) % 2 == 0);
    NotBothTens(LuhnSum(digits), LuhnSum(digits[at := d]));
  }

  /** Two neighbours exchanged are caught too, except for a zero and a nine. */
  lemma {:induction false} SwapIsCaughtUnlessZeroNine(digits: seq<int>, at: nat)
    requires Digits(digits) && LuhnValid(digits) && at + 1 < |digits| && digits[at] != digits[at + 1]
    ensures LuhnValid(digits[at := digits[at + 1]][at + 1 := digits[at]]) <==> {digits[at], digits[at + 1]} == {0, 9}
  {
    hide LuhnSum, Weight;
    var a, b := digits[at], digits[at + 1];
    var once := digits[at := b];
    OneDigitSum(digits, at, b);
    OneDigitSum(once, at + 1, a);
    var even := (|digits| - at) % 2 == 0;
    SwapDifference(a, b, even);
    var change := Weight(b, even) - Weight(a, even) + Weight(a, !even) - Weight(b, !even);
    assert LuhnSum(once[at + 1 := a]) == LuhnSum(digits) + change;
    if change != 0 {
      NotBothTens(LuhnSum(digits), LuhnSum(digits) + change);
    }
    assert {a, b} == {0, 9} ==> a in {0, 9} && b in {0, 9};
  }

  lemma SwapDifference(a: int, b: int, doubled: bool)
    requires 0 <= a <= 9 && 0 <= b <= 9 && a != b
    ensures var change := Weight(b, doubled) - Weight(a, doubled) + Weight(a, !doubled) - Weight(b, !doubled);
      -10 < change < 10 && (change == 0 <==> (a == 0 && b == 9) || (a == 9 && b == 0))
  {
  }

  /** The last digit counts as it is. */
  lemma LastDigitSum(payload: seq<int>, d: int)
    ensures LuhnSum(payload + [d]) == LuhnSum(payload + [0]) + d
  {
    hide LuhnSum;
    OneDigitSum(payload + [0], |payload|, d);
    assert (payload + [0])[|payload| := d] == payload + [d];
  }

  lemma OneDigitFits(base: int, d: int)
    requires 0 <= d <= 9
    ensures (base + d) % 10 == 0 <==> d == (10 - base % 10) % 10
  {
  }

  /** Every payload has exactly one check digit. */
  lemma {:induction false} CheckDigitIsUnique(payload: seq<int>) returns (check: int)
    requires Digits(payload)
    ensures 0 <= check <= 9
    ensures forall d :: 0 <= d <= 9 ==> (LuhnValid(payload + [d]) <==> d == check)
  {
    hide LuhnSum;
    var base := LuhnSum(payload + [0]);
    check := (10 - base % 10) % 10;
    forall d | 0 <= d <= 9 ensures LuhnValid(payload + [d]) <==> d == check {
      LastDigitSum(payload, d);
      OneDigitFits(base, d);
    }
  }

  // ---------------------------------------------------------------- runs of digits

  predicate IsDigit(c: char) {
    '0' <= c <= '9'
  }

  predicate IsSeparator(c: char) {
    c in " -_."
  }

  predicate DigitAt(text: string, i: int) {
    0 <= i < |text| && IsDigit(text[i])
  }

  predicate SeparatorAt(text: string, i: int) {
    0 <= i < |text| && IsSeparator(text[i])
  }

  /** Digits from `i` to just before `j`, with at most one separator between two of them. */
  predicate Joined(text: string, i: int, j: int) {
    && DigitAt(text, i) && DigitAt(text, j - 1) && i < j
    && forall k :: i <= k < j ==> InRun(text, k)
  }

  /** A digit, or a single separator between two. */
  predicate InRun(text: string, k: int) {
    DigitAt(text, k) || (SeparatorAt(text, k) && DigitAt(text, k - 1) && DigitAt(text, k + 1))
  }

  predicate OpensAt(text: string, i: int) {
    !DigitAt(text, i - 1) && !(SeparatorAt(text, i - 1) && DigitAt(text, i - 2))
  }

  predicate ClosesAt(text: string, j: int) {
    !DigitAt(text, j) && !(SeparatorAt(text, j) && DigitAt(text, j + 1))
  }

  /** A run that cannot be continued on either side. */
  predicate Run(text: string, i: int, j: int) {
    Joined(text, i, j) && OpensAt(text, i) && ClosesAt(text, j)
  }

  /** The same as a grammar: a digit, then the rest, after a separator or without one. */
  predicate Grouped(s: string) {
    s != [] && '0' <= s[0] <= '9' &&
    (|s| == 1 || Grouped(s[1..]) || (s[1] in {' ', '-', '_', '.'} && Grouped(s[2..])))
  }

  /** A stretch of grouped digits that is part of no longer one. */
  ghost predicate Longest(text: string, i: int, j: int) {
    && 0 <= i < j <= |text| && Grouped(text[i..j])
    && forall a, b :: 0 <= a <= i && j <= b <= |text| && Grouped(text[a..b]) ==> a == i && b == j
  }

  lemma {:induction false} JoinedIsGrouped(text: string, i: int, j: int)
    requires 0 <= i < j <= |text|
    ensures Joined(text, i, j) <==> Grouped(text[i..j])
    decreases j - i
  {
    if i + 1 < j {
      JoinedIsGrouped(text, i + 1, j);
      assert text[i..j][1..] == text[i + 1..j];
    }
    if i + 2 < j {
      JoinedIsGrouped(text, i + 2, j);
      assert text[i..j][2..] == text[i + 2..j];
    }
    JoinedStep(text, i, j);
    hide Joined;
  }

  lemma JoinedStep(text: string, i: int, j: int)
    requires 0 <= i < j <= |text|
    ensures Joined(text, i, j) <==>
              DigitAt(text, i) &&
              (j == i + 1 || Joined(text, i + 1, j) || (SeparatorAt(text, i + 1) && i + 2 < j && Joined(text, i + 2, j)))
  {
    if Joined(text, i, j) && i + 1 < j {
      assert InRun(text, i + 1);
    }
  }

  lemma {:induction false} RunIsLongest(text: string, i: int, j: int)
    ensures Run(text, i, j) <==> Longest(text, i, j)
  {
    if 0 <= i < j <= |text| {
      JoinedIsGrouped(text, i, j);
      if Run(text, i, j) {
        forall a, b | 0 <= a <= i && j <= b <= |text| && Grouped(text[a..b]) ensures a == i && b == j {
          JoinedIsGrouped(text, a, b);
          NothingBeyond(text, i, j, a, b);
        }
      }
      if Longest(text, i, j) {
        NothingAround(text, i, j);
      }
    }
  }

  lemma NothingBeyond(text: string, i: int, j: int, a: int, b: int)
    requires Run(text, i, j) && Joined(text, a, b) && a <= i && j <= b
    ensures a == i && b == j
  {
    assert a < i ==> InRun(text, i - 1);
    assert j < b ==> InRun(text, j);
  }

  lemma NothingAround(text: string, i: int, j: int)
    requires Longest(text, i, j)
    ensures OpensAt(text, i) && ClosesAt(text, j)
  {
    hide Grouped;
    JoinedIsGrouped(text, i, j);
    if DigitAt(text, i - 1) {
      JoinedIsGrouped(text, i - 1, j);
    }
    if SeparatorAt(text, i - 1) && DigitAt(text, i - 2) {
      JoinedIsGrouped(text, i - 2, j);
    }
    if DigitAt(text, j) {
      JoinedIsGrouped(text, i, j + 1);
    }
    if SeparatorAt(text, j) && DigitAt(text, j + 1) {
      JoinedIsGrouped(text, i, j + 2);
    }
  }

  function Values(text: string): seq<int> {
    if text == [] then []
    else
      var c := text[|text| - 1];
      Values(text[..|text| - 1]) + if IsDigit(c) then [c as int - '0' as int] else []
  }

  /** The digits of a text, in order, and nothing else of it. */
  lemma {:induction false} ValuesAreDigits(a: string, b: string, c: char)
    ensures Values(a + b) == Values(a) + Values(b)
    ensures Values([c]) == if '0' <= c <= '9' then [c as int - 48] else []
  {
    if b == [] {
      assert a + b == a;
    } else {
      ValuesAreDigits(a, b[..|b| - 1], c);
      assert (a + b)[..|a + b| - 1] == a + b[..|b| - 1];
    }
  }

  predicate Card(digits: seq<int>) {
    |digits| == 16 && LuhnValid(digits)
  }

  ghost predicate CardRun(text: string, i: int, j: int) {
    Run(text, i, j) && Card(Values(text[i..j]))
  }

  ghost predicate NoCardBefore(text: string, n: int) {
    forall i, j :: i < n ==> !CardRun(text, i, j)
  }

  // ---------------------------------------------------------------- the scanner

  /**
   What the scanner knows before character `n`: either it is in no run, or in the one that starts at `start` and has
   its digits, `between` saying that the last character was a separator.
   */
  ghost predicate Scanning(text: string, n: int, start: int, run: seq<int>, between: bool) {
    if run == [] then
      !between && OpensAt(text, n) && NoCardBefore(text, n)
    else
      var end := if between then n - 1 else n;
      && Joined(text, start, end) && OpensAt(text, start) && run == Values(text[start..end])
      && (between ==> SeparatorAt(text, n - 1))
      && NoCardBefore(text, start)
  }

  lemma RunEndsOnce(text: string, i: int, j: int, k: int)
    requires Joined(text, i, j) && Joined(text, i, k) && ClosesAt(text, j) && ClosesAt(text, k)
    ensures j == k
  {
    assert j < k ==> InRun(text, j);
    assert k < j ==> InRun(text, k);
  }

  lemma ValuesGrow(text: string, i: int, j: int)
    requires 0 <= i <= j < |text|
    ensures Values(text[i..j + 1]) == Values(text[i..j]) + if IsDigit(text[j]) then [text[j] as int - '0' as int] else []
  {
    assert text[i..j + 1][..j - i] == text[i..j];
  }

  /** A digit starts a run or continues the one there is. */
  lemma {:induction false} DigitContinues(text: string, n: int, start: int, run: seq<int>, between: bool)
    requires 0 <= n < |text| && IsDigit(text[n]) && Scanning(text, n, start, run, between)
    ensures Scanning(text, n + 1, if run == [] then n else start, run + [text[n] as int - '0' as int], false)
  {
    hide NoCardBefore;
    var from := if run == [] then n else start;
    ValuesGrow(text, from, n);
    if run == [] {
      assert text[n..n] == [];
    } else if between {
      ValuesGrow(text, start, n - 1);
      NotBoth(text[n - 1]);
      assert InRun(text, n - 1) && InRun(text, n);
    }
  }

  lemma NotBoth(c: char)
    ensures !(IsDigit(c) && IsSeparator(c))
  {
  }

  /** Where the run in hand ends, it is a whole run, and no other one starts inside it. */
  lemma {:induction false} RunCloses(text: string, n: int, start: int, run: seq<int>, between: bool)
    requires 0 <= n <= |text| && run != [] && Scanning(text, n, start, run, between)
    requires !DigitAt(text, n) && (SeparatorAt(text, n) ==> between)
    ensures var end := if between then n - 1 else n;
      && Run(text, start, end) && run == Values(text[start..end])
      && (!Card(run) ==> NoCardBefore(text, n + 1))
  {
    var end := if between then n - 1 else n;
    if between {
      NotBoth(text[n - 1]);
    }
    if !Card(run) {
      forall i, j | i < n + 1 ensures !CardRun(text, i, j) {
        if i == start && Run(text, i, j) {
          RunEndsOnce(text, start, j, end);
        } else if start < i < end && Run(text, i, j) {
          NothingStartsInside(text, start, end, i);
        }
      }
    }
  }

  lemma NothingStartsInside(text: string, start: int, end: int, i: int)
    requires Joined(text, start, end) && start < i < end && DigitAt(text, i)
    ensures !OpensAt(text, i)
  {
    assert InRun(text, i - 1);
  }

  method HasCardNumber(text: string) returns (found: bool)
    ensures found <==> exists i, j :: Longest(text, i, j) && |Values(text[i..j])| == 16 && LuhnSum(Values(text[i..j])) % 10 == 0
  {
    hide Values, LuhnValid, Joined, OpensAt, Run, Longest, Card;
    LongestCards(text);
    var run: seq<int> := [];
    var between := false;
    ghost var start := 0;
    NothingYet(text);
    for n := 0 to |text|
      invariant Scanning(text, n, start, run, between)
    {
      var c := text[n];
      if IsDigit(c) {
        DigitContinues(text, n, start, run, between);
        start := if run == [] then n else start;
        run := run + [c as int - '0' as int];
        between := false;
        continue;
      }
      if IsSeparator(c) && !between && run != [] {
        between := true;
        continue;
      }
      var card := Flush(text, n, start, run, between);
      run, between := [], false;
      if card {
        return true;
      }
    }
    found := Flush(text, |text|, start, run, between);
    if !found {
      forall i, j ensures !CardRun(text, i, j) {
        RunsAreInside(text, i, j);
      }
    }
  }

  lemma LongestCards(text: string)
    ensures (exists i, j :: CardRun(text, i, j)) <==>
            (exists i, j :: Longest(text, i, j) && |Values(text[i..j])| == 16 && LuhnSum(Values(text[i..j])) % 10 == 0)
  {
    hide Values, LuhnSum, Joined, OpensAt, ClosesAt, Grouped;
    forall i, j ensures Run(text, i, j) <==> Longest(text, i, j) {
      RunIsLongest(text, i, j);
    }
    if i, j :| CardRun(text, i, j) {
      assert Longest(text, i, j);
    }
    if i, j :| Longest(text, i, j) && |Values(text[i..j])| == 16 && LuhnSum(Values(text[i..j])) % 10 == 0 {
      assert CardRun(text, i, j);
    }
  }

  lemma NothingYet(text: string)
    ensures Scanning(text, 0, 0, [], false)
  {
    forall i, j | i < 0 ensures !CardRun(text, i, j) {
    }
  }

  lemma RunsAreInside(text: string, i: int, j: int)
    ensures Run(text, i, j) ==> 0 <= i < |text|
  {
  }

  /** The end of a run, if the scanner is in one. */
  method Flush(text: string, n: int, ghost start: int, run: seq<int>, between: bool) returns (card: bool)
    requires 0 <= n <= |text| && Scanning(text, n, start, run, between)
    requires !DigitAt(text, n) && (SeparatorAt(text, n) ==> between || run == [])
    ensures card ==> exists i, j :: CardRun(text, i, j)
    ensures !card ==> NoCardBefore(text, n + 1) && Scanning(text, n + 1, start, [], false)
  {
    var valid := Luhn(run);
    card := |run| == 16 && valid;
    if run == [] {
      AfterNothing(text, n);
    } else {
      RunCloses(text, n, start, run, between);
      if card {
        assert CardRun(text, start, if between then n - 1 else n);
      }
    }
    AfterOther(text, n, start, run, between);
  }

  lemma AfterNothing(text: string, n: int)
    requires 0 <= n <= |text| && !DigitAt(text, n) && NoCardBefore(text, n)
    ensures NoCardBefore(text, n + 1)
  {
    forall i, j | i < n + 1 ensures !CardRun(text, i, j) {
    }
  }

  /** After a character that is no digit and continues no run, the next one opens a run if it is a digit. */
  lemma AfterOther(text: string, n: int, start: int, run: seq<int>, between: bool)
    requires 0 <= n <= |text| && Scanning(text, n, start, run, between)
    requires !DigitAt(text, n) && (SeparatorAt(text, n) ==> between || run == [])
    ensures OpensAt(text, n + 1)
  {
    if between {
      NotBoth(text[n - 1]);
    }
  }
}
