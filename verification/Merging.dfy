/**
 The merging at the heart of both byte-pair encoders, over any symbols: while some adjacent pair is in the table, take
 the one of lowest rank, the first of equals, and join all its occurrences from left to right. What two encoders with
 corresponding tables have in common is stated once here: merging commutes with the coding of their symbols.
 */
module Merging {
  import opened Options

  /** Each pair that merges, with its rank and what it becomes. */
  type Table<!T(==)> = map<(T, T), (nat, T)>

  predicate Merges<T(==)>(table: Table<T>, s: seq<T>, at: nat)
    requires at + 1 < |s|
  {
    (s[at], s[at + 1]) in table
  }

  function Rank<T(==)>(table: Table<T>, s: seq<T>, at: nat): nat
    requires at + 1 < |s| && Merges(table, s, at)
  {
    table[(s[at], s[at + 1])].0
  }

  /** Where the lowest rank stands among the pairs before `upto`. */
  function Lowest<T(==)>(table: Table<T>, s: seq<T>, upto: nat): (at: Option<nat>)
    requires upto == 0 || upto < |s|
    ensures at.Some? ==> at.value < upto && Merges(table, s, at.value)
  {
    if upto == 0 then None
    else
      var before := Lowest(table, s, upto - 1);
      if Merges(table, s, upto - 1) &&
         (before.None? || Rank(table, s, upto - 1) < Rank(table, s, before.value)) then Some(upto - 1)
      else before
  }

  /** Nothing merges, or the pair found has the lowest rank and no earlier one has the same. */
  lemma {:induction false} LowestIsLowest<T>(table: Table<T>, s: seq<T>, upto: nat)
    requires upto == 0 || upto < |s|
    ensures var at := Lowest(table, s, upto);
      forall i: nat :: i < upto && Merges(table, s, i) ==>
        at.Some? && Rank(table, s, at.value) <= Rank(table, s, i) &&
        (i < at.value ==> Rank(table, s, at.value) < Rank(table, s, i))
  {
    if upto > 0 {
      LowestIsLowest(table, s, upto - 1);
    }
  }

  /** Joins every occurrence of a pair, from left to right. */
  function Join<T(==)>(s: seq<T>, left: T, right: T, joined: T): seq<T> {
    if |s| < 2 then s
    else if s[0] == left && s[1] == right then [joined] + Join(s[2..], left, right, joined)
    else [s[0]] + Join(s[1..], left, right, joined)
  }

  /** One step of the joining, from position `n`. */
  lemma JoinFrom<T>(s: seq<T>, n: nat, left: T, right: T, joined: T)
    requires n < |s|
    ensures if n + 1 < |s| && s[n] == left && s[n + 1] == right
            then Join(s[n..], left, right, joined) == [joined] + Join(s[n + 2..], left, right, joined)
            else Join(s[n..], left, right, joined) == [s[n]] + Join(s[n + 1..], left, right, joined)
  {
    if n + 1 < |s| {
      assert s[n..][1..] == s[n + 1..] && s[n..][2..] == s[n + 2..];
    }
  }

  lemma JoinNothing<T>(left: T, right: T, joined: T)
    ensures Join([], left, right, joined) == []
  {
  }

  predicate Occurs<T(==)>(s: seq<T>, left: T, right: T) {
    exists i: nat :: i + 1 < |s| && s[i] == left && s[i + 1] == right
  }

  lemma OccursInTail<T>(s: seq<T>, left: T, right: T)
    requires s != []
    ensures Occurs(s[1..], left, right) ==> Occurs(s, left, right)
  {
    if Occurs(s[1..], left, right) {
      var i: nat :| i + 1 < |s[1..]| && s[1..][i] == left && s[1..][i + 1] == right;
      assert s[i + 1] == left && s[i + 2] == right;
    }
  }

  /** The first occurrence is joined and nothing before it changes; what follows it is joined on its own. */
  lemma {:induction false} JoinTakesTheFirst<T>(front: seq<T>, rest: seq<T>, left: T, right: T, joined: T)
    requires !Occurs(front + [left], left, right)
    ensures Join(front + [left, right] + rest, left, right, joined) == front + [joined] + Join(rest, left, right, joined)
    decreases |front|
  {
    var s := front + [left, right] + rest;
    if front == [] {
      assert s[2..] == rest;
    } else {
      assert s[1..] == front[1..] + [left, right] + rest;
      assert (front + [left])[1..] == front[1..] + [left];
      OccursInTail(front + [left], left, right);
      assert s[0] == (front + [left])[0] && (front + [left])[1] == s[1];
      JoinTakesTheFirst(front[1..], rest, left, right, joined);
    }
  }

  lemma {:induction false} JoinOfNoneIsSame<T>(s: seq<T>, left: T, right: T, joined: T)
    requires !Occurs(s, left, right)
    ensures Join(s, left, right, joined) == s
    decreases |s|
  {
    if |s| >= 2 {
      OccursInTail(s, left, right);
      assert !(s[0] == left && s[0 + 1] == right);
      JoinOfNoneIsSame(s[1..], left, right, joined);
    }
  }

  lemma {:induction false} JoinShortens<T>(s: seq<T>, left: T, right: T, joined: T)
    ensures |Join(s, left, right, joined)| <= |s|
    ensures (exists i: nat :: i + 1 < |s| && s[i] == left && s[i + 1] == right) ==> |Join(s, left, right, joined)| < |s|
    decreases |s|
  {
    if |s| >= 2 {
      if s[0] == left && s[1] == right {
        JoinShortens(s[2..], left, right, joined);
      } else {
        JoinShortens(s[1..], left, right, joined);
        if i: nat :| i + 1 < |s| && s[i] == left && s[i + 1] == right {
          assert s[1..][i - 1] == left && s[1..][i] == right;
        }
      }
    }
  }

  function Found<T(==)>(table: Table<T>, s: seq<T>): (at: Option<nat>)
    ensures at.Some? ==> at.value + 1 < |s| && Merges(table, s, at.value)
  {
    if |s| < 2 then None else Lowest(table, s, |s| - 1)
  }

  /** One round: the lowest pair, everywhere. */
  function Round<T(==)>(table: Table<T>, s: seq<T>): (r: seq<T>)
    requires Found(table, s).Some?
    ensures |r| < |s|
  {
    var at := Found(table, s).value;
    JoinShortens(s, s[at], s[at + 1], table[(s[at], s[at + 1])].1);
    Join(s, s[at], s[at + 1], table[(s[at], s[at + 1])].1)
  }

  function Merged<T(==)>(table: Table<T>, s: seq<T>): seq<T>
    decreases |s|
  {
    if Found(table, s).None? then s else Merged(table, Round(table, s))
  }

  /** When merging stops, no adjacent pair is left that merges. */
  lemma {:induction false} MergedIsDone<T>(table: Table<T>, s: seq<T>)
    ensures forall i: nat :: i + 1 < |Merged(table, s)| ==> !Merges(table, Merged(table, s), i)
    decreases |s|
  {
    if Found(table, s).None? {
      if |s| >= 2 {
        LowestIsLowest(table, s, |s| - 1);
      }
    } else {
      MergedIsDone(table, Round(table, s));
    }
  }

  // ---------------------------------------------------------------- by rank, as a relation

  /** The adjacent pair at `at` merges, none merges at a lower rank, and none before it at the same rank. */
  ghost predicate First<T>(table: Table<T>, s: seq<T>, at: nat) {
    && at + 1 < |s| && (s[at], s[at + 1]) in table
    && forall i: nat :: i + 1 < |s| && (s[i], s[i + 1]) in table ==>
         table[(s[at], s[at + 1])].0 <= table[(s[i], s[i + 1])].0 &&
         (i < at ==> table[(s[at], s[at + 1])].0 < table[(s[i], s[i + 1])].0)
  }

  ghost predicate Settled<T>(table: Table<T>, s: seq<T>) {
    forall i: nat :: i + 1 < |s| ==> (s[i], s[i + 1]) !in table
  }

  /** `s` becomes `t` by merging, again and again, the first pair of lowest rank wherever it occurs. */
  ghost predicate MergesTo<T>(table: Table<T>, s: seq<T>, t: seq<T>)
    decreases |s|
  {
    if Settled(table, s) then s == t
    else exists at: nat :: First(table, s, at) && MergesTo(table, JoinedAt(table, s, at), t)
  }

  /** The pair at `at` joined wherever it occurs. */
  ghost function JoinedAt<T>(table: Table<T>, s: seq<T>, at: nat): (r: seq<T>)
    requires First(table, s, at)
    ensures |r| < |s|
  {
    JoinShortens(s, s[at], s[at + 1], table[(s[at], s[at + 1])].1);
    Join(s, s[at], s[at + 1], table[(s[at], s[at + 1])].1)
  }

  lemma FirstIsUnique<T>(table: Table<T>, s: seq<T>, a: nat, b: nat)
    requires First(table, s, a) && First(table, s, b)
    ensures a == b
  {
  }

  lemma FoundIsFirst<T>(table: Table<T>, s: seq<T>)
    ensures Found(table, s).None? <==> Settled(table, s)
    ensures Found(table, s).Some? ==> First(table, s, Found(table, s).value)
  {
    if |s| >= 2 {
      LowestIsLowest(table, s, |s| - 1);
      hide Lowest;
      if Found(table, s).None? {
        forall i: nat | i + 1 < |s| ensures (s[i], s[i + 1]) !in table {
          assert !Merges(table, s, i);
        }
      } else {
        var at := Found(table, s).value;
        forall i: nat | i + 1 < |s| && (s[i], s[i + 1]) in table
          ensures table[(s[at], s[at + 1])].0 <= table[(s[i], s[i + 1])].0
          ensures i < at ==> table[(s[at], s[at + 1])].0 < table[(s[i], s[i + 1])].0
        {
          assert Merges(table, s, i) && Rank(table, s, at) <= Rank(table, s, i);
        }
      }
    }
  }

  /** Merging by rank leads to one result, and that is it. */
  lemma {:induction false} MergedIsByRank<T>(table: Table<T>, s: seq<T>, t: seq<T>)
    ensures MergesTo(table, s, t) <==> t == Merged(table, s)
    decreases |s|
  {
    hide Found, First, Settled, Join;
    FoundIsFirst(table, s);
    if Found(table, s).Some? {
      var at := Found(table, s).value;
      assert JoinedAt(table, s, at) == Round(table, s);
      MergedIsByRank(table, Round(table, s), t);
      forall other: nat | First(table, s, other) ensures other == at {
        FirstIsUnique(table, s, other, at);
      }
    }
  }

  // ---------------------------------------------------------------- coded symbols

  /** Two tables correspond under a code: the same pairs merge, in the same order, to corresponding symbols. */
  ghost predicate Corresponds<S, T>(code: imap<S, T>, a: Table<S>, b: Table<T>) {
    && Injective(code)
    && (forall x, y :: x in code && y in code ==> SamePair(code, a, b, x, y))
    && (forall x, y, z, w :: x in code && y in code && z in code && w in code ==> SameOrder(code, a, b, x, y, z, w))
  }

  ghost predicate Injective<S, T>(code: imap<S, T>) {
    forall x, y :: x in code && y in code && code[x] == code[y] ==> x == y
  }

  ghost predicate SameOrder<S, T>(code: imap<S, T>, a: Table<S>, b: Table<T>, x: S, y: S, z: S, w: S)
    requires x in code && y in code && z in code && w in code
  {
    var (p, q) := ((code[x], code[y]), (code[z], code[w]));
    (x, y) in a && (z, w) in a && p in b && q in b ==> (a[(x, y)].0 < a[(z, w)].0 <==> b[p].0 < b[q].0)
  }

  ghost predicate SamePair<S, T>(code: imap<S, T>, a: Table<S>, b: Table<T>, x: S, y: S)
    requires x in code && y in code
  {
    && ((x, y) in a <==> (code[x], code[y]) in b)
    && ((x, y) in a ==> a[(x, y)].1 in code && b[(code[x], code[y])].1 == code[a[(x, y)].1])
  }

  ghost predicate Codable<S, T>(code: imap<S, T>, s: seq<S>) {
    forall i :: 0 <= i < |s| ==> s[i] in code
  }

  ghost function Coded<S, T>(code: imap<S, T>, s: seq<S>): (coded: seq<T>)
    requires Codable(code, s)
  {
    seq(|s|, i requires 0 <= i < |s| => code[s[i]])
  }

  lemma CodedAt<S, T>(code: imap<S, T>, a: Table<S>, b: Table<T>, s: seq<S>, i: nat)
    requires Corresponds(code, a, b) && Codable(code, s) && i + 1 < |s|
    ensures Merges(b, Coded(code, s), i) <==> Merges(a, s, i)
    ensures Merges(a, s, i) ==> a[(s[i], s[i + 1])].1 in code && b[(code[s[i]], code[s[i + 1]])].1 == code[a[(s[i], s[i + 1])].1]
  {
    assert SamePair(code, a, b, s[i], s[i + 1]);
  }

  lemma CodedOrder<S, T>(code: imap<S, T>, a: Table<S>, b: Table<T>, s: seq<S>, i: nat, j: nat)
    requires Corresponds(code, a, b) && Codable(code, s) && i + 1 < |s| && j + 1 < |s|
    requires Merges(a, s, i) && Merges(a, s, j) && Merges(b, Coded(code, s), i) && Merges(b, Coded(code, s), j)
    ensures Rank(b, Coded(code, s), i) < Rank(b, Coded(code, s), j) <==> Rank(a, s, i) < Rank(a, s, j)
  {
    assert SameOrder(code, a, b, s[i], s[i + 1], s[j], s[j + 1]);
  }

  lemma {:induction false} LowestCoded<S, T>(code: imap<S, T>, a: Table<S>, b: Table<T>, s: seq<S>, upto: nat)
    requires Corresponds(code, a, b) && Codable(code, s) && (upto == 0 || upto < |s|)
    ensures Lowest(b, Coded(code, s), upto) == Lowest(a, s, upto)
  {
    hide Corresponds, Codable, Coded, Merges, Rank;
    if upto > 0 {
      CodedLength(code, s);
      LowestCoded(code, a, b, s, upto - 1);
      CodedAt(code, a, b, s, upto - 1);
      if Merges(a, s, upto - 1) && Lowest(a, s, upto - 1).Some? {
        CodedAt(code, a, b, s, Lowest(a, s, upto - 1).value);
        CodedOrder(code, a, b, s, upto - 1, Lowest(a, s, upto - 1).value);
      }
    }
  }

  lemma CodedLength<S, T>(code: imap<S, T>, s: seq<S>)
    requires Codable(code, s)
    ensures |Coded(code, s)| == |s|
    ensures forall i :: 0 <= i < |s| ==> s[i] in code && Coded(code, s)[i] == code[s[i]]
  {
  }

  lemma CodedTail<S, T>(code: imap<S, T>, s: seq<S>, n: nat)
    requires Codable(code, s) && n <= |s|
    ensures Codable(code, s[n..]) && Coded(code, s[n..]) == Coded(code, s)[n..]
  {
  }

  lemma CodedConcat<S, T>(code: imap<S, T>, a: seq<S>, b: seq<S>)
    requires Codable(code, a) && Codable(code, b)
    ensures Codable(code, a + b) && Coded(code, a + b) == Coded(code, a) + Coded(code, b)
  {
  }

  lemma CodedCons<S, T>(code: imap<S, T>, x: S, s: seq<S>)
    requires Codable(code, s) && x in code
    ensures Codable(code, [x] + s) && Coded(code, [x] + s) == [code[x]] + Coded(code, s)
  {
  }

  lemma {:induction false} JoinCoded<S, T>(code: imap<S, T>, s: seq<S>, left: S, right: S, joined: S)
    requires Codable(code, s) && left in code && right in code && joined in code
    requires Injective(code)
    ensures Codable(code, Join(s, left, right, joined))
    ensures Join(Coded(code, s), code[left], code[right], code[joined]) == Coded(code, Join(s, left, right, joined))
    decreases |s|
  {
    hide Codable, Coded;
    CodedLength(code, s);
    if |s| >= 2 {
      var skip := if s[0] == left && s[1] == right then 2 else 1;
      CodedTail(code, s, skip);
      JoinCoded(code, s[skip..], left, right, joined);
      CodedCons(code, if skip == 2 then joined else s[0], Join(s[skip..], left, right, joined));
    }
  }

  lemma {:induction false} RoundCoded<S, T>(code: imap<S, T>, a: Table<S>, b: Table<T>, s: seq<S>)
    requires Corresponds(code, a, b) && Codable(code, s)
    ensures Found(b, Coded(code, s)) == Found(a, s)
    ensures Found(a, s).Some? ==> Codable(code, Round(a, s)) && Round(b, Coded(code, s)) == Coded(code, Round(a, s))
  {
    hide Join, Lowest, Corresponds, Codable, Coded, Merges, Injective;
    CodedLength(code, s);
    if |s| >= 2 {
      LowestCoded(code, a, b, s, |s| - 1);
      if Found(a, s).Some? {
        var at := Found(a, s).value;
        CodedAt(code, a, b, s, at);
        CorrespondsIsInjective(code, a, b);
        JoinCoded(code, s, s[at], s[at + 1], PairAt(a, s, at).1);
      }
    }
  }

  function PairAt<T(==)>(table: Table<T>, s: seq<T>, at: nat): (nat, T)
    requires at + 1 < |s| && Merges(table, s, at)
  {
    table[(s[at], s[at + 1])]
  }

  lemma CorrespondsIsInjective<S, T>(code: imap<S, T>, a: Table<S>, b: Table<T>)
    requires Corresponds(code, a, b)
    ensures Injective(code)
  {
  }

  /** Merging the coded symbols is coding the merged ones. */
  lemma {:induction false} MergedCoded<S, T>(code: imap<S, T>, a: Table<S>, b: Table<T>, s: seq<S>)
    requires Corresponds(code, a, b) && Codable(code, s)
    ensures Codable(code, Merged(a, s)) && Merged(b, Coded(code, s)) == Coded(code, Merged(a, s))
    decreases |s|
  {
    hide Round, Corresponds, Codable, Coded;
    RoundCoded(code, a, b, s);
    if Found(a, s).Some? {
      MergedCoded(code, a, b, Round(a, s));
    }
  }
}
