/**
 What the order of the mutations in a batch decides. Whether the batch is accepted, the rows it leads to and the count
 it reports depend on the mutations alone; which error a refused batch ends with depends on which offence comes first.
 */
module BatchOrder {
  import opened Options
  import opened SettingsTable

  /** The same mutations, as often, in some order. */
  ghost predicate Reordered(a: seq<Mutation>, b: seq<Mutation>) {
    multiset(a) == multiset(b)
  }

  /** Two mutations of a batch that name the same key; a mutation given twice is such a pair too. */
  ghost predicate Clash(batch: seq<Mutation>, x: Mutation, y: Mutation) {
    multiset{x, y} <= multiset(batch) && x.key == y.key
  }

  lemma Members(a: seq<Mutation>, b: seq<Mutation>)
    requires Reordered(a, b)
    ensures SameMutations(a, b)
  {
    forall m ensures m in a <==> m in b {
      assert m in multiset(a) <==> m in multiset(b);
    }
  }

  /** Two places hold at least the two mutations standing there. */
  lemma PlacesClash(batch: seq<Mutation>, i: nat, j: nat)
    requires i < j < |batch| && batch[i].key == batch[j].key
    ensures Clash(batch, batch[i], batch[j])
  {
    assert batch == batch[..i] + [batch[i]] + batch[i + 1..j] + [batch[j]] + batch[j + 1..];
    assert multiset(batch) == multiset(batch[..i]) + multiset{batch[i]} + multiset(batch[i + 1..j]) + multiset{batch[j]}
                              + multiset(batch[j + 1..]);
  }

  lemma TakenOut(batch: seq<Mutation>, i: nat)
    requires i < |batch|
    ensures multiset(batch) == multiset(batch[..i] + batch[i + 1..]) + multiset{batch[i]}
  {
    assert batch == batch[..i] + [batch[i]] + batch[i + 1..];
  }

  lemma ClashRepeatsKey(batch: seq<Mutation>, x: Mutation, y: Mutation)
    requires Clash(batch, x, y)
    ensures !DistinctKeys(batch)
  {
    assert multiset{x, y} == multiset{x} + multiset{y};
    assert x in multiset(batch);
    var i :| 0 <= i < |batch| && batch[i] == x;
    var rest := batch[..i] + batch[i + 1..];
    TakenOut(batch, i);
    assert y in multiset(rest);
    var k :| 0 <= k < |rest| && rest[k] == y;
    hide Clash;
    assert batch[if k < i then k else k + 1] == y;
  }

  lemma DistinctIffNoClash(batch: seq<Mutation>)
    ensures DistinctKeys(batch) <==> !exists x, y :: Clash(batch, x, y)
  {
    if !DistinctKeys(batch) {
      var i, j :| 0 <= i < j < |batch| && batch[i].key == batch[j].key;
      PlacesClash(batch, i, j);
    }
    forall x, y | Clash(batch, x, y) ensures !DistinctKeys(batch) {
      ClashRepeatsKey(batch, x, y);
    }
  }

  lemma AcceptanceIsOrderFree(rules: Rules, a: seq<Mutation>, b: seq<Mutation>)
    requires Reordered(a, b)
    ensures FirstError(rules, a) == None <==> FirstError(rules, b) == None
    ensures DistinctKeys(a) <==> DistinctKeys(b)
  {
    Members(a, b);
    DistinctIffNoClash(a);
    DistinctIffNoClash(b);
    assert forall x, y :: Clash(a, x, y) <==> Clash(b, x, y);
    AcceptedIffWellFormed(rules, a);
    AcceptedIffWellFormed(rules, b);
  }

  /**
   A batch in another order is accepted in the same cases, with the same rows and the same count, and is refused for the
   same capacity; it is only the first checks that may name another error.
   */
  lemma VerdictIsOrderFree(
    limits: Limits, rules: Rules, t: Table, chats: map<int, int>, chat: int, a: seq<Mutation>, b: seq<Mutation>)
    requires Reordered(a, b)
    ensures var before := BatchVerdict(limits, rules, t, chats, chat, a);
            var after := BatchVerdict(limits, rules, t, chats, chat, b);
            && (before.Ok? <==> after.Ok?)
            && (before != after ==> FirstError(rules, a).Some? && FirstError(rules, b).Some?)
    ensures FirstError(rules, a) == None ==> Target(RowsOf(t, chat), a) == Target(RowsOf(t, chat), b)
  {
    hide FirstError, Differing, Target, RowCount, ByteCount, RequestedHash;
    AcceptanceIsOrderFree(rules, a, b);
    if FirstError(rules, a) == None {
      AcceptedIffWellFormed(rules, a);
      Members(a, b);
      BatchOrderIsFree(RowsOf(t, chat), a, b);
    }
  }

  // ---------------------------------------------------------------- which error

  /** What is wrong with a batch, whatever its order: a mutation's own fault, or two well-formed ones for one key. */
  ghost predicate Offends(rules: Rules, batch: seq<Mutation>, error: WriteError) {
    || (exists m :: m in batch && CheckOne(rules, m, {}) == Some(error))
    || (error == DuplicateKey && exists x, y :: Clash(batch, x, y) && WellFormed(rules, x) && WellFormed(rules, y))
  }

  lemma Repeats(rules: Rules, m: Mutation, seen: set<string>)
    requires WellFormed(rules, m)
    ensures CheckOne(rules, m, seen) == if m.key in seen then Some(DuplicateKey) else None
  {
    hide ByteLength;
  }

  lemma RepeatOffends(rules: Rules, before: seq<Mutation>, last: Mutation)
    requires FirstError(rules, before) == None && WellFormed(rules, last) && last.key in KeysOf(before)
    ensures Offends(rules, before + [last], DuplicateKey)
  {
    hide CheckOne, WellFormed, FirstError, Clash;
    AcceptedIffWellFormed(rules, before);
    KeysOfMeaning(before, last.key);
    var m :| m in before && m.key == last.key;
    var i :| 0 <= i < |before| && before[i] == m;
    PlacesClash(before + [last], i, |before|);
  }

  lemma MoreOffends(rules: Rules, before: seq<Mutation>, last: Mutation, error: WriteError)
    requires Offends(rules, before, error)
    ensures Offends(rules, before + [last], error)
  {
    hide CheckOne, WellFormed;
    var batch := before + [last];
    if m :| m in before && CheckOne(rules, m, {}) == Some(error) {
      assert m in batch;
    } else {
      var x, y :| Clash(before, x, y) && WellFormed(rules, x) && WellFormed(rules, y);
      assert multiset(batch) == multiset(before) + multiset{last};
      assert Clash(batch, x, y);
    }
  }

  lemma FaultOffends(rules: Rules, batch: seq<Mutation>, m: Mutation, seen: set<string>, error: WriteError)
    requires m in batch && !WellFormed(rules, m) && CheckOne(rules, m, seen) == Some(error)
    ensures Offends(rules, batch, error)
  {
    hide ByteLength;
  }

  lemma {:induction false} FirstErrorOffends(rules: Rules, batch: seq<Mutation>, error: WriteError)
    requires FirstError(rules, batch) == Some(error)
    ensures Offends(rules, batch, error)
  {
    hide Offends, CheckOne;
    var before, last := batch[..|batch| - 1], batch[|batch| - 1];
    assert batch == before + [last];
    if FirstError(rules, before).Some? {
      FirstErrorOffends(rules, before, error);
      MoreOffends(rules, before, last, error);
    } else if WellFormed(rules, last) {
      Repeats(rules, last, KeysOf(before));
      RepeatOffends(rules, before, last);
    } else {
      FaultOffends(rules, batch, last, KeysOf(before), error);
    }
  }

  lemma {:induction false} Listed(m: multiset<Mutation>) returns (s: seq<Mutation>)
    ensures multiset(s) == m
    decreases |m|
  {
    if m == multiset{} {
      s := [];
    } else {
      var x :| x in m;
      var rest := Listed(m - multiset{x});
      s := [x] + rest;
    }
  }

  /** Any part of a batch can be written first. */
  lemma WrittenFirst(batch: seq<Mutation>, front: seq<Mutation>) returns (order: seq<Mutation>)
    requires multiset(front) <= multiset(batch)
    ensures Reordered(batch, order) && front <= order
  {
    var rest := Listed(multiset(batch) - multiset(front));
    order := front + rest;
  }

  lemma OneAlone(rules: Rules, m: Mutation)
    ensures FirstError(rules, [m]) == CheckOne(rules, m, {}) && KeysOf([m]) == {m.key}
  {
    hide CheckOne;
    assert [m][..0] == [];
  }

  lemma TwoAlone(rules: Rules, x: Mutation, y: Mutation)
    requires WellFormed(rules, x) && WellFormed(rules, y) && x.key == y.key
    ensures FirstError(rules, [x, y]) == Some(DuplicateKey)
  {
    hide ByteLength;
    assert [x, y][..1] == [x];
    OneAlone(rules, x);
  }

  lemma FrontDecides(rules: Rules, batch: seq<Mutation>, front: seq<Mutation>, error: WriteError)
    returns (order: seq<Mutation>)
    requires multiset(front) <= multiset(batch) && FirstError(rules, front) == Some(error)
    ensures Reordered(batch, order) && FirstError(rules, order) == Some(error)
  {
    hide FirstError;
    order := WrittenFirst(batch, front);
    assert order[..|front|] == front;
    ErrorStays(rules, order, |front|);
  }

  /** Writing an offence first makes it the one that is named. */
  lemma OffenceFirst(rules: Rules, batch: seq<Mutation>, error: WriteError) returns (order: seq<Mutation>)
    requires Offends(rules, batch, error)
    ensures Reordered(batch, order) && FirstError(rules, order) == Some(error)
  {
    hide FirstError, CheckOne, WellFormed;
    if m :| m in batch && CheckOne(rules, m, {}) == Some(error) {
      OneAlone(rules, m);
      assert m in multiset(batch);
      order := FrontDecides(rules, batch, [m], error);
    } else {
      var x, y :| Clash(batch, x, y) && WellFormed(rules, x) && WellFormed(rules, y);
      TwoAlone(rules, x, y);
      assert multiset([x, y]) == multiset{x, y};
      order := FrontDecides(rules, batch, [x, y], error);
    }
  }

  /** The errors a batch can end with, over all orders of its mutations, are exactly its offences. */
  lemma SomeOrderNamesIffOffends(rules: Rules, batch: seq<Mutation>, error: WriteError)
    ensures (exists order :: Reordered(batch, order) && FirstError(rules, order) == Some(error))
       <==> Offends(rules, batch, error)
  {
    if order :| Reordered(batch, order) && FirstError(rules, order) == Some(error) {
      FirstErrorOffends(rules, order, error);
      Members(batch, order);
      assert forall x, y :: Clash(batch, x, y) <==> Clash(order, x, y);
    }
    if Offends(rules, batch, error) {
      var order := OffenceFirst(rules, batch, error);
    }
  }

  /** The order does not matter for the error either exactly when a batch has at most one kind of offence. */
  lemma ErrorIsOrderFreeIffOneOffence(rules: Rules, batch: seq<Mutation>)
    ensures (forall order :: Reordered(batch, order) ==> FirstError(rules, order) == FirstError(rules, batch))
       <==> (forall e, f :: Offends(rules, batch, e) && Offends(rules, batch, f) ==> e == f)
  {
    if forall e, f :: Offends(rules, batch, e) && Offends(rules, batch, f) ==> e == f {
      forall order | Reordered(batch, order) ensures FirstError(rules, order) == FirstError(rules, batch) {
        AcceptanceIsOrderFree(rules, batch, order);
        if FirstError(rules, order).Some? {
          SomeOrderNamesIffOffends(rules, batch, FirstError(rules, order).value);
          FirstErrorOffends(rules, batch, FirstError(rules, batch).value);
        }
      }
    } else {
      var e, f :| Offends(rules, batch, e) && Offends(rules, batch, f) && e != f;
      var first := OffenceFirst(rules, batch, e);
      var second := OffenceFirst(rules, batch, f);
    }
  }

  function Accepting(): Rules {
    Rules((key, value) => value != "", value => Some(0))
  }

  /** A batch with two kinds of offence: an empty value that is refused, and a key deleted twice. */
  lemma ErrorDependsOnOrder()
    ensures var (a, b) := ([Put("a", ""), Delete("b"), Delete("b")], [Delete("b"), Delete("b"), Put("a", "")]);
            && Reordered(a, b)
            && FirstError(Accepting(), a) == Some(InvalidValue)
            && FirstError(Accepting(), b) == Some(DuplicateKey)
  {
    var put, delete := Put("a", ""), Delete("b");
    var (a, b) := ([put, delete, delete], [delete, delete, put]);
    assert ByteLength("") == 0;
    assert [put][..0] == [] && [delete][..0] == [] && [delete, delete][..1] == [delete];
    assert a[..1] == [put] && b[..2] == [delete, delete];
    ErrorStays(Accepting(), a, 1);
    ErrorStays(Accepting(), b, 2);
  }
}
