/**
 `ChatRows` of src/state.rs: one chat's settings as a vector kept sorted by key and searched by halving, and the proof
 that it behaves like a map.
 */
module Rows {
  import opened Options
  import Utf8

  datatype Row = Row(key: string, value: string)

  // ---------------------------------------------------------------- the order of keys

  /** Lexicographic order of code points, which for UTF-8 is also the order of the encoded bytes. */
  predicate Before(a: string, b: string) {
    b != [] && (a == [] || a[0] < b[0] || (a[0] == b[0] && Before(a[1..], b[1..])))
  }

  lemma {:induction false} BeforeIsStrict(a: string, b: string)
    requires Before(a, b)
    ensures a != b && !Before(b, a)
  {
    if a != [] && a[0] == b[0] {
      BeforeIsStrict(a[1..], b[1..]);
    }
  }

  lemma {:induction false} BeforeIsTotal(a: string, b: string)
    ensures a == b || Before(a, b) || Before(b, a)
  {
    if a != [] && b != [] && a[0] == b[0] {
      BeforeIsTotal(a[1..], b[1..]);
      assert a == [a[0]] + a[1..] && b == [b[0]] + b[1..];
    }
  }

  lemma {:induction false} BeforeIsTransitive(a: string, b: string, c: string)
    requires Before(a, b) && Before(b, c)
    ensures Before(a, c)
  {
    if a != [] && a[0] == b[0] == c[0] {
      BeforeIsTransitive(a[1..], b[1..], c[1..]);
    }
  }

  /** The order of the code points is the order of the encoded bytes. */
  lemma {:induction false} BeforeIsByteOrder(a: string, b: string)
    ensures Before(a, b) <==> Utf8.BytesBefore(Utf8.Encoded(a), Utf8.Encoded(b))
  {
    hide Utf8.Bytes;
    if a != [] && b != [] {
      var (x, y) := (Utf8.Encoded(a[1..]), Utf8.Encoded(b[1..]));
      assert Utf8.Encoded(a) == Utf8.Bytes(a[0]) + x && Utf8.Encoded(b) == Utf8.Bytes(b[0]) + y;
      hide Utf8.Encoded, Utf8.BytesBefore;
      if a[0] == b[0] {
        BeforeIsByteOrder(a[1..], b[1..]);
        Utf8.SamePrefix(Utf8.Bytes(a[0]), x, y);
      } else if a[0] < b[0] {
        var k := Utf8.BytesPart(a[0], b[0]);
        Utf8.PartsDecide(Utf8.Bytes(a[0]), Utf8.Bytes(b[0]), k, x, y);
      } else {
        var k := Utf8.BytesPart(b[0], a[0]);
        Utf8.PartsDecide(Utf8.Bytes(b[0]), Utf8.Bytes(a[0]), k, y, x);
      }
    }
  }

  // ---------------------------------------------------------------- sorted vectors

  predicate Sorted(rows: seq<Row>) {
    forall i, j :: 0 <= i < j < |rows| ==> Before(rows[i].key, rows[j].key)
  }

  lemma KeysDiffer(rows: seq<Row>, i: nat, j: nat)
    requires Sorted(rows) && i < |rows| && j < |rows| && i != j
    ensures rows[i].key != rows[j].key
  {
    BeforeIsStrict(rows[if i < j then i else j].key, rows[if i < j then j else i].key);
  }

  ghost predicate HasKey(rows: seq<Row>, key: string) {
    exists i :: 0 <= i < |rows| && rows[i].key == key
  }

  /** The map a vector stands for: its keys are the keys of the rows, and the value of a key is the value of its row. */
  ghost predicate Holds(rows: seq<Row>, m: map<string, string>) {
    && (forall i :: 0 <= i < |rows| ==> rows[i].key in m && m[rows[i].key] == rows[i].value)
    && (forall key :: key in m ==> HasKey(rows, key))
  }

  /** Where a key is, or where it belongs. */
  ghost predicate At(rows: seq<Row>, key: string, at: nat, found: bool) {
    && at <= |rows|
    && (found ==> at < |rows| && rows[at].key == key)
    && (forall i :: 0 <= i < at ==> Before(rows[i].key, key))
    && (forall i :: (if found then at + 1 else at) <= i < |rows| ==> Before(key, rows[i].key))
  }

  function Insert(rows: seq<Row>, key: string, value: string, at: nat, found: bool): seq<Row>
    requires at <= |rows| && (found ==> at < |rows|)
  {
    if found then rows[at := Row(key, value)] else rows[..at] + [Row(key, value)] + rows[at..]
  }

  function Delete(rows: seq<Row>, at: nat): seq<Row>
    requires at < |rows|
  {
    rows[..at] + rows[at + 1..]
  }

  lemma FoundMeansHeld(rows: seq<Row>, m: map<string, string>, key: string, at: nat, found: bool)
    requires Sorted(rows) && Holds(rows, m) && At(rows, key, at, found)
    ensures found <==> key in m
    ensures found ==> m[key] == rows[at].value
  {
    if key in m {
      assert HasKey(rows, key);
      var i :| 0 <= i < |rows| && rows[i].key == key;
      if !found {
        BeforeIsStrict(if i < at then rows[i].key else key, if i < at then key else rows[i].key);
      }
    }
  }

  lemma InsertKeepsSorted(rows: seq<Row>, key: string, value: string, at: nat, found: bool)
    requires Sorted(rows) && At(rows, key, at, found)
    ensures Sorted(Insert(rows, key, value, at, found))
  {
  }

  lemma DeleteIsRemoval(rows: seq<Row>, m: map<string, string>, key: string, at: nat)
    requires Sorted(rows) && Holds(rows, m) && At(rows, key, at, true)
    ensures Sorted(Delete(rows, at))
    ensures Holds(Delete(rows, at), m - {key})
  {
    hide Before;
    var after := Delete(rows, at);
    forall k | k in m - {key} ensures HasKey(after, k) {
      assert HasKey(rows, k);
      var i :| 0 <= i < |rows| && rows[i].key == k;
      assert after[if i < at then i else i - 1].key == k;
    }
    forall i | 0 <= i < |after| ensures after[i].key in m - {key} && m[after[i].key] == after[i].value {
      if i < at {
        BeforeIsStrict(rows[i].key, key);
      } else {
        BeforeIsStrict(key, rows[i + 1].key);
      }
    }
  }

  lemma FreshInsertHolds(rows: seq<Row>, m: map<string, string>, key: string, value: string, at: nat)
    requires Holds(rows, m) && At(rows, key, at, false)
    ensures Holds(Insert(rows, key, value, at, false), m[key := value])
  {
    hide Before;
    var after := Insert(rows, key, value, at, false);
    forall k | k in m[key := value] ensures HasKey(after, k) {
      if k == key {
        assert after[at].key == k;
      } else {
        assert HasKey(rows, k);
        var i :| 0 <= i < |rows| && rows[i].key == k;
        assert after[if i < at then i else i + 1].key == k;
      }
    }
    forall i | 0 <= i < |after| ensures after[i].key in m[key := value] && m[key := value][after[i].key] == after[i].value {
      if i < at {
        BeforeIsStrict(rows[i].key, key);
      } else if i > at {
        BeforeIsStrict(key, rows[i - 1].key);
      }
    }
  }

  /** Replacing a row is removing it and inserting it where it was. */
  lemma ReplaceIsReinsert(rows: seq<Row>, m: map<string, string>, key: string, value: string, at: nat)
    requires At(rows, key, at, true)
    ensures At(Delete(rows, at), key, at, false)
    ensures Insert(rows, key, value, at, true) == Insert(Delete(rows, at), key, value, at, false)
    ensures (m - {key})[key := value] == m[key := value]
  {
    hide Before;
    assert Insert(rows, key, value, at, true) == Insert(Delete(rows, at), key, value, at, false);
    assert (m - {key})[key := value] == m[key := value];
  }

  lemma InsertIsUpdate(rows: seq<Row>, m: map<string, string>, key: string, value: string, at: nat, found: bool)
    requires Sorted(rows) && Holds(rows, m) && At(rows, key, at, found)
    ensures Sorted(Insert(rows, key, value, at, found))
    ensures Holds(Insert(rows, key, value, at, found), m[key := value])
  {
    hide Sorted, Holds, Insert, Delete, Before;
    InsertKeepsSorted(rows, key, value, at, found);
    if found {
      DeleteIsRemoval(rows, m, key, at);
      ReplaceIsReinsert(rows, m, key, value, at);
      FreshInsertHolds(Delete(rows, at), m - {key}, key, value, at);
    } else {
      FreshInsertHolds(rows, m, key, value, at);
    }
  }

  lemma {:induction false} LengthIsCount(rows: seq<Row>, m: map<string, string>)
    requires Sorted(rows) && Holds(rows, m)
    ensures |rows| == |m|
  {
    if rows == [] {
      forall key ensures key !in m {
        if HasKey(rows, key) {}
      }
      assert m == map[];
    } else {
      var at := |rows| - 1;
      DeleteIsRemoval(rows, m, rows[at].key, at);
      assert Delete(rows, at) == rows[..at];
      LengthIsCount(rows[..at], m - {rows[at].key});
      assert m == (m - {rows[at].key})[rows[at].key := rows[at].value];
    }
  }

  /** Two sorted vectors that stand for the same map are the same vector. */
  lemma {:induction false} SortedIsCanonical(a: seq<Row>, b: seq<Row>, m: map<string, string>)
    requires Sorted(a) && Sorted(b) && Holds(a, m) && Holds(b, m)
    ensures a == b
  {
    LengthIsCount(a, m);
    LengthIsCount(b, m);
    forall n: nat | n < |a| ensures a[n] == b[n] {
      SamePrefix(a, b, m, n);
    }
  }

  lemma {:induction false} SamePrefix(a: seq<Row>, b: seq<Row>, m: map<string, string>, n: nat)
    requires Sorted(a) && Sorted(b) && Holds(a, m) && Holds(b, m) && n < |a| == |b|
    ensures a[n] == b[n]
  {
    hide Before;
    assert HasKey(b, a[n].key) && HasKey(a, b[n].key);
    var i :| 0 <= i < |b| && b[i].key == a[n].key;
    var j :| 0 <= j < |a| && a[j].key == b[n].key;
    if i < n {
      SamePrefix(a, b, m, i);
      KeysDiffer(a, i, n);
    } else if j < n {
      SamePrefix(a, b, m, j);
      KeysDiffer(b, j, n);
    } else if i > n && j > n {
      BeforeIsStrict(a[n].key, a[j].key);
    } else if i > n {
      KeysDiffer(b, i, n);
    }
  }

  // ---------------------------------------------------------------- the search

  lemma BeforeAll(rows: seq<Row>, at: nat, key: string)
    requires Sorted(rows) && at < |rows| && Before(rows[at].key, key)
    ensures forall i :: 0 <= i <= at ==> Before(rows[i].key, key)
  {
    forall i | 0 <= i < at ensures Before(rows[i].key, key) {
      BeforeIsTransitive(rows[i].key, rows[at].key, key);
    }
  }

  lemma AfterAll(rows: seq<Row>, at: nat, key: string)
    requires Sorted(rows) && at < |rows| && Before(key, rows[at].key)
    ensures forall i :: at <= i < |rows| ==> Before(key, rows[i].key)
  {
    forall i | at < i < |rows| ensures Before(key, rows[i].key) {
      BeforeIsTransitive(key, rows[at].key, rows[i].key);
    }
  }

  method Find(rows: seq<Row>, key: string) returns (at: nat, found: bool)
    requires Sorted(rows)
    ensures At(rows, key, at, found)
  {
    var low, high := 0, |rows|;
    while low < high
      invariant 0 <= low <= high <= |rows|
      invariant forall i :: 0 <= i < low ==> Before(rows[i].key, key)
      invariant forall i :: high <= i < |rows| ==> Before(key, rows[i].key)
    {
      var middle := low + (high - low) / 2;
      BeforeIsTotal(rows[middle].key, key);
      if rows[middle].key == key {
        return middle, true;
      } else if Before(rows[middle].key, key) {
        BeforeAll(rows, middle, key);
        low := middle + 1;
      } else {
        AfterAll(rows, middle, key);
        high := middle;
      }
    }
    return low, false;
  }

  // ---------------------------------------------------------------- the object

  class ChatRows {
    var rows: seq<Row>
    ghost var contents: map<string, string>

    ghost predicate Valid()
      reads this
    {
      Sorted(rows) && Holds(rows, contents)
    }

    constructor ()
      ensures Valid() && contents == map[]
    {
      rows, contents := [], map[];
    }

    method Get(key: string) returns (value: Option<string>)
      requires Valid()
      ensures value == if key in contents then Some(contents[key]) else None
    {
      var at, found := Find(rows, key);
      FoundMeansHeld(rows, contents, key, at, found);
      value := if found then Some(rows[at].value) else None;
    }

    method Put(key: string, value: string) returns (previous: Option<string>)
      requires Valid()
      modifies this
      ensures Valid() && contents == old(contents)[key := value]
      ensures previous == if key in old(contents) then Some(old(contents)[key]) else None
    {
      var at, found := Find(rows, key);
      FoundMeansHeld(rows, contents, key, at, found);
      InsertIsUpdate(rows, contents, key, value, at, found);
      previous := if found then Some(rows[at].value) else None;
      rows := Insert(rows, key, value, at, found);
      contents := contents[key := value];
    }

    method Remove(key: string) returns (previous: Option<string>)
      requires Valid()
      modifies this
      ensures Valid() && contents == old(contents) - {key}
      ensures previous == if key in old(contents) then Some(old(contents)[key]) else None
    {
      var at, found := Find(rows, key);
      FoundMeansHeld(rows, contents, key, at, found);
      if found {
        DeleteIsRemoval(rows, contents, key, at);
        previous := Some(rows[at].value);
        rows := Delete(rows, at);
      } else {
        previous := None;
      }
      contents := contents - {key};
    }
  }
}
