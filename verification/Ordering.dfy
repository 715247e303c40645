/** ORDER BY time, id (either direction) and LIMIT. */
module Ordering {
  import opened Basics
  import opened Counting
  import opened Text

  datatype Key = Key(at: Time, id: Id)

  datatype Direction = Ascending | Descending

  predicate Less(a: Key, b: Key) {
    a.at < b.at || (a.at == b.at && IdLess(a.id, b.id))
  }

  predicate Precedes(dir: Direction, a: Key, b: Key) {
    if dir.Ascending? then Less(a, b) else Less(b, a)
  }

  lemma PrecedesIrreflexive(dir: Direction, a: Key)
    ensures !Precedes(dir, a, a)
  {
    BytesLessIrreflexive(a.id.bytes);
  }

  lemma PrecedesTransitive(dir: Direction, a: Key, b: Key, c: Key)
    requires Precedes(dir, a, b) && Precedes(dir, b, c)
    ensures Precedes(dir, a, c)
  {
    if dir.Ascending? {
      if a.at == b.at == c.at {
        BytesLessTransitive(a.id.bytes, b.id.bytes, c.id.bytes);
      }
    } else if a.at == b.at == c.at {
      BytesLessTransitive(c.id.bytes, b.id.bytes, a.id.bytes);
    }
  }

  lemma PrecedesAsymmetric(dir: Direction, a: Key, b: Key)
    requires Precedes(dir, a, b)
    ensures !Precedes(dir, b, a) && a != b
  {
    PrecedesIrreflexive(dir, a);
    if Precedes(dir, b, a) {
      PrecedesTransitive(dir, a, b, a);
    }
  }

  lemma PrecedesTotal(dir: Direction, a: Key, b: Key)
    requires a != b
    ensures Precedes(dir, a, b) || Precedes(dir, b, a)
  {
    if a.at == b.at {
      BytesLessTotal(a.id.bytes, b.id.bytes);
    }
  }

  /** Earlier in time, or at the same time with the id that is smaller at the first differing byte. */
  ghost predicate Earlier(a: Key, b: Key) {
    a.at < b.at || (a.at == b.at && SmallerId(a.id, b.id))
  }

  /** Ascending rows come earlier first, descending rows later first. */
  lemma PrecedesExactlyWhen(a: Key, b: Key)
    ensures Precedes(Ascending, a, b) <==> Earlier(a, b)
    ensures Precedes(Descending, a, b) <==> Earlier(b, a)
  {
    IdOrder(a.id, b.id);
    IdOrder(b.id, a.id);
  }

  /** As many keys as ids, when each id has one key. */
  lemma {:induction false} SameSize(keys: set<Key>, ids: set<Id>, times: map<Id, Time>)
    requires forall k :: k in keys ==> k.id in ids && k.id in times && k.at == times[k.id]
    requires forall id :: id in ids ==> id in times && Key(times[id], id) in keys
    ensures |keys| == |ids|
    decreases |keys|
  {
    if keys != {} {
      var k :| k in keys;
      SameSize(keys - {k}, ids - {k.id}, times);
    } else {
      assert ids == {};
    }
  }

  ghost predicate IsFirst(dir: Direction, f: Key, keys: set<Key>) {
    f in keys && forall k :: k in keys && k != f ==> Precedes(dir, f, k)
  }

  /** The row an ORDER BY puts first, found by a scan. */
  method FindFirst(dir: Direction, keys: set<Key>) returns (f: Key)
    requires keys != {}
    ensures IsFirst(dir, f, keys)
  {
    f :| f in keys;
    var rest := keys - {f};
    while rest != {}
      invariant rest <= keys && f in keys - rest
      invariant IsFirst(dir, f, keys - rest)
      decreases rest
    {
      var k :| k in rest;
      if Precedes(dir, k, f) {
        forall x | x in keys - rest && x != f
          ensures Precedes(dir, k, x)
        {
          PrecedesTransitive(dir, k, f, x);
        }
        f := k;
      } else {
        PrecedesTotal(dir, k, f);
      }
      rest := rest - {k};
    }
    assert keys - rest == keys;
  }

  lemma {:induction false} FirstExists(dir: Direction, keys: set<Key>)
    requires keys != {}
    ensures exists f :: IsFirst(dir, f, keys)
    decreases |keys|
  {
    var k :| k in keys;
    if keys == {k} {
      assert IsFirst(dir, k, keys);
    } else {
      var rest := keys - {k};
      assert rest != {};
      FirstExists(dir, rest);
      var f :| IsFirst(dir, f, rest);
      PrecedesTotal(dir, k, f);
      if Precedes(dir, f, k) {
        assert IsFirst(dir, f, keys);
      } else {
        forall x | x in keys && x != k
          ensures Precedes(dir, k, x)
        {
          if x != f {
            PrecedesTransitive(dir, k, f, x);
          }
        }
        assert IsFirst(dir, k, keys);
      }
    }
  }

  lemma FirstUnique(dir: Direction, f: Key, g: Key, keys: set<Key>)
    requires IsFirst(dir, f, keys) && IsFirst(dir, g, keys)
    ensures f == g
  {
    if f != g {
      PrecedesAsymmetric(dir, f, g);
    }
  }

  /** The whole result of the ORDER BY. */
  ghost function Sort(dir: Direction, keys: set<Key>): (rows: seq<Key>)
    ensures |rows| == |keys|
    decreases |keys|
  {
    if keys == {} then []
    else
      FirstExists(dir, keys);
      var f :| IsFirst(dir, f, keys);
      [f] + Sort(dir, keys - {f})
  }

  lemma SortHead(dir: Direction, f: Key, keys: set<Key>)
    requires IsFirst(dir, f, keys)
    ensures Sort(dir, keys) == [f] + Sort(dir, keys - {f})
  {
    FirstExists(dir, keys);
    var g :| IsFirst(dir, g, keys) && Sort(dir, keys) == [g] + Sort(dir, keys - {g});
    FirstUnique(dir, f, g, keys);
  }

  lemma {:induction false} SortContents(dir: Direction, keys: set<Key>, k: Key)
    ensures k in Sort(dir, keys) <==> k in keys
    decreases |keys|
  {
    if keys != {} {
      FirstExists(dir, keys);
      var f :| IsFirst(dir, f, keys);
      SortHead(dir, f, keys);
      SortContents(dir, keys - {f}, k);
    }
  }

  ghost predicate Ordered(dir: Direction, rows: seq<Key>) {
    forall i, j :: 0 <= i < j < |rows| ==> Precedes(dir, rows[i], rows[j])
  }

  lemma {:induction false} SortOrdered(dir: Direction, keys: set<Key>)
    ensures Ordered(dir, Sort(dir, keys))
    decreases |keys|
  {
    if keys != {} {
      FirstExists(dir, keys);
      var f :| IsFirst(dir, f, keys);
      SortHead(dir, f, keys);
      SortOrdered(dir, keys - {f});
      var rest := Sort(dir, keys - {f});
      forall i, j | 0 <= i < j < |keys|
        ensures Precedes(dir, ([f] + rest)[i], ([f] + rest)[j])
      {
        if i == 0 {
          SortContents(dir, keys - {f}, rest[j - 1]);
        }
      }
    }
  }

  ghost function Ahead(dir: Direction, keys: set<Key>, c: Key): set<Key> {
    set k | k in keys && Precedes(dir, k, c)
  }

  ghost function Behind(dir: Direction, keys: set<Key>, c: Key): set<Key> {
    set k | k in keys && Precedes(dir, c, k)
  }

  lemma AroundFirst(dir: Direction, keys: set<Key>, f: Key)
    requires IsFirst(dir, f, keys)
    ensures Ahead(dir, keys, f) == {} && Behind(dir, keys, f) == keys - {f}
  {
    PrecedesIrreflexive(dir, f);
    forall k | k in keys && k != f
      ensures !Precedes(dir, k, f)
    {
      PrecedesAsymmetric(dir, f, k);
    }
  }

  lemma AroundLater(dir: Direction, keys: set<Key>, f: Key, c: Key)
    requires IsFirst(dir, f, keys) && c in keys - {f}
    ensures Ahead(dir, keys, c) == Ahead(dir, keys - {f}, c) + {f}
    ensures Behind(dir, keys, c) == Behind(dir, keys - {f}, c)
  {
    PrecedesAsymmetric(dir, f, c);
  }

  lemma AddedSize(s: set<Key>, k: Key)
    requires k !in s
    ensures |s + {k}| == |s| + 1
  {
  }

  /** The row at position i has exactly i rows before it. */
  lemma {:induction false} SortPosition(dir: Direction, keys: set<Key>, i: nat)
    requires i < |keys|
    ensures |Ahead(dir, keys, Sort(dir, keys)[i])| == i
    decreases |keys|
  {
    FirstExists(dir, keys);
    var f :| IsFirst(dir, f, keys);
    SortHead(dir, f, keys);
    if i == 0 {
      AroundFirst(dir, keys, f);
    } else {
      var c := Sort(dir, keys - {f})[i - 1];
      SortContents(dir, keys - {f}, c);
      SortPosition(dir, keys - {f}, i - 1);
      AroundLater(dir, keys, f, c);
      AddedSize(Ahead(dir, keys - {f}, c), f);
    }
  }

  lemma TailOfCons<T>(head: T, tail: seq<T>, i: nat)
    requires 0 < i <= |tail|
    ensures ([head] + tail)[i + 1..] == tail[i..]
  {
  }

  /** Sorting the rows strictly after position i gives the tail of the sort. */
  lemma {:induction false} SortAfter(dir: Direction, keys: set<Key>, i: nat)
    requires i < |keys|
    ensures Sort(dir, Behind(dir, keys, Sort(dir, keys)[i])) == Sort(dir, keys)[i + 1..]
    decreases |keys|
  {
    FirstExists(dir, keys);
    var f :| IsFirst(dir, f, keys);
    SortHead(dir, f, keys);
    if i == 0 {
      AroundFirst(dir, keys, f);
    } else {
      var c := Sort(dir, keys - {f})[i - 1];
      SortContents(dir, keys - {f}, c);
      SortAfter(dir, keys - {f}, i - 1);
      AroundLater(dir, keys, f, c);
      TailOfCons(f, Sort(dir, keys - {f}), i);
    }
  }

  lemma MoveFirst(dir: Direction, rows: seq<Key>, rest: set<Key>, f: Key)
    requires IsFirst(dir, f, rest)
    ensures rows + Sort(dir, rest) == (rows + [f]) + Sort(dir, rest - {f})
  {
    SortHead(dir, f, rest);
    assert rows + ([f] + Sort(dir, rest - {f})) == (rows + [f]) + Sort(dir, rest - {f});
  }

  /** The first n rows of the ORDER BY, or all of them when there are fewer. */
  ghost function Top(dir: Direction, keys: set<Key>, n: nat): seq<Key> {
    Sort(dir, keys)[..Min(n, |keys|)]
  }

  /** A row is among the first n exactly when fewer than n rows come before it. */
  lemma TopExactlyWhen(dir: Direction, keys: set<Key>, n: nat, k: Key)
    ensures k in Top(dir, keys, n) <==> k in keys && |Ahead(dir, keys, k)| < n
  {
    var rows := Sort(dir, keys);
    SortContents(dir, keys, k);
    if k in keys {
      var p :| 0 <= p < |rows| && rows[p] == k;
      SortPosition(dir, keys, p);
      if p < n {
        assert Top(dir, keys, n)[p] == k;
      }
    }
    if k in Top(dir, keys, n) {
      var q :| 0 <= q < |Top(dir, keys, n)| && Top(dir, keys, n)[q] == k;
      assert rows[q] == k;
      SortPosition(dir, keys, q);
    }
  }

  lemma TopSplit(dir: Direction, keys: set<Key>, n: nat, rows: seq<Key>, rest: set<Key>)
    requires rows + Sort(dir, rest) == Sort(dir, keys)
    requires |rows| == n || (|rows| < n && rest == {})
    ensures rows == Top(dir, keys, n)
  {
    assert |rows| + |rest| == |keys|;
    assert rows == (rows + Sort(dir, rest))[..|rows|];
  }

  /** ORDER BY ... LIMIT limit. */
  method Select(dir: Direction, keys: set<Key>, limit: nat) returns (rows: seq<Key>)
    ensures rows == Top(dir, keys, limit)
  {
    rows := [];
    var rest := keys;
    while |rows| < limit && rest != {}
      invariant |rows| <= limit
      invariant rows + Sort(dir, rest) == Sort(dir, keys)
      decreases rest
    {
      var f := FindFirst(dir, rest);
      MoveFirst(dir, rows, rest, f);
      rows, rest := rows + [f], rest - {f};
    }
    TopSplit(dir, keys, limit, rows, rest);
  }
}
