/** Reading and ordering the 'sessions' store: `getAll`, and the comparator
    `(x.startedAt || 0)` that the recorder sorts by, oldest first for
    retention and newest first for listings. JavaScript's sort is stable and
    a query returns rows in key order, so ties on `startedAt` keep the
    query's order: ascending id over the store, roomId and then id over the
    'byRoom' index. The model states each as one strict total order. */
module SessionStore {
  import opened Common

  /** IndexedDB's order on string keys: lexicographic by character. */
  predicate StrLess(a: string, b: string)
  {
    |b| > 0 && (|a| == 0 || a[0] < b[0] || (a[0] == b[0] && StrLess(a[1..], b[1..])))
  }

  lemma {:induction false} StrLessIrreflexive(a: string)
    ensures !StrLess(a, a)
  {
    if |a| > 0 {
      StrLessIrreflexive(a[1..]);
    }
  }

  lemma {:induction false} StrLessTransitive(a: string, b: string, c: string)
    requires StrLess(a, b) && StrLess(b, c)
    ensures StrLess(a, c)
  {
    if |a| > 0 && a[0] == b[0] && b[0] == c[0] {
      StrLessTransitive(a[1..], b[1..], c[1..]);
    }
  }

  lemma {:induction false} StrLessTotal(a: string, b: string)
    requires a != b
    ensures StrLess(a, b) || StrLess(b, a)
  {
    if |a| > 0 && |b| > 0 && a[0] == b[0] {
      assert a == [a[0]] + a[1..] && b == [b[0]] + b[1..];
      StrLessTotal(a[1..], b[1..]);
    }
  }

  /** The orders the code sorts sessions in. Retention sorts oldest first
      and listings newest first, over the store's `getAll`, which returns
      rows by id. `getSessionsByRoom` sorts newest first over the 'byRoom'
      index, which returns rows by roomId and then by id. */
  datatype Order = OldestFirst | NewestFirst | NewestFirstByRoom

  /** The roomId a row is filed under in the 'byRoom' index; rows without
      one are not in the index, and any fixed key would do for them. */
  function RoomKey(s: Session): string
  {
    if s.roomId.Some? then s.roomId.value else ""
  }

  /** The order the sort keeps among rows with equal `startedAt || 0`: the
      order in which the query returned them. */
  predicate TieBefore(a: Session, b: Session, order: Order)
  {
    if order.NewestFirstByRoom? then
      StrLess(RoomKey(a), RoomKey(b)) || (RoomKey(a) == RoomKey(b) && StrLess(a.id, b.id))
    else
      StrLess(a.id, b.id)
  }

  /** `a` sorts strictly before `b`: by `startedAt || 0` (ascending for
      `OldestFirst`, otherwise descending); the stable sort keeps ties in
      query order. */
  predicate Before(a: Session, b: Session, order: Order)
  {
    var ka, kb := StartedOrZero(a), StartedOrZero(b);
    (if order.OldestFirst? then ka < kb else ka > kb) || (ka == kb && TieBefore(a, b, order))
  }

  lemma BeforeTransitive(a: Session, b: Session, c: Session, order: Order)
    requires Before(a, b, order) && Before(b, c, order)
    ensures Before(a, c, order)
  {
    if StartedOrZero(a) == StartedOrZero(b) == StartedOrZero(c) {
      var ra, rb, rc := RoomKey(a), RoomKey(b), RoomKey(c);
      if order.NewestFirstByRoom? && StrLess(ra, rb) && StrLess(rb, rc) {
        StrLessTransitive(ra, rb, rc);
      } else if !order.NewestFirstByRoom? || ra == rb == rc {
        StrLessTransitive(a.id, b.id, c.id);
      }
    }
  }

  lemma BeforeTotal(a: Session, b: Session, order: Order)
    requires a.id != b.id
    ensures Before(a, b, order) || Before(b, a, order)
  {
    StrLessTotal(a.id, b.id);
    if RoomKey(a) != RoomKey(b) {
      StrLessTotal(RoomKey(a), RoomKey(b));
    }
  }

  ghost predicate SortedBy(s: seq<Session>, order: Order)
  {
    forall i, j :: 0 <= i < j < |s| ==> Before(s[i], s[j], order)
  }

  ghost predicate DistinctIds(s: seq<Session>)
  {
    forall i, j :: 0 <= i < j < |s| ==> s[i].id != s[j].id
  }

  function Ids(s: seq<Session>): set<string>
  {
    set y | y in s :: y.id
  }

  /** One insertion step of the sort: `x` goes before the first row it
      sorts before. */
  function Insert(s: seq<Session>, x: Session, order: Order): (r: seq<Session>)
    ensures multiset(r) == multiset(s) + multiset{x}
  {
    if |s| == 0 then [x]
    else if Before(x, s[0], order) then [x] + s
    else
      assert s == [s[0]] + s[1..];
      [s[0]] + Insert(s[1..], x, order)
  }

  lemma PrependSorted(y: Session, u: seq<Session>, order: Order)
    requires SortedBy(u, order) && DistinctIds(u)
    requires forall z :: z in u ==> Before(y, z, order) && y.id != z.id
    ensures SortedBy([y] + u, order) && DistinctIds([y] + u)
  {
    var r := [y] + u;
    forall i, j | 0 <= i < j < |r| ensures Before(r[i], r[j], order) && r[i].id != r[j].id {
      if i == 0 {
        assert r[j] == u[j - 1];
        assert u[j - 1] in u;
      } else {
        assert r[i] == u[i - 1] && r[j] == u[j - 1];
      }
    }
  }

  lemma {:induction false} InsertSorted(s: seq<Session>, x: Session, order: Order)
    requires SortedBy(s, order) && DistinctIds(s)
    requires x.id !in Ids(s)
    ensures SortedBy(Insert(s, x, order), order)
    ensures DistinctIds(Insert(s, x, order))
  {
    if |s| == 0 {
    } else if Before(x, s[0], order) {
      forall z | z in s ensures Before(x, z, order) && x.id != z.id {
        var k :| 0 <= k < |s| && s[k] == z;
        if k > 0 { BeforeTransitive(x, s[0], z, order); }
      }
      PrependSorted(x, s, order);
    } else {
      var t := s[1..];
      assert Ids(t) <= Ids(s) by {
        forall y | y in t ensures y in s { }
      }
      InsertSorted(t, x, order);
      var it := Insert(t, x, order);
      BeforeTotal(x, s[0], order);
      forall z | z in it ensures Before(s[0], z, order) && s[0].id != z.id {
        assert z in multiset(it);
        if z != x {
          assert z in multiset(t);
          var k :| 0 <= k < |t| && t[k] == z;
          assert s[k + 1] == z;
        } else {
          assert s[0] in s;
        }
      }
      PrependSorted(s[0], it, order);
    }
  }

  lemma IdsAppend(a: seq<Session>, b: seq<Session>)
    ensures Ids(a + b) == Ids(a) + Ids(b)
  {
    forall x | x in Ids(a + b) ensures x in Ids(a) + Ids(b) {
      var y :| y in a + b && y.id == x;
    }
    forall x | x in Ids(a) + Ids(b) ensures x in Ids(a + b) {
      if x in Ids(a) {
        var y :| y in a && y.id == x;
        assert y in a + b;
      } else {
        var y :| y in b && y.id == x;
        assert y in a + b;
      }
    }
  }

  /** The ids of one more row of a sequence. */
  lemma IdsStep(s: seq<Session>, i: nat)
    requires i < |s|
    ensures Ids(s[..0]) == {}
    ensures Ids(s[..i + 1]) == Ids(s[..i]) + {s[i].id}
  {
    assert s[..i + 1] == s[..i] + [s[i]];
    IdsAppend(s[..i], [s[i]]);
    IdsSingle(s[i]);
  }

  lemma IdsSingle(r: Session)
    ensures Ids([r]) == {r.id}
  {
    assert r in [r];
  }

  /** A row whose id is among the distinct ids of `rows` keeps them distinct
      only if it is new. */
  lemma IdNotIn(rows: seq<Session>, r: Session)
    requires r.id !in Ids(rows)
    ensures forall i :: 0 <= i < |rows| ==> rows[i].id != r.id
  {
    forall i | 0 <= i < |rows| ensures rows[i].id != r.id {
      assert rows[i] in rows;
    }
  }

  lemma AppendDistinct(s: seq<Session>, r: Session)
    requires DistinctIds(s)
    requires forall y :: y in s ==> y.id != r.id
    ensures DistinctIds(s + [r])
  {
    forall i, j | 0 <= i < j < |s| + 1 ensures (s + [r])[i].id != (s + [r])[j].id {
      assert s[i] in s;
    }
  }

  /** `getAll()` on the sessions store: every row exactly once. */
  method GetAll(db: Db) returns (rows: seq<Session>)
    requires WellKeyed(db)
    ensures DistinctIds(rows)
    ensures Ids(rows) == db.sessions.Keys
    ensures forall r :: r in rows ==> r.id in db.sessions && db.sessions[r.id] == r
  {
    rows := [];
    var remaining := db.sessions.Keys;
    while remaining != {}
      invariant remaining <= db.sessions.Keys
      invariant Ids(rows) == db.sessions.Keys - remaining
      invariant DistinctIds(rows)
      invariant forall r :: r in rows ==> r.id in db.sessions && db.sessions[r.id] == r
      decreases remaining
    {
      var id :| id in remaining;
      var r := db.sessions[id];
      IdsAppend(rows, [r]);
      IdsSingle(r);
      IdNotIn(rows, r);
      rows := rows + [r];
      remaining := remaining - {id};
    }
  }

  lemma NextIdIsNew(rows: seq<Session>, i: nat, sorted: seq<Session>)
    requires DistinctIds(rows) && i < |rows|
    requires multiset(sorted) == multiset(rows[..i])
    ensures rows[i].id !in Ids(sorted)
  {
    forall y | y in sorted ensures y.id != rows[i].id {
      assert y in multiset(rows[..i]);
      var k :| 0 <= k < i && rows[..i][k] == y;
    }
  }

  /** `rows.sort(...)`: the rows in the given order, nothing added or lost. */
  method SortSessions(rows: seq<Session>, order: Order) returns (sorted: seq<Session>)
    requires DistinctIds(rows)
    ensures SortedBy(sorted, order)
    ensures DistinctIds(sorted)
    ensures multiset(sorted) == multiset(rows)
  {
    sorted := [];
    var i := 0;
    while i < |rows|
      invariant 0 <= i <= |rows|
      invariant SortedBy(sorted, order) && DistinctIds(sorted)
      invariant multiset(sorted) == multiset(rows[..i])
    {
      NextIdIsNew(rows, i, sorted);
      InsertSorted(sorted, rows[i], order);
      assert rows[..i + 1] == rows[..i] + [rows[i]];
      sorted := Insert(sorted, rows[i], order);
      i := i + 1;
    }
    assert rows[..i] == rows;
  }

  /** Rows equal as multisets have the same ids. */
  lemma SameIds(a: seq<Session>, b: seq<Session>)
    requires multiset(a) == multiset(b)
    ensures Ids(a) == Ids(b)
  {
    forall x | x in Ids(a) ensures x in Ids(b) {
      var y :| y in a && y.id == x;
      assert y in multiset(b);
    }
    forall x | x in Ids(b) ensures x in Ids(a) {
      var y :| y in b && y.id == x;
      assert y in multiset(a);
    }
  }

  /** A sequence with distinct ids has as many ids as elements. */
  lemma {:induction false} DistinctIdsCount(s: seq<Session>)
    requires DistinctIds(s)
    ensures |Ids(s)| == |s|
  {
    if |s| > 0 {
      var n := |s|;
      var t := s[..n - 1];
      DistinctIdsCount(t);
      assert s == t + [s[n - 1]];
      IdsAppend(t, [s[n - 1]]);
      IdsSingle(s[n - 1]);
      assert s[n - 1].id !in Ids(t) by {
        forall y | y in t ensures y.id != s[n - 1].id {
          var k :| 0 <= k < n - 1 && t[k] == y;
        }
      }
    }
  }
}
