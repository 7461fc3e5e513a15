/**
 * RoomRepository.findRoomsByFilters: the rooms that pass every filter the caller
 * supplied, newest room id first. A filter given as null imposes nothing. Dates are
 * day numbers, so LocalDate comparison is integer comparison.
 */
module RoomRepository {
  import opened Outcomes
  import opened BookDomain
  import opened JavaStrings

  /** The columns of a room the query reads; `recordCount` is `SIZE(r.records)`. */
  datatype Room = Room(
    roomId: int,
    roomName: string,
    book: Book,
    startDate: int,
    recruitEndDate: int,
    progressEndDate: int,
    recordCount: nat)

  /** The query parameters; `None` is a null parameter. */
  datatype RoomFilters = RoomFilters(
    searchTerm: Option<string>,
    genre: Option<GenreType>,
    recruitStartDate: Option<int>,
    recruitEndDate: Option<int>,
    roomStartDate: Option<int>,
    roomEndDate: Option<int>,
    recordCount: Option<int>)

  const NoFilters := RoomFilters(None, None, None, None, None, None, None)

  /** The search-term conjunct: the term occurs in the room's name or its book's title. */
  predicate SearchTermHolds(r: Room, term: Option<string>)
  {
    term.None? || Contains(r.roomName, term.value) || Contains(r.book.bookTitle, term.value)
  }

  /** The other conjuncts of the WHERE clause, one per parameter. */
  predicate ColumnFiltersHold(r: Room, f: RoomFilters)
  {
    && (f.genre.None? || r.book.genre == f.genre.value)
    && (f.recruitStartDate.None? || r.startDate >= f.recruitStartDate.value)
    && (f.recruitEndDate.None? || r.recruitEndDate <= f.recruitEndDate.value)
    && (f.roomStartDate.None? || r.startDate >= f.roomStartDate.value)
    && (f.roomEndDate.None? || r.progressEndDate <= f.roomEndDate.value)
    && (f.recordCount.None? || r.recordCount >= f.recordCount.value)
  }

  /**
   * The WHERE clause. With no parameter every room passes; an empty search term
   * (`LIKE '%%'`) imposes nothing; otherwise a room passes exactly when it meets the
   * column conditions and the search term occurs in its name or its book's title.
   */
  predicate Matches(r: Room, f: RoomFilters): (b: bool)
    ensures f == NoFilters ==> b
    ensures b ==> ColumnFiltersHold(r, f)
    ensures f.searchTerm == Some([]) ==> (b <==> ColumnFiltersHold(r, f))
    ensures f.searchTerm.Some? ==> var t := f.searchTerm.value;
      var occurs := (exists i :: OccursAt(r.roomName, t, i)) || (exists i :: OccursAt(r.book.bookTitle, t, i));
      b <==> ColumnFiltersHold(r, f) && occurs
  {
    var t := if f.searchTerm.Some? then f.searchTerm.value else [];
    ContainsIffOccurs(r.roomName, t);
    ContainsIffOccurs(r.book.bookTitle, t);
    SearchTermHolds(r, f.searchTerm) && ColumnFiltersHold(r, f)
  }

  /** Room ids are the table's primary key. */
  ghost predicate DistinctIds(rooms: seq<Room>)
  {
    forall i, j :: 0 <= i < j < |rooms| ==> rooms[i].roomId != rooms[j].roomId
  }

  /** `ORDER BY r.roomId DESC` over distinct ids. */
  ghost predicate StrictlyDescending(rooms: seq<Room>)
  {
    forall i, j :: 0 <= i < j < |rooms| ==> rooms[i].roomId > rooms[j].roomId
  }

  /** The rooms that satisfy the WHERE clause, in table order. */
  function Filter(rooms: seq<Room>, f: RoomFilters): (r: seq<Room>)
    ensures forall x :: x in r <==> x in rooms && Matches(x, f)
    ensures multiset(r) <= multiset(rooms)
  {
    if rooms == [] then []
    else
      var rest := Filter(rooms[1..], f);
      assert rooms == [rooms[0]] + rooms[1..];
      if Matches(rooms[0], f) then [rooms[0]] + rest else rest
  }

  /** Places `x` in a list ordered by descending room id, before every smaller id. */
  function InsertDescending(x: Room, sorted: seq<Room>): (r: seq<Room>)
    requires StrictlyDescending(sorted)
    requires forall y :: y in sorted ==> y.roomId != x.roomId
    ensures multiset(r) == multiset(sorted) + multiset{x}
    ensures forall y :: y in r ==> y == x || y in sorted
    ensures StrictlyDescending(r)
  {
    if sorted == [] || x.roomId > sorted[0].roomId then
      AboveHead(x, sorted);
      ConsDescending(x, sorted);
      [x] + sorted
    else
      var rest := InsertDescending(x, sorted[1..]);
      assert sorted == [sorted[0]] + sorted[1..];
      BelowHead(x, sorted, rest);
      ConsDescending(sorted[0], rest);
      [sorted[0]] + rest
  }

  lemma ConsDescending(h: Room, rest: seq<Room>)
    requires StrictlyDescending(rest)
    requires forall y :: y in rest ==> y.roomId < h.roomId
    ensures StrictlyDescending([h] + rest)
  {
    var r := [h] + rest;
    forall i, j | 0 <= i < j < |r| ensures r[i].roomId > r[j].roomId {
      assert r[j] == rest[j - 1] && rest[j - 1] in rest;
      if i > 0 {
        assert r[i] == rest[i - 1];
      }
    }
  }

  lemma AboveHead(x: Room, sorted: seq<Room>)
    requires StrictlyDescending(sorted) && (sorted == [] || x.roomId > sorted[0].roomId)
    ensures forall y :: y in sorted ==> y.roomId < x.roomId
  {
    if sorted != [] {
      HeadIsLargest(sorted);
    }
  }

  lemma BelowHead(x: Room, sorted: seq<Room>, rest: seq<Room>)
    requires StrictlyDescending(sorted) && sorted != [] && x.roomId < sorted[0].roomId
    requires forall y :: y in rest ==> y == x || y in sorted[1..]
    ensures forall y :: y in rest ==> y.roomId < sorted[0].roomId
  {
    forall y | y in rest ensures y.roomId < sorted[0].roomId {
      if y != x {
        var k :| 0 <= k < |sorted[1..]| && sorted[1..][k] == y;
        assert sorted[k + 1] == y;
      }
    }
  }

  /** The rooms in descending room-id order. */
  function SortByRoomIdDescending(rooms: seq<Room>): (r: seq<Room>)
    requires DistinctIds(rooms)
    ensures multiset(r) == multiset(rooms)
    ensures StrictlyDescending(r)
  {
    if rooms == [] then []
    else
      var rest := SortByRoomIdDescending(rooms[1..]);
      assert rooms == [rooms[0]] + rooms[1..];
      assert forall y :: y in rest ==> y.roomId != rooms[0].roomId by {
        forall y | y in rest ensures y.roomId != rooms[0].roomId {
          assert y in multiset(rooms[1..]);
          var j :| 0 <= j < |rooms[1..]| && rooms[1..][j] == y;
          assert rooms[j + 1] == y;
        }
      }
      InsertDescending(rooms[0], rest)
  }

  lemma {:induction false} FilterKeepsDistinctIds(rooms: seq<Room>, f: RoomFilters)
    requires DistinctIds(rooms)
    ensures DistinctIds(Filter(rooms, f))
  {
    if rooms != [] {
      FilterKeepsDistinctIds(rooms[1..], f);
      var rest := Filter(rooms[1..], f);
      if Matches(rooms[0], f) {
        var r := [rooms[0]] + rest;
        forall i, j | 0 <= i < j < |r| ensures r[i].roomId != r[j].roomId {
          if i == 0 {
            assert r[j] == rest[j - 1] && rest[j - 1] in rest;
            var k :| 0 <= k < |rooms[1..]| && rooms[1..][k] == r[j];
            assert rooms[k + 1] == r[j];
          } else {
            assert r[i] == rest[i - 1] && r[j] == rest[j - 1];
          }
        }
      }
    }
  }

  /**
   * The query before paging: exactly the rooms that satisfy every given filter, each
   * once, in strictly descending room-id order.
   */
  function FindRoomsByFilters(rooms: seq<Room>, f: RoomFilters): (r: seq<Room>)
    requires DistinctIds(rooms)
    ensures forall x :: x in r ==> x in rooms && Matches(x, f)
    ensures forall x :: x in rooms && Matches(x, f) ==> x in r
    ensures multiset(r) <= multiset(rooms)
    ensures StrictlyDescending(r)
  {
    var matching := Filter(rooms, f);
    FilterKeepsDistinctIds(rooms, f);
    var r := SortByRoomIdDescending(matching);
    assert forall x :: x in r <==> x in matching by {
      forall x ensures x in r <==> x in matching {
        assert x in r <==> x in multiset(r);
      }
    }
    r
  }

  // ---------------------------------------------------------------------------
  // Properties of the filter

  /** With every parameter null the query returns every room. */
  lemma NoFiltersMatchEverything(rooms: seq<Room>)
    requires DistinctIds(rooms)
    ensures multiset(FindRoomsByFilters(rooms, NoFilters)) == multiset(rooms)
  {
    FilterKeepsAllMatching(rooms, NoFilters);
  }

  lemma {:induction false} FilterKeepsAllMatching(rooms: seq<Room>, f: RoomFilters)
    requires forall x :: x in rooms ==> Matches(x, f)
    ensures Filter(rooms, f) == rooms
  {
    if rooms != [] {
      assert rooms[0] in rooms;
      FilterKeepsAllMatching(rooms[1..], f);
      assert rooms == [rooms[0]] + rooms[1..];
    }
  }

  /** The search term matches exactly the rooms whose name or book title contains it. */
  lemma SearchTermMatches(r: Room, term: string)
    ensures Matches(r, NoFilters.(searchTerm := Some(term))) <==>
      Contains(r.roomName, term) || Contains(r.book.bookTitle, term)
    ensures Contains(r.roomName, term) ==> Matches(r, NoFilters.(searchTerm := Some(term)))
  {
  }

  /** Setting a parameter to null never removes a room from the result. */
  lemma NullingWidens(r: Room, f: RoomFilters)
    requires Matches(r, f)
    ensures Matches(r, f.(searchTerm := None)) && Matches(r, f.(genre := None))
    ensures Matches(r, f.(recruitStartDate := None)) && Matches(r, f.(recruitEndDate := None))
    ensures Matches(r, f.(roomStartDate := None)) && Matches(r, f.(roomEndDate := None))
    ensures Matches(r, f.(recordCount := None))
  {
  }

  /**
   * Both start-date parameters bound the same column: exchanging them does not change
   * the result.
   */
  lemma StartDateParametersAgree(rooms: seq<Room>, f: RoomFilters)
    requires DistinctIds(rooms)
    ensures FindRoomsByFilters(rooms, f.(recruitStartDate := f.roomStartDate, roomStartDate := f.recruitStartDate))
         == FindRoomsByFilters(rooms, f)
  {
    var g := f.(recruitStartDate := f.roomStartDate, roomStartDate := f.recruitStartDate);
    assert forall x :: Matches(x, g) == Matches(x, f);
    FilterDependsOnlyOnMatches(rooms, f, g);
  }

  lemma {:induction false} FilterDependsOnlyOnMatches(rooms: seq<Room>, f: RoomFilters, g: RoomFilters)
    requires forall x :: Matches(x, g) == Matches(x, f)
    ensures Filter(rooms, f) == Filter(rooms, g)
  {
    if rooms != [] {
      FilterDependsOnlyOnMatches(rooms[1..], f, g);
    }
  }

  /**
   * Uniqueness: any list of the matching rooms, each once and strictly descending by
   * id, is the query's result.
   */
  lemma {:induction false} ResultIsDetermined(rooms: seq<Room>, f: RoomFilters, other: seq<Room>)
    requires DistinctIds(rooms)
    requires forall x :: x in other <==> x in rooms && Matches(x, f)
    requires StrictlyDescending(other)
    ensures other == FindRoomsByFilters(rooms, f)
  {
    var r := FindRoomsByFilters(rooms, f);
    SameSetDescendingEqual(other, r);
  }

  /** The head of a strictly descending list is its unique largest id. */
  lemma HeadIsLargest(a: seq<Room>)
    requires StrictlyDescending(a) && a != []
    ensures forall x :: x in a ==> x == a[0] || x.roomId < a[0].roomId
  {
  }

  lemma {:induction false} SameSetDescendingEqual(a: seq<Room>, b: seq<Room>)
    requires StrictlyDescending(a) && StrictlyDescending(b)
    requires forall x :: x in a <==> x in b
    ensures a == b
    decreases |a|
  {
    assert a != [] ==> a[0] in a;
    assert b != [] ==> b[0] in b;
    if a != [] {
      HeadIsLargest(a);
      HeadIsLargest(b);
      // the heads are the largest ids of the same set
      assert a[0] in b && b[0] in a;
      assert a[0].roomId == b[0].roomId;
      assert a[0] == b[0];
      forall x ensures x in a[1..] <==> x in b[1..] {
        assert x in a <==> x == a[0] || x in a[1..] by { assert a == [a[0]] + a[1..]; }
        assert x in b <==> x == b[0] || x in b[1..] by { assert b == [b[0]] + b[1..]; }
        if x in a[1..] {
          var i :| 1 <= i < |a| && a[i] == x;
          assert x.roomId < a[0].roomId;
        }
        if x in b[1..] {
          var i :| 1 <= i < |b| && b[i] == x;
          assert x.roomId < b[0].roomId;
        }
      }
      SameSetDescendingEqual(a[1..], b[1..]);
      assert a == [a[0]] + a[1..] && b == [b[0]] + b[1..];
    }
  }
}
