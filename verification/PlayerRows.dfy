/** The rows of the player table in the user interface, and how they are sorted. */
module PlayerRows {
  import opened Domain
  import opened StableSort

  datatype Column = Uid | Name | Score | Deaths | Ping | Address | Loss | Time | Meta | Other

  datatype Row = Row(
    steamID: SteamID, userID: int, name: string, score: int, deaths: int, ping: int,
    address: string, loss: int, time: int, team: int, bans: nat, vacBans: int)

  function Compare(a: int, b: int): int {
    if a < b then -1 else if a == b then 0 else 1
  }

  function CompareText(a: string, b: string): int {
    if a == [] then (if b == [] then 0 else -1)
    else if b == [] then 1
    else if a[0] != b[0] then Compare(a[0] as int, b[0] as int)
    else CompareText(a[1..], b[1..])
  }

  /** Dictionary order: a proper prefix, or a smaller character at the first difference. */
  ghost predicate Earlier(a: string, b: string) {
    a < b || exists k :: FirstDifference(a, b, k) && a[k] < b[k]
  }

  ghost predicate FirstDifference(a: string, b: string, k: int) {
    0 <= k < |a| && k < |b| && a[k] != b[k] && forall i :: 0 <= i < k ==> a[i] == b[i]
  }

  lemma FirstDifferenceTail(a: string, b: string, k: int)
    requires a != [] && b != [] && a[0] == b[0]
    ensures FirstDifference(a, b, k + 1) <==> FirstDifference(a[1..], b[1..], k)
  {
    var s, t := a[1..], b[1..];
    assert forall i :: 0 <= i < |s| ==> s[i] == a[i + 1];
    assert forall i :: 0 <= i < |t| ==> t[i] == b[i + 1];
    assert forall i :: 0 < i < |a| ==> a[i] == s[i - 1];
    assert forall i :: 0 < i < |b| ==> b[i] == t[i - 1];
  }

  lemma EarlierTail(a: string, b: string)
    requires a != [] && b != [] && a[0] == b[0]
    ensures Earlier(a, b) <==> Earlier(a[1..], b[1..])
  {
    assert a == [a[0]] + a[1..] && b == [b[0]] + b[1..];
    if k :| FirstDifference(a, b, k) && a[k] < b[k] {
      FirstDifferenceTail(a, b, k - 1);
    }
    if k :| FirstDifference(a[1..], b[1..], k) && a[1..][k] < b[1..][k] {
      FirstDifferenceTail(a, b, k);
    }
  }

  /** Strings compare as in a dictionary, character by character. */
  lemma {:induction false} TextOrder(a: string, b: string)
    ensures CompareText(a, b) < 0 <==> Earlier(a, b)
    ensures CompareText(a, b) > 0 <==> Earlier(b, a)
    ensures CompareText(a, b) == 0 <==> a == b
  {
    if a == [] || b == [] {
    } else if a[0] == b[0] {
      TextOrder(a[1..], b[1..]);
      EarlierTail(a, b);
      EarlierTail(b, a);
      assert a == [a[0]] + a[1..] && b == [b[0]] + b[1..];
    } else {
      assert FirstDifference(a, b, 0) && FirstDifference(b, a, 0);
    }
  }

  /** The comparison for one column; `lower` is the library's case folding. */
  function CompareRows(lower: string -> string, column: Column, a: Row, b: Row): int {
    match column
    case Uid => Compare(a.userID, b.userID)
    case Name => CompareText(lower(a.name), lower(b.name))
    case Score => Compare(a.score, b.score)
    case Deaths => Compare(a.deaths, b.deaths)
    case Ping => Compare(a.ping, b.ping)
    case Address => CompareText(a.address, b.address)
    case Loss => Compare(a.loss, b.loss)
    case Time => Compare(a.time, b.time)
    case Meta => Compare(b.bans + b.vacBans, a.bans + a.vacBans)
    case Other => 0
  }

  function Order(lower: string -> string, column: Column): (Row, Row) -> bool {
    (a, b) => CompareRows(lower, column, a, b) <= 0
  }

  lemma {:induction false} TextTotal(a: string, b: string)
    ensures CompareText(a, b) == -CompareText(b, a)
    ensures CompareText(a, b) in {-1, 0, 1}
  {
    if a == [] || b == [] || a[0] != b[0] {
    } else {
      TextTotal(a[1..], b[1..]);
    }
  }

  lemma {:induction false} TextTransitive(a: string, b: string, c: string)
    requires CompareText(a, b) <= 0 && CompareText(b, c) <= 0
    ensures CompareText(a, c) <= 0
  {
    if a == [] || b == [] || c == [] || a[0] != b[0] || b[0] != c[0] {
    } else {
      TextTransitive(a[1..], b[1..], c[1..]);
    }
  }

  /** Every column's comparison is a total preorder, so its ties and order make sense. */
  lemma OrderIsPreorder(lower: string -> string, column: Column)
    ensures TotalPreorder(Order(lower, column))
  {
    var le := Order(lower, column);
    forall a, b
      ensures le(a, b) || le(b, a)
    {
      TextTotal(lower(a.name), lower(b.name));
      TextTotal(a.address, b.address);
    }
    forall a, b, c | le(a, b) && le(b, c)
      ensures le(a, c)
    {
      if column.Name? {
        TextTransitive(lower(a.name), lower(b.name), lower(c.name));
      } else if column.Address? {
        TextTransitive(a.address, b.address, c.address);
      }
    }
  }

  /** What one call of `Sort` leaves in the table. */
  function Sorted(le: (Row, Row) -> bool, asc: bool, rows: seq<Row>): seq<Row> {
    var s := Sort(le, rows);
    if asc then Reverse(s) else s
  }

  class TableData {
    const lower: string -> string
    var rows: seq<Row>
    var sortColumn: Column
    var asc: bool

    /** Keeps the valid players of one team, in their order. */
    constructor (lower: string -> string, update: seq<Row>, team: int)
      ensures rows == TeamRows(update, team)
      ensures sortColumn == Score && asc && this.lower == lower
    {
      this.lower := lower;
      sortColumn, asc := Score, true;
      var kept: seq<Row> := [];
      for i := 0 to |update|
        invariant kept == TeamRows(update[..i], team)
      {
        assert update[..i + 1][..i] == update[..i];
        if !update[i].steamID.Valid() {
          continue;
        }
        if update[i].team != team {
          continue;
        }
        kept := kept + [update[i]];
      }
      assert update[..|update|] == update;
      rows := kept;
    }

    /**
    One click. With `asc` set the rows end up descending with ties reversed;
    without it, ascending with ties in order.
    */
    method SortBy(column: Column, asc: bool)
      modifies this
      ensures multiset(rows) == multiset(old(rows))
      ensures Directed(Order(lower, column), asc, rows)
      ensures TiesFollow(Order(lower, column), asc, old(rows), rows)
      ensures sortColumn == column && this.asc == asc
    {
      sortColumn := column;
      this.asc := asc;
      rows := Sort(Order(lower, sortColumn), rows);
      if this.asc {
        rows := Reverse(rows);
      }
      OrderIsPreorder(lower, column);
      SortedTies(Order(lower, column), asc, old(rows));
    }
  }

  function AnyRow(): Row {
    Row(NO_STEAM_ID, 0, "", 0, 0, 0, "", 0, 0, 0, 0, 0)
  }

  function TeamRows(update: seq<Row>, team: int): seq<Row> {
    if update == [] then []
    else
      var n := |update| - 1;
      TeamRows(update[..n], team) + if update[n].steamID.Valid() && update[n].team == team then [update[n]] else []
  }

  // ---------------------------------------------------------------- algebra

  /**
  Sorting permutes the rows. With `asc` set it leaves them descending with ties
  reversed; without it, ascending with ties in order.
  */
  lemma SortedOrder(le: (Row, Row) -> bool, asc: bool, rows: seq<Row>, p: Row)
    requires TotalPreorder(le)
    ensures multiset(Sorted(le, asc, rows)) == multiset(rows)
    ensures if asc then Descending(le, Sorted(le, asc, rows)) else Ascending(le, Sorted(le, asc, rows))
    ensures Ties(le, Sorted(le, asc, rows), p) == if asc then Reverse(Ties(le, rows, p)) else Ties(le, rows, p)
  {
    var s := Sort(le, rows);
    SortPermutes(le, rows);
    SortAscends(le, rows);
    SortKeepsTies(le, rows, p);
    ReversePermutes(s);
    TiesReverse(le, s, p);
  }

  /** Every group of tied rows reads as in `rows`, or backwards when `asc` is set. */
  ghost predicate TiesFollow(le: (Row, Row) -> bool, asc: bool, rows: seq<Row>, r: seq<Row>) {
    forall p :: Ties(le, r, p) == if asc then Reverse(Ties(le, rows, p)) else Ties(le, rows, p)
  }

  ghost predicate Directed(le: (Row, Row) -> bool, asc: bool, r: seq<Row>) {
    if asc then Descending(le, r) else Ascending(le, r)
  }

  lemma SortedTies(le: (Row, Row) -> bool, asc: bool, rows: seq<Row>)
    requires TotalPreorder(le)
    ensures multiset(Sorted(le, asc, rows)) == multiset(rows)
    ensures Directed(le, asc, Sorted(le, asc, rows)) && TiesFollow(le, asc, rows, Sorted(le, asc, rows))
  {
    SortedOrder(le, asc, rows, AnyRow());
    forall p
      ensures Ties(le, Sorted(le, asc, rows), p) == if asc then Reverse(Ties(le, rows, p)) else Ties(le, rows, p)
    {
      SortedOrder(le, asc, rows, p);
    }
  }

  /** The direction and the order of ties leave one arrangement only. */
  lemma OneArrangement(le: (Row, Row) -> bool, asc: bool, rows: seq<Row>, r: seq<Row>)
    requires TotalPreorder(le)
    ensures r == Sorted(le, asc, rows) <==> Directed(le, asc, r) && TiesFollow(le, asc, rows, r)
  {
    SortedTies(le, asc, rows);
    if Directed(le, asc, r) && TiesFollow(le, asc, rows, r) {
      SameTies(le, asc, rows, r, Sorted(le, asc, rows));
      if asc {
        DescendingUnique(le, r, Sorted(le, asc, rows));
      } else {
        AscendingUnique(le, r, Sorted(le, asc, rows));
      }
    }
  }

  lemma SameTies(le: (Row, Row) -> bool, asc: bool, rows: seq<Row>, r: seq<Row>, s: seq<Row>)
    requires TiesFollow(le, asc, rows, r) && TiesFollow(le, asc, rows, s)
    ensures forall p :: Ties(le, r, p) == Ties(le, s, p)
  {
  }

  lemma TiesThrice(le: (Row, Row) -> bool, rows: seq<Row>, p: Row)
    requires TotalPreorder(le)
    ensures var once := Sorted(le, true, rows);
            var twice := Sorted(le, true, once);
            && Ties(le, twice, p) == Ties(le, rows, p)
            && Ties(le, Sorted(le, true, twice), p) == Ties(le, once, p)
  {
    var once := Sorted(le, true, rows);
    SortedOrder(le, true, rows, p);
    SortedOrder(le, true, once, p);
    SortedOrder(le, true, Sorted(le, true, once), p);
    ReverseTwice(Ties(le, rows, p));
  }

  /** Three clicks on a column are one click. */
  lemma SortThrice(lower: string -> string, column: Column, rows: seq<Row>)
    ensures var le := Order(lower, column);
            var once := Sorted(le, true, rows);
            Sorted(le, true, Sorted(le, true, once)) == once
  {
    var le := Order(lower, column);
    OrderIsPreorder(lower, column);
    var once := Sorted(le, true, rows);
    var thrice := Sorted(le, true, Sorted(le, true, once));
    forall p
      ensures Ties(le, thrice, p) == Ties(le, once, p)
    {
      TiesThrice(le, rows, p);
    }
    SortedOrder(le, true, rows, AnyRow());
    SortedOrder(le, true, Sorted(le, true, once), AnyRow());
    DescendingUnique(le, thrice, once);
  }

  /** Every group of tied rows reads the same backwards. */
  ghost predicate TiesPalindromic(le: (Row, Row) -> bool, rows: seq<Row>) {
    forall p :: Ties(le, rows, p) == Reverse(Ties(le, rows, p))
  }

  lemma SortTwiceOnly(le: (Row, Row) -> bool, rows: seq<Row>)
    requires TotalPreorder(le)
    requires Sorted(le, true, Sorted(le, true, rows)) == Sorted(le, true, rows)
    ensures TiesPalindromic(le, rows)
  {
    forall p
      ensures Ties(le, rows, p) == Reverse(Ties(le, rows, p))
    {
      SortedOrder(le, true, rows, p);
      TiesThrice(le, rows, p);
    }
  }

  lemma SortTwiceIf(le: (Row, Row) -> bool, rows: seq<Row>)
    requires TotalPreorder(le) && TiesPalindromic(le, rows)
    ensures Sorted(le, true, Sorted(le, true, rows)) == Sorted(le, true, rows)
  {
    var once := Sorted(le, true, rows);
    var twice := Sorted(le, true, once);
    SortedOrder(le, true, rows, AnyRow());
    SortedOrder(le, true, once, AnyRow());
    forall p
      ensures Ties(le, twice, p) == Ties(le, once, p)
    {
      SortedOrder(le, true, rows, p);
      TiesThrice(le, rows, p);
    }
    DescendingUnique(le, twice, once);
  }

  /** Two clicks are one click exactly when every group of tied rows reads the same backwards. */
  lemma SortTwiceIff(lower: string -> string, column: Column, rows: seq<Row>)
    ensures var le := Order(lower, column);
            var once := Sorted(le, true, rows);
            Sorted(le, true, once) == once <==> TiesPalindromic(le, rows)
  {
    var le := Order(lower, column);
    OrderIsPreorder(lower, column);
    if TiesPalindromic(le, rows) {
      SortTwiceIf(le, rows);
    }
    if Sorted(le, true, Sorted(le, true, rows)) == Sorted(le, true, rows) {
      SortTwiceOnly(le, rows);
    }
  }

  /** Two rows with the same score: every click swaps them. */
  lemma SecondClickSwaps(lower: string -> string)
    ensures var le := Order(lower, Score);
            var a, b := AnyRow().(name := "a"), AnyRow().(name := "b");
            && Sorted(le, true, [a, b]) == [b, a]
            && Sorted(le, true, [b, a]) == [a, b]
  {
    var a, b := AnyRow().(name := "a"), AnyRow().(name := "b");
    TiedPair(Order(lower, Score), a, b);
    TiedPair(Order(lower, Score), b, a);
  }

  lemma TiedPair(le: (Row, Row) -> bool, a: Row, b: Row)
    requires le(a, b)
    ensures Sorted(le, true, [a, b]) == [b, a]
  {
    assert [a, b][1..] == [b] && [b][1..] == [];
    assert Sort(le, [b]) == [b];
  }

  lemma {:induction false} FewTies(le: (Row, Row) -> bool, rows: seq<Row>, p: Row)
    requires TotalPreorder(le)
    requires forall i, j :: 0 <= i < j < |rows| ==> !Tied(le, rows[i], rows[j])
    ensures |Ties(le, rows, p)| <= 1
  {
    if rows == [] {
    } else {
      FewTies(le, rows[1..], p);
      if Tied(le, rows[0], p) {
        TiesMember(le, rows[1..], p);
        forall x | x in rows[1..]
          ensures !Tied(le, x, p)
        {
          var i :| 0 < i < |rows| && rows[i] == x;
          assert !Tied(le, rows[0], rows[i]);
        }
      }
    }
  }

  /** With pairwise different keys a second click changes nothing. */
  lemma SortTwiceDistinct(lower: string -> string, column: Column, rows: seq<Row>)
    requires forall i, j :: 0 <= i < j < |rows| ==> !Tied(Order(lower, column), rows[i], rows[j])
    ensures var le := Order(lower, column);
            var once := Sorted(le, true, rows);
            Sorted(le, true, once) == once
  {
    var le := Order(lower, column);
    OrderIsPreorder(lower, column);
    forall p
      ensures Ties(le, rows, p) == Reverse(Ties(le, rows, p))
    {
      FewTies(le, rows, p);
    }
    SortTwiceIff(lower, column, rows);
  }

  /** What a click shows: highest first, except that the meta column starts with the fewest bans. */
  lemma ColumnMeaning(lower: string -> string, column: Column, rows: seq<Row>, i: nat, j: nat)
    requires i < j < |rows|
    ensures var r := Sorted(Order(lower, column), true, rows);
            && |r| == |rows|
            && (column.Uid? ==> r[i].userID >= r[j].userID)
            && (column.Score? ==> r[i].score >= r[j].score)
            && (column.Deaths? ==> r[i].deaths >= r[j].deaths)
            && (column.Ping? ==> r[i].ping >= r[j].ping)
            && (column.Loss? ==> r[i].loss >= r[j].loss)
            && (column.Time? ==> r[i].time >= r[j].time)
            && (column.Meta? ==> r[i].bans + r[i].vacBans <= r[j].bans + r[j].vacBans)
            && (column.Name? ==> !Earlier(lower(r[i].name), lower(r[j].name)))
            && (column.Address? ==> !Earlier(r[i].address, r[j].address))
            && (column.Other? ==> r == Reverse(rows))
  {
    var le := Order(lower, column);
    OrderIsPreorder(lower, column);
    SortedOrder(le, true, rows, rows[i]);
    SortPermutes(le, rows);
    var r := Sorted(le, true, rows);
    assert le(r[j], r[i]);
    if column.Name? {
      TextOrder(lower(r[j].name), lower(r[i].name));
    }
    if column.Address? {
      TextOrder(r[j].address, r[i].address);
    }
    if column.Other? {
      NoOrderNoChange(le, rows);
    }
  }

  lemma {:induction false} NoOrderNoChange(le: (Row, Row) -> bool, rows: seq<Row>)
    requires forall a, b :: le(a, b)
    ensures Sort(le, rows) == rows
  {
    if rows == [] {
    } else {
      NoOrderNoChange(le, rows[1..]);
    }
  }

  /** Rows keep their order: the filter works on any two halves separately, row by row. */
  lemma {:induction false} TeamRowsConcat(a: seq<Row>, b: seq<Row>, team: int)
    ensures TeamRows(a + b, team) == TeamRows(a, team) + TeamRows(b, team)
    ensures |b| == 1 ==> TeamRows(b, team) == if b[0].steamID.Account? && b[0].team == team then b else []
    decreases |b|
  {
    if b == [] {
      assert a + b == a;
    } else {
      var n := |b| - 1;
      TeamRowsConcat(a, b[..n], team);
      assert (a + b)[..|a| + n] == a + b[..n];
      assert n == 0 ==> b[..n] == [] && [b[0]] == b;
    }
  }

  /** The table of a team holds exactly the valid players of that team. */
  lemma {:induction false} TeamRowsMember(update: seq<Row>, team: int, row: Row)
    ensures row in TeamRows(update, team) <==> row in update && row.steamID.Valid() && row.team == team
  {
    if update == [] {
    } else {
      var n := |update| - 1;
      TeamRowsMember(update[..n], team, row);
      assert update == update[..n] + [update[n]];
    }
  }
}
