/**
The library's stable sort. Its algorithm is not modelled; it is pinned down by
what it promises: an ascending permutation in which tied elements keep their
order. `SortUnique` shows that this leaves no choice.
*/
module StableSort {

  ghost predicate TotalPreorder<T(!new)>(le: (T, T) -> bool) {
    && (forall a, b :: le(a, b) || le(b, a))
    && (forall a, b, c :: le(a, b) && le(b, c) ==> le(a, c))
  }

  ghost predicate Ascending<T>(le: (T, T) -> bool, s: seq<T>) {
    forall i, j :: 0 <= i < j < |s| ==> le(s[i], s[j])
  }

  ghost predicate Descending<T>(le: (T, T) -> bool, s: seq<T>) {
    forall i, j :: 0 <= i < j < |s| ==> le(s[j], s[i])
  }

  predicate Tied<T>(le: (T, T) -> bool, a: T, b: T) {
    le(a, b) && le(b, a)
  }

  /** The elements tied with `p`, in their order. */
  function Ties<T>(le: (T, T) -> bool, s: seq<T>, p: T): seq<T> {
    if s == [] then [] else (if Tied(le, s[0], p) then [s[0]] else []) + Ties(le, s[1..], p)
  }

  function Insert<T>(le: (T, T) -> bool, x: T, s: seq<T>): seq<T> {
    if s == [] then [x] else if le(x, s[0]) then [x] + s else [s[0]] + Insert(le, x, s[1..])
  }

  function Sort<T>(le: (T, T) -> bool, s: seq<T>): seq<T> {
    if s == [] then [] else Insert(le, s[0], Sort(le, s[1..]))
  }

  function Reverse<T>(s: seq<T>): (r: seq<T>)
    ensures |r| == |s|
  {
    seq(|s|, i requires 0 <= i < |s| => s[|s| - 1 - i])
  }

  // ---------------------------------------------------------------- what Sort does

  lemma {:induction false} InsertPermutes<T>(le: (T, T) -> bool, x: T, s: seq<T>)
    ensures multiset(Insert(le, x, s)) == multiset{x} + multiset(s)
    ensures |Insert(le, x, s)| == 1 + |s|
  {
    if s == [] {
    } else {
      assert s == [s[0]] + s[1..];
      InsertPermutes(le, x, s[1..]);
    }
  }

  lemma {:induction false} SortPermutes<T>(le: (T, T) -> bool, s: seq<T>)
    ensures multiset(Sort(le, s)) == multiset(s)
    ensures |Sort(le, s)| == |s|
  {
    if s == [] {
    } else {
      assert s == [s[0]] + s[1..];
      SortPermutes(le, s[1..]);
      InsertPermutes(le, s[0], Sort(le, s[1..]));
    }
  }

  lemma {:induction false} InsertAscends<T(!new)>(le: (T, T) -> bool, x: T, s: seq<T>)
    requires TotalPreorder(le) && Ascending(le, s)
    ensures Ascending(le, Insert(le, x, s))
  {
    if s == [] || le(x, s[0]) {
    } else {
      InsertAscends(le, x, s[1..]);
      InsertPermutes(le, x, s[1..]);
      var r := Insert(le, x, s[1..]);
      forall j | 0 <= j < |r|
        ensures le(s[0], r[j])
      {
        assert r[j] in multiset(r);
        assert r[j] == x || r[j] in s[1..];
      }
    }
  }

  lemma {:induction false} SortAscends<T(!new)>(le: (T, T) -> bool, s: seq<T>)
    requires TotalPreorder(le)
    ensures Ascending(le, Sort(le, s))
  {
    if s == [] {
    } else {
      SortAscends(le, s[1..]);
      InsertAscends(le, s[0], Sort(le, s[1..]));
    }
  }

  lemma TiesDisagree<T(!new)>(le: (T, T) -> bool, x: T, y: T, p: T)
    requires TotalPreorder(le) && !le(x, y)
    ensures !(Tied(le, x, p) && Tied(le, y, p))
  {
  }

  lemma {:induction false} InsertKeepsTies<T(!new)>(le: (T, T) -> bool, x: T, s: seq<T>, p: T)
    requires TotalPreorder(le)
    ensures Ties(le, Insert(le, x, s), p) == (if Tied(le, x, p) then [x] else []) + Ties(le, s, p)
  {
    if s == [] {
    } else if le(x, s[0]) {
      assert ([x] + s)[1..] == s;
    } else {
      TiesDisagree(le, x, s[0], p);
      InsertKeepsTies(le, x, s[1..], p);
      TiesConcat(le, [s[0]], Insert(le, x, s[1..]), p);
    }
  }

  lemma {:induction false} SortKeepsTies<T(!new)>(le: (T, T) -> bool, s: seq<T>, p: T)
    requires TotalPreorder(le)
    ensures Ties(le, Sort(le, s), p) == Ties(le, s, p)
  {
    if s == [] {
    } else {
      SortKeepsTies(le, s[1..], p);
      InsertKeepsTies(le, s[0], Sort(le, s[1..]), p);
    }
  }

  // ---------------------------------------------------------------- uniqueness

  lemma {:induction false} TiesMember<T>(le: (T, T) -> bool, s: seq<T>, p: T)
    ensures forall x :: x in Ties(le, s, p) <==> x in s && Tied(le, x, p)
    ensures (forall x :: x in s ==> !Tied(le, x, p)) ==> Ties(le, s, p) == []
  {
    if s == [] {
    } else {
      assert s == [s[0]] + s[1..];
      TiesMember(le, s[1..], p);
    }
  }

  /** The first element is among the ones tied with any element it is tied with. */
  lemma SameHead<T(!new)>(le: (T, T) -> bool, a: seq<T>, b: seq<T>)
    requires TotalPreorder(le) && Ascending(le, a) && Ascending(le, b)
    requires forall p :: Ties(le, a, p) == Ties(le, b, p)
    requires a != [] && b != []
    ensures a[0] == b[0]
  {
    TiesMember(le, a, a[0]);
    TiesMember(le, b, a[0]);
    TiesMember(le, a, b[0]);
    TiesMember(le, b, b[0]);
    assert Tied(le, a[0], a[0]) && Tied(le, b[0], b[0]);
    assert a[0] in b && b[0] in a;
    assert le(a[0], b[0]) && le(b[0], a[0]);
    assert Ties(le, a, a[0])[0] == a[0] && Ties(le, b, a[0])[0] == b[0];
  }

  lemma NonEmptyTogether<T(!new)>(le: (T, T) -> bool, a: seq<T>, b: seq<T>)
    requires TotalPreorder(le)
    requires forall p :: Ties(le, a, p) == Ties(le, b, p)
    ensures a != [] ==> b != []
  {
    if a != [] {
      assert Tied(le, a[0], a[0]);
      TiesMember(le, a, a[0]);
      TiesMember(le, b, a[0]);
      assert a[0] in Ties(le, b, a[0]);
    }
  }

  /** An ascending sequence is determined by the order of its ties. */
  lemma {:induction false} AscendingUnique<T(!new)>(le: (T, T) -> bool, a: seq<T>, b: seq<T>)
    requires TotalPreorder(le) && Ascending(le, a) && Ascending(le, b)
    requires forall p :: Ties(le, a, p) == Ties(le, b, p)
    ensures a == b
  {
    NonEmptyTogether(le, a, b);
    NonEmptyTogether(le, b, a);
    if a == [] {
    } else {
      SameHead(le, a, b);
      forall p
        ensures Ties(le, a[1..], p) == Ties(le, b[1..], p)
      {
        assert Ties(le, a, p) == (if Tied(le, a[0], p) then [a[0]] else []) + Ties(le, a[1..], p);
        assert Ties(le, b, p) == (if Tied(le, a[0], p) then [a[0]] else []) + Ties(le, b[1..], p);
        var n := if Tied(le, a[0], p) then 1 else 0;
        assert Ties(le, a, p)[n..] == Ties(le, a[1..], p) && Ties(le, b, p)[n..] == Ties(le, b[1..], p);
      }
      AscendingUnique(le, a[1..], b[1..]);
      assert a == [a[0]] + a[1..] && b == [b[0]] + b[1..];
    }
  }

  /** Any ascending arrangement that keeps ties in order is the stable sort. */
  lemma SortUnique<T(!new)>(le: (T, T) -> bool, s: seq<T>, r: seq<T>)
    requires TotalPreorder(le) && Ascending(le, r)
    requires forall p :: Ties(le, r, p) == Ties(le, s, p)
    ensures r == Sort(le, s)
  {
    SortAscends(le, s);
    forall p
      ensures Ties(le, r, p) == Ties(le, Sort(le, s), p)
    {
      SortKeepsTies(le, s, p);
    }
    AscendingUnique(le, r, Sort(le, s));
  }

  // ---------------------------------------------------------------- reversal

  lemma {:induction false} TiesConcat<T>(le: (T, T) -> bool, a: seq<T>, b: seq<T>, p: T)
    ensures Ties(le, a + b, p) == Ties(le, a, p) + Ties(le, b, p)
  {
    if a == [] {
      assert a + b == b;
    } else {
      TiesConcat(le, a[1..], b, p);
      assert (a + b)[0] == a[0] && (a + b)[1..] == a[1..] + b;
      var h := if Tied(le, a[0], p) then [a[0]] else [];
      assert h + (Ties(le, a[1..], p) + Ties(le, b, p)) == h + Ties(le, a[1..], p) + Ties(le, b, p);
    }
  }

  lemma {:induction false} TiesReverse<T>(le: (T, T) -> bool, s: seq<T>, p: T)
    ensures Ties(le, Reverse(s), p) == Reverse(Ties(le, s, p))
  {
    if s == [] {
    } else {
      TiesReverse(le, s[1..], p);
      assert Reverse(s) == Reverse(s[1..]) + [s[0]];
      TiesConcat(le, Reverse(s[1..]), [s[0]], p);
      var h := if Tied(le, s[0], p) then [s[0]] else [];
      assert Reverse(h + Ties(le, s[1..], p)) == Reverse(Ties(le, s[1..], p)) + h;
    }
  }

  lemma ReverseTwice<T>(s: seq<T>)
    ensures Reverse(Reverse(s)) == s
  {
  }

  /** Likewise for descending sequences. */
  lemma DescendingUnique<T(!new)>(le: (T, T) -> bool, a: seq<T>, b: seq<T>)
    requires TotalPreorder(le) && Descending(le, a) && Descending(le, b)
    requires forall p :: Ties(le, a, p) == Ties(le, b, p)
    ensures a == b
  {
    forall p
      ensures Ties(le, Reverse(a), p) == Ties(le, Reverse(b), p)
    {
      TiesReverse(le, a, p);
      TiesReverse(le, b, p);
    }
    AscendingUnique(le, Reverse(a), Reverse(b));
    ReverseTwice(a);
    ReverseTwice(b);
  }

  lemma ReversePermutes<T>(s: seq<T>)
    ensures multiset(Reverse(s)) == multiset(s)
  {
    if s == [] {
    } else {
      ReversePermutes(s[1..]);
      assert Reverse(s) == Reverse(s[1..]) + [s[0]];
      assert s == [s[0]] + s[1..];
    }
  }
}
