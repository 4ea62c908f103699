/** Bot-detector lists: downloaded side by side, searched one after the other. */
module BotLists {
  import opened Domain

  datatype BotList = BotList(title: string, players: seq<ListedPlayer>)

  const EMPTY_LIST := BotList("", [])

  predicate Hit(p: ListedPlayer, id: SteamID) {
    p.steamID.Valid() && p.steamID == id
  }

  /** The first entry of the list with a valid id equal to the one looked for. */
  function FirstHit(ps: seq<ListedPlayer>, id: SteamID): (k: nat)
    ensures k <= |ps|
    ensures k < |ps| ==> Hit(ps[k], id)
    ensures forall i :: 0 <= i < k ==> !Hit(ps[i], id)
  {
    if ps == [] || Hit(ps[0], id) then 0 else 1 + FirstHit(ps[1..], id)
  }

  /** At most one match: the first hit, under the list's title. */
  function MatchIn(l: BotList, id: SteamID): (r: seq<Match>)
    ensures |r| <= 1
  {
    var k := FirstHit(l.players, id);
    if k < |l.players| then [Match(l.players[k], l.title)] else []
  }

  function Matches(ls: seq<BotList>, id: SteamID): seq<Match> {
    if ls == [] then []
    else
      var n := |ls| - 1;
      Matches(ls[..n], id) + MatchIn(ls[n], id)
  }

  /** Entry `k` of a list is the first with a valid id equal to the one looked for. */
  ghost predicate FirstEntry(l: BotList, id: SteamID, k: int) {
    && 0 <= k < |l.players| && l.players[k].steamID == id && id.Account?
    && forall i :: 0 <= i < k ==> l.players[i].steamID != id
  }

  /** The match is a list's first entry for the id, under that list's title. */
  ghost predicate FoundIn(ls: seq<BotList>, id: SteamID, m: Match) {
    exists i, k :: 0 <= i < |ls| && FirstEntry(ls[i], id, k) && m == Match(ls[i].players[k], ls[i].title)
  }

  /** The results of the downloads, one per configured list; a failed one yields nothing. */
  function Successes(results: seq<Option<BotList>>): seq<BotList> {
    if results == [] then []
    else (if results[0].Some? then [results[0].value] else []) + Successes(results[1..])
  }

  function Placeholders(n: nat): (r: seq<BotList>)
    ensures |r| == n
  {
    seq(n, _ => EMPTY_LIST)
  }

  class Fetcher {
    const configured: nat
    var lists: seq<BotList>

    constructor (configured: nat)
      ensures lists == [] && this.configured == configured
    {
      this.configured := configured;
      lists := [];
    }

    /** Collects the lists in the order they arrive, behind one placeholder per configured list. */
    method Update(arrivals: seq<BotList>)
      modifies this
      ensures lists == Placeholders(configured) + arrivals
    {
      var collected := Placeholders(configured);
      for i := 0 to |arrivals|
        invariant collected == Placeholders(configured) + arrivals[..i]
      {
        collected := collected + [arrivals[i]];
      }
      assert arrivals[..|arrivals|] == arrivals;
      lists := collected;
    }

    method Search(id: SteamID) returns (matched: seq<Match>)
      ensures matched == Matches(lists, id)
      ensures forall m :: m in matched <==> FoundIn(lists, id, m)
    {
      matched := [];
      for i := 0 to |lists|
        invariant matched == Matches(lists[..i], id)
      {
        assert lists[..i + 1][..i] == lists[..i];
        var ps := lists[i].players;
        ghost var k := FirstHit(ps, id);
        ghost var before := matched;
        var j := 0;
        while j < |ps|
          invariant j <= |ps| && j <= k && matched == before
        {
          if !ps[j].steamID.Valid() {
            j := j + 1;
            continue;
          }
          if ps[j].steamID == id {
            assert j == k;
            matched := matched + [Match(ps[j], lists[i].title)];
            break;
          }
          j := j + 1;
        }
      }
      assert lists[..|lists|] == lists;
      forall m
        ensures m in matched <==> FoundIn(lists, id, m)
      {
        MatchesMember(lists, id, m);
      }
    }
  }

  // ---------------------------------------------------------------- what a match is

  /** One list gives its first entry for the id, under its title, or nothing. */
  lemma MatchOfList(l: BotList, id: SteamID, k: int)
    ensures FirstEntry(l, id, k) ==> Matches([l], id) == [Match(l.players[k], l.title)]
    ensures (forall i :: 0 <= i < |l.players| ==> l.players[i].steamID != id) || !id.Account? ==> Matches([l], id) == []
  {
    assert [l][..0] == [];
    assert Matches([l], id) == Matches([], id) + MatchIn(l, id);
    var h := FirstHit(l.players, id);
    if FirstEntry(l, id, k) {
      assert Hit(l.players[k], id);
      assert h == k;
    }
  }

  lemma MatchInMember(l: BotList, id: SteamID, m: Match)
    ensures m in MatchIn(l, id) <==> exists k :: FirstEntry(l, id, k) && m == Match(l.players[k], l.title)
  {
    var h := FirstHit(l.players, id);
    assert h < |l.players| ==> FirstEntry(l, id, h);
    forall k | FirstEntry(l, id, k)
      ensures h == k
    {
      assert Hit(l.players[k], id);
    }
  }

  /** A search finds exactly the first entry of every list that holds the id. */
  lemma {:induction false} MatchesMember(ls: seq<BotList>, id: SteamID, m: Match)
    ensures m in Matches(ls, id) <==> FoundIn(ls, id, m)
  {
    if ls == [] {
    } else {
      var n := |ls| - 1;
      MatchesMember(ls[..n], id, m);
      MatchInMember(ls[n], id, m);
      FoundInSnoc(ls, id, m);
    }
  }

  lemma FoundInSnoc(ls: seq<BotList>, id: SteamID, m: Match)
    requires ls != []
    ensures var n := |ls| - 1;
            FoundIn(ls, id, m)
            <==> FoundIn(ls[..n], id, m)
                 || exists k :: FirstEntry(ls[n], id, k) && m == Match(ls[n].players[k], ls[n].title)
  {
    var n := |ls| - 1;
    assert forall i :: 0 <= i < n ==> ls[..n][i] == ls[i];
    if FoundIn(ls, id, m) {
      var i, k :| 0 <= i < |ls| && FirstEntry(ls[i], id, k) && m == Match(ls[i].players[k], ls[i].title);
      if i < n {
        assert FirstEntry(ls[..n][i], id, k) && m == Match(ls[..n][i].players[k], ls[..n][i].title);
      }
    }
    if FoundIn(ls[..n], id, m) {
      var i, k :| 0 <= i < n && FirstEntry(ls[..n][i], id, k)
                  && m == Match(ls[..n][i].players[k], ls[..n][i].title);
      assert FirstEntry(ls[i], id, k) && m == Match(ls[i].players[k], ls[i].title);
    }
  }

  /** The successful downloads are the lists that came, in configured order. */
  lemma {:induction false} SuccessesConcat(a: seq<Option<BotList>>, b: seq<Option<BotList>>)
    ensures Successes(a + b) == Successes(a) + Successes(b)
    ensures forall l :: Successes([Some(l)]) == [l]
    ensures Successes([None]) == []
  {
    assert [Option<BotList>.None][1..] == [];
    forall l
      ensures Successes([Some(l)]) == [l]
    {
      assert [Some(l)][1..] == [];
    }
    if a == [] {
      assert a + b == b;
    } else {
      assert (a + b)[0] == a[0] && (a + b)[1..] == a[1..] + b;
      SuccessesConcat(a[1..], b);
    }
  }

  // ---------------------------------------------------------------- order does not matter

  lemma MatchesSnoc(ls: seq<BotList>, l: BotList, id: SteamID)
    ensures Matches(ls + [l], id) == Matches(ls, id) + MatchIn(l, id)
  {
    assert (ls + [l])[..|ls|] == ls;
  }

  lemma {:induction false} MatchesConcat(a: seq<BotList>, b: seq<BotList>, id: SteamID)
    ensures Matches(a + b, id) == Matches(a, id) + Matches(b, id)
  {
    if b == [] {
      assert a + b == a;
    } else {
      var n := |b| - 1;
      calc {
        Matches(a + b, id);
        { assert a + b == a + b[..n] + [b[n]]; MatchesSnoc(a + b[..n], b[n], id); }
        Matches(a + b[..n], id) + MatchIn(b[n], id);
        { MatchesConcat(a, b[..n], id); }
        Matches(a, id) + Matches(b[..n], id) + MatchIn(b[n], id);
        Matches(a, id) + (Matches(b[..n], id) + MatchIn(b[n], id));
        { assert b == b[..n] + [b[n]]; MatchesSnoc(b[..n], b[n], id); }
        Matches(a, id) + Matches(b, id);
      }
    }
  }

  lemma MatchesSplit(ls: seq<BotList>, j: nat, id: SteamID)
    requires j < |ls|
    ensures multiset(Matches(ls, id)) == multiset(Matches(ls[..j] + ls[j + 1..], id)) + multiset(MatchIn(ls[j], id))
  {
    assert ls == ls[..j] + ([ls[j]] + ls[j + 1..]);
    MatchesConcat(ls[..j], [ls[j]] + ls[j + 1..], id);
    MatchesConcat([ls[j]], ls[j + 1..], id);
    MatchesConcat(ls[..j], ls[j + 1..], id);
    assert [ls[j]][..0] == [];
    assert Matches([ls[j]], id) == MatchIn(ls[j], id);
  }

  lemma RemoveSame(a: seq<BotList>, b: seq<BotList>, j: nat)
    requires a != [] && multiset(a) == multiset(b) && j < |b| && b[j] == a[|a| - 1]
    ensures multiset(a[..|a| - 1]) == multiset(b[..j] + b[j + 1..])
  {
    var n := |a| - 1;
    assert a == a[..n] + [a[n]];
    assert b == b[..j] + [b[j]] + b[j + 1..];
    assert multiset(a[..n]) == multiset(a) - multiset{a[n]};
    assert multiset(b[..j] + b[j + 1..]) == multiset(b) - multiset{b[j]};
  }

  lemma FindSame(a: seq<BotList>, b: seq<BotList>) returns (j: nat)
    requires a != [] && multiset(a) == multiset(b)
    ensures j < |b| && b[j] == a[|a| - 1]
  {
    assert a[|a| - 1] in multiset(b);
    j :| 0 <= j < |b| && b[j] == a[|a| - 1];
  }

  lemma {:induction false} PermutedMatches(a: seq<BotList>, b: seq<BotList>, id: SteamID)
    requires multiset(a) == multiset(b)
    ensures multiset(Matches(a, id)) == multiset(Matches(b, id))
    decreases |a|
  {
    assert |multiset(a)| == |a| && |multiset(b)| == |b|;
    if a == [] {
    } else {
      var n := |a| - 1;
      var j := FindSame(a, b);
      RemoveSame(a, b, j);
      MatchesSplit(b, j, id);
      PermutedMatches(a[..n], b[..j] + b[j + 1..], id);
    }
  }

  lemma {:induction false} PlaceholdersMatchNothing(n: nat, id: SteamID)
    ensures Matches(Placeholders(n), id) == []
  {
    if n == 0 {
    } else {
      PlaceholdersMatchNothing(n - 1, id);
      assert Placeholders(n)[..n - 1] == Placeholders(n - 1);
    }
  }

  lemma PlaceholdersInvisible(n: nat, ls: seq<BotList>, id: SteamID)
    ensures Matches(Placeholders(n) + ls, id) == Matches(ls, id)
  {
    MatchesConcat(Placeholders(n), ls, id);
    PlaceholdersMatchNothing(n, id);
  }

  /**
  Whatever downloads succeed and in whatever order they arrive, a search finds
  the same matches as a search of the successful lists in configured order.
  */
  lemma ArrivalOrderFree(results: seq<Option<BotList>>, arrivals: seq<BotList>, id: SteamID)
    requires multiset(arrivals) == multiset(Successes(results))
    ensures multiset(Matches(Placeholders(|results|) + arrivals, id))
         == multiset(Matches(Successes(results), id))
  {
    PlaceholdersInvisible(|results|, arrivals, id);
    PermutedMatches(arrivals, Successes(results), id);
  }

  ghost predicate Holds(l: BotList, id: SteamID) {
    exists k :: 0 <= k < |l.players| && Hit(l.players[k], id)
  }

  /** One match per list at most, and exactly for the lists that hold the id. */
  lemma {:induction false} MatchCount(ls: seq<BotList>, id: SteamID)
    ensures |Matches(ls, id)| <= |ls|
    ensures Matches(ls, id) == [] <==> forall i :: 0 <= i < |ls| ==> !Holds(ls[i], id)
  {
    if ls == [] {
    } else {
      var n := |ls| - 1;
      MatchCount(ls[..n], id);
      assert forall i :: 0 <= i < n ==> ls[..n][i] == ls[i];
    }
  }
}
