/** Fetching a dump: the server-mode mapping from a status listing to slots, and what survives a call. */
module Fetcher {
  import opened Domain
  import opened Text
  import opened StableSort
  import opened PlayerTable
  import G15

  /** A player line of the `status` command. */
  datatype StatusPlayer = StatusPlayer(
    userID: int, name: string, steamID: SteamID, connectedSeconds: int,
    ping: int, loss: int, state: string, ip: string, port: int)

  function ByUserID(): (StatusPlayer, StatusPlayer) -> bool {
    (a: StatusPlayer, b: StatusPlayer) => a.userID <= b.userID
  }

  /** Teams are unknown in server mode: slots alternate, starting with BLU. */
  function SlotFor(p: StatusPlayer, idx: nat): Slot {
    ZERO_SLOT.(connected := p.state == "active", name := p.name, ping := p.ping, steamID := p.steamID,
               address := p.ip + ":" + Decimal(p.port), loss := p.loss, state := p.state,
               time := p.connectedSeconds, userID := p.userID, team := if idx % 2 == 0 then BLU else RED)
  }

  /** The dump after the first `n` players have been put into their slots. */
  function Filled(ps: seq<StatusPlayer>, n: nat): (r: seq<Slot>)
    requires n <= |ps|
    ensures IsDump(r)
  {
    seq(MAX_PLAYER_COUNT, i requires 0 <= i < MAX_PLAYER_COUNT => if i < n then SlotFor(ps[i], i) else ZERO_SLOT)
  }

  /** The slots for players already in order. */
  function SlotsFor(ps: seq<StatusPlayer>): (r: seq<Slot>)
    requires |ps| <= MAX_PLAYER_COUNT
    ensures IsDump(r)
  {
    Filled(ps, |ps|)
  }

  /** The server-mode dump: a listing with more players than slots runs off the fixed arrays. */
  function ServerDump(players: seq<StatusPlayer>): G15.Outcome {
    SortPermutes(ByUserID(), players);
    if |players| <= MAX_PLAYER_COUNT then G15.Parsed(SlotsFor(Sort(ByUserID(), players))) else G15.IndexPanic
  }

  lemma FilledSnoc(ps: seq<StatusPlayer>, n: nat)
    requires n < |ps| && n < MAX_PLAYER_COUNT
    ensures Filled(ps, n)[n := SlotFor(ps[n], n)] == Filled(ps, n + 1)
  {
  }

  method FillSlots(players: seq<StatusPlayer>) returns (r: G15.Outcome)
    ensures r == ServerDump(players)
  {
    var sorted := Sort(ByUserID(), players);
    SortPermutes(ByUserID(), players);
    var dump := new Slot[MAX_PLAYER_COUNT](_ => ZERO_SLOT);
    assert dump[..] == Filled(sorted, 0);
    for idx := 0 to |sorted|
      invariant idx <= MAX_PLAYER_COUNT
      invariant dump[..] == Filled(sorted, idx)
    {
      if idx >= MAX_PLAYER_COUNT {
        return G15.IndexPanic;
      }
      FilledSnoc(sorted, idx);
      var slot := SlotFor(sorted[idx], idx);
      dump[idx] := slot;
      assert dump[..] == Filled(sorted, idx)[idx := slot];
    }
    return G15.Parsed(dump[..]);
  }

  lemma ByUserIDIsPreorder()
    ensures TotalPreorder(ByUserID())
  {
  }

  /** The slots hold the players in ascending user id, equal ids in the order they were listed. */
  lemma SlotOrder(players: seq<StatusPlayer>, p: StatusPlayer)
    requires |players| <= MAX_PLAYER_COUNT
    ensures var sorted := Sort(ByUserID(), players);
            && multiset(sorted) == multiset(players) && |sorted| == |players|
            && Ties(ByUserID(), sorted, p) == Ties(ByUserID(), players, p)
            && var slots := SlotsFor(sorted);
               && (forall i, j :: 0 <= i < j < |players| ==> slots[i].userID <= slots[j].userID)
               && (forall i :: |players| <= i < MAX_PLAYER_COUNT ==> slots[i] == ZERO_SLOT)
  {
    ByUserIDIsPreorder();
    SortPermutes(ByUserID(), players);
    SortAscends(ByUserID(), players);
    SortKeepsTies(ByUserID(), players, p);
    var le, sorted := ByUserID(), Sort(ByUserID(), players);
    assert forall i, j :: 0 <= i < j < |sorted| ==> le(sorted[i], sorted[j]);
  }

  function OnTeam(slots: seq<Slot>, team: int): nat {
    if slots == [] then 0
    else OnTeam(slots[..|slots| - 1], team) + if slots[|slots| - 1].team == team then 1 else 0
  }

  lemma SlotsAt(ps: seq<StatusPlayer>, i: nat)
    requires |ps| <= MAX_PLAYER_COUNT && i < MAX_PLAYER_COUNT
    ensures SlotsFor(ps)[i].steamID == if i < |ps| then ps[i].steamID else NO_STEAM_ID
    ensures SlotsFor(ps)[i].team == if i >= |ps| then UNASSIGNED else if i % 2 == 0 then BLU else RED
  {
  }

  /** The whole slot of a player: what the listing shows, a team by position, and zero for everything else. */
  lemma ServerSlot(ps: seq<StatusPlayer>, i: nat)
    requires i < |ps| <= MAX_PLAYER_COUNT
    ensures var p := ps[i];
            SlotsFor(ps)[i]
            == Slot(name := p.name, ping := p.ping, score := 0, deaths := 0, connected := p.state == "active",
                    team := if i % 2 == 0 then 2 else 3, alive := false, health := 0, steamID := p.steamID,
                    valid := false, userID := p.userID, loss := p.loss, state := p.state,
                    address := p.ip + ":" + Decimal(p.port), time := p.connectedSeconds)
  {
  }

  lemma OnTeamSnoc(slots: seq<Slot>, n: nat, team: int)
    requires n < |slots|
    ensures OnTeam(slots[..n + 1], team) == OnTeam(slots[..n], team) + if slots[n].team == team then 1 else 0
  {
    assert slots[..n + 1][..n] == slots[..n];
  }

  lemma {:induction false} AlternatingTeams(slots: seq<Slot>, m: nat, n: nat)
    requires m <= |slots| && n <= |slots|
    requires forall i :: 0 <= i < |slots| ==>
      slots[i].team == if i >= m then UNASSIGNED else if i % 2 == 0 then BLU else RED
    ensures var k := if n <= m then n else m;
            OnTeam(slots[..n], BLU) == (k + 1) / 2 && OnTeam(slots[..n], RED) == k / 2
  {
    if n == 0 {
    } else {
      AlternatingTeams(slots, m, n - 1);
      OnTeamSnoc(slots, n - 1, BLU);
      OnTeamSnoc(slots, n - 1, RED);
    }
  }

  /** The two teams differ by at most one player, in favour of BLU. */
  lemma TeamsBalanced(ps: seq<StatusPlayer>)
    requires |ps| <= MAX_PLAYER_COUNT
    ensures OnTeam(SlotsFor(ps), BLU) == (|ps| + 1) / 2 && OnTeam(SlotsFor(ps), RED) == |ps| / 2
  {
    var slots := SlotsFor(ps);
    forall i | 0 <= i < |slots|
      ensures slots[i].team == if i >= |ps| then UNASSIGNED else if i % 2 == 0 then BLU else RED
    {
      SlotsAt(ps, i);
    }
    AlternatingTeams(slots, |ps|, MAX_PLAYER_COUNT);
    assert slots[..MAX_PLAYER_COUNT] == slots;
  }

  lemma {:induction false} ListedPrefix(slots: seq<Slot>, m: nat, n: nat)
    requires m <= |slots| && n <= |slots|
    requires forall i :: 0 <= i < |slots| ==> (slots[i].steamID.Valid() <==> i < m)
    ensures Listed(slots[..n]) == slots[..if n <= m then n else m]
  {
    if n == 0 {
    } else {
      ListedPrefix(slots, m, n - 1);
      ListedSnoc(slots, n - 1);
    }
  }

  lemma ListedSlots(ps: seq<StatusPlayer>)
    requires |ps| <= MAX_PLAYER_COUNT
    requires forall i :: 0 <= i < |ps| ==> ps[i].steamID.Valid()
    ensures Listed(SlotsFor(ps)) == SlotsFor(ps)[..|ps|]
  {
    var slots := SlotsFor(ps);
    forall i | 0 <= i < |slots|
      ensures slots[i].steamID.Valid() <==> i < |ps|
    {
      SlotsAt(ps, i);
    }
    ListedPrefix(slots, |ps|, MAX_PLAYER_COUNT);
    assert slots[..MAX_PLAYER_COUNT] == slots;
  }

  lemma {:induction false} LeadingDistinct(ids: seq<SteamID>, us: seq<SteamID>)
    requires Unique(ids + us)
    ensures Leading(ids, us) == |us|
    decreases |us|
  {
    if us == [] {
    } else {
      assert ids + us == ids + [us[0]] + us[1..];
      var all := ids + us;
      forall i | 0 <= i < |ids|
        ensures ids[i] != us[0]
      {
        assert all[i] != all[|ids|];
      }
      LeadingDistinct(ids + [us[0]], us[1..]);
    }
  }

  /** In server mode a first dump fills an empty table with exactly the listed players, in user id order. */
  lemma FirstServerDump(players: seq<StatusPlayer>, nows: seq<int>)
    requires |players| <= MAX_PLAYER_COUNT && |nows| == MAX_PLAYER_COUNT
    requires forall i :: 0 <= i < |players| ==> players[i].steamID.Valid()
    requires forall i, j :: 0 <= i < j < |players| ==> players[i].steamID != players[j].steamID
    ensures var sorted := Sort(ByUserID(), players);
            && |sorted| == |players| <= MAX_PLAYER_COUNT
            && var table := SetPlayers([], DumpRecords([], SlotsFor(sorted), nows));
               |table| == |players| && forall i :: 0 <= i < |table| ==> table[i].steamID == sorted[i].steamID
  {
    var sorted := Sort(ByUserID(), players);
    SortPermutes(ByUserID(), players);
    forall i | 0 <= i < |sorted|
      ensures sorted[i].steamID.Valid()
    {
      assert sorted[i] in multiset(players);
    }
    SortedIdsDistinct(players, sorted);
    FirstDumpIds(sorted, nows);
  }

  lemma FirstDumpIds(ps: seq<StatusPlayer>, nows: seq<int>)
    requires |ps| <= MAX_PLAYER_COUNT && |nows| == MAX_PLAYER_COUNT
    requires forall i :: 0 <= i < |ps| ==> ps[i].steamID.Valid()
    requires forall i, j :: 0 <= i < j < |ps| ==> ps[i].steamID != ps[j].steamID
    ensures var table := SetPlayers([], DumpRecords([], SlotsFor(ps), nows));
            |table| == |ps| && forall i :: 0 <= i < |table| ==> table[i].steamID == ps[i].steamID
  {
    ListedSlots(ps);
    var slots := SlotsFor(ps);
    var ids := SlotIds(Listed(slots));
    forall i | 0 <= i < |ids|
      ensures ids[i] == ps[i].steamID
    {
      SlotsAt(ps, i);
    }
    NewIdsAreAppended(DumpRecords([], slots, nows));
    var table := SetPlayers([], DumpRecords([], slots, nows));
    assert forall i :: 0 <= i < |table| ==> table[i].steamID == Ids(table)[i];
  }

  lemma NewIdsAreAppended(us: seq<Player>)
    requires Unique(Ids(us))
    ensures Ids(SetPlayers([], us)) == Ids(us)
  {
    assert [] + Ids(us) == Ids(us) && Ids([]) == [];
    LeadingDistinct([], Ids(us));
    SetPlayersIds([], us);
  }

  lemma SortedIdsDistinct(a: seq<StatusPlayer>, b: seq<StatusPlayer>)
    requires multiset(a) == multiset(b)
    requires forall i, j :: 0 <= i < j < |a| ==> a[i].steamID != a[j].steamID
    ensures forall i, j :: 0 <= i < j < |b| ==> b[i].steamID != b[j].steamID
  {
    forall i, j | 0 <= i < j < |b|
      ensures b[i].steamID != b[j].steamID
    {
      assert b[i] in multiset(b) && b[j] in multiset(b);
      var m :| 0 <= m < |a| && a[m] == b[i];
      var n :| 0 <= n < |a| && a[n] == b[j];
      if m == n {
        TwiceIn(b, i, j);
        OnceIn(a, m);
      }
    }
  }

  lemma TwiceIn(s: seq<StatusPlayer>, i: nat, j: nat)
    requires i < j < |s| && s[i] == s[j]
    ensures multiset(s)[s[i]] >= 2
  {
    assert s == s[..j] + [s[j]] + s[j + 1..];
    assert s[i] in s[..j];
  }

  lemma OnceIn(s: seq<StatusPlayer>, m: nat)
    requires m < |s| && forall i, j :: 0 <= i < j < |s| ==> s[i].steamID != s[j].steamID
    ensures multiset(s)[s[m]] == 1
  {
    assert s == s[..m] + [s[m]] + s[m + 1..];
    assert s[m] !in s[..m] && s[m] !in s[m + 1..];
  }

  // ---------------------------------------------------------------- Fetch

  /** What the `status` command shows: header fields, the players, and the separate `stats` line. */
  datatype Status = Status(header: string, players: seq<StatusPlayer>, stats: string)

  const NO_STATUS := Status("", [], "")

  /** The foreign readers of a reply; each may find nothing it can read. */
  datatype Readers = Readers(
    newID: int -> SteamID,
    status: string -> Option<(string, seq<StatusPlayer>)>,
    stats: string -> Option<string>)

  /** The fetcher is passed by value: a call works on a copy of this record. */
  datatype Config = Config(serverMode: bool, lastUpdate: seq<Slot>, lastStatus: Status)

  function NewFetcher(serverMode: bool): Config {
    Config(serverMode, EmptyDump(), NO_STATUS)
  }

  /** A dump and status, or an error with an empty dump and status, or a run off the arrays. */
  datatype Fetched = Dump(slots: seq<Slot>, status: Status) | Failed(slots: seq<Slot>, status: Status) | Panicked

  /** The status a reply leaves: what cannot be read keeps its last value. */
  function ReadStatus(last: Status, readers: Readers, reply: string): Status {
    var seen := readers.status(reply);
    var stats := readers.stats(reply);
    Status(if seen.Some? then seen.value.0 else last.header,
           if seen.Some? then seen.value.1 else last.players,
           if stats.Some? then stats.value else last.stats)
  }

  /** A listing or a stats line that can be read replaces the last one; one that cannot leaves it. */
  lemma ReadStatusParts(last: Status, readers: Readers, reply: string)
    ensures var now := ReadStatus(last, readers, reply);
            && (match readers.status(reply)
                case Some(seen) => now.header == seen.0 && now.players == seen.1
                case None => now.header == last.header && now.players == last.players)
            && (match readers.stats(reply)
                case Some(stats) => now.stats == stats
                case None => now.stats == last.stats)
  {
  }

  /**
  The body of `Fetch`; assigning the last dump and status in the copy has no
  effect on the caller's record. In server mode the status and the dump list
  the same players, in the same order.
  */
  method Fetch(f: Config, readers: Readers, reply: Option<string>) returns (r: Fetched)
    requires IsDump(f.lastUpdate)
    ensures reply.None? && !f.lastUpdate[0].steamID.Valid() ==> r == Failed(EmptyDump(), NO_STATUS)
    ensures reply.None? && f.lastUpdate[0].steamID.Valid() ==> r == Dump(f.lastUpdate, f.lastStatus)
    ensures reply.Some? && !f.serverMode ==>
              r == match G15.Parse(readers.newID, reply.value)
                   case Parsed(slots) => Dump(slots, f.lastStatus)
                   case IndexPanic => Panicked
    ensures reply.Some? && f.serverMode ==>
              var now := ReadStatus(f.lastStatus, readers, reply.value);
              if |now.players| > MAX_PLAYER_COUNT then r.Panicked?
              else
                && r.Dump?
                && multiset(r.status.players) == multiset(now.players) && |r.status.players| == |now.players|
                && Ascending(ByUserID(), r.status.players)
                && (forall p :: Ties(ByUserID(), r.status.players, p) == Ties(ByUserID(), now.players, p))
                && r.slots == SlotsFor(r.status.players)
                && r.status.header == now.header && r.status.stats == now.stats
  {
    if reply.None? {
      if f.lastUpdate[0].steamID.Valid() {
        return Dump(f.lastUpdate, f.lastStatus);
      }
      return Failed(EmptyDump(), NO_STATUS);
    }
    var status := f.lastStatus;
    var o: G15.Outcome;
    if f.serverMode {
      var seen := readers.status(reply.value);
      if seen.Some? {
        status := status.(header := seen.value.0, players := seen.value.1);
      }
      var stats := readers.stats(reply.value);
      if stats.Some? {
        status := status.(stats := stats.value);
      }
      SortedPlayers(status.players);
      o := FillSlots(status.players);
      status := status.(players := Sort(ByUserID(), status.players));
    } else {
      o := G15.ParsePlayerState(readers.newID, reply.value);
    }
    r := if o.Parsed? then Dump(o.slots, status) else Panicked;
  }

  lemma SortedPlayers(players: seq<StatusPlayer>)
    ensures var sorted := Sort(ByUserID(), players);
            && multiset(sorted) == multiset(players) && |sorted| == |players|
            && Ascending(ByUserID(), sorted)
            && forall p :: Ties(ByUserID(), sorted, p) == Ties(ByUserID(), players, p)
  {
    ByUserIDIsPreorder();
    SortPermutes(ByUserID(), players);
    SortAscends(ByUserID(), players);
    forall p
      ensures Ties(ByUserID(), Sort(ByUserID(), players), p) == Ties(ByUserID(), players, p)
    {
      SortKeepsTies(ByUserID(), players, p);
    }
  }

  lemma {:induction false} NothingListed(n: nat)
    requires n <= MAX_PLAYER_COUNT
    ensures Listed(EmptyDump()[..n]) == []
  {
    if n == 0 {
    } else {
      NothingListed(n - 1);
      ListedSnoc(EmptyDump(), n - 1);
    }
  }

  /**
  A failed fetch yields the empty dump, never an earlier one, because no call
  ever changes the stored record; the player table is then left as it is.
  */
  lemma FailedFetchKeepsTable(t: seq<Player>, nows: seq<int>)
    requires |nows| == MAX_PLAYER_COUNT
    ensures SetPlayers(t, DumpRecords(t, EmptyDump(), nows)) == t
    ensures forall serverMode :: !NewFetcher(serverMode).lastUpdate[0].steamID.Valid()
  {
    NothingListed(MAX_PLAYER_COUNT);
    assert EmptyDump()[..MAX_PLAYER_COUNT] == EmptyDump();
    assert DumpRecords(t, EmptyDump(), nows) == [];
  }
}
