/** From what a server prints to what the table shows, across fetcher, parser and table. */
module EndToEnd {
  import opened Domain
  import opened Text
  import opened PlayerTable
  import opened StableSort
  import G15
  import F = Fetcher

  /** Where the table keeps each printed cell. */
  function PlayerCell(p: Player, f: G15.Field): G15.Cell {
    match f
    case NameField => G15.Word(p.name)
    case PingField => G15.Whole(p.ping)
    case ScoreField => G15.Whole(p.score)
    case DeathsField => G15.Whole(p.deaths)
    case ConnectedField => G15.Truth(p.connected)
    case TeamField => G15.Whole(p.team)
    case AliveField => G15.Truth(p.alive)
    case HealthField => G15.Whole(p.health)
    case AccountField => G15.Id(p.steamID)
    case ValidField => G15.Truth(p.valid)
    case UserField => G15.Whole(p.userID)
  }

  /** The record a dump leaves for a player it admits comes from the last slot listing the player. */
  lemma DumpedRecord(t: seq<Player>, slots: seq<Slot>, nows: seq<int>, i: nat)
    requires |nows| == |slots| && i < |slots| && slots[i].steamID.Valid()
    requires forall j :: i < j < |slots| ==> slots[j].steamID != slots[i].steamID
    requires slots[i].steamID in IdsAfter(Ids(t), SlotIds(Listed(slots)))
    ensures Lookup(SetPlayers(t, DumpRecords(t, slots, nows)), slots[i].steamID)
         == Some(ApplySlot(Known(t, slots[i].steamID), slots[i], nows[i]))
  {
    var id := slots[i].steamID;
    SetPlayersLookup(t, DumpRecords(t, slots, nows), id);
    LatestOfDump(t, slots, nows, i, NewPlayer(id));
  }

  lemma SlotCells(p: Player, s: Slot, now: int, f: G15.Field)
    requires p.steamID == s.steamID
    ensures PlayerCell(ApplySlot(p, s, now), f) == G15.Read(s, f)
  {
  }

  /**
  Every cell the console prints for a player is the cell the table shows after
  the dump, for every player the table admits; matches and profile stay.
  */
  lemma ConsoleToTable(
    newID: int -> SteamID, es: seq<G15.Entry>, ends: seq<string>, dump: seq<Slot>, t: seq<Player>, nows: seq<int>,
    i: nat, f: G15.Field)
    requires |nows| == MAX_PLAYER_COUNT
    requires G15.PrintsOut(newID, es, dump) && G15.PrintsLines(es, ends)
    requires i < MAX_PLAYER_COUNT && dump[i].steamID.Valid()
    requires forall j :: i < j < |dump| ==> dump[j].steamID != dump[i].steamID
    requires dump[i].steamID in IdsAfter(Ids(t), SlotIds(Listed(dump)))
    ensures var o := G15.Parse(newID, G15.Printed(es, ends));
            && o.Parsed?
            && var r := Lookup(SetPlayers(t, DumpRecords(t, o.slots, nows)), dump[i].steamID);
               && r.Some?
               && PlayerCell(r.value, f) == G15.Read(dump[i], f)
               && r.value.g15UpdatedOn == At(nows[i])
               && r.value.bdMatches == Known(t, dump[i].steamID).bdMatches
               && r.value.meta == Known(t, dump[i].steamID).meta
  {
    G15.DumpRoundTrip(newID, es, ends, dump);
    DumpedRecord(t, dump, nows, i);
    SlotCells(Known(t, dump[i].steamID), dump[i], nows[i], f);
  }

  /** The table shows a status player's own values. */
  predicate Shows(p: Player, q: F.StatusPlayer) {
    && p.steamID == q.steamID && p.name == q.name && p.userID == q.userID
    && p.ping == q.ping && p.loss == q.loss && p.time == q.connectedSeconds
    && p.address == q.ip + ":" + Decimal(q.port)
    && (p.connected <==> q.state == "active")
  }

  lemma SlotShows(p: Player, q: F.StatusPlayer, i: nat, now: int)
    requires p.steamID == q.steamID
    ensures Shows(ApplySlot(p, F.SlotFor(q, i), now), q)
  {
  }

  /** In server mode, too, every player the table admits shows its own values; matches and profile stay. */
  lemma StatusToTable(players: seq<F.StatusPlayer>, t: seq<Player>, nows: seq<int>, i: nat)
    requires |nows| == MAX_PLAYER_COUNT && |players| <= MAX_PLAYER_COUNT && i < |players|
    requires forall k, m :: 0 <= k < m < |players| ==> players[k].steamID != players[m].steamID
    requires var sorted := Sort(F.ByUserID(), players);
             && |sorted| == |players| && sorted[i].steamID.Valid()
             && sorted[i].steamID in IdsAfter(Ids(t), SlotIds(Listed(F.SlotsFor(sorted))))
    ensures var sorted := Sort(F.ByUserID(), players);
            var r := Lookup(SetPlayers(t, DumpRecords(t, F.SlotsFor(sorted), nows)), sorted[i].steamID);
            && r.Some? && Shows(r.value, sorted[i])
            && r.value.g15UpdatedOn == At(nows[i])
            && r.value.bdMatches == Known(t, sorted[i].steamID).bdMatches
            && r.value.meta == Known(t, sorted[i].steamID).meta
  {
    var sorted := Sort(F.ByUserID(), players);
    SortPermutes(F.ByUserID(), players);
    F.SortedIdsDistinct(players, sorted);
    ListedOnce(sorted, i);
    DumpedRecord(t, F.SlotsFor(sorted), nows, i);
    SlotShows(Known(t, sorted[i].steamID), sorted[i], i, nows[i]);
  }

  /** From the empty table every listed player is admitted. */
  lemma FirstStatusAdmitsAll(players: seq<F.StatusPlayer>, i: nat)
    requires |players| <= MAX_PLAYER_COUNT && i < |players|
    requires forall k :: 0 <= k < |players| ==> players[k].steamID.Valid()
    requires forall k, m :: 0 <= k < m < |players| ==> players[k].steamID != players[m].steamID
    ensures var sorted := Sort(F.ByUserID(), players);
            && |sorted| == |players| && sorted[i].steamID.Valid()
            && sorted[i].steamID in IdsAfter(Ids([]), SlotIds(Listed(F.SlotsFor(sorted))))
  {
    var sorted := Sort(F.ByUserID(), players);
    var nows := seq(MAX_PLAYER_COUNT, _ => 0);
    SortPermutes(F.ByUserID(), players);
    assert sorted[i] in multiset(players);
    F.FirstServerDump(players, nows);
    var us := DumpRecords([], F.SlotsFor(sorted), nows);
    SetPlayersIds([], us);
    assert Ids(SetPlayers([], us))[i] == sorted[i].steamID;
  }

  lemma ListedOnce(ps: seq<F.StatusPlayer>, i: nat)
    requires |ps| <= MAX_PLAYER_COUNT && i < |ps| && ps[i].steamID.Valid()
    requires forall k, m :: 0 <= k < m < |ps| ==> ps[k].steamID != ps[m].steamID
    ensures var slots := F.SlotsFor(ps);
            && slots[i] == F.SlotFor(ps[i], i) && slots[i].steamID == ps[i].steamID
            && forall j :: i < j < |slots| ==> slots[j].steamID != slots[i].steamID
  {
    var slots := F.SlotsFor(ps);
    forall j | i <= j < |slots|
      ensures slots[j].steamID == if j < |ps| then ps[j].steamID else NO_STEAM_ID
    {
      F.SlotsAt(ps, j);
    }
  }
}
