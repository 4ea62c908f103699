/** The recorder of game events: chat rows in a database, kills in memory. */
module BlackBox {
  import opened Domain
  import opened PlayerTable

  datatype Kill = Kill(source: SteamID, victim: SteamID, weapon: string, crit: bool, createdOn: int)

  datatype ChatRow = ChatRow(steamID: SteamID, name: string, message: string, teamOnly: int, createdOn: int)

  datatype Event =
    | Msg(id: SteamID, name: string, message: string, teamOnly: bool, at: int)
    | KillEvent(kill: Kill)
    | Connect
    | Address(address: string)
    | Hostname(hostname: string)
    | Tags(tags: seq<string>)
    | Unrecorded

  /** Which of the two inserts an event may need will be refused by the database. */
  datatype Faults = Faults(player: bool, chat: bool)

  class PlayerHistory {
    const steamID: SteamID
    var kills: seq<Kill>

    constructor (id: SteamID)
      ensures steamID == id && kills == []
    {
      steamID := id;
      kills := [];
    }
  }

  /** The kills of one source, in order. */
  function KillsOf(log: seq<Kill>, id: SteamID): seq<Kill> {
    if log == [] then []
    else
      var n := |log| - 1;
      KillsOf(log[..n], id) + if log[n].source == id then [log[n]] else []
  }

  // ---------------------------------------------------------------- what a run stores

  /** Message `n` is from the player and its player insert, if one is needed, goes well. */
  predicate Inserts(events: seq<Event>, faults: seq<Faults>, n: int, id: SteamID)
    requires |faults| == |events|
  {
    0 <= n < |events| && events[n].Msg? && events[n].id == id && !faults[n].player
  }

  /** The player is remembered before event `n`: from the start, or since a message whose insert went well. */
  ghost predicate KnownBefore(events: seq<Event>, faults: seq<Faults>, known: seq<SteamID>, n: int, id: SteamID)
    requires |faults| == |events|
  {
    id in known || exists m :: m < n && Inserts(events, faults, m, id)
  }

  /** Event `n` is a message and both inserts it may need go well. */
  ghost predicate Accepted(events: seq<Event>, faults: seq<Faults>, known: seq<SteamID>, n: int)
    requires |faults| == |events|
  {
    && 0 <= n < |events| && events[n].Msg? && !faults[n].chat
    && (!faults[n].player || KnownBefore(events, faults, known, n, events[n].id))
  }

  function RowOf(e: Event): ChatRow
    requires e.Msg?
  {
    ChatRow(e.id, e.name, e.message, if e.teamOnly then 1 else 0, e.at)
  }

  /** The rows of the accepted messages among the first `n` events, in order. */
  ghost function Rows(events: seq<Event>, faults: seq<Faults>, known: seq<SteamID>, n: nat): seq<ChatRow>
    requires |faults| == |events| && n <= |events|
  {
    if n == 0 then []
    else
      Rows(events, faults, known, n - 1)
      + if Accepted(events, faults, known, n - 1) then [RowOf(events[n - 1])] else []
  }

  /** The database and the remembered ids are what the first `n` events and their faults make of them. */
  ghost predicate StoredBy(
    events: seq<Event>, faults: seq<Faults>, n: nat,
    players0: set<SteamID>, known0: seq<SteamID>, chat0: seq<ChatRow>,
    players: set<SteamID>, known: seq<SteamID>, chat: seq<ChatRow>)
    requires |faults| == |events| && n <= |events|
  {
    && chat == chat0 + Rows(events, faults, known0, n)
    && known0 <= known
    && (forall id :: id in known <==> KnownBefore(events, faults, known0, n, id))
    && (forall id :: id in players <==> id in players0 || exists m :: m < n && Inserts(events, faults, m, id))
  }

  class Recorder {
    // The database: the primary keys of the player table and the chat rows.
    var players: set<SteamID>
    var chat: seq<ChatRow>
    // The recorder's own state.
    var validIDs: seq<SteamID>
    var histories: seq<PlayerHistory>
    var address: string
    var hostname: string
    var tags: seq<string>
    ghost var log: seq<Kill>

    /** Every chat row refers to a stored player, and the remembered ids are stored and distinct. */
    ghost predicate KeysOk()
      reads this
    {
      && (forall i :: 0 <= i < |chat| ==> chat[i].steamID in players)
      && Unique(validIDs)
      && (forall i :: 0 <= i < |validIDs| ==> validIDs[i] in players)
    }

    /** One history per player, holding exactly that player's kills from the log, in order. */
    ghost predicate MatchOk()
      reads this, histories
    {
      && Unique(HistoryIds(histories))
      && (forall i :: 0 <= i < |histories| ==> histories[i].kills == KillsOf(log, histories[i].steamID))
      && (forall k :: 0 <= k < |log| ==> log[k].source in HistoryIds(histories))
    }

    ghost predicate Valid()
      reads this, histories
    {
      KeysOk() && MatchOk()
    }

    constructor (stored: set<SteamID>)
      ensures Valid() && log == [] && players == stored && chat == [] && validIDs == [] && histories == []
    {
      players, chat, validIDs, histories, log := stored, [], [], [], [];
      address, hostname, tags := "", "", [];
    }

    method OnConnect()
      requires Valid()
      modifies this
      ensures Valid() && log == [] && histories == []
      ensures address == "" && hostname == "" && tags == []
      ensures players == old(players) && chat == old(chat) && validIDs == old(validIDs)
    {
      histories, log := [], [];
      address, hostname, tags := "", "", [];
    }

    /** Finds the history of a player, or starts one. */
    method History(id: SteamID) returns (h: PlayerHistory)
      requires Valid()
      modifies this`histories
      ensures Valid() && h in histories && h.steamID == id
      ensures histories == old(histories) || (fresh(h) && histories == old(histories) + [h])
    {
      for i := 0 to |histories|
        modifies {}
        invariant forall k :: 0 <= k < i ==> histories[k].steamID != id
      {
        if histories[i].steamID == id {
          return histories[i];
        }
      }
      h := new PlayerHistory(id);
      NoKillsYet(log, histories, id);
      histories := histories + [h];
      assert HistoryIds(histories) == HistoryIds(old(histories)) + [id];
    }

    method OnKill(kill: Kill)
      requires Valid()
      modifies this`histories, this`log, histories
      ensures Valid() && log == old(log) + [kill]
      ensures players == old(players) && chat == old(chat) && validIDs == old(validIDs)
      ensures forall i :: 0 <= i < |histories| ==> histories[i] in old(histories) || fresh(histories[i])
    {
      var h := History(kill.source);
      HistoryAt(histories, h);
      assert (log + [kill])[..|log|] == log;
      h.kills := h.kills + [kill];
      log := log + [kill];
    }

    /** Makes sure the player row exists before a chat row refers to it. */
    method EnsureSID(id: SteamID, fails: bool) returns (ok: bool)
      requires Valid()
      modifies this`players, this`validIDs
      ensures Valid()
      ensures ok <==> id in old(validIDs) || !fails
      ensures players == if ok then old(players) + {id} else old(players)
      ensures validIDs == if ok && id !in old(validIDs) then old(validIDs) + [id] else old(validIDs)
    {
      if id in validIDs {
        return true;
      }
      if fails {
        return false;
      }
      players := players + {id};
      validIDs := validIDs + [id];
      return true;
    }

    method OnMsg(e: Event, faults: Faults) returns (ok: bool)
      requires Valid() && e.Msg?
      modifies this`players, this`validIDs, this`chat
      ensures Valid()
      ensures var known := e.id in old(validIDs) || !faults.player;
              && (ok <==> known && !faults.chat)
              && players == (if known then old(players) + {e.id} else old(players))
              && validIDs == (if known && e.id !in old(validIDs) then old(validIDs) + [e.id] else old(validIDs))
      ensures chat == if ok then old(chat) + [ChatRow(e.id, e.name, e.message, if e.teamOnly then 1 else 0, e.at)]
                      else old(chat)
    {
      ok := EnsureSID(e.id, faults.player);
      if !ok {
        return;
      }
      if faults.chat {
        return false;
      }
      chat := chat + [ChatRow(e.id, e.name, e.message, if e.teamOnly then 1 else 0, e.at)];
    }

    /** One turn of the event loop, under any pattern of insert failures. */
    method Handle(e: Event, faults: Faults)
      requires Valid()
      modifies this, histories
      ensures Valid()
      ensures log == LogAfter(old(log), e)
      ensures e.Msg? ==>
                var known := e.id in old(validIDs) || !faults.player;
                && players == (if known then old(players) + {e.id} else old(players))
                && validIDs == (if known && e.id !in old(validIDs) then old(validIDs) + [e.id] else old(validIDs))
                && chat == if known && !faults.chat
                           then old(chat) + [ChatRow(e.id, e.name, e.message, if e.teamOnly then 1 else 0, e.at)]
                           else old(chat)
      ensures !e.Msg? ==> players == old(players) && chat == old(chat) && validIDs == old(validIDs)
      ensures address == match e case Address(a) => a case Connect => "" case _ => old(address)
      ensures hostname == match e case Hostname(h) => h case Connect => "" case _ => old(hostname)
      ensures tags == match e case Tags(ts) => ts case Connect => [] case _ => old(tags)
      ensures forall i :: 0 <= i < |histories| ==> histories[i] in old(histories) || fresh(histories[i])
    {
      match e
      case Msg(_, _, _, _, _) => var _ := OnMsg(e, faults);
      case KillEvent(kill) => OnKill(kill);
      case Connect => OnConnect();
      case Address(a) => address := a;
      case Hostname(h) => hostname := h;
      case Tags(ts) => tags := ts;
      case Unrecorded =>
    }

    /**
    Any run of the event loop keeps the foreign keys, stores one chat row per
    accepted message, and records every kill since the last connect.
    */
    method Start(events: seq<Event>, faults: seq<Faults>)
      requires Valid() && log == [] && |faults| == |events|
      modifies this, histories
      ensures Valid()
      ensures log == KillsSinceConnect(events)
      ensures StoredBy(events, faults, |events|, old(players), old(validIDs), old(chat), players, validIDs, chat)
      ensures address == match LastAddress(events) case Some(a) => a case None => old(address)
      ensures hostname == match LastHostname(events) case Some(h) => h case None => old(hostname)
      ensures tags == match LastTags(events) case Some(ts) => ts case None => old(tags)
    {
      for n := 0 to |events|
        invariant Valid() && log == KillsSinceConnect(events[..n])
        invariant StoredBy(events, faults, n, old(players), old(validIDs), old(chat), players, validIDs, chat)
        invariant address == match LastAddress(events[..n]) case Some(a) => a case None => old(address)
        invariant hostname == match LastHostname(events[..n]) case Some(h) => h case None => old(hostname)
        invariant tags == match LastTags(events[..n]) case Some(ts) => ts case None => old(tags)
        invariant forall i :: 0 <= i < |histories| ==> histories[i] in old(histories) || fresh(histories[i])
      {
        assert events[..n + 1][..n] == events[..n];
        ghost var ps, vs, c := players, validIDs, chat;
        Handle(events[n], faults[n]);
        StoredByStep(events, faults, n, old(players), old(validIDs), old(chat), ps, vs, c, players, validIDs, chat);
      }
      assert events[..|events|] == events;
    }

    /** The kills held by all histories together are the kills logged since the last connect. */
    method CountKills() returns (n: nat)
      requires Valid()
      ensures n == |log|
    {
      n := 0;
      ghost var ids := HistoryIds(histories);
      for i := 0 to |histories|
        invariant n == TotalKills(log, ids[..i])
      {
        assert ids[..i + 1][..i] == ids[..i];
        n := n + |histories[i].kills|;
      }
      assert ids[..|ids|] == ids;
      KillsConserved(log, ids);
    }
  }

  function LogAfter(log: seq<Kill>, e: Event): seq<Kill> {
    match e
    case KillEvent(kill) => log + [kill]
    case Connect => []
    case _ => log
  }

  function KillsSinceConnect(events: seq<Event>): seq<Kill> {
    if events == [] then []
    else LogAfter(KillsSinceConnect(events[..|events| - 1]), events[|events| - 1])
  }

  /** The address the last address event since the last connect shows; a connect clears it. */
  function LastAddress(events: seq<Event>): Option<string> {
    if events == [] then None
    else
      match events[|events| - 1]
      case Address(a) => Some(a)
      case Connect => Some("")
      case _ => LastAddress(events[..|events| - 1])
  }

  function LastHostname(events: seq<Event>): Option<string> {
    if events == [] then None
    else
      match events[|events| - 1]
      case Hostname(h) => Some(h)
      case Connect => Some("")
      case _ => LastHostname(events[..|events| - 1])
  }

  function LastTags(events: seq<Event>): Option<seq<string>> {
    if events == [] then None
    else
      match events[|events| - 1]
      case Tags(ts) => Some(ts)
      case Connect => Some([])
      case _ => LastTags(events[..|events| - 1])
  }

  /** One more event, handled as the recorder handles it. */
  lemma StoredByStep(
    events: seq<Event>, faults: seq<Faults>, n: nat,
    players0: set<SteamID>, known0: seq<SteamID>, chat0: seq<ChatRow>,
    players: set<SteamID>, known: seq<SteamID>, chat: seq<ChatRow>,
    players': set<SteamID>, known': seq<SteamID>, chat': seq<ChatRow>)
    requires |faults| == |events| && n < |events|
    requires StoredBy(events, faults, n, players0, known0, chat0, players, known, chat)
    requires forall id :: id in known ==> id in players
    requires var e := events[n];
             if e.Msg? && (e.id in known || !faults[n].player) then
               && players' == players + {e.id}
               && known' == (if e.id in known then known else known + [e.id])
               && chat' == if faults[n].chat then chat else chat + [RowOf(e)]
             else players' == players && known' == known && chat' == chat
    ensures StoredBy(events, faults, n + 1, players0, known0, chat0, players', known', chat')
  {
    var e := events[n];
    assert forall id :: Inserts(events, faults, n, id) <==> e.Msg? && e.id == id && !faults[n].player;
    assert e.Msg? ==> (e.id in known <==> KnownBefore(events, faults, known0, n, e.id));
    forall id
      ensures KnownBefore(events, faults, known0, n + 1, id)
         <==> KnownBefore(events, faults, known0, n, id) || Inserts(events, faults, n, id)
    {
    }
    forall id
      ensures (exists m :: m < n + 1 && Inserts(events, faults, m, id))
         <==> (exists m :: m < n && Inserts(events, faults, m, id)) || Inserts(events, faults, n, id)
    {
    }
  }

  /** The kills among the events, in order. */
  function KillsIn(events: seq<Event>): seq<Kill> {
    if events == [] then []
    else
      var n := |events| - 1;
      KillsIn(events[..n]) + if events[n].KillEvent? then [events[n].kill] else []
  }

  lemma {:induction false} KillsAddUp(a: seq<Event>, b: seq<Event>)
    requires Connect !in b
    ensures KillsSinceConnect(a + b) == KillsSinceConnect(a) + KillsIn(b)
    decreases |b|
  {
    if b == [] {
      assert a + b == a;
    } else {
      var n := |b| - 1;
      KillsAddUp(a, b[..n]);
      assert (a + b)[..|a| + n] == a + b[..n];
    }
  }

  /** What is recorded are the kills behind the last connect, or all of them when there was none. */
  lemma KillsBehindLastConnect(a: seq<Event>, b: seq<Event>)
    requires Connect !in b
    ensures KillsSinceConnect(b) == KillsIn(b)
    ensures KillsSinceConnect(a + [Connect] + b) == KillsIn(b)
  {
    KillsAddUp([], b);
    assert [] + b == b;
    KillsAddUp(a + [Connect], b);
    assert (a + [Connect])[..|a|] == a;
  }

  function HistoryIds(hs: seq<PlayerHistory>): (r: seq<SteamID>)
    ensures |r| == |hs|
  {
    seq(|hs|, i requires 0 <= i < |hs| => hs[i].steamID)
  }

  lemma HistoryAt(hs: seq<PlayerHistory>, h: PlayerHistory)
    requires h in hs && Unique(HistoryIds(hs))
    ensures h.steamID in HistoryIds(hs)
    ensures forall i :: 0 <= i < |hs| && hs[i].steamID == h.steamID ==> hs[i] == h
  {
    var k :| 0 <= k < |hs| && hs[k] == h;
    assert HistoryIds(hs)[k] == h.steamID;
    assert forall i :: 0 <= i < |hs| ==> HistoryIds(hs)[i] == hs[i].steamID;
  }

  lemma NoKillsYet(log: seq<Kill>, hs: seq<PlayerHistory>, id: SteamID)
    requires forall k :: 0 <= k < |log| ==> log[k].source in HistoryIds(hs)
    requires forall k :: 0 <= k < |hs| ==> hs[k].steamID != id
    ensures KillsOf(log, id) == [] && id !in HistoryIds(hs)
  {
    assert forall k :: 0 <= k < |hs| ==> HistoryIds(hs)[k] == hs[k].steamID;
    NoKills(log, id);
  }

  lemma {:induction false} NoKills(log: seq<Kill>, id: SteamID)
    requires forall k :: 0 <= k < |log| ==> log[k].source != id
    ensures KillsOf(log, id) == []
  {
    if log == [] {
    } else {
      NoKills(log[..|log| - 1], id);
    }
  }

  // ---------------------------------------------------------------- conservation

  function TotalKills(log: seq<Kill>, ids: seq<SteamID>): nat {
    if ids == [] then 0 else TotalKills(log, ids[..|ids| - 1]) + |KillsOf(log, ids[|ids| - 1])|
  }

  lemma {:induction false} TotalKillsSnoc(log: seq<Kill>, kill: Kill, ids: seq<SteamID>)
    requires Unique(ids)
    ensures TotalKills(log + [kill], ids) == TotalKills(log, ids) + if kill.source in ids then 1 else 0
  {
    if ids == [] {
    } else {
      var n := |ids| - 1;
      TotalKillsSnoc(log, kill, ids[..n]);
      assert (log + [kill])[..|log|] == log;
      assert ids == ids[..n] + [ids[n]];
    }
  }

  /** The kills in all histories together are exactly the kills in the log: none lost, none doubled. */
  lemma {:induction false} KillsConserved(log: seq<Kill>, ids: seq<SteamID>)
    requires Unique(ids)
    requires forall k :: 0 <= k < |log| ==> log[k].source in ids
    ensures TotalKills(log, ids) == |log|
    decreases |log|
  {
    if log == [] {
      NoKillsAtAll(ids);
    } else {
      var n := |log| - 1;
      KillsConserved(log[..n], ids);
      TotalKillsSnoc(log[..n], log[n], ids);
      assert log == log[..n] + [log[n]];
    }
  }

  lemma {:induction false} NoKillsAtAll(ids: seq<SteamID>)
    ensures TotalKills([], ids) == 0
  {
    if ids == [] {
    } else {
      NoKillsAtAll(ids[..|ids| - 1]);
    }
  }
}
