/**
The player table as a value: what `setPlayer`, `player`, `removeExpired` and
`UpdateDumpPlayer` compute, in closed form.
*/
module PlayerTable {
  import opened Domain

  const PLAYER_TIMEOUT := 30 * SECOND

  function Ids(t: seq<Player>): (r: seq<SteamID>)
    ensures |r| == |t|
  {
    seq(|t|, i requires 0 <= i < |t| => t[i].steamID)
  }

  ghost predicate Unique(ids: seq<SteamID>) {
    forall i, j :: 0 <= i < j < |ids| ==> ids[i] != ids[j]
  }

  /** Puts `p` at every position that holds its id. */
  function Overwrite(t: seq<Player>, p: Player): (r: seq<Player>)
    ensures |r| == |t|
  {
    seq(|t|, i requires 0 <= i < |t| => if t[i].steamID == p.steamID then p else t[i])
  }

  /** The first record with the id, as the `player` lookup returns it. */
  function Lookup(t: seq<Player>, id: SteamID): (r: Option<Player>)
    ensures r.None? <==> id !in Ids(t)
    ensures r.Some? ==> r.value.steamID == id && r.value in t
  {
    if t == [] then None
    else
      assert Ids(t) == [t[0].steamID] + Ids(t[1..]);
      if t[0].steamID == id then Some(t[0]) else Lookup(t[1..], id)
  }

  /** The lookup finds the record with the id before which no other has it. */
  lemma {:induction false} LookupIsFirst(t: seq<Player>, id: SteamID, k: nat)
    requires k <= |t| && forall j :: 0 <= j < k ==> t[j].steamID != id
    requires k < |t| ==> t[k].steamID == id
    ensures Lookup(t, id) == if k < |t| then Some(t[k]) else None
  {
    if k == 0 {
    } else {
      LookupIsFirst(t[1..], id, k - 1);
    }
  }

  /**
  The loop of `setPlayer` from the point where `existing` has the given value:
  the flag is raised by the first update that finds its id and never lowered,
  so no later update can be appended.
  */
  function SetFrom(t: seq<Player>, existing: bool, us: seq<Player>): seq<Player>
    decreases |us|
  {
    if us == [] then t
    else if us[0].steamID in Ids(t) then SetFrom(Overwrite(t, us[0]), true, us[1..])
    else if existing then SetFrom(t, true, us[1..])
    else SetFrom(t + [us[0]], false, us[1..])
  }

  function SetPlayers(t: seq<Player>, us: seq<Player>): seq<Player> {
    SetFrom(t, false, us)
  }

  /** How many updates come before the first whose id is already in the table. */
  function Leading(ids: seq<SteamID>, us: seq<SteamID>): (k: nat)
    ensures k <= |us|
    decreases |us|
  {
    if us == [] || us[0] in ids then 0 else 1 + Leading(ids + [us[0]], us[1..])
  }

  /** The last update for the id, or `d` when there is none. */
  function Latest(us: seq<Player>, id: SteamID, d: Player): (r: Player)
    ensures d.steamID == id ==> r.steamID == id
    decreases |us|
  {
    if us == [] then d
    else Latest(us[1..], id, if us[0].steamID == id then us[0] else d)
  }

  /** Every record of `t` replaced by the last update for its id, in place. */
  function Mirror(t: seq<Player>, us: seq<Player>): (r: seq<Player>)
    ensures |r| == |t|
    ensures Ids(r) == Ids(t)
  {
    var r := seq(|t|, i requires 0 <= i < |t| => Latest(us, t[i].steamID, t[i]));
    assert Ids(r) == Ids(t);
    r
  }

  // ---------------------------------------------------------------- closed form

  lemma IdsConcat(a: seq<Player>, b: seq<Player>)
    ensures Ids(a + b) == Ids(a) + Ids(b)
  {
  }

  lemma IdsSplit(us: seq<Player>)
    requires us != []
    ensures Ids(us[1..]) == Ids(us)[1..]
    ensures Ids(us) == [us[0].steamID] + Ids(us[1..])
  {
  }

  lemma IdsOverwrite(t: seq<Player>, p: Player)
    ensures Ids(Overwrite(t, p)) == Ids(t)
  {
  }

  /** What `Leading` counts: new distinct ids, up to the first id that is known or repeated. */
  lemma {:induction false} LeadingIsFirstKnown(ids: seq<SteamID>, us: seq<SteamID>, i: nat)
    ensures var k := Leading(ids, us);
            && (i < k ==> us[i] !in ids && us[i] !in us[..i])
            && (i == k < |us| ==> us[i] in ids || us[i] in us[..i])
    decreases |us|
  {
    if us == [] || us[0] in ids || i == 0 {
    } else {
      LeadingIsFirstKnown(ids + [us[0]], us[1..], i - 1);
      if i < |us| {
        assert us[1..][i - 1] == us[i];
        assert us[..i] == [us[0]] + us[1..][..i - 1];
      }
    }
  }

  /** `Latest` really is the last one. */
  lemma {:induction false} LatestIsLast(us: seq<Player>, id: SteamID, d: Player, k: nat)
    requires k < |us| && us[k].steamID == id
    requires forall j :: k < j < |us| ==> us[j].steamID != id
    ensures Latest(us, id, d) == us[k]
    decreases |us|
  {
    if k == 0 {
      AbsentFrom(us[1..], id);
      LatestOfAbsent(us[1..], id, us[0]);
    } else {
      LatestIsLast(us[1..], id, if us[0].steamID == id then us[0] else d, k - 1);
    }
  }

  lemma {:induction false} LatestOfAbsent(us: seq<Player>, id: SteamID, d: Player)
    requires id !in Ids(us)
    ensures Latest(us, id, d) == d
    decreases |us|
  {
    if us == [] {
    } else {
      IdsSplit(us);
      LatestOfAbsent(us[1..], id, d);
    }
  }

  lemma AbsentFrom(us: seq<Player>, id: SteamID)
    requires forall j :: 0 <= j < |us| ==> us[j].steamID != id
    ensures id !in Ids(us)
  {
  }

  /** The default only matters for an id no update carries. */
  lemma {:induction false} LatestOfPresent(us: seq<Player>, id: SteamID, d: Player, e: Player)
    requires id in Ids(us)
    ensures Latest(us, id, d) == Latest(us, id, e)
    ensures Latest(us, id, d) in us && Latest(us, id, d).steamID == id
    decreases |us|
  {
    IdsSplit(us);
    if id in Ids(us[1..]) {
      LatestOfPresent(us[1..], id, if us[0].steamID == id then us[0] else d, if us[0].steamID == id then us[0] else e);
    } else {
      LatestOfAbsent(us[1..], id, us[0]);
    }
  }

  lemma MirrorStep(t: seq<Player>, us: seq<Player>)
    requires us != []
    ensures Mirror(t, us) == Mirror(Overwrite(t, us[0]), us[1..])
  {
  }

  lemma MirrorAbsent(t: seq<Player>, us: seq<Player>)
    requires us != [] && us[0].steamID !in Ids(t)
    ensures Mirror(t, us) == Mirror(t, us[1..])
  {
    assert forall i :: 0 <= i < |t| ==> Ids(t)[i] == t[i].steamID;
  }

  lemma {:induction false} SetFromExisting(t: seq<Player>, us: seq<Player>)
    ensures SetFrom(t, true, us) == Mirror(t, us)
    decreases |us|
  {
    if us == [] {
      assert Mirror(t, us) == t;
    } else if us[0].steamID in Ids(t) {
      SetFromExisting(Overwrite(t, us[0]), us[1..]);
      MirrorStep(t, us);
    } else {
      SetFromExisting(t, us[1..]);
      MirrorAbsent(t, us);
    }
  }

  /**
  The whole effect of one `setPlayer` call: the leading new records are
  appended, then every record, old or new, is replaced by the last update that
  carries its id. Every other update is lost.
  */
  lemma {:induction false} SetPlayersClosedForm(t: seq<Player>, us: seq<Player>)
    ensures SetPlayers(t, us) == Mirror(t + us[..Leading(Ids(t), Ids(us))], us)
    decreases |us|
  {
    if us == [] {
      assert t + us[..0] == t;
      assert Mirror(t, us) == t;
    } else {
      IdsSplit(us);
      if us[0].steamID in Ids(t) {
        SetFromExisting(Overwrite(t, us[0]), us[1..]);
        MirrorStep(t, us);
        assert t + us[..0] == t;
      } else {
        var t' := t + [us[0]];
        IdsConcat(t, [us[0]]);
        assert Ids(t') == Ids(t) + [Ids(us)[0]];
        SetPlayersClosedForm(t', us[1..]);
        var k := Leading(Ids(t'), Ids(us[1..]));
        assert t' + us[1..][..k] == t + us[..k + 1];
        MirrorStep(t + us[..k + 1], us);
        OverwriteSelf(t, us, k + 1);
      }
    }
  }

  lemma OverwriteSelf(t: seq<Player>, us: seq<Player>, k: nat)
    requires 0 < k <= |us| && us[0].steamID !in Ids(t)
    requires k == Leading(Ids(t), Ids(us))
    ensures Overwrite(t + us[..k], us[0]) == t + us[..k]
  {
    assert forall i :: 0 <= i < |t| ==> Ids(t)[i] == t[i].steamID;
    forall i | 0 < i < k
      ensures us[i].steamID != us[0].steamID
    {
      LeadingIsFirstKnown(Ids(t), Ids(us), i);
      assert Ids(us)[..i][0] == us[0].steamID;
    }
  }

  // ---------------------------------------------------------------- one update at a time

  /** The table after one update, given the flag before it. */
  function Round(t: seq<Player>, existing: bool, p: Player): seq<Player> {
    if p.steamID in Ids(t) then Overwrite(t, p) else if existing then t else t + [p]
  }

  /** The flag after a batch: some update found its id. */
  predicate Raised(t: seq<Player>, us: seq<Player>) {
    Leading(Ids(t), Ids(us)) < |us|
  }

  lemma {:induction false} LeadingSnoc(ids: seq<SteamID>, us: seq<SteamID>, x: SteamID)
    ensures Leading(ids, us + [x])
         == if Leading(ids, us) < |us| then Leading(ids, us) else if x in ids || x in us then |us| else |us| + 1
    decreases |us|
  {
    if us == [] {
      assert us + [x] == [x] && [x][1..] == [];
    } else {
      assert (us + [x])[0] == us[0] && (us + [x])[1..] == us[1..] + [x];
      LeadingSnoc(ids + [us[0]], us[1..], x);
      assert us == [us[0]] + us[1..];
    }
  }

  lemma {:induction false} LeadingPrefix(ids: seq<SteamID>, us: seq<SteamID>, k: nat)
    requires k <= |us|
    ensures Leading(ids, us[..k]) == if k <= Leading(ids, us) then k else Leading(ids, us)
    decreases |us|
  {
    if us == [] || k == 0 || us[0] in ids {
    } else {
      assert us[..k][0] == us[0] && us[..k][1..] == us[1..][..k - 1];
      LeadingPrefix(ids + [us[0]], us[1..], k - 1);
    }
  }

  lemma {:induction false} SetFromSnoc(t: seq<Player>, existing: bool, us: seq<Player>, p: Player)
    ensures SetFrom(t, existing, us + [p]) == Round(SetFrom(t, existing, us), existing || Raised(t, us), p)
    decreases |us|
  {
    if us == [] {
      assert us + [p] == [p] && [p][1..] == [];
    } else {
      assert (us + [p])[0] == us[0] && (us + [p])[1..] == us[1..] + [p];
      IdsSplit(us);
      IdsConcat(t, [us[0]]);
      assert Ids([us[0]]) == [Ids(us)[0]];
      SetFromSnoc(Round(t, existing, us[0]), existing || us[0].steamID in Ids(t), us[1..], p);
    }
  }

  /** A batch is its updates one after the other, with the flag carried along. */
  lemma SetPlayersSnoc(t: seq<Player>, us: seq<Player>, p: Player)
    ensures SetPlayers(t, us + [p]) == Round(SetPlayers(t, us), Raised(t, us), p)
    ensures Raised(t, us + [p]) <==> Raised(t, us) || p.steamID in Ids(SetPlayers(t, us))
  {
    SetFromSnoc(t, false, us, p);
    IdsConcat(us, [p]);
    assert Ids([p]) == [p.steamID];
    LeadingSnoc(Ids(t), Ids(us), p.steamID);
    SetPlayersIds(t, us);
    assert Ids(us)[..|us|] == Ids(us);
  }

  /** The ids after the call depend on nothing but the ids before it and the ids of the updates. */
  function IdsAfter(ids: seq<SteamID>, us: seq<SteamID>): seq<SteamID> {
    ids + us[..Leading(ids, us)]
  }

  lemma SetPlayersIds(t: seq<Player>, us: seq<Player>)
    ensures Ids(SetPlayers(t, us)) == IdsAfter(Ids(t), Ids(us))
  {
    SetPlayersClosedForm(t, us);
    var k := Leading(Ids(t), Ids(us));
    IdsConcat(t, us[..k]);
    assert Ids(us[..k]) == Ids(us)[..k];
  }

  lemma {:induction false} IdsAfterUnique(ids: seq<SteamID>, us: seq<SteamID>)
    requires Unique(ids)
    ensures Unique(IdsAfter(ids, us))
  {
    var k := Leading(ids, us);
    var r := ids + us[..k];
    forall i, j | 0 <= i < j < |r|
      ensures r[i] != r[j]
    {
      if |ids| <= j {
        LeadingIsFirstKnown(ids, us, j - |ids|);
        assert i >= |ids| ==> us[..j - |ids|][i - |ids|] == r[i];
      }
    }
  }

  /** A table without repeated ids stays one. */
  lemma SetPlayersKeepsUnique(t: seq<Player>, us: seq<Player>)
    requires Unique(Ids(t))
    ensures Unique(Ids(SetPlayers(t, us)))
  {
    SetPlayersIds(t, us);
    IdsAfterUnique(Ids(t), Ids(us));
  }

  // ---------------------------------------------------------------- upsert

  function UpsertOne(t: seq<Player>, p: Player): seq<Player> {
    if p.steamID in Ids(t) then Overwrite(t, p) else t + [p]
  }

  /** The plain upsert a caller might take `setPlayer` for. */
  function Upsert(t: seq<Player>, us: seq<Player>): seq<Player>
    decreases |us|
  {
    if us == [] then t else Upsert(UpsertOne(t, us[0]), us[1..])
  }

  lemma OverwriteAbsent(t: seq<Player>, p: Player)
    requires p.steamID !in Ids(t)
    ensures Overwrite(t, p) == t
  {
    assert forall i :: 0 <= i < |t| ==> Ids(t)[i] == t[i].steamID;
  }

  lemma LookupOverwrite(t: seq<Player>, p: Player, id: SteamID)
    ensures Lookup(Overwrite(t, p), id) == if id == p.steamID && id in Ids(t) then Some(p) else Lookup(t, id)
  {
    if t == [] {
    } else {
      assert Overwrite(t, p)[1..] == Overwrite(t[1..], p);
      IdsSplit(t);
      LookupOverwrite(t[1..], p, id);
    }
  }

  lemma LookupConcat(a: seq<Player>, b: seq<Player>, id: SteamID)
    ensures Lookup(a + b, id) == if id in Ids(a) then Lookup(a, id) else Lookup(b, id)
  {
    if a == [] {
      assert a + b == b;
    } else {
      assert (a + b)[1..] == a[1..] + b;
      IdsSplit(a);
      LookupConcat(a[1..], b, id);
    }
  }

  lemma LookupUpsertOne(t: seq<Player>, p: Player, id: SteamID)
    ensures Lookup(UpsertOne(t, p), id) == if id == p.steamID then Some(p) else Lookup(t, id)
  {
    if p.steamID in Ids(t) {
      LookupOverwrite(t, p, id);
    } else {
      LookupConcat(t, [p], id);
    }
  }

  /** An upsert is a last-wins map update. */
  lemma {:induction false} UpsertIsMapUpdate(t: seq<Player>, us: seq<Player>, id: SteamID)
    ensures Lookup(Upsert(t, us), id)
         == if id in Ids(us) then Some(Latest(us, id, NewPlayer(id))) else Lookup(t, id)
    decreases |us|
  {
    if us == [] {
    } else {
      var t' := UpsertOne(t, us[0]);
      UpsertIsMapUpdate(t', us[1..], id);
      LookupUpsertOne(t, us[0], id);
      IdsSplit(us);
      if id in Ids(us[1..]) {
        LatestOfPresent(us[1..], id, NewPlayer(id), us[0]);
      } else if id == us[0].steamID {
        LatestOfAbsent(us[1..], id, us[0]);
      }
    }
  }

  /** Update `i` carries an id that is in the table or was carried by an earlier update. */
  predicate KnownAtTurn(ids: seq<SteamID>, us: seq<SteamID>, i: nat)
    requires i < |us|
  {
    us[i] in ids || us[i] in us[..i]
  }

  /** No update with an unknown id follows one with a known id. */
  predicate NoUnknownAfterKnown(ids: seq<SteamID>, us: seq<SteamID>) {
    forall i, j :: 0 <= i < j < |us| && KnownAtTurn(ids, us, i) ==> KnownAtTurn(ids, us, j)
  }

  /** Once the leading new updates are over, every remaining id is one the table already has. */
  predicate NothingSkipped(ids: seq<SteamID>, us: seq<SteamID>) {
    var known := IdsAfter(ids, us);
    forall j :: 0 <= j < |us| ==> us[j] in known
  }

  /** A run of known updates brings no id beyond the ones the leading updates brought. */
  lemma {:induction false} KnownStayKnown(ids: seq<SteamID>, us: seq<SteamID>, j: nat)
    requires j < |us|
    requires forall i :: Leading(ids, us) <= i < |us| ==> KnownAtTurn(ids, us, i)
    ensures us[j] in IdsAfter(ids, us)
  {
    var k := Leading(ids, us);
    if j < k {
      assert us[..k][j] == us[j];
    } else if us[j] !in ids {
      assert KnownAtTurn(ids, us, j);
      var m :| 0 <= m < j && us[..j][m] == us[j];
      KnownStayKnown(ids, us, m);
    }
  }

  /** The condition a caller can check says exactly that nothing is skipped. */
  lemma NothingSkippedIff(ids: seq<SteamID>, us: seq<SteamID>)
    ensures NoUnknownAfterKnown(ids, us) <==> NothingSkipped(ids, us)
  {
    var k := Leading(ids, us);
    if NoUnknownAfterKnown(ids, us) {
      forall i | k <= i < |us|
        ensures KnownAtTurn(ids, us, i)
      {
        LeadingIsFirstKnown(ids, us, k);
        assert KnownAtTurn(ids, us, k);
      }
      forall j | 0 <= j < |us|
        ensures us[j] in IdsAfter(ids, us)
      {
        KnownStayKnown(ids, us, j);
      }
    }
    if NothingSkipped(ids, us) {
      forall i, j | 0 <= i < j < |us| && KnownAtTurn(ids, us, i)
        ensures KnownAtTurn(ids, us, j)
      {
        LeadingIsFirstKnown(ids, us, i);
        assert us[j] in ids || us[j] in us[..k];
        if us[j] in us[..k] {
          var m :| 0 <= m < k && us[..k][m] == us[j];
          assert us[..j][m] == us[j];
        }
      }
    }
  }

  lemma {:induction false} UpsertAllPresent(t: seq<Player>, existing: bool, us: seq<Player>)
    requires forall j :: 0 <= j < |us| ==> us[j].steamID in Ids(t)
    ensures Upsert(t, us) == SetFrom(t, existing, us)
    decreases |us|
  {
    if us == [] {
    } else {
      IdsOverwrite(t, us[0]);
      UpsertAllPresent(Overwrite(t, us[0]), true, us[1..]);
    }
  }

  lemma NothingSkippedTail(ids: seq<SteamID>, us: seq<SteamID>)
    requires us != [] && us[0] !in ids && NothingSkipped(ids, us)
    ensures NothingSkipped(ids + [us[0]], us[1..])
  {
    assert IdsAfter(ids + [us[0]], us[1..]) == IdsAfter(ids, us);
  }

  lemma {:induction false} UpsertUnlessSkipped(t: seq<Player>, us: seq<Player>)
    requires NothingSkipped(Ids(t), Ids(us))
    ensures Upsert(t, us) == SetPlayers(t, us)
    decreases |us|
  {
    if us == [] {
    } else {
      IdsSplit(us);
      if us[0].steamID in Ids(t) {
        assert IdsAfter(Ids(t), Ids(us)) == Ids(t);
        assert forall j :: 0 <= j < |us| ==> us[j].steamID == Ids(us)[j];
        UpsertAllPresent(t, false, us);
      } else {
        var t' := t + [us[0]];
        IdsConcat(t, [us[0]]);
        assert Ids(t') == Ids(t) + [Ids(us)[0]];
        NothingSkippedTail(Ids(t), Ids(us));
        UpsertUnlessSkipped(t', us[1..]);
      }
    }
  }

  /** `setPlayer` is an upsert exactly for the batches in which no unknown id follows a known one. */
  lemma SetPlayersIsUpsertIff(t: seq<Player>, us: seq<Player>)
    ensures SetPlayers(t, us) == Upsert(t, us) <==> NoUnknownAfterKnown(Ids(t), Ids(us))
  {
    NothingSkippedIff(Ids(t), Ids(us));
    if NothingSkipped(Ids(t), Ids(us)) {
      UpsertUnlessSkipped(t, us);
    } else {
      var known := IdsAfter(Ids(t), Ids(us));
      var j :| 0 <= j < |us| && Ids(us)[j] !in known;
      SetPlayersIds(t, us);
      UpsertIsMapUpdate(t, us, Ids(us)[j]);
      assert Lookup(SetPlayers(t, us), Ids(us)[j]).None?;
    }
  }

  /** A batch that is no upsert: the newcomer listed behind a known player is lost. */
  lemma NewcomerBehindKnownIsLost()
    ensures var known, newcomer := NewPlayer(Account(1)), NewPlayer(Account(2));
            && SetPlayers([known], [known, newcomer]) == [known]
            && Upsert([known], [known, newcomer]) == [known, newcomer]
  {
    var known, newcomer := NewPlayer(Account(1)), NewPlayer(Account(2));
    var us := [known, newcomer];
    assert us[1..] == [newcomer] && us[1..][1..] == [];
    assert Ids([known]) == [Account(1)];
    assert Overwrite([known], known) == [known];
    assert SetFrom([known], true, [newcomer]) == SetFrom([known], true, []);
    assert Upsert([known], [newcomer]) == Upsert([known] + [newcomer], []);
  }

  /** What a lookup finds after a `setPlayer` call: exactly the skipped ids stay unknown. */
  lemma SetPlayersLookup(t: seq<Player>, us: seq<Player>, id: SteamID)
    ensures Lookup(SetPlayers(t, us), id)
         == if id !in IdsAfter(Ids(t), Ids(us)) then None
            else if id in Ids(us) then Some(Latest(us, id, NewPlayer(id)))
            else Lookup(t, id)
  {
    SetPlayersClosedForm(t, us);
    SetPlayersIds(t, us);
    var k := Leading(Ids(t), Ids(us));
    IdsConcat(t, us[..k]);
    assert Ids(us[..k]) == Ids(us)[..k];
    if id in IdsAfter(Ids(t), Ids(us)) {
      LookupMirror(t + us[..k], us, id);
      LookupConcat(t, us[..k], id);
    }
  }

  lemma {:induction false} LookupMirror(t: seq<Player>, us: seq<Player>, id: SteamID)
    requires id in Ids(t)
    ensures Lookup(Mirror(t, us), id)
         == if id in Ids(us) then Some(Latest(us, id, NewPlayer(id))) else Lookup(t, id)
  {
    if t[0].steamID == id {
      if id in Ids(us) {
        LatestOfPresent(us, id, NewPlayer(id), t[0]);
      } else {
        LatestOfAbsent(us, id, t[0]);
      }
    } else {
      assert Mirror(t, us)[1..] == Mirror(t[1..], us);
      IdsSplit(t);
      LookupMirror(t[1..], us, id);
    }
  }

  /** A batch of one is always an upsert. */
  lemma SetPlayersOne(t: seq<Player>, p: Player)
    ensures SetPlayers(t, [p]) == UpsertOne(t, p)
  {
    assert [p][1..] == [];
    assert SetFrom(t, false, [p])
        == if p.steamID in Ids(t) then SetFrom(Overwrite(t, p), true, []) else SetFrom(t + [p], false, []);
  }

  /** A batch that rewrites records of the table position by position just stores them. */
  lemma SetPlayersSameIds(t: seq<Player>, us: seq<Player>)
    requires Unique(Ids(t)) && Ids(us) <= Ids(t)
    ensures SetPlayers(t, us) == us + t[|us|..]
  {
    SetPlayersClosedForm(t, us);
    assert Leading(Ids(t), Ids(us)) == 0 by {
      assert us != [] ==> Ids(us)[0] == Ids(t)[0];
    }
    assert t + us[..0] == t;
    assert forall i :: 0 <= i < |us| ==> us[i].steamID == Ids(us)[i] == Ids(t)[i] == t[i].steamID;
    forall i | 0 <= i < |t|
      ensures Latest(us, t[i].steamID, t[i]) == (us + t[|us|..])[i]
    {
      assert forall j :: 0 <= j < |us| && j != i ==> Ids(t)[j] != Ids(t)[i];
      if i < |us| {
        LatestIsLast(us, t[i].steamID, t[i], i);
      } else {
        assert Ids(t)[i] == t[i].steamID;
        AbsentFrom(us, t[i].steamID);
        LatestOfAbsent(us, t[i].steamID, t[i]);
      }
    }
  }

  // ---------------------------------------------------------------- expiry

  predicate Expired(p: Player, now: int) {
    match p.g15UpdatedOn
    case Never => true
    case At(t) => now - t > PLAYER_TIMEOUT
  }

  /** The records `removeExpired` keeps, in their order, with one clock reading per record. */
  function Survivors(t: seq<Player>, nows: seq<int>): seq<Player>
    requires |nows| == |t|
  {
    if t == [] then []
    else (if Expired(t[0], nows[0]) then [] else [t[0]]) + Survivors(t[1..], nows[1..])
  }

  /** Nothing else is kept, no fresh record is lost. */
  lemma {:induction false} SurvivorsAreFresh(t: seq<Player>, nows: seq<int>, p: Player)
    requires |nows| == |t|
    ensures p in Survivors(t, nows) <==> exists i :: 0 <= i < |t| && t[i] == p && !Expired(p, nows[i])
  {
    if t == [] {
    } else {
      SurvivorsAreFresh(t[1..], nows[1..], p);
      assert forall i :: 0 <= i < |t[1..]| ==> t[1..][i] == t[i + 1] && nows[1..][i] == nows[i + 1];
      if i :| 0 <= i < |t| && t[i] == p && !Expired(p, nows[i]) {
        assert i > 0 ==> t[1..][i - 1] == p && nows[1..][i - 1] == nows[i];
      }
    }
  }

  /** A pass keeps exactly the records a dump has stamped within thirty seconds of their clock reading. */
  lemma KeptForThirtySeconds(t: seq<Player>, nows: seq<int>, p: Player)
    requires |nows| == |t|
    ensures p in Survivors(t, nows)
       <==> exists i :: 0 <= i < |t| && t[i] == p
                        && p.g15UpdatedOn.At? && nows[i] - p.g15UpdatedOn.ns <= 30_000_000_000
  {
    SurvivorsAreFresh(t, nows, p);
    if i :| 0 <= i < |t| && t[i] == p && !Expired(p, nows[i]) {
      assert p.g15UpdatedOn.At? && nows[i] - p.g15UpdatedOn.ns <= 30_000_000_000;
    }
    if i :| 0 <= i < |t| && t[i] == p && p.g15UpdatedOn.At? && nows[i] - p.g15UpdatedOn.ns <= 30_000_000_000 {
      assert !Expired(p, nows[i]);
    }
  }

  /** Survivors keep their order: the pass works on any two halves separately. */
  lemma {:induction false} SurvivorsConcat(a: seq<Player>, na: seq<int>, b: seq<Player>, nb: seq<int>)
    requires |na| == |a| && |nb| == |b|
    ensures Survivors(a + b, na + nb) == Survivors(a, na) + Survivors(b, nb)
  {
    if a == [] {
      assert a + b == b && na + nb == nb;
    } else {
      assert (a + b)[1..] == a[1..] + b && (na + nb)[1..] == na[1..] + nb;
      SurvivorsConcat(a[1..], na[1..], b, nb);
    }
  }

  lemma UniqueCons(id: SteamID, ids: seq<SteamID>)
    ensures Unique([id] + ids) <==> id !in ids && Unique(ids)
  {
    var all := [id] + ids;
    if Unique(all) {
      assert forall i :: 0 <= i < |ids| ==> all[i + 1] == ids[i] && all[0] != all[i + 1];
    }
  }

  lemma {:induction false} SurvivorsUnique(t: seq<Player>, nows: seq<int>)
    requires |nows| == |t| && Unique(Ids(t))
    ensures Unique(Ids(Survivors(t, nows)))
    ensures forall id :: id in Ids(Survivors(t, nows)) ==> id in Ids(t)
  {
    if t == [] {
    } else {
      var rest := Survivors(t[1..], nows[1..]);
      IdsSplit(t);
      UniqueCons(t[0].steamID, Ids(t[1..]));
      SurvivorsUnique(t[1..], nows[1..]);
      if Expired(t[0], nows[0]) {
        assert Survivors(t, nows) == rest;
      } else {
        IdsSplit(Survivors(t, nows));
        assert Survivors(t, nows)[1..] == rest;
        UniqueCons(t[0].steamID, Ids(rest));
      }
    }
  }

  // ---------------------------------------------------------------- dumps

  /** The fields `UpdateDumpPlayer` copies from a slot; matches and meta data are left alone. */
  function ApplySlot(p: Player, s: Slot, now: int): Player {
    p.(valid := s.valid, health := s.health, alive := s.alive, deaths := s.deaths, ping := s.ping,
       score := s.score, connected := s.connected, name := s.name, loss := s.loss, address := s.address,
       time := s.time, team := s.team, userID := s.userID, g15UpdatedOn := At(now))
  }

  /** Field by field. */
  lemma AppliedFields(p: Player, s: Slot, now: int)
    ensures var r := ApplySlot(p, s, now);
            && r.name == s.name && r.ping == s.ping && r.score == s.score && r.deaths == s.deaths
            && r.connected == s.connected && r.team == s.team && r.alive == s.alive && r.health == s.health
            && r.valid == s.valid && r.userID == s.userID && r.loss == s.loss && r.address == s.address
            && r.time == s.time && r.g15UpdatedOn == At(now)
            && r.steamID == p.steamID && r.bdMatches == p.bdMatches
            && r.meta == p.meta && r.metaUpdatedOn == p.metaUpdatedOn
  {
  }

  function Known(t: seq<Player>, id: SteamID): (p: Player)
    ensures p.steamID == id
  {
    match Lookup(t, id)
    case None => NewPlayer(id)
    case Some(p) => p
  }

  /** The slots with a valid id, in slot order. */
  function Listed(slots: seq<Slot>): seq<Slot> {
    if slots == [] then []
    else
      var n := |slots| - 1;
      Listed(slots[..n]) + if slots[n].steamID.Valid() then [slots[n]] else []
  }

  lemma ListedSnoc(slots: seq<Slot>, n: nat)
    requires n < |slots|
    ensures Listed(slots[..n + 1]) == Listed(slots[..n]) + if slots[n].steamID.Valid() then [slots[n]] else []
  {
    assert slots[..n + 1][..n] == slots[..n];
  }

  function SlotIds(slots: seq<Slot>): (r: seq<SteamID>)
    ensures |r| == |slots|
  {
    seq(|slots|, i requires 0 <= i < |slots| => slots[i].steamID)
  }

  /** The batch a dump turns into when every lookup sees the same table, with one clock reading per slot. */
  function DumpRecords(t: seq<Player>, slots: seq<Slot>, nows: seq<int>): (r: seq<Player>)
    requires |nows| == |slots|
    ensures Ids(r) == SlotIds(Listed(slots))
  {
    if slots == [] then []
    else
      var n := |slots| - 1;
      var front := DumpRecords(t, slots[..n], nows[..n]);
      if slots[n].steamID.Valid() then
        var p := ApplySlot(Known(t, slots[n].steamID), slots[n], nows[n]);
        assert Ids(front + [p]) == Ids(front) + [slots[n].steamID];
        assert SlotIds(Listed(slots)) == SlotIds(Listed(slots[..n])) + [slots[n].steamID];
        front + [p]
      else
        assert Listed(slots) == Listed(slots[..n]);
        front
  }

  lemma {:induction false} LatestSnoc(us: seq<Player>, p: Player, id: SteamID, d: Player)
    ensures Latest(us + [p], id, d) == if p.steamID == id then p else Latest(us, id, d)
    decreases |us|
  {
    if us == [] {
      assert us + [p] == [p] && [p][1..] == [];
    } else {
      assert (us + [p])[0] == us[0] && (us + [p])[1..] == us[1..] + [p];
      LatestSnoc(us[1..], p, id, if us[0].steamID == id then us[0] else d);
    }
  }

  /** The last slot listing an id makes its last record. */
  lemma {:induction false} LatestOfDump(t: seq<Player>, slots: seq<Slot>, nows: seq<int>, i: nat, d: Player)
    requires |nows| == |slots| && i < |slots| && slots[i].steamID.Valid()
    requires forall j :: i < j < |slots| ==> slots[j].steamID != slots[i].steamID
    ensures slots[i].steamID in SlotIds(Listed(slots))
    ensures Latest(DumpRecords(t, slots, nows), slots[i].steamID, d)
         == ApplySlot(Known(t, slots[i].steamID), slots[i], nows[i])
  {
    var n := |slots| - 1;
    var front := DumpRecords(t, slots[..n], nows[..n]);
    if slots[n].steamID.Valid() {
      LatestSnoc(front, ApplySlot(Known(t, slots[n].steamID), slots[n], nows[n]), slots[i].steamID, d);
      assert SlotIds(Listed(slots)) == SlotIds(Listed(slots[..n])) + [slots[n].steamID];
    } else {
      assert Listed(slots) == Listed(slots[..n]);
    }
    if i < n {
      LatestOfDump(t, slots[..n], nows[..n], i, d);
    }
  }
}
