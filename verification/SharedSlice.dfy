/**
A table and the snapshots that may share its memory, as values. One element
write is one `Put`; the heap model and the step model both use it.
*/
module SharedSlice {
  import opened Domain
  import opened PlayerTable

  /**
  What a holder of a snapshot sees. While it is attached, its window lies on
  the array the table writes to; `ids` is what it showed when handed out.
  */
  datatype View = View(records: seq<Player>, attached: bool, ids: seq<SteamID>)

  /** The table, the capacity left in its array, and the snapshots handed out. */
  datatype Memory = Memory(table: seq<Player>, room: nat, views: seq<View>)

  function OverwriteViews(views: seq<View>, p: Player): (r: seq<View>)
    ensures |r| == |views|
  {
    seq(|views|, i requires 0 <= i < |views| =>
      if views[i].attached then views[i].(records := Overwrite(views[i].records, p)) else views[i])
  }

  function Detach(views: seq<View>): (r: seq<View>)
    ensures |r| == |views|
  {
    seq(|views|, i requires 0 <= i < |views| => views[i].(attached := false))
  }

  /** One update of a batch; `room` is the spare capacity in case the table has to move. */
  function Put(m: Memory, existing: bool, p: Player, room: nat): Memory {
    if p.steamID in Ids(m.table) then
      m.(table := Overwrite(m.table, p), views := OverwriteViews(m.views, p))
    else if existing then m
    else if m.room > 0 then m.(table := m.table + [p], room := m.room - 1)
    else Memory(m.table + [p], room, Detach(m.views))
  }

  /** A batch, update by update. */
  function PutAll(m: Memory, us: seq<Player>, rooms: seq<nat>): Memory
    requires |rooms| == |us|
  {
    if us == [] then m
    else
      var n := |us| - 1;
      Put(PutAll(m, us[..n], rooms[..n]), Raised(m.table, us[..n]), us[n], rooms[n])
  }

  function HandOut(m: Memory): Memory {
    m.(views := m.views + [View(m.table, true, Ids(m.table))])
  }

  /** The table rebuilt in another array. */
  function Rebuild(m: Memory, table: seq<Player>, room: nat): Memory {
    Memory(table, room, Detach(m.views))
  }

  /** Every snapshot shows the ids it showed at first; attached, it shows what the table shows. */
  ghost predicate Sound(m: Memory) {
    && Unique(Ids(m.table))
    && forall i :: 0 <= i < |m.views| ==> ViewOk(m, m.views[i])
  }

  ghost predicate ViewOk(m: Memory, v: View) {
    && Ids(v.records) == v.ids
    && (v.attached ==> v.records <= m.table)
  }

  lemma PutKeepsSound(m: Memory, existing: bool, p: Player, room: nat)
    requires Sound(m)
    ensures Sound(Put(m, existing, p, room))
    ensures |Put(m, existing, p, room).views| == |m.views|
    ensures forall i :: 0 <= i < |m.views| ==> Put(m, existing, p, room).views[i].ids == m.views[i].ids
  {
    var m' := Put(m, existing, p, room);
    SetPlayersKeepsUnique(m.table, [p]);
    SetPlayersOne(m.table, p);
    IdsOverwrite(m.table, p);
    forall i | 0 <= i < |m.views|
      ensures ViewOk(m', m'.views[i])
    {
      assert ViewOk(m, m.views[i]);
      IdsOverwrite(m.views[i].records, p);
    }
  }

  /** The table after a batch is what `setPlayer` computes. */
  lemma {:induction false} PutAllTable(m: Memory, us: seq<Player>, rooms: seq<nat>)
    requires |rooms| == |us|
    ensures PutAll(m, us, rooms).table == SetPlayers(m.table, us)
    ensures |PutAll(m, us, rooms).views| == |m.views|
  {
    if us == [] {
    } else {
      var n := |us| - 1;
      PutAllTable(m, us[..n], rooms[..n]);
      SetPlayersSnoc(m.table, us[..n], us[n]);
      assert us == us[..n] + [us[n]];
    }
  }

  /** One more update takes a batch one `Put` further, and raises the flag if it finds its id. */
  lemma PutAllSnoc(m: Memory, us: seq<Player>, rooms: seq<nat>, p: Player, room: nat)
    requires |rooms| == |us|
    ensures PutAll(m, us + [p], rooms + [room]) == Put(PutAll(m, us, rooms), Raised(m.table, us), p, room)
    ensures Raised(m.table, us + [p]) <==> Raised(m.table, us) || p.steamID in Ids(PutAll(m, us, rooms).table)
  {
    PutAllTable(m, us, rooms);
    SetPlayersSnoc(m.table, us, p);
    assert (us + [p])[..|us|] == us && (rooms + [room])[..|us|] == rooms;
  }

  // ---------------------------------------------------------------- what a snapshot sees of a batch

  lemma MirrorSnoc(t: seq<Player>, us: seq<Player>, p: Player)
    ensures Mirror(t, us + [p]) == Overwrite(Mirror(t, us), p)
  {
    forall i | 0 <= i < |t|
      ensures Mirror(t, us + [p])[i] == Overwrite(Mirror(t, us), p)[i]
    {
      LatestSnoc(us, p, t[i].steamID, t[i]);
    }
  }

  /** Updates that are all new leave a window on the old records as it is. */
  lemma MirrorOfNew(v: seq<Player>, t: seq<Player>, us: seq<Player>)
    requires v <= t && Leading(Ids(t), Ids(us)) == |us|
    ensures Mirror(v, us) == v
  {
    forall i | 0 <= i < |v|
      ensures Latest(us, v[i].steamID, v[i]) == v[i]
    {
      forall j | 0 <= j < |us|
        ensures us[j].steamID != v[i].steamID
      {
        LeadingIsFirstKnown(Ids(t), Ids(us), j);
        assert Ids(t)[i] == v[i].steamID && Ids(us)[j] == us[j].steamID;
      }
      AbsentFrom(us, v[i].steamID);
      LatestOfAbsent(us, v[i].steamID, v[i]);
    }
  }

  /** What becomes of a snapshot on the array the batch starts in: all overwrites, or none. */
  function ViewAfter(v: View, t: seq<Player>, room: nat, us: seq<Player>): View {
    if !v.attached then v
    else if Leading(Ids(t), Ids(us)) <= room then v.(records := Mirror(v.records, us))
    else v.(attached := false)
  }

  lemma ViewAfterStep(m: Memory, us: seq<Player>, rooms: seq<nat>, p: Player, room: nat, i: nat)
    requires |rooms| == |us| && i < |m.views| && Sound(m)
    requires var m1 := PutAll(m, us, rooms);
             && |m1.views| == |m.views| && m1.views[i] == ViewAfter(m.views[i], m.table, m.room, us)
             && (Leading(Ids(m.table), Ids(us)) <= m.room ==> m1.room == m.room - Leading(Ids(m.table), Ids(us)))
    ensures var m1 := PutAll(m, us, rooms);
            var m2 := Put(m1, Raised(m.table, us), p, room);
            && m2.views[i] == ViewAfter(m.views[i], m.table, m.room, us + [p])
            && (Leading(Ids(m.table), Ids(us + [p])) <= m.room ==>
                  m2.room == m.room - Leading(Ids(m.table), Ids(us + [p])))
  {
    var v := m.views[i];
    PutAllTable(m, us, rooms);
    SetPlayersIds(m.table, us);
    IdsConcat(us, [p]);
    assert Ids([p]) == [p.steamID];
    LeadingSnoc(Ids(m.table), Ids(us), p.steamID);
    assert Ids(us)[..|us|] == Ids(us);
    MirrorSnoc(v.records, us, p);
    assert ViewOk(m, v);
    if v.attached && p.steamID !in Ids(PutAll(m, us, rooms).table) {
      assert Ids(v.records) <= Ids(m.table);
      OverwriteAbsent(Mirror(v.records, us), p);
      if !Raised(m.table, us) {
        MirrorOfNew(v.records, m.table, us);
      }
    }
  }

  /**
  A snapshot sees all the overwrites of a batch when the leading new players
  fit into the spare capacity, and none of them otherwise.
  */
  lemma {:induction false} PutAllViews(m: Memory, us: seq<Player>, rooms: seq<nat>, i: nat)
    requires |rooms| == |us| && i < |m.views| && Sound(m)
    ensures var m' := PutAll(m, us, rooms);
            && |m'.views| == |m.views|
            && m'.views[i] == ViewAfter(m.views[i], m.table, m.room, us)
            && (Leading(Ids(m.table), Ids(us)) <= m.room ==> m'.room == m.room - Leading(Ids(m.table), Ids(us)))
  {
    PutAllTable(m, us, rooms);
    if us == [] {
      assert Mirror(m.views[i].records, us) == m.views[i].records;
    } else {
      var n := |us| - 1;
      PutAllViews(m, us[..n], rooms[..n], i);
      ViewAfterStep(m, us[..n], rooms[..n], us[n], rooms[n], i);
      assert us == us[..n] + [us[n]];
    }
  }
}
