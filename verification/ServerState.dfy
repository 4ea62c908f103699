/**
The live table of one server as a growable slice over a shared backing array,
so that a snapshot handed out earlier keeps pointing at memory the table may
still write to.
*/
module ServerState {
  import opened Domain
  import opened PlayerTable
  import opened SharedSlice

  /** A window on a backing array; copying a slice copies only the reference. */
  datatype Slice = Slice(arr: array<Player>, len: nat)

  /** A snapshot some reader holds, with the ids it showed when it was taken. */
  datatype HandedOut = HandedOut(slice: Slice, ids: seq<SteamID>)

  /** `append`: in place while capacity lasts, otherwise into a fresh, larger array. */
  method AppendTo(s: Slice, p: Player) returns (r: Slice)
    requires s.len <= s.arr.Length
    modifies s.arr
    ensures r.len == s.len + 1 <= r.arr.Length
    ensures r.arr[..r.len] == old(s.arr[..s.len]) + [p]
    ensures if s.len < s.arr.Length then r.arr == s.arr else fresh(r.arr)
    ensures s.arr[..s.len] == old(s.arr[..s.len])
  {
    var arr := s.arr;
    if s.len == arr.Length {
      var spare: nat :| true;
      arr := new Player[s.len + 1 + spare](_ => NewPlayer(NO_STEAM_ID));
      forall i | 0 <= i < s.len {
        arr[i] := s.arr[i];
      }
    }
    arr[s.len] := p;
    r := Slice(arr, s.len + 1);
  }

  class Server {
    var backing: array<Player>
    var length: nat
    ghost var handedOut: seq<HandedOut>

    ghost function Arrays(): set<array<Player>>
      reads this
    {
      {backing} + set i | 0 <= i < |handedOut| :: handedOut[i].slice.arr
    }

    /** Holds after every call and between any two element writes of a call. */
    ghost predicate Valid()
      reads this, Arrays()
    {
      && length <= backing.Length
      && Unique(Ids(backing[..length]))
      && forall i :: 0 <= i < |handedOut| ==> Stable(handedOut[i])
    }

    /** The snapshot still has its length and shows the same id at every position. */
    ghost predicate Stable(h: HandedOut)
      reads this, h.slice.arr
    {
      && h.slice.len <= h.slice.arr.Length
      && Ids(h.slice.arr[..h.slice.len]) == h.ids
      && (h.slice.arr == backing ==> h.slice.len <= length)
    }

    ghost function Table(): seq<Player>
      requires length <= backing.Length
      reads this, backing
    {
      backing[..length]
    }

    ghost function ViewOf(h: HandedOut): View
      requires h.slice.len <= h.slice.arr.Length
      reads this, h.slice.arr
    {
      View(h.slice.arr[..h.slice.len], h.slice.arr == backing, h.ids)
    }

    /** The state as a value: a snapshot is attached while it lies on the live array. */
    ghost function Abs(): (m: Memory)
      requires Valid()
      reads this, Arrays()
      ensures m.table == backing[..length] && m.room == backing.Length - length && |m.views| == |handedOut|
      ensures forall i :: 0 <= i < |handedOut| ==> m.views[i] == ViewOf(handedOut[i])
    {
      Memory(backing[..length], backing.Length - length, ViewsOf(|handedOut|))
    }

    ghost function ViewsOf(n: nat): (vs: seq<View>)
      requires Valid() && n <= |handedOut|
      reads this, Arrays()
      ensures |vs| == n && forall i :: 0 <= i < n ==> vs[i] == ViewOf(handedOut[i])
    {
      if n == 0 then [] else ViewsOf(n - 1) + [ViewOf(handedOut[n - 1])]
    }

    lemma AbsIsSound()
      requires Valid()
      ensures Sound(Abs())
    {
      forall i | 0 <= i < |handedOut|
        ensures ViewOk(Abs(), Abs().views[i])
      {
        assert Stable(handedOut[i]);
        assert handedOut[i].slice.arr == backing ==>
          backing[..handedOut[i].slice.len] == backing[..length][..handedOut[i].slice.len];
      }
    }

    constructor ()
      ensures Valid() && Table() == [] && handedOut == [] && fresh(backing)
    {
      backing := new Player[0];
      length := 0;
      handedOut := [];
    }

    /** Hands the live slice out without copying it. */
    method Snapshot() returns (s: Slice)
      requires Valid()
      modifies this`handedOut
      ensures Valid()
      ensures s.len <= s.arr.Length && s.arr[..s.len] == Table()
      ensures handedOut == old(handedOut) + [HandedOut(s, Ids(Table()))]
      ensures Abs() == HandOut(old(Abs()))
    {
      s := Slice(backing, length);
      handedOut := handedOut + [HandedOut(s, Ids(backing[..length]))];
    }

    method Find(id: SteamID) returns (r: Option<Player>)
      requires Valid()
      ensures r == Lookup(Table(), id)
    {
      for i := 0 to length
        invariant Lookup(backing[..length], id) == Lookup(backing[i..length], id)
      {
        assert backing[i..length][1..] == backing[i + 1..length];
        if backing[i].steamID == id {
          return Some(backing[i]);
        }
      }
      return None;
    }

    /** The inner loop of `setPlayer`: overwrite in place wherever the id occurs. */
    method OverwriteInPlace(p: Player) returns (found: bool)
      requires length <= backing.Length
      modifies backing
      ensures Table() == Overwrite(old(Table()), p)
      ensures found <==> p.steamID in Ids(old(Table()))
    {
      found := false;
      for i := 0 to length
        invariant forall k :: i <= k < backing.Length ==> backing[k] == old(backing[k])
        invariant forall k :: 0 <= k < i ==>
          backing[k] == if old(backing[k]).steamID == p.steamID then p else old(backing[k])
        invariant found <==> exists k :: 0 <= k < i && old(backing[k]).steamID == p.steamID
      {
        if backing[i].steamID == p.steamID {
          backing[i] := p;
          found := true;
        }
      }
      ghost var t := old(Table());
      assert forall k :: 0 <= k < length ==> t[k] == old(backing[k]) && Ids(t)[k] == t[k].steamID;
    }

    /** Overwriting keeps every snapshot stable, because it keeps every id. */
    method OverwriteStable(p: Player) returns (found: bool)
      requires Valid()
      modifies backing
      ensures Valid()
      ensures found <==> p.steamID in Ids(old(Table()))
      ensures Abs() == old(Abs()).(table := Overwrite(old(Table()), p), views := OverwriteViews(old(Abs()).views, p))
      ensures !found ==> Abs() == old(Abs())
    {
      ghost var t, m := Table(), Abs();
      AbsIsSound();
      IdsOverwrite(t, p);
      found := OverwriteInPlace(p);
      forall i | 0 <= i < |handedOut|
        ensures Stable(handedOut[i])
        ensures ViewOf(handedOut[i]) == OverwriteViews(m.views, p)[i]
      {
        var h := handedOut[i];
        if h.slice.arr == backing {
          assert backing[..h.slice.len] == Table()[..h.slice.len];
          assert old(h.slice.arr[..h.slice.len]) == t[..h.slice.len];
          assert Overwrite(t, p)[..h.slice.len] == Overwrite(t[..h.slice.len], p);
          IdsOverwrite(t[..h.slice.len], p);
        }
      }
      assert Valid();
      if !found {
        NothingToOverwrite(m, p);
      }
    }

    /** Appending keeps every snapshot stable, because it writes behind all of them or elsewhere. */
    method AppendStable(p: Player)
      requires Valid() && p.steamID !in Ids(Table())
      modifies this`backing, this`length, backing
      ensures Valid()
      ensures Abs() == Put(old(Abs()), false, p, backing.Length - length)
      ensures backing == old(backing) || fresh(backing)
    {
      ghost var a0, t, m := backing, Table(), Abs();
      SetPlayersKeepsUnique(t, [p]);
      SetPlayersOne(t, p);
      var s := AppendTo(Slice(backing, length), p);
      backing, length := s.arr, s.len;
      forall i | 0 <= i < |handedOut|
        ensures Stable(handedOut[i])
        ensures ViewOf(handedOut[i]) == if backing == a0 then m.views[i] else m.views[i].(attached := false)
      {
        var h := handedOut[i];
        if h.slice.arr == a0 {
          assert a0[..h.slice.len] == t[..h.slice.len];
          assert old(h.slice.arr[..h.slice.len]) == t[..h.slice.len];
        }
      }
    }

    /** One round of the outer loop of `setPlayer`: one `Put` of the value model. */
    method SetOne(p: Player, existing: bool) returns (existing': bool)
      requires Valid()
      modifies this`backing, this`length, backing
      ensures Valid()
      ensures existing' <==> existing || p.steamID in Ids(old(Table()))
      ensures Abs() == Put(old(Abs()), existing, p, backing.Length - length)
      ensures backing == old(backing) || fresh(backing)
    {
      var found := OverwriteStable(p);
      existing' := existing || found;
      if !existing' {
        AppendStable(p);
      }
    }

    /** The same round as the next of a batch that began in `m` and has put `us` so far. */
    method SetNext(p: Player, existing: bool, ghost m: Memory, ghost us: seq<Player>, ghost rooms: seq<nat>)
      returns (existing': bool, ghost rooms': seq<nat>)
      requires Valid() && |rooms| == |us| && Abs() == PutAll(m, us, rooms) && existing == Raised(m.table, us)
      modifies this`backing, this`length, backing
      ensures Valid() && (backing == old(backing) || fresh(backing))
      ensures |rooms'| == |us| + 1 && Abs() == PutAll(m, us + [p], rooms')
      ensures existing' == Raised(m.table, us + [p])
    {
      existing' := SetOne(p, existing);
      rooms' := rooms + [backing.Length - length];
      PutAllSnoc(m, us, rooms, p, backing.Length - length);
    }

    /** The batch write: a sequence of `Put`s, one per update, with the flag carried along. */
    method WriteBatch(updates: seq<Player>) returns (ghost rooms: seq<nat>)
      requires Valid()
      modifies this`backing, this`length, backing
      ensures Valid() && (backing == old(backing) || fresh(backing))
      ensures |rooms| == |updates| && Abs() == PutAll(old(Abs()), updates, rooms)
    {
      var existing := false;
      rooms := [];
      ghost var m := Abs();
      for n := 0 to |updates|
        invariant Valid() && (backing == old(backing) || fresh(backing))
        invariant |rooms| == n && Abs() == PutAll(m, updates[..n], rooms)
        invariant existing == Raised(m.table, updates[..n])
      {
        existing, rooms := SetNext(updates[n], existing, m, updates[..n], rooms);
        assert updates[..n + 1] == updates[..n] + [updates[n]];
      }
      assert updates[..|updates|] == updates;
    }

    /**
    The batch write, with the new table and with what every snapshot on the
    live array sees of it: all the overwrites when the leading new players fit
    into the spare capacity, and none of them otherwise.
    */
    method SetPlayer(updates: seq<Player>) returns (ghost rooms: seq<nat>)
      requires Valid()
      modifies this`backing, this`length, backing
      ensures Valid() && (backing == old(backing) || fresh(backing))
      ensures |rooms| == |updates| && Abs() == PutAll(old(Abs()), updates, rooms)
      ensures Table() == SetPlayers(old(Table()), updates)
      ensures forall i :: 0 <= i < |handedOut| ==>
                Abs().views[i] == ViewAfter(old(Abs()).views[i], old(Table()), old(backing.Length - length), updates)
    {
      ghost var m := Abs();
      AbsIsSound();
      rooms := WriteBatch(updates);
      PutAllTable(m, updates, rooms);
      forall i | 0 <= i < |handedOut|
        ensures Abs().views[i] == ViewAfter(m.views[i], m.table, m.room, updates)
      {
        PutAllViews(m, updates, rooms, i);
      }
    }

    /** The loop of `removeExpired`: a new slice of the records that are not too old. */
    method CollectValid(nows: seq<int>) returns (valid: Slice)
      requires length <= backing.Length && |nows| == length
      ensures fresh(valid.arr) && valid.len <= valid.arr.Length
      ensures valid.arr[..valid.len] == Survivors(Table(), nows)
    {
      var none := new Player[0];
      valid := Slice(none, 0);
      ghost var t := Table();
      for i := 0 to length
        invariant fresh(valid.arr) && valid.len <= valid.arr.Length
        invariant backing[..length] == t
        invariant valid.arr[..valid.len] == Survivors(t[..i], nows[..i])
      {
        SurvivorsConcat(t[..i], nows[..i], [t[i]], [nows[i]]);
        assert t[..i + 1] == t[..i] + [t[i]] && nows[..i + 1] == nows[..i] + [nows[i]];
        if Expired(backing[i], nows[i]) {
          continue;
        }
        valid := AppendTo(valid, backing[i]);
      }
      assert t[..length] == t && nows[..length] == nows;
    }

    /**
    Rebuilds the table from the records that a dump has stamped in the last
    thirty seconds; older snapshots are left alone. The clock is read once per
    record.
    */
    method RemoveExpired(nows: seq<int>)
      requires Valid() && |nows| == length
      modifies this`backing, this`length
      ensures Valid() && fresh(backing)
      ensures Table() == Survivors(old(Table()), nows)
      ensures forall p :: p in Table() <==>
                exists i :: 0 <= i < old(length) && old(Table())[i] == p
                            && p.g15UpdatedOn.At? && nows[i] - p.g15UpdatedOn.ns <= 30_000_000_000
      ensures Abs() == Rebuild(old(Abs()), Survivors(old(Table()), nows), backing.Length - length)
    {
      SurvivorsUnique(Table(), nows);
      forall p
        ensures p in Survivors(Table(), nows) <==>
                exists i :: 0 <= i < length && Table()[i] == p
                            && p.g15UpdatedOn.At? && nows[i] - p.g15UpdatedOn.ns <= 30_000_000_000
      {
        KeptForThirtySeconds(Table(), nows, p);
      }
      var valid := CollectValid(nows);
      backing, length := valid.arr, valid.len;
    }

    /** A status line names a player: add the player, or rename the one that is there. */
    method OnStatusID(id: SteamID, name: string)
      requires Valid()
      modifies this`backing, this`length, backing
      ensures Valid()
      ensures Table() == UpsertOne(old(Table()), Known(old(Table()), id).(name := name))
    {
      var found := Find(id);
      var player := if found.Some? then found.value else NewPlayer(id);
      var _ := SetPlayer([player.(name := name)]);
      SetPlayersOne(old(Table()), player.(name := name));
    }

    /** The dump half of a tick when nothing runs beside it. The clock is read for every slot. */
    method UpdateDumpPlayer(slots: seq<Slot>, nows: seq<int>)
      requires Valid() && IsDump(slots) && |nows| == |slots|
      modifies this`backing, this`length, backing
      ensures Valid()
      ensures Table() == SetPlayers(old(Table()), DumpRecords(old(Table()), slots, nows))
    {
      var players: seq<Player> := [];
      for i := 0 to MAX_PLAYER_COUNT
        modifies {}
        invariant players == DumpRecords(Table(), slots[..i], nows[..i])
      {
        assert slots[..i + 1][..i] == slots[..i] && nows[..i + 1][..i] == nows[..i];
        if !slots[i].steamID.Valid() {
          continue;
        }
        var found := Find(slots[i].steamID);
        var player := if found.Some? then found.value else NewPlayer(slots[i].steamID);
        players := players + [ApplySlot(player, slots[i], nows[i])];
      }
      assert slots[..MAX_PLAYER_COUNT] == slots && nows[..MAX_PLAYER_COUNT] == nows;
      var _ := SetPlayer(players);
    }

    /** The bot-detector half of a tick when nothing runs beside it. */
    method UpdateBD(search: SteamID -> seq<Match>)
      requires Valid()
      modifies this, backing
      ensures Valid()
      ensures old(handedOut) <= handedOut
      ensures Table() == WithMatches(old(Table()), search)
      ensures length == old(length) && forall i :: 0 <= i < length ==>
                Table()[i] == old(Table())[i].(bdMatches := search(old(Table())[i].steamID))
    {
      var snapshot := Snapshot();
      var updates: seq<Player> := [];
      for i := 0 to snapshot.len
        invariant updates == WithMatches(Table()[..i], search)
      {
        var player := snapshot.arr[i];
        updates := updates + [player.(bdMatches := search(player.steamID))];
      }
      ghost var t := Table();
      assert t[..snapshot.len] == t;
      var _ := SetPlayer(updates);
      SetPlayersSameIds(t, updates);
    }
  }

  function WithMatches(t: seq<Player>, search: SteamID -> seq<Match>): seq<Player> {
    seq(|t|, i requires 0 <= i < |t| => t[i].(bdMatches := search(t[i].steamID)))
  }

  lemma NothingToOverwrite(m: Memory, p: Player)
    requires Sound(m) && p.steamID !in Ids(m.table)
    ensures Overwrite(m.table, p) == m.table && OverwriteViews(m.views, p) == m.views
  {
    OverwriteAbsent(m.table, p);
    forall i | 0 <= i < |m.views|
      ensures OverwriteViews(m.views, p)[i] == m.views[i]
    {
      assert ViewOk(m, m.views[i]);
      if m.views[i].attached {
        var v := m.views[i].records;
        assert forall k :: 0 <= k < |v| ==> Ids(m.table)[k] == v[k].steamID;
        AbsentFrom(v, p.steamID);
        OverwriteAbsent(v, p);
      }
    }
  }
}
