/**
Whole runs of one server's state: the select loop takes one event at a time,
but inside a dump tick the bot-detector pass and the dump pass run side by
side. Every region under the read lock is one step, a batch write is one step
per element under the write lock, and so is every element the bot-detector
pass reads from its snapshot, which it does without any lock.
*/
module ServerRuns {
  import opened Domain
  import opened PlayerTable
  import opened SharedSlice

  datatype Stage = Waiting | Working | Writing | Written

  /**
  The bot-detector pass. `late` says that its snapshot was taken after the dump
  pass had written, `seen[i]` how many updates of the dump pass had been put
  when element `i` was read.
  */
  datatype BdPass = BdPass(
    stage: Stage, view: nat, late: bool, updates: seq<Player>, seen: seq<nat>, matches: seq<seq<Match>>)

  /** The dump pass. `seen[j]` says that lookup `j` came after the bot-detector pass had written. */
  datatype DumpPass = DumpPass(
    stage: Stage, slots: seq<Slot>, next: nat, out: seq<Player>, seen: seq<bool>, stamps: seq<int>)

  /** A tick in progress: the table and spare capacity it began with, and its two passes. */
  datatype Tick = Tick(start: seq<Player>, room: nat, bd: BdPass, dump: DumpPass, bdLast: bool)

  /** A batch being written: what it began with, the updates, and those already put. */
  datatype Batch = Batch(start: Memory, us: seq<Player>, rooms: seq<nat>, existing: bool)

  /** `stamped` records which id a dump stamped at which time; `lock` is the write lock. */
  datatype State = State(
    mem: Memory,
    clock: int,
    stamped: set<(SteamID, int)>,
    tick: Option<Tick>,
    lock: Option<Batch>)

  /**
  `room` is the spare capacity after a reallocation, which the runtime chooses;
  `nows` are the clock readings of an expiry pass.
  */
  datatype Step =
    | Advance(elapsed: nat)
    | TakeSnapshot
    | StatusLine(id: SteamID, name: string)
    | Remove(nows: seq<int>, room: nat)
    | BeginTick
    | BdSnapshot
    | BdRead(found: seq<Match>)
    | BdWrite
    | DumpFetched(slots: seq<Slot>)
    | DumpSlot
    | DumpWrite
    | PutOne(room: nat)
    | Unlock
    | EndTick

  function Initial(clock: int): State {
    State(Memory([], 0, []), clock, {}, None, None)
  }

  /** Clock readings in order, none before `from`. */
  predicate Rising(from: int, nows: seq<int>) {
    && (forall i :: 0 <= i < |nows| ==> from <= nows[i])
    && (forall i, j :: 0 <= i < j < |nows| ==> nows[i] <= nows[j])
  }

  predicate Idle(s: State) {
    s.tick.None? && s.lock.None?
  }

  predicate Can(s: State, step: Step) {
    match step
    case Advance(_) => true
    case TakeSnapshot => s.lock.None?
    case StatusLine(_, _) => Idle(s)
    case Remove(nows, _) => Idle(s) && |nows| == |s.mem.table| && Rising(s.clock, nows)
    case BeginTick => Idle(s)
    case BdSnapshot => s.tick.Some? && s.lock.None? && s.tick.value.bd.stage.Waiting?
    case BdRead(_) =>
      && s.tick.Some? && s.tick.value.bd.stage.Working?
      && s.tick.value.bd.view < |s.mem.views|
      && |s.tick.value.bd.updates| < |s.mem.views[s.tick.value.bd.view].records|
    case BdWrite =>
      && s.tick.Some? && s.lock.None? && s.tick.value.bd.stage.Working?
      && s.tick.value.bd.view < |s.mem.views|
      && |s.tick.value.bd.updates| == |s.mem.views[s.tick.value.bd.view].records|
    case DumpFetched(slots) => s.tick.Some? && s.tick.value.dump.stage.Waiting? && IsDump(slots)
    case DumpSlot =>
      && s.tick.Some? && s.lock.None? && s.tick.value.dump.stage.Working?
      && s.tick.value.dump.next < |s.tick.value.dump.slots|
    case DumpWrite =>
      && s.tick.Some? && s.lock.None? && s.tick.value.dump.stage.Working?
      && s.tick.value.dump.next == |s.tick.value.dump.slots|
    case PutOne(_) => s.lock.Some? && |s.lock.value.rooms| < |s.lock.value.us|
    case Unlock => s.lock.Some? && |s.lock.value.rooms| == |s.lock.value.us|
    case EndTick =>
      s.tick.Some? && s.tick.value.bd.stage.Written? && s.tick.value.dump.stage.Written?
  }

  function Lock(s: State, us: seq<Player>): State {
    s.(lock := Some(Batch(s.mem, us, [], false)))
  }

  /** How many updates of the dump pass have been put. */
  function Applied(s: State, t: Tick): nat {
    match t.dump.stage
    case Waiting => 0
    case Working => 0
    case Writing => if s.lock.Some? then |s.lock.value.rooms| else 0
    case Written => |t.dump.out|
  }

  function Do(s: State, step: Step): State
    requires Can(s, step)
  {
    match step
    case Advance(d) => s.(clock := s.clock + d)
    case TakeSnapshot => s.(mem := HandOut(s.mem))
    case StatusLine(id, name) => Lock(s, [Known(s.mem.table, id).(name := name)])
    case Remove(nows, room) =>
      s.(mem := Rebuild(s.mem, Survivors(s.mem.table, nows), room),
         clock := if nows == [] then s.clock else nows[|nows| - 1])
    case BeginTick =>
      s.(tick := Some(Tick(s.mem.table, s.mem.room,
                           BdPass(Waiting, 0, false, [], [], []),
                           DumpPass(Waiting, [], 0, [], [], []),
                           false)))
    case BdSnapshot =>
      var t := s.tick.value;
      s.(mem := HandOut(s.mem),
         tick := Some(t.(bd := t.bd.(stage := Working, view := |s.mem.views|, late := t.dump.stage.Written?))))
    case BdRead(found) =>
      var t := s.tick.value;
      var p := s.mem.views[t.bd.view].records[|t.bd.updates|];
      s.(tick := Some(t.(bd := t.bd.(updates := t.bd.updates + [p.(bdMatches := found)],
                                     seen := t.bd.seen + [Applied(s, t)],
                                     matches := t.bd.matches + [found]))))
    case BdWrite =>
      var t := s.tick.value;
      Lock(s, t.bd.updates).(tick := Some(t.(bd := t.bd.(stage := Writing), bdLast := true)))
    case DumpFetched(slots) =>
      var t := s.tick.value;
      s.(tick := Some(t.(dump := t.dump.(stage := Working, slots := slots))))
    case DumpSlot =>
      var t := s.tick.value;
      var slot := t.dump.slots[t.dump.next];
      if !slot.steamID.Valid() then
        s.(tick := Some(t.(dump := t.dump.(next := t.dump.next + 1))))
      else
        var p := ApplySlot(Known(s.mem.table, slot.steamID), slot, s.clock);
        s.(stamped := s.stamped + {(slot.steamID, s.clock)},
           tick := Some(t.(dump := t.dump.(next := t.dump.next + 1,
                                           out := t.dump.out + [p],
                                           seen := t.dump.seen + [t.bd.stage.Written?],
                                           stamps := t.dump.stamps + [s.clock]))))
    case DumpWrite =>
      var t := s.tick.value;
      Lock(s, t.dump.out).(tick := Some(t.(dump := t.dump.(stage := Writing), bdLast := false)))
    case PutOne(room) =>
      var b := s.lock.value;
      var p := b.us[|b.rooms|];
      s.(mem := Put(s.mem, b.existing, p, room),
         lock := Some(b.(rooms := b.rooms + [room], existing := b.existing || p.steamID in Ids(s.mem.table))))
    case Unlock => s.(lock := None, tick := if s.tick.None? then None else Some(Done(s.tick.value)))
    case EndTick => s.(tick := None)
  }

  /** The pass that was writing has written. */
  function Done(t: Tick): Tick {
    t.(bd := if t.bd.stage.Writing? then t.bd.(stage := Written) else t.bd,
       dump := if t.dump.stage.Writing? then t.dump.(stage := Written) else t.dump)
  }

  // ---------------------------------------------------------------- runs

  predicate Runnable(s: State, steps: seq<Step>)
    decreases |steps|
  {
    steps == [] || (Can(s, steps[0]) && Runnable(Do(s, steps[0]), steps[1..]))
  }

  function Exec(s: State, steps: seq<Step>): State
    requires Runnable(s, steps)
    decreases |steps|
  {
    if steps == [] then s else Exec(Do(s, steps[0]), steps[1..])
  }

  // ---------------------------------------------------------------- the invariant

  ghost predicate StampOk(s: State, p: Player) {
    p.g15UpdatedOn.At? ==> (p.steamID, p.g15UpdatedOn.ns) in s.stamped
  }

  ghost predicate AllStampsOk(s: State, t: seq<Player>) {
    forall i :: 0 <= i < |t| ==> StampOk(s, t[i])
  }

  ghost predicate MemoryStampsOk(s: State, m: Memory) {
    && AllStampsOk(s, m.table)
    && forall i :: 0 <= i < |m.views| ==> AllStampsOk(s, m.views[i].records)
  }

  /** Every stamp anywhere was put there by a dump that listed that very id, not in the future. */
  ghost predicate StampsOk(s: State) {
    && MemoryStampsOk(s, s.mem)
    && (forall x :: x in s.stamped ==> x.1 <= s.clock)
    && (s.lock.Some? ==> AllStampsOk(s, s.lock.value.us))
    && (s.tick.Some? ==> AllStampsOk(s, s.tick.value.bd.updates) && AllStampsOk(s, s.tick.value.dump.out))
  }

  /** A batch under way has put exactly its first updates, and carries the flag they leave. */
  ghost predicate LockOk(s: State, b: Batch) {
    var k := |b.rooms|;
    && k <= |b.us|
    && Sound(b.start)
    && s.mem == PutAll(b.start, b.us[..k], b.rooms)
    && b.existing == Raised(b.start.table, b.us[..k])
  }

  /** The table as the last finished write left it. */
  ghost function Settled(s: State): seq<Player> {
    if s.lock.Some? then s.lock.value.start.table else s.mem.table
  }

  ghost function AfterDump(t: Tick): seq<Player> {
    SetPlayers(t.start, t.dump.out)
  }

  ghost function AfterBd(t: Tick): seq<Player> {
    SetPlayers(t.start, t.bd.updates)
  }

  /** The new players at the head of the dump fit into the spare capacity. */
  ghost predicate Fits(t: Tick) {
    Leading(Ids(t.start), Ids(t.dump.out)) <= t.room
  }

  /** The table the bot-detector pass took its snapshot of. */
  ghost function BdSource(t: Tick): seq<Player> {
    if t.bd.late then AfterDump(t) else t.start
  }

  /** What position `i` of its snapshot holds once `k` updates of the dump pass have been put. */
  ghost function Readable(t: Tick, k: nat, i: nat): Player
    requires i < |BdSource(t)|
  {
    if t.bd.late then AfterDump(t)[i]
    else if Fits(t) && k <= |t.dump.out| then Latest(t.dump.out[..k], t.start[i].steamID, t.start[i])
    else t.start[i]
  }

  ghost predicate Started(stage: Stage) {
    stage.Writing? || stage.Written?
  }

  ghost predicate DumpOk(t: Tick) {
    var d := t.dump;
    && (d.stage.Waiting? ==> d.slots == [])
    && d.next <= |d.slots|
    && (Started(d.stage) ==> d.next == |d.slots|)
    && DumpRecordsOk(t, Listed(d.slots[..d.next]))
  }

  ghost predicate DumpRecordsOk(t: Tick, l: seq<Slot>) {
    && |t.dump.out| == |t.dump.seen| == |t.dump.stamps| == |l|
    && forall j :: 0 <= j < |l| ==> DumpRecordOk(t, l, j)
  }

  ghost predicate DumpRecordOk(t: Tick, l: seq<Slot>, j: nat)
    requires j < |t.dump.out| == |t.dump.seen| == |t.dump.stamps| == |l|
  {
    var d := t.dump;
    && (d.seen[j] ==> t.bd.stage.Written?)
    && d.out[j] == ApplySlot(Known(if d.seen[j] then AfterBd(t) else t.start, l[j].steamID), l[j], d.stamps[j])
  }

  ghost predicate BdOk(s: State, t: Tick) {
    var b := t.bd;
    && (b.stage.Waiting? ==> b.updates == [])
    && |b.updates| == |b.seen| == |b.matches|
    && (b.late ==> t.dump.stage.Written?)
    && |b.updates| <= |BdSource(t)|
    && (Started(b.stage) ==> |b.updates| == |BdSource(t)|)
    && (b.stage.Working? ==> BdViewOk(s, t))
    && forall i :: 0 <= i < |b.updates| ==> BdRecordOk(t, i)
  }

  /** What the bot-detector pass would read now, at every position. */
  ghost predicate BdViewOk(s: State, t: Tick) {
    && t.bd.view < |s.mem.views|
    && (!Started(t.dump.stage) ==> s.mem.views[t.bd.view].attached)
    && (t.dump.stage.Writing? && s.lock.Some? ==>
          && t.bd.view < |s.lock.value.start.views|
          && s.lock.value.start.views[t.bd.view].attached
          && s.lock.value.start.views[t.bd.view].records == t.start)
    && ShowsReadable(t, s.mem.views[t.bd.view].records, Applied(s, t))
  }

  ghost predicate ShowsReadable(t: Tick, records: seq<Player>, k: nat) {
    && |records| == |BdSource(t)|
    && forall i :: 0 <= i < |records| ==> records[i] == Readable(t, k, i)
  }

  ghost predicate BdRecordOk(t: Tick, i: nat)
    requires i < |t.bd.updates| == |t.bd.seen| == |t.bd.matches|
  {
    && i < |BdSource(t)|
    && t.bd.seen[i] <= |t.dump.out|
    && (t.bd.seen[i] > 0 ==> Started(t.dump.stage))
    && t.bd.updates[i] == Readable(t, t.bd.seen[i], i).(bdMatches := t.bd.matches[i])
  }

  /** How the settled table follows from the writes finished so far. */
  ghost predicate TableOk(s: State, t: Tick) {
    match (t.bd.stage.Written?, t.dump.stage.Written?)
    case (false, false) =>
      && Settled(s) == t.start
      && (s.lock.None? ==> s.mem.room == t.room)
      && (s.lock.Some? ==> s.lock.value.start.room == t.room)
    case (false, true) => Settled(s) == AfterDump(t)
    case (true, false) => Settled(s) == AfterBd(t)
    case (true, true) =>
      Settled(s) == if t.bdLast then SetPlayers(AfterDump(t), t.bd.updates) else SetPlayers(AfterBd(t), t.dump.out)
  }

  /** The writer of a batch inside a tick, and what the second of two writers cannot have seen. */
  ghost predicate OrderOk(s: State, t: Tick) {
    && (s.lock.None? ==> !t.bd.stage.Writing? && !t.dump.stage.Writing?)
    && (s.lock.Some? ==>
          || (t.bd.stage.Writing? && !t.dump.stage.Writing? && t.bdLast && s.lock.value.us == t.bd.updates)
          || (t.dump.stage.Writing? && !t.bd.stage.Writing? && !t.bdLast && s.lock.value.us == t.dump.out))
    && (t.bdLast && t.dump.stage.Written? ==> forall j :: 0 <= j < |t.dump.seen| ==> !t.dump.seen[j])
    && (!t.bdLast && t.bd.stage.Written? && Started(t.dump.stage) ==>
          !t.bd.late && forall i :: 0 <= i < |t.bd.seen| ==> t.bd.seen[i] == 0)
  }

  ghost predicate TickOk(s: State, t: Tick) {
    && Unique(Ids(t.start))
    && DumpOk(t)
    && BdOk(s, t)
    && TableOk(s, t)
    && OrderOk(s, t)
  }

  ghost predicate Inv(s: State) {
    && Sound(s.mem)
    && StampsOk(s)
    && (s.lock.Some? ==> LockOk(s, s.lock.value))
    && (s.tick.Some? ==> TickOk(s, s.tick.value))
    && (s.tick.None? && s.lock.Some? ==> |s.lock.value.us| == 1)
  }

  lemma AfterDumpLength(t: Tick)
    ensures |t.start| <= |AfterDump(t)|
    ensures Ids(t.start) <= Ids(AfterDump(t))
  {
    SetPlayersIds(t.start, t.dump.out);
  }

  // ---------------------------------------------------------------- stamps

  lemma KnownStamp(s: State, id: SteamID)
    requires AllStampsOk(s, s.mem.table)
    ensures StampOk(s, Known(s.mem.table, id))
  {
  }

  lemma PutKeepsStamps(s: State, m: Memory, existing: bool, p: Player, room: nat)
    requires MemoryStampsOk(s, m) && StampOk(s, p)
    ensures MemoryStampsOk(s, Put(m, existing, p, room))
  {
    var m' := Put(m, existing, p, room);
    forall i | 0 <= i < |m'.views|
      ensures AllStampsOk(s, m'.views[i].records)
    {
      assert AllStampsOk(s, m.views[i].records);
    }
  }

  lemma StampsGrow(s: State, s': State, t: seq<Player>)
    requires AllStampsOk(s, t) && s.stamped <= s'.stamped
    ensures AllStampsOk(s', t)
  {
    forall i | 0 <= i < |t|
      ensures StampOk(s', t[i])
    {
      assert StampOk(s, t[i]);
    }
  }

  // ---------------------------------------------------------------- what the passes have collected

  /** Nothing outside the dump pass can spoil what it has collected. */
  lemma DumpRecordsKept(t: Tick, t': Tick)
    requires DumpOk(t)
    requires t'.start == t.start
    requires t'.dump.out == t.dump.out && t'.dump.seen == t.dump.seen && t'.dump.stamps == t.dump.stamps
    requires t.bd.stage.Written? ==> t'.bd.updates == t.bd.updates && t'.bd.stage.Written?
    ensures DumpRecordsOk(t', Listed(t.dump.slots[..t.dump.next]))
    ensures !t.bd.stage.Written? ==> forall j :: 0 <= j < |t.dump.seen| ==> !t.dump.seen[j]
  {
    var l := Listed(t.dump.slots[..t.dump.next]);
    forall j | 0 <= j < |l|
      ensures DumpRecordOk(t', l, j) && (!t.bd.stage.Written? ==> !t.dump.seen[j])
    {
      assert DumpRecordOk(t, l, j);
    }
  }

  /** What the bot-detector pass has read stays explained while the dump pass goes on. */
  lemma BdRecordsKept(s: State, t: Tick, t': Tick)
    requires BdOk(s, t)
    requires t'.start == t.start && t'.room == t.room
    requires t'.bd.late == t.bd.late && t'.bd.updates == t.bd.updates
    requires t'.bd.seen == t.bd.seen && t'.bd.matches == t.bd.matches
    requires Started(t.dump.stage) ==> t'.dump.out == t.dump.out && Started(t'.dump.stage)
    ensures forall i :: 0 <= i < |t'.bd.updates| ==> BdRecordOk(t', i)
    ensures !Started(t.dump.stage) ==> !t.bd.late && forall i :: 0 <= i < |t.bd.seen| ==> t.bd.seen[i] == 0
  {
    forall i | 0 <= i < |t'.bd.updates|
      ensures BdRecordOk(t', i) && (!Started(t.dump.stage) ==> t.bd.seen[i] == 0)
    {
      assert BdRecordOk(t, i);
      assert t'.dump.out[..0] == [] && t.dump.out[..0] == [];
    }
  }

  /** The position of a batch decides what a snapshot of its start shows. */
  lemma ReadableFromView(t: Tick, v: View, k: nat)
    requires !t.bd.late && v.attached && v.records == t.start && k <= |t.dump.out|
    ensures ShowsReadable(t, ViewAfter(v, t.start, t.room, t.dump.out[..k]).records, k)
  {
    var us := t.dump.out[..k];
    assert Ids(us) == Ids(t.dump.out)[..k];
    LeadingPrefix(Ids(t.start), Ids(t.dump.out), k);
    if !Fits(t) && Leading(Ids(t.start), Ids(us)) <= t.room {
      MirrorOfNew(t.start, t.start, us);
    }
  }

  // ---------------------------------------------------------------- steps

  lemma LockStarts(s: State, us: seq<Player>)
    requires Sound(s.mem)
    ensures LockOk(Lock(s, us), Lock(s, us).lock.value)
  {
    assert us[..0] == [];
  }

  lemma OutsideStepKeeps(s: State, step: Step)
    requires Inv(s) && Can(s, step)
    requires step.Advance? || step.TakeSnapshot? || step.StatusLine? || step.BeginTick? || step.EndTick?
    ensures Inv(Do(s, step))
  {
    if step.StatusLine? {
      KnownStamp(s, step.id);
      LockStarts(s, [Known(s.mem.table, step.id).(name := step.name)]);
    }
    if s.tick.Some? && !step.EndTick? {
      var t := s.tick.value;
      assert Do(s, step).tick == s.tick;
      BdRecordsKept(s, t, t);
    }
  }

  lemma RemoveKeeps(s: State, nows: seq<int>, room: nat)
    requires Inv(s) && Can(s, Remove(nows, room))
    ensures Inv(Do(s, Remove(nows, room)))
  {
    SurvivorsUnique(s.mem.table, nows);
    var t := Survivors(s.mem.table, nows);
    forall i | 0 <= i < |t|
      ensures StampOk(s, t[i])
    {
      SurvivorsAreFresh(s.mem.table, nows, t[i]);
    }
    forall i | 0 <= i < |s.mem.views|
      ensures ViewOk(Rebuild(s.mem, t, room), Detach(s.mem.views)[i])
    {
      assert ViewOk(s.mem, s.mem.views[i]);
    }
  }

  lemma BdSnapshotKeeps(s: State)
    requires Inv(s) && Can(s, BdSnapshot)
    ensures Inv(Do(s, BdSnapshot))
  {
    var t := s.tick.value;
    var t' := Do(s, BdSnapshot).tick.value;
    DumpRecordsKept(t, t');
    assert t.dump.out[..0] == [];
    assert |t.bd.updates| == 0;
  }

  lemma BdReadRecords(s: State, found: seq<Match>)
    requires Inv(s) && Can(s, BdRead(found))
    ensures BdOk(Do(s, BdRead(found)), Do(s, BdRead(found)).tick.value)
  {
    var t := s.tick.value;
    var t' := Do(s, BdRead(found)).tick.value;
    var n := |t.bd.updates|;
    forall i | 0 <= i < n + 1
      ensures BdRecordOk(t', i)
    {
      if i < n {
        assert BdRecordOk(t, i);
      } else {
        assert s.mem.views[t.bd.view].records[n] == Readable(t, Applied(s, t), n);
      }
    }
  }

  lemma BdReadKeeps(s: State, found: seq<Match>)
    requires Inv(s) && Can(s, BdRead(found))
    ensures Inv(Do(s, BdRead(found)))
  {
    var t := s.tick.value;
    var s' := Do(s, BdRead(found));
    DumpRecordsKept(t, s'.tick.value);
    BdReadRecords(s, found);
    assert StampOk(s', s'.tick.value.bd.updates[|t.bd.updates|]);
  }

  lemma BdWriteKeeps(s: State)
    requires Inv(s) && Can(s, BdWrite)
    ensures Inv(Do(s, BdWrite))
  {
    var t := s.tick.value;
    var t' := Do(s, BdWrite).tick.value;
    LockStarts(s, t.bd.updates);
    DumpRecordsKept(t, t');
    BdRecordsKept(s, t, t');
  }

  lemma DumpFetchedKeeps(s: State, slots: seq<Slot>)
    requires Inv(s) && Can(s, DumpFetched(slots))
    ensures Inv(Do(s, DumpFetched(slots)))
  {
    var t := s.tick.value;
    var t' := Do(s, DumpFetched(slots)).tick.value;
    DumpRecordsKept(t, t');
    BdRecordsKept(s, t, t');
  }

  lemma DumpRecordsGrow(t: Tick, l: seq<Slot>, slot: Slot, now: int, t': Tick)
    requires DumpRecordsOk(t, l)
    requires t'.start == t.start && t'.bd == t.bd
    requires t'.dump.seen == t.dump.seen + [t.bd.stage.Written?]
    requires t'.dump.stamps == t.dump.stamps + [now]
    requires t'.dump.out == t.dump.out + [ApplySlot(Known(if t.bd.stage.Written? then AfterBd(t) else t.start,
                                                          slot.steamID), slot, now)]
    ensures DumpRecordsOk(t', l + [slot])
  {
    var l' := l + [slot];
    forall j | 0 <= j < |l'|
      ensures DumpRecordOk(t', l', j)
    {
      if j < |l| {
        assert DumpRecordOk(t, l, j);
      }
    }
  }

  lemma DumpSlotRecords(s: State)
    requires Inv(s) && Can(s, DumpSlot)
    ensures DumpOk(Do(s, DumpSlot).tick.value)
  {
    var t := s.tick.value;
    var t' := Do(s, DumpSlot).tick.value;
    var n := t.dump.next;
    ListedSnoc(t.dump.slots, n);
    var l := Listed(t.dump.slots[..n]);
    if t.dump.slots[n].steamID.Valid() {
      DumpRecordsGrow(t, l, t.dump.slots[n], s.clock, t');
    } else {
      DumpRecordsKept(t, t');
      assert Listed(t.dump.slots[..n + 1]) == l;
    }
  }

  lemma DumpSlotLeavesBd(s: State)
    requires Inv(s) && Can(s, DumpSlot)
    ensures BdOk(Do(s, DumpSlot), Do(s, DumpSlot).tick.value)
  {
    var t := s.tick.value;
    var t' := Do(s, DumpSlot).tick.value;
    BdRecordsKept(s, t, t');
    assert t.dump.out[..0] == [] && t'.dump.out[..0] == [];
  }

  lemma DumpSlotStamps(s: State)
    requires Inv(s) && Can(s, DumpSlot)
    ensures StampsOk(Do(s, DumpSlot))
  {
    var t := s.tick.value;
    var s' := Do(s, DumpSlot);
    KnownStamp(s, t.dump.slots[t.dump.next].steamID);
    StampsGrow(s, s', s.mem.table);
    StampsGrow(s, s', t.bd.updates);
    StampsGrow(s, s', t.dump.out);
    forall i | 0 <= i < |s.mem.views|
      ensures AllStampsOk(s', s'.mem.views[i].records)
    {
      StampsGrow(s, s', s.mem.views[i].records);
    }
  }

  lemma DumpSlotKeeps(s: State)
    requires Inv(s) && Can(s, DumpSlot)
    ensures Inv(Do(s, DumpSlot))
  {
    DumpSlotRecords(s);
    DumpSlotLeavesBd(s);
    DumpSlotStamps(s);
  }

  lemma DumpWriteKeeps(s: State)
    requires Inv(s) && Can(s, DumpWrite)
    ensures Inv(Do(s, DumpWrite))
  {
    var t := s.tick.value;
    var t' := Do(s, DumpWrite).tick.value;
    LockStarts(s, t.dump.out);
    DumpRecordsKept(t, t');
    BdRecordsKept(s, t, t');
    assert t.dump.out[..0] == [];
    if t.bd.stage.Working? {
      assert s.mem.views[t.bd.view].records == t.start;
    }
  }

  /** One more put takes a batch one update further. */
  lemma BatchGrows(b: Batch, room: nat)
    requires |b.rooms| < |b.us| && b.existing == Raised(b.start.table, b.us[..|b.rooms|])
    ensures var k := |b.rooms|;
            var m := PutAll(b.start, b.us[..k], b.rooms);
            && PutAll(b.start, b.us[..k + 1], b.rooms + [room]) == Put(m, b.existing, b.us[k], room)
            && (Raised(b.start.table, b.us[..k + 1]) <==> b.existing || b.us[k].steamID in Ids(m.table))
  {
    var k := |b.rooms|;
    PutAllSnoc(b.start, b.us[..k], b.rooms, b.us[k], room);
    assert b.us[..k + 1] == b.us[..k] + [b.us[k]];
  }

  lemma PutOneLock(s: State, room: nat)
    requires s.lock.Some? && LockOk(s, s.lock.value) && Can(s, PutOne(room))
    ensures LockOk(Do(s, PutOne(room)), Do(s, PutOne(room)).lock.value)
  {
    BatchGrows(s.lock.value, room);
  }

  lemma StampsSame(s: State, s': State)
    requires StampsOk(s) && s'.stamped == s.stamped && s'.clock == s.clock && s'.tick == s.tick
    requires s.lock.Some? && s'.lock.Some? && s'.lock.value.us == s.lock.value.us
    requires MemoryStampsOk(s, s'.mem)
    ensures StampsOk(s')
  {
    StampsGrow(s, s', s'.mem.table);
    StampsGrow(s, s', s.lock.value.us);
    forall i | 0 <= i < |s'.mem.views|
      ensures AllStampsOk(s', s'.mem.views[i].records)
    {
      StampsGrow(s, s', s'.mem.views[i].records);
    }
    if s.tick.Some? {
      StampsGrow(s, s', s.tick.value.bd.updates);
      StampsGrow(s, s', s.tick.value.dump.out);
    }
  }

  lemma PutOneStamps(s: State, room: nat)
    requires StampsOk(s) && Can(s, PutOne(room))
    ensures StampsOk(Do(s, PutOne(room)))
  {
    var b := s.lock.value;
    var p := b.us[|b.rooms|];
    assert StampOk(s, p);
    PutKeepsStamps(s, s.mem, b.existing, p, room);
    StampsSame(s, Do(s, PutOne(room)));
  }

  /** What a snapshot of the batch's start shows once the batch has gone this far. */
  lemma BatchShows(s: State, b: Batch, t: Tick, view: nat)
    requires LockOk(s, b) && b.us == t.dump.out && b.start.table == t.start && b.start.room == t.room && !t.bd.late
    requires view < |b.start.views| && b.start.views[view].attached && b.start.views[view].records == t.start
    ensures view < |s.mem.views| && ShowsReadable(t, s.mem.views[view].records, |b.rooms|)
  {
    var k := |b.rooms|;
    PutAllViews(b.start, b.us[..k], b.rooms, view);
    ReadableFromView(t, b.start.views[view], k);
  }

  lemma PutOneShows(s: State, room: nat)
    requires Inv(s) && Can(s, PutOne(room)) && s.tick.Some? && s.tick.value.bd.stage.Working?
    ensures BdViewOk(Do(s, PutOne(room)), s.tick.value)
  {
    var s' := Do(s, PutOne(room));
    PutOneLock(s, room);
    BatchShows(s', s'.lock.value, s.tick.value, s.tick.value.bd.view);
  }

  lemma PutOneKeeps(s: State, room: nat)
    requires Inv(s) && Can(s, PutOne(room))
    ensures Inv(Do(s, PutOne(room)))
  {
    PutOneLock(s, room);
    PutOneStamps(s, room);
    PutKeepsSound(s.mem, s.lock.value.existing, s.lock.value.us[|s.lock.value.rooms|], room);
    if s.tick.Some? {
      var t := s.tick.value;
      BdRecordsKept(s, t, t);
      if t.bd.stage.Working? {
        PutOneShows(s, room);
      }
    }
  }

  /** A batch that has put all its updates leaves the table `setPlayer` computes. */
  lemma UnlockTable(s: State)
    requires s.lock.Some? && LockOk(s, s.lock.value) && Can(s, Unlock)
    ensures s.mem.table == SetPlayers(s.lock.value.start.table, s.lock.value.us)
  {
    var b := s.lock.value;
    PutAllTable(b.start, b.us, b.rooms);
    assert b.us[..|b.rooms|] == b.us;
  }

  lemma UnlockTick(s: State)
    requires Inv(s) && Can(s, Unlock) && s.tick.Some?
    ensures BdOk(Do(s, Unlock), Do(s, Unlock).tick.value)
  {
    BdRecordsKept(s, s.tick.value, Do(s, Unlock).tick.value);
  }

  lemma UnlockKeeps(s: State)
    requires Inv(s) && Can(s, Unlock)
    ensures Inv(Do(s, Unlock))
  {
    UnlockTable(s);
    if s.tick.Some? {
      var t, t' := s.tick.value, Do(s, Unlock).tick.value;
      UnlockTick(s);
      DumpRecordsKept(t, t');
      assert DumpOk(t');
      assert TableOk(Do(s, Unlock), t');
      BdRecordsKept(s, t, t');
    }
  }

  /** Every step keeps the invariant. */
  lemma StepKeepsInv(s: State, step: Step)
    requires Inv(s) && Can(s, step)
    ensures Inv(Do(s, step))
  {
    match step
    case Advance(_) => OutsideStepKeeps(s, step);
    case TakeSnapshot => OutsideStepKeeps(s, step);
    case StatusLine(_, _) => OutsideStepKeeps(s, step);
    case BeginTick => OutsideStepKeeps(s, step);
    case EndTick => OutsideStepKeeps(s, step);
    case Remove(nows, room) => RemoveKeeps(s, nows, room);
    case BdSnapshot => BdSnapshotKeeps(s);
    case BdRead(found) => BdReadKeeps(s, found);
    case BdWrite => BdWriteKeeps(s);
    case DumpFetched(slots) => DumpFetchedKeeps(s, slots);
    case DumpSlot => DumpSlotKeeps(s);
    case DumpWrite => DumpWriteKeeps(s);
    case PutOne(room) => PutOneKeeps(s, room);
    case Unlock => UnlockKeeps(s);
  }

  /** The invariant holds in every state any run can reach. */
  lemma {:induction false} RunKeepsInv(s: State, steps: seq<Step>)
    requires Inv(s) && Runnable(s, steps)
    ensures Inv(Exec(s, steps))
    decreases |steps|
  {
    if steps == [] {
    } else {
      StepKeepsInv(s, steps[0]);
      RunKeepsInv(Do(s, steps[0]), steps[1..]);
    }
  }

  lemma ReachableInv(clock: int, steps: seq<Step>)
    requires Runnable(Initial(clock), steps)
    ensures Inv(Exec(Initial(clock), steps))
  {
    RunKeepsInv(Initial(clock), steps);
  }

  // ---------------------------------------------------------------- snapshots

  lemma StepKeepsHandedOut(s: State, step: Step, i: nat)
    requires Inv(s) && Can(s, step) && i < |s.mem.views|
    ensures i < |Do(s, step).mem.views| && Do(s, step).mem.views[i].ids == s.mem.views[i].ids
  {
  }

  /**
  However a run goes on, a snapshot keeps its length and the id at every
  position, although the table goes on writing into the array it shows.
  */
  lemma {:induction false} SnapshotStability(s: State, steps: seq<Step>, i: nat)
    requires Inv(s) && Runnable(s, steps) && i < |s.mem.views|
    ensures i < |Exec(s, steps).mem.views|
    ensures Ids(Exec(s, steps).mem.views[i].records) == Ids(s.mem.views[i].records) == s.mem.views[i].ids
    decreases |steps|
  {
    assert ViewOk(s.mem, s.mem.views[i]);
    if steps == [] {
    } else {
      StepKeepsInv(s, steps[0]);
      StepKeepsHandedOut(s, steps[0], i);
      SnapshotStability(Do(s, steps[0]), steps[1..], i);
    }
  }

  // ---------------------------------------------------------------- ticks

  ghost predicate TickComplete(s: State) {
    s.tick.Some? && s.tick.value.bd.stage.Written? && s.tick.value.dump.stage.Written?
  }

  /** A complete tick holds no lock, so its outcome is in the live table. */
  lemma CompleteIsSettled(s: State)
    requires Inv(s) && TickComplete(s)
    ensures s.lock.None? && Settled(s) == s.mem.table
  {
  }

  lemma DumpOutIds(t: Tick)
    requires DumpOk(t) && Started(t.dump.stage)
    ensures Ids(t.dump.out) == SlotIds(Listed(t.dump.slots))
  {
    assert t.dump.slots[..t.dump.next] == t.dump.slots;
    var l := Listed(t.dump.slots);
    forall j | 0 <= j < |l|
      ensures t.dump.out[j].steamID == l[j].steamID
    {
      assert DumpRecordOk(t, l, j);
    }
  }

  lemma LeadingOfPrefix(ids: seq<SteamID>, us: seq<SteamID>)
    requires us <= ids
    ensures IdsAfter(ids, us) == ids
  {
    assert us != [] ==> us[0] == ids[0];
  }

  /** The bot-detector pass writes back the ids of its snapshot, which the settled table still has. */
  lemma BdUpdateIds(s: State)
    requires Inv(s) && s.tick.Some?
    ensures Ids(s.tick.value.bd.updates) <= Ids(BdSource(s.tick.value))
    ensures !s.tick.value.bd.stage.Written? ==> Ids(s.tick.value.bd.updates) <= Ids(Settled(s))
  {
    var t := s.tick.value;
    AfterDumpLength(t);
    forall i | 0 <= i < |t.bd.updates|
      ensures t.bd.updates[i].steamID == Ids(BdSource(t))[i]
    {
      assert BdRecordOk(t, i);
      assert Ids(AfterDump(t))[i] == AfterDump(t)[i].steamID;
      assert i < |t.start| ==> Ids(t.start)[i] == Ids(AfterDump(t))[i];
    }
  }

  /**
  Whatever the interleaving, a tick leaves the ids the dump pass alone would
  leave: the bot-detector pass adds, drops, reorders and resurrects nobody.
  */
  lemma TickIds(s: State, nows: seq<int>)
    requires Inv(s) && TickComplete(s) && |nows| == |s.tick.value.dump.slots|
    ensures var t := s.tick.value;
            Ids(s.mem.table) == Ids(SetPlayers(t.start, DumpRecords(t.start, t.dump.slots, nows)))
  {
    var t := s.tick.value;
    CompleteIsSettled(s);
    DumpOutIds(t);
    SetPlayersIds(t.start, DumpRecords(t.start, t.dump.slots, nows));
    SetPlayersIds(t.start, t.dump.out);
    BdUpdateIds(s);
    if t.bdLast {
      AfterDumpLength(t);
      SetPlayersIds(AfterDump(t), t.bd.updates);
      LeadingOfPrefix(Ids(AfterDump(t)), Ids(t.bd.updates));
    } else {
      SetPlayersIds(t.start, t.bd.updates);
      LeadingOfPrefix(Ids(t.start), Ids(t.bd.updates));
      SetPlayersIds(AfterBd(t), t.dump.out);
    }
  }

  /** What the tick leaves for a player when the last writer had seen the other's write. */
  function Merged(p: Player, slot: Slot, now: int, found: seq<Match>): Player {
    ApplySlot(p, slot, now).(bdMatches := found)
  }

  /** How many updates of the dump pass show in what the bot-detector pass read at position `i`. */
  ghost function Visible(t: Tick, i: nat): nat
    requires i < |t.bd.seen|
  {
    if t.bd.late then |t.dump.out| else if Fits(t) then t.bd.seen[i] else 0
  }

  /** Among the first `k` listings of the dump, `j` is the last of the id. */
  ghost predicate LastListing(t: Tick, id: SteamID, k: nat, j: nat) {
    var l := Listed(t.dump.slots);
    && j < k <= |l| == |t.dump.seen| == |t.dump.stamps|
    && l[j].steamID == id
    && forall m :: j < m < k ==> l[m].steamID != id
  }

  lemma {:induction false} KnownAt(t: seq<Player>, i: nat)
    requires Unique(Ids(t)) && i < |t|
    ensures Known(t, t[i].steamID) == t[i]
  {
    IdsSplit(t);
    UniqueCons(t[0].steamID, Ids(t[1..]));
    if i == 0 {
    } else {
      assert Ids(t[1..])[i - 1] == t[i].steamID;
      KnownAt(t[1..], i - 1);
    }
  }

  lemma DumpOutLatest(t: Tick, id: SteamID, k: nat, j: nat, d: Player)
    requires DumpOk(t) && Started(t.dump.stage) && LastListing(t, id, k, j)
    ensures k <= |t.dump.out| && Latest(t.dump.out[..k], id, d) == t.dump.out[j]
  {
    DumpOutIds(t);
    var l := Listed(t.dump.slots);
    assert forall m :: 0 <= m < |l| ==> t.dump.out[m].steamID == Ids(t.dump.out)[m] == SlotIds(l)[m] == l[m].steamID;
    LatestIsLast(t.dump.out[..k], id, d, j);
  }

  lemma SetPlayersAt(t: seq<Player>, us: seq<Player>, i: nat)
    requires i < |t|
    ensures i < |SetPlayers(t, us)| && SetPlayers(t, us)[i] == Latest(us, t[i].steamID, t[i])
  {
    SetPlayersClosedForm(t, us);
  }

  /** A record the dump pass made of a player that was there before the tick. */
  lemma DumpRecordAt(t: Tick, i: nat, j: nat)
    requires DumpOk(t) && Started(t.dump.stage) && Unique(Ids(t.start)) && i < |t.start|
    requires j < |Listed(t.dump.slots)| && Listed(t.dump.slots)[j].steamID == t.start[i].steamID
    ensures |t.dump.out| == |t.dump.seen| == |t.dump.stamps| == |Listed(t.dump.slots)|
    ensures !t.dump.seen[j] ==>
              t.dump.out[j] == ApplySlot(t.start[i], Listed(t.dump.slots)[j], t.dump.stamps[j])
  {
    assert t.dump.slots[..t.dump.next] == t.dump.slots;
    assert DumpRecordOk(t, Listed(t.dump.slots), j);
    KnownAt(t.start, i);
  }

  /** The bot-detector pass writing last leaves what it read, with its matches. */
  lemma BdWroteLast(s: State, i: nat)
    requires Inv(s) && TickComplete(s) && s.tick.value.bdLast && i < |s.tick.value.start|
    ensures var t := s.tick.value;
            && i < |s.mem.table| && i < |t.bd.matches| == |t.bd.seen| && Visible(t, i) <= |t.dump.out|
            && s.mem.table[i] == Latest(t.dump.out[..Visible(t, i)], t.start[i].steamID, t.start[i]).(
                                   bdMatches := t.bd.matches[i])
  {
    var t := s.tick.value;
    CompleteIsSettled(s);
    AfterDumpLength(t);
    BdUpdateIds(s);
    assert BdRecordOk(t, i);
    SetPlayersKeepsUnique(t.start, t.dump.out);
    SetPlayersSameIds(AfterDump(t), t.bd.updates);
    SetPlayersAt(t.start, t.dump.out, i);
    assert t.dump.out[..|t.dump.out|] == t.dump.out && t.dump.out[..0] == [];
  }

  /** The dump pass writing last leaves its own record; it has the new matches if it looked them up in time. */
  lemma DumpWroteLast(s: State, i: nat, j: nat)
    requires Inv(s) && TickComplete(s) && !s.tick.value.bdLast && i < |s.tick.value.start|
    requires LastListing(s.tick.value, s.tick.value.start[i].steamID, |s.tick.value.dump.out|, j)
    ensures var t := s.tick.value;
            var slot := Listed(t.dump.slots)[j];
            && i < |s.mem.table| && i < |t.bd.matches|
            && s.mem.table[i] == if t.dump.seen[j] then Merged(t.start[i], slot, t.dump.stamps[j], t.bd.matches[i])
                                 else ApplySlot(t.start[i], slot, t.dump.stamps[j])
  {
    var t := s.tick.value;
    CompleteIsSettled(s);
    BdUpdateIds(s);
    assert BdRecordOk(t, i);
    DumpRecordAt(t, i, j);
    assert t.dump.slots[..t.dump.next] == t.dump.slots;
    assert DumpRecordOk(t, Listed(t.dump.slots), j);
    SetPlayersSameIds(t.start, t.bd.updates);
    assert AfterBd(t) == t.bd.updates;
    SetPlayersKeepsUnique(t.start, t.bd.updates);
    KnownAt(AfterBd(t), i);
    SetPlayersAt(AfterBd(t), t.dump.out, i);
    DumpOutLatest(t, t.start[i].steamID, |t.dump.out|, j, AfterBd(t)[i]);
    assert t.dump.out[..|t.dump.out|] == t.dump.out && t.dump.out[..0] == [];
  }

  /**
  The record a tick leaves for each player that was there before it and is
  listed in the dump. Both halves survive exactly when the last writer had
  read the other's final record: the dump pass by a lookup after the other
  write, the bot-detector pass by a read after that very element was put, in
  an array the table had not left. Otherwise the last writer's half stands on
  what it did read: of the dump, the listings put by then.
  */
  lemma TickOutcome(s: State, i: nat, j: nat)
    requires Inv(s) && TickComplete(s) && i < |s.tick.value.start|
    requires LastListing(s.tick.value, s.tick.value.start[i].steamID, |s.tick.value.dump.out|, j)
    ensures var t := s.tick.value;
            var p, slot := t.start[i], Listed(t.dump.slots)[j];
            && i < |s.mem.table| && i < |t.bd.matches| == |t.bd.seen| && Visible(t, i) <= |t.dump.out|
            && s.mem.table[i] ==
               if (if t.bdLast then j < Visible(t, i) else t.dump.seen[j])
               then Merged(p, slot, t.dump.stamps[j], t.bd.matches[i])
               else if t.bdLast
               then Latest(t.dump.out[..Visible(t, i)], p.steamID, p).(bdMatches := t.bd.matches[i])
               else ApplySlot(p, slot, t.dump.stamps[j])
  {
    var t := s.tick.value;
    if t.bdLast {
      BdWroteLast(s, i);
      if j < Visible(t, i) {
        DumpOutLatest(t, t.start[i].steamID, Visible(t, i), j, t.start[i]);
        DumpRecordAt(t, i, j);
      }
    } else {
      DumpWroteLast(s, i, j);
      BdWroteIds(s);
    }
  }

  lemma BdWroteIds(s: State)
    requires Inv(s) && TickComplete(s) && !s.tick.value.bdLast
    ensures var t := s.tick.value;
            |t.bd.seen| == |t.start| && forall i :: 0 <= i < |t.start| ==> Visible(t, i) <= |t.dump.out|
  {
  }

  /** Of several listings, a read between two puts shows the last one put by then. */
  lemma TickOutcomeBetweenPuts(s: State, i: nat, j: nat)
    requires Inv(s) && TickComplete(s) && s.tick.value.bdLast
    requires i < |s.tick.value.start| && i < |s.tick.value.bd.seen|
    requires LastListing(s.tick.value, s.tick.value.start[i].steamID, Visible(s.tick.value, i), j)
    ensures var t := s.tick.value;
            && i < |s.mem.table| && i < |t.bd.matches|
            && s.mem.table[i] == Merged(t.start[i], Listed(t.dump.slots)[j], t.dump.stamps[j], t.bd.matches[i])
  {
    var t := s.tick.value;
    BdWroteLast(s, i);
    DumpOutLatest(t, t.start[i].steamID, Visible(t, i), j, t.start[i]);
    DumpRecordAt(t, i, j);
  }

  /** When no listing of the player showed yet, the dump's whole update of it is lost. */
  lemma TickOutcomeLost(s: State, i: nat)
    requires Inv(s) && TickComplete(s) && s.tick.value.bdLast
    requires i < |s.tick.value.start| && i < |s.tick.value.bd.seen|
    requires Visible(s.tick.value, i) <= |Listed(s.tick.value.dump.slots)|
    requires s.tick.value.start[i].steamID !in SlotIds(Listed(s.tick.value.dump.slots))[..Visible(s.tick.value, i)]
    ensures i < |s.mem.table| && i < |s.tick.value.bd.matches|
    ensures s.mem.table[i] == s.tick.value.start[i].(bdMatches := s.tick.value.bd.matches[i])
  {
    var t := s.tick.value;
    BdWroteLast(s, i);
    DumpOutIds(t);
    assert Ids(t.dump.out[..Visible(t, i)]) == Ids(t.dump.out)[..Visible(t, i)];
    LatestOfAbsent(t.dump.out[..Visible(t, i)], t.start[i].steamID, t.start[i]);
  }

  /** A player the dump does not list just gets its new matches. */
  lemma TickOutcomeUnlisted(s: State, i: nat)
    requires Inv(s) && TickComplete(s)
    requires i < |s.tick.value.start|
    requires s.tick.value.start[i].steamID !in SlotIds(Listed(s.tick.value.dump.slots))
    ensures i < |s.mem.table| && i < |s.tick.value.bd.matches|
    ensures s.mem.table[i] == s.tick.value.start[i].(bdMatches := s.tick.value.bd.matches[i])
  {
    var t := s.tick.value;
    DumpOutIds(t);
    if t.bdLast {
      BdWroteLast(s, i);
      assert t.start[i].steamID !in Ids(t.dump.out)[..Visible(t, i)];
      TickOutcomeLost(s, i);
    } else {
      CompleteIsSettled(s);
      BdUpdateIds(s);
      assert BdRecordOk(t, i);
      assert t.dump.out[..0] == [];
      SetPlayersSameIds(t.start, t.bd.updates);
      SetPlayersAt(AfterBd(t), t.dump.out, i);
      LatestOfAbsent(t.dump.out, t.start[i].steamID, AfterBd(t)[i]);
    }
  }

  /** The record the dump pass makes of a player that was not in the table. */
  lemma DumpRecordOfNewcomer(s: State, id: SteamID, j: nat)
    requires Inv(s) && TickComplete(s) && id !in Ids(s.tick.value.start)
    requires LastListing(s.tick.value, id, |s.tick.value.dump.out|, j)
    ensures var t := s.tick.value;
            t.dump.out[j] == ApplySlot(NewPlayer(id), Listed(t.dump.slots)[j], t.dump.stamps[j])
  {
    var t := s.tick.value;
    assert t.dump.slots[..t.dump.next] == t.dump.slots;
    assert DumpRecordOk(t, Listed(t.dump.slots), j);
    if t.dump.seen[j] {
      assert !t.bdLast;
      BdUpdateIds(s);
      SetPlayersIds(t.start, t.bd.updates);
      LeadingOfPrefix(Ids(t.start), Ids(t.bd.updates));
    }
  }

  /** Behind the old records, a batch leaves the last update of each id it appended. */
  lemma SetPlayersBehind(t: seq<Player>, us: seq<Player>, i: nat, d: Player)
    requires |t| <= i < |SetPlayers(t, us)|
    ensures SetPlayers(t, us)[i].steamID in Ids(us)
    ensures SetPlayers(t, us)[i] == Latest(us, SetPlayers(t, us)[i].steamID, d)
  {
    SetPlayersClosedForm(t, us);
    var k := Leading(Ids(t), Ids(us));
    var p := us[i - |t|];
    assert (t + us[..k])[i] == p && Ids(us)[i - |t|] == p.steamID;
    LatestOfPresent(us, p.steamID, p, d);
  }

  /** An admitted newcomer has the dump's record, with matches exactly when the snapshot was late. */
  lemma TickOutcomeNewcomer(s: State, i: nat, j: nat)
    requires Inv(s) && TickComplete(s) && |s.tick.value.start| <= i < |s.mem.table|
    requires LastListing(s.tick.value, s.mem.table[i].steamID, |s.tick.value.dump.out|, j)
    ensures var t := s.tick.value;
            var id, slot := s.mem.table[i].steamID, Listed(t.dump.slots)[j];
            && (t.bd.late ==> i < |t.bd.matches|)
            && s.mem.table[i] == if t.bd.late then Merged(NewPlayer(id), slot, t.dump.stamps[j], t.bd.matches[i])
                                 else ApplySlot(NewPlayer(id), slot, t.dump.stamps[j])
  {
    var t := s.tick.value;
    var id := s.mem.table[i].steamID;
    CompleteIsSettled(s);
    NewcomerIsNew(s, i);
    DumpRecordOfNewcomer(s, id, j);
    DumpOutLatest(t, id, |t.dump.out|, j, NewPlayer(id));
    assert t.dump.out[..|t.dump.out|] == t.dump.out;
    BdUpdateIds(s);
    AfterDumpLength(t);
    if t.bdLast {
      SetPlayersKeepsUnique(t.start, t.dump.out);
      SetPlayersSameIds(AfterDump(t), t.bd.updates);
      SetPlayersBehind(t.start, t.dump.out, i, NewPlayer(id));
      if t.bd.late {
        assert BdRecordOk(t, i);
      }
    } else {
      SetPlayersSameIds(t.start, t.bd.updates);
      SetPlayersBehind(AfterBd(t), t.dump.out, i, NewPlayer(id));
    }
  }

  lemma NewcomerIsNew(s: State, i: nat)
    requires Inv(s) && TickComplete(s) && |s.tick.value.start| <= i < |s.mem.table|
    ensures s.mem.table[i].steamID !in Ids(s.tick.value.start)
  {
    var t := s.tick.value;
    var nows := seq(|t.dump.slots|, _ => 0);
    TickIds(s, nows);
    SetPlayersIds(t.start, DumpRecords(t.start, t.dump.slots, nows));
    var ids := Ids(s.mem.table);
    assert Ids(t.start) <= ids && ids[i] == s.mem.table[i].steamID;
    forall m | 0 <= m < |t.start|
      ensures Ids(t.start)[m] != ids[i]
    {
      assert ids[m] == Ids(t.start)[m];
    }
  }

  // ---------------------------------------------------------------- expiry

  /** An id that is in the table after an expiry pass was stamped by a dump in the last 30 seconds. */
  lemma ExpiryBound(s: State, nows: seq<int>, room: nat, id: SteamID)
    requires Inv(s) && Can(s, Remove(nows, room)) && id in Ids(Do(s, Remove(nows, room)).mem.table)
    ensures exists x :: x in s.stamped && x.0 == id && s.clock - PLAYER_TIMEOUT <= x.1 <= s.clock
  {
    var s' := Do(s, Remove(nows, room));
    var i :| 0 <= i < |s'.mem.table| && Ids(s'.mem.table)[i] == id;
    var p := s'.mem.table[i];
    SurvivorsAreFresh(s.mem.table, nows, p);
    assert StampOk(s, p);
    assert (id, p.g15UpdatedOn.ns) in s.stamped;
  }

  /** An id no dump has listed since `t` is gone after the first expiry pass later than 30 seconds past `t`. */
  lemma ExpiryOverRuns(clock: int, steps: seq<Step>, nows: seq<int>, room: nat, id: SteamID, t: int)
    requires Runnable(Initial(clock), steps)
    requires var s := Exec(Initial(clock), steps);
             && Can(s, Remove(nows, room))
             && (forall x :: x in s.stamped && x.0 == id ==> x.1 <= t)
             && s.clock > t + PLAYER_TIMEOUT
    ensures id !in Ids(Do(Exec(Initial(clock), steps), Remove(nows, room)).mem.table)
  {
    ReachableInv(clock, steps);
    var s := Exec(Initial(clock), steps);
    if id in Ids(Do(s, Remove(nows, room)).mem.table) {
      ExpiryBound(s, nows, room, id);
    }
  }

  /** An expiry pass that ends within thirty seconds of a record's stamp keeps the record. */
  lemma RemoveKeepsFresh(s: State, nows: seq<int>, room: nat, i: nat)
    requires Inv(s) && Can(s, Remove(nows, room)) && i < |s.mem.table|
    requires s.mem.table[i].g15UpdatedOn.At?
    requires Do(s, Remove(nows, room)).clock - s.mem.table[i].g15UpdatedOn.ns <= 30_000_000_000
    ensures s.mem.table[i] in Do(s, Remove(nows, room)).mem.table
  {
    KeptForThirtySeconds(s.mem.table, nows, s.mem.table[i]);
    assert nows[i] <= nows[|nows| - 1];
  }

  lemma IdOfMember(t: seq<Player>, p: Player)
    ensures p in t ==> p.steamID in Ids(t)
  {
    assert forall k :: 0 <= k < |t| ==> Ids(t)[k] == t[k].steamID;
  }

  lemma PutKeepsIds(m: Memory, existing: bool, p: Player, room: nat)
    ensures Ids(m.table) <= Ids(Put(m, existing, p, room).table)
  {
    IdsOverwrite(m.table, p);
    IdsConcat(m.table, [p]);
  }

  /** Only an expiry pass takes a player out, and only one without a stamp from the last thirty seconds. */
  lemma OnlyWayOut(s: State, step: Step, i: nat)
    requires Inv(s) && Can(s, step) && i < |s.mem.table|
    requires s.mem.table[i].steamID !in Ids(Do(s, step).mem.table)
    ensures step.Remove?
    ensures var p := s.mem.table[i];
            p.g15UpdatedOn.Never? || step.nows[i] - p.g15UpdatedOn.ns > 30_000_000_000
  {
    var p := s.mem.table[i];
    assert Ids(s.mem.table)[i] == p.steamID;
    match step
    case Remove(nows, room) =>
      KeptForThirtySeconds(s.mem.table, nows, p);
      IdOfMember(Survivors(s.mem.table, nows), p);
    case PutOne(room) =>
      PutKeepsIds(s.mem, s.lock.value.existing, s.lock.value.us[|s.lock.value.rooms|], room);
    case _ =>
  }

  /** A status line, once written, leaves the player there under the name it shows. */
  lemma StatusLineOutcome(s: State, id: SteamID, name: string, room: nat)
    requires Idle(s)
    ensures var s1 := Do(s, StatusLine(id, name));
            && Can(s1, PutOne(room)) && Can(Do(s1, PutOne(room)), Unlock)
            && var s2 := Do(Do(s1, PutOne(room)), Unlock);
               && Idle(s2)
               && s2.mem.table == UpsertOne(s.mem.table, Known(s.mem.table, id).(name := name))
               && Lookup(s2.mem.table, id) == Some(Known(s.mem.table, id).(name := name))
               && (id !in Ids(s.mem.table) ==> Known(s.mem.table, id).g15UpdatedOn == Never)
  {
    LookupUpsertOne(s.mem.table, Known(s.mem.table, id).(name := name), id);
  }

  /** A snapshot shows the table of the moment, on the array the table writes to. */
  lemma SnapshotShowsTable(s: State)
    requires Can(s, TakeSnapshot)
    ensures var m := Do(s, TakeSnapshot).mem;
            && m.table == s.mem.table && m.room == s.mem.room
            && m.views == s.mem.views + [View(s.mem.table, true, Ids(s.mem.table))]
  {
  }

  /** The passes work with what they are given: the reply of the fetch, and the matches of each search. */
  lemma PassInputs(s: State, slots: seq<Slot>, found: seq<Match>)
    ensures Can(s, DumpFetched(slots)) ==>
              var d := Do(s, DumpFetched(slots)).tick.value.dump;
              d == s.tick.value.dump.(stage := Working, slots := slots)
    ensures Can(s, BdRead(found)) ==>
              var b, b' := s.tick.value.bd, Do(s, BdRead(found)).tick.value.bd;
              var p := s.mem.views[b.view].records[|b.updates|];
              b'.updates == b.updates + [p.(bdMatches := found)]
  {
  }

  /** A lookup of the dump pass applies its slot to the record that is there now, stamped with the clock now. */
  lemma LookupStampsNow(s: State)
    requires Can(s, DumpSlot)
    ensures var d, d' := s.tick.value.dump, Do(s, DumpSlot).tick.value.dump;
            var slot := d.slots[d.next];
            && d'.next == d.next + 1 && d'.slots == d.slots
            && d'.out == d.out + if slot.steamID.Account?
                                 then [ApplySlot(Known(s.mem.table, slot.steamID), slot, s.clock)] else []
  {
  }

  /** A bot-detector batch under way finds every id it carries. */
  lemma BdPutsKnown(s: State)
    requires Inv(s) && s.lock.Some? && s.tick.Some? && s.tick.value.bd.stage.Writing?
    ensures forall m :: 0 <= m < |s.lock.value.us| ==> s.lock.value.us[m].steamID in Ids(s.mem.table)
  {
    var b, t := s.lock.value, s.tick.value;
    BdUpdateIds(s);
    PutAllTable(b.start, b.us[..|b.rooms|], b.rooms);
    SetPlayersIds(b.start.table, b.us[..|b.rooms|]);
    forall m | 0 <= m < |b.us|
      ensures b.us[m].steamID in Ids(s.mem.table)
    {
      assert Ids(t.bd.updates)[m] == Ids(b.start.table)[m] == Ids(s.mem.table)[m];
    }
  }

  /** Only the record of a status line, or of a dump that lists the id, can bring an absent id in. */
  lemma OnlyWayIn(s: State, step: Step, id: SteamID)
    requires Inv(s) && Can(s, step)
    requires id !in Ids(s.mem.table) && id in Ids(Do(s, step).mem.table)
    ensures step.PutOne? && s.lock.value.us[|s.lock.value.rooms|].steamID == id
    ensures || (s.tick.None? && |s.lock.value.us| == 1)
            || (s.tick.value.dump.stage.Writing? && id in SlotIds(Listed(s.tick.value.dump.slots)))
  {
    match step
    case Remove(nows, room) =>
      SurvivorsUnique(s.mem.table, nows);
    case PutOne(room) =>
      var b := s.lock.value;
      var p := b.us[|b.rooms|];
      IdsOverwrite(s.mem.table, p);
      IdsConcat(s.mem.table, [p]);
      assert Ids([p]) == [p.steamID];
      if s.tick.Some? {
        if s.tick.value.bd.stage.Writing? {
          BdPutsKnown(s);
        } else {
          DumpOutIds(s.tick.value);
          assert Ids(b.us)[|b.rooms|] == p.steamID;
        }
      }
    case _ =>
  }

  /** A dump that starts with a player already in the table lets nobody join in that tick. */
  lemma NoJoinBehindKnown(s: State)
    requires Inv(s) && TickComplete(s)
    requires var l := Listed(s.tick.value.dump.slots);
             l != [] && l[0].steamID in Ids(s.tick.value.start)
    ensures Ids(s.mem.table) == Ids(s.tick.value.start)
  {
    var t := s.tick.value;
    var nows := seq(|t.dump.slots|, _ => 0);
    TickIds(s, nows);
    SetPlayersIds(t.start, DumpRecords(t.start, t.dump.slots, nows));
    assert SlotIds(Listed(t.dump.slots))[0] == Listed(t.dump.slots)[0].steamID;
  }
}
