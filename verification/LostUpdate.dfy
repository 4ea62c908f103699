/**
A concrete run in which the bot-detector pass reads a record after the dump
pass has written it, and still undoes that write: a new player at the head of
the dump made the table move to a larger array.
*/
module LostUpdate {
  import opened Domain
  import opened PlayerTable
  import opened SharedSlice
  import opened ServerRuns

  const OLD_HAND := Account(1)
  const NEWCOMER := Account(2)

  function Reply(): (r: seq<Slot>)
    ensures IsDump(r)
  {
    seq(MAX_PLAYER_COUNT, i => ReplySlot(i))
  }

  function ReplySlot(i: int): Slot {
    if i == 0 then ZERO_SLOT.(steamID := NEWCOMER)
    else if i == 1 then ZERO_SLOT.(steamID := OLD_HAND, score := 7)
    else ZERO_SLOT
  }

  lemma {:induction false} ExecConcat(s: State, a: seq<Step>, b: seq<Step>)
    requires Runnable(s, a) && Runnable(Exec(s, a), b)
    ensures Runnable(s, a + b) && Exec(s, a + b) == Exec(Exec(s, a), b)
    decreases |a|
  {
    if a == [] {
      assert a + b == b;
    } else {
      assert (a + b)[0] == a[0] && (a + b)[1..] == a[1..] + b;
      ExecConcat(Do(s, a[0]), a[1..], b);
    }
  }

  lemma Then(s0: State, steps: seq<Step>, step: Step)
    requires Runnable(s0, steps) && Can(Exec(s0, steps), step)
    ensures Runnable(s0, steps + [step]) && Exec(s0, steps + [step]) == Do(Exec(s0, steps), step)
  {
    var s := Exec(s0, steps);
    assert [step][1..] == [];
    assert Runnable(Do(s, step), []);
    assert Exec(s, [step]) == Exec(Do(s, step), []);
    ExecConcat(s0, steps, [step]);
  }

  function SlotSteps(n: nat): (r: seq<Step>)
    ensures |r| == n
  {
    seq(n, _ => DumpSlot)
  }

  /** Working through slots changes nothing but the dump pass. */
  lemma {:induction false} RunSlots(s: State, n: nat)
    requires s.tick.Some? && s.lock.None? && s.tick.value.dump.stage.Working?
    requires s.tick.value.dump.next + n <= |s.tick.value.dump.slots|
    ensures Runnable(s, SlotSteps(n))
    ensures var s' := Exec(s, SlotSteps(n));
            && s' == s.(stamped := s'.stamped, tick := s'.tick)
            && s'.tick.Some?
            && s'.tick.value == s.tick.value.(dump := s'.tick.value.dump)
            && s'.tick.value.dump.stage.Working?
            && s'.tick.value.dump.slots == s.tick.value.dump.slots
            && s'.tick.value.dump.next == s.tick.value.dump.next + n
    decreases n
  {
    if n == 0 {
    } else {
      assert SlotSteps(n)[0] == DumpSlot && SlotSteps(n)[1..] == SlotSteps(n - 1);
      RunSlots(Do(s, DumpSlot), n - 1);
    }
  }

  /** The dump lists the newcomer first and the old hand second. */
  lemma {:induction false} DumpListing(n: nat)
    requires 2 <= n <= MAX_PLAYER_COUNT
    ensures Listed(Reply()[..n]) == [Reply()[0], Reply()[1]]
  {
    if n == 2 {
      assert Reply()[..1][..0] == [];
      ListedSnoc(Reply(), 0);
      assert Listed(Reply()[..0]) == [];
      assert Listed(Reply()[..1]) == [Reply()[0]];
      ListedSnoc(Reply(), 1);
    } else {
      DumpListing(n - 1);
      ListedSnoc(Reply(), n - 1);
    }
  }

  /** One known player, no spare capacity, the snapshot taken, and the dump fetched. */
  ghost predicate Prepared(s: State) {
    && s.tick.Some? && s.lock.None?
    && s.mem.table == [NewPlayer(OLD_HAND).(name := "old")]
    && s.mem == Memory(s.mem.table, 0, [View(s.mem.table, true, [OLD_HAND])])
    && s.tick.value.start == s.mem.table && s.tick.value.room == 0
    && s.tick.value.bd == BdPass(Working, 0, false, [], [], [])
    && s.tick.value.dump.stage.Working?
    && s.tick.value.dump.slots == Reply()
  }

  ghost predicate Fetched(s: State) {
    Prepared(s) && s.tick.value.dump.next == 0
  }

  /** The same once the whole dump has been looked up. */
  ghost predicate ReadyToWrite(s: State) {
    Prepared(s) && Inv(s) && Can(s, DumpWrite)
  }

  /** A status line in an empty table, written and unlocked. */
  lemma OnePlayer() returns (steps: seq<Step>)
    ensures Runnable(Initial(0), steps)
    ensures var s := Exec(Initial(0), steps);
            Idle(s) && s.mem == Memory([NewPlayer(OLD_HAND).(name := "old")], 0, [])
  {
    Then(Initial(0), [], StatusLine(OLD_HAND, "old"));
    steps := [] + [StatusLine(OLD_HAND, "old")];
    Then(Initial(0), steps, PutOne(0));
    steps := steps + [PutOne(0)];
    Then(Initial(0), steps, Unlock);
    steps := steps + [Unlock];
  }

  lemma FetchedIsReachable() returns (steps: seq<Step>)
    ensures Runnable(Initial(0), steps) && Fetched(Exec(Initial(0), steps))
  {
    steps := OnePlayer();
    Then(Initial(0), steps, BeginTick);
    steps := steps + [BeginTick];
    Then(Initial(0), steps, BdSnapshot);
    steps := steps + [BdSnapshot];
    Then(Initial(0), steps, DumpFetched(Reply()));
    steps := steps + [DumpFetched(Reply())];
    assert Ids([NewPlayer(OLD_HAND).(name := "old")]) == [OLD_HAND];
  }

  lemma ReadyIsReachable() returns (steps: seq<Step>)
    ensures Runnable(Initial(0), steps) && ReadyToWrite(Exec(Initial(0), steps))
  {
    steps := FetchedIsReachable();
    RunSlots(Exec(Initial(0), steps), MAX_PLAYER_COUNT);
    ExecConcat(Initial(0), steps, SlotSteps(MAX_PLAYER_COUNT));
    steps := steps + SlotSteps(MAX_PLAYER_COUNT);
    ReachableInv(0, steps);
  }

  lemma ReplyListing()
    ensures Listed(Reply()) == [Reply()[0], Reply()[1]]
    ensures SlotIds(Listed(Reply())) == [NEWCOMER, OLD_HAND]
  {
    DumpListing(MAX_PLAYER_COUNT);
    assert Reply()[..MAX_PLAYER_COUNT] == Reply();
  }

  /** The dump pass takes the lock: the newcomer is the first update, the old hand the second. */
  ghost predicate Locked(s: State) {
    && Inv(s) && s.tick.Some? && s.lock.Some? && s.tick.value.dump.stage.Writing?
    && s.tick.value.bd == BdPass(Working, 0, false, [], [], [])
    && s.tick.value.dump.slots == Reply()
    && Ids(s.lock.value.us) == [NEWCOMER, OLD_HAND]
  }

  lemma LockedAfterLookups(s: State)
    requires ReadyToWrite(s)
    ensures Locked(Do(s, DumpWrite)) && Do(s, DumpWrite).mem == s.mem
    ensures Do(s, DumpWrite).lock.value.rooms == [] && !Do(s, DumpWrite).lock.value.existing
  {
    StepKeepsInv(s, DumpWrite);
    DumpOutIds(Do(s, DumpWrite).tick.value);
    ReplyListing();
  }

  /** The newcomer does not fit: the table moves to a new array and the snapshot stays behind. */
  lemma NewcomerMoves(s: State)
    requires Locked(s) && s.lock.value.rooms == [] && !s.lock.value.existing
    requires s.mem == Memory([NewPlayer(OLD_HAND).(name := "old")], 0, [View(s.mem.table, true, [OLD_HAND])])
    ensures Can(s, PutOne(4)) && Locked(Do(s, PutOne(4)))
    ensures var s1 := Do(s, PutOne(4));
            && s1.lock.value.rooms == [4] && !s1.lock.value.existing
            && Ids(s1.mem.table) == [OLD_HAND, NEWCOMER]
            && s1.mem.views == [View(s.mem.table, false, [OLD_HAND])]
  {
    var b := s.lock.value;
    assert b.us[0].steamID == Ids(b.us)[0];
    StepKeepsInv(s, PutOne(4));
    assert Ids(s.mem.table) == [OLD_HAND];
    assert Do(s, PutOne(4)).mem.table == s.mem.table + [b.us[0]];
    assert Detach(s.mem.views) == [View(s.mem.table, false, [OLD_HAND])];
  }

  /** The old hand's record is put in the new array, out of the snapshot's sight. */
  lemma OldHandPut(s: State)
    requires Locked(s) && s.lock.value.rooms == [4] && Ids(s.mem.table) == [OLD_HAND, NEWCOMER]
    requires s.mem.views == [View([NewPlayer(OLD_HAND).(name := "old")], false, [OLD_HAND])]
    ensures Can(s, PutOne(0)) && Locked(Do(s, PutOne(0))) && Can(Do(s, PutOne(0)), Unlock)
    ensures Do(s, PutOne(0)).mem.views == s.mem.views
    ensures Ids(Do(s, PutOne(0)).mem.table) == [OLD_HAND, NEWCOMER]
  {
    var b := s.lock.value;
    assert b.us[1].steamID == Ids(b.us)[1];
    StepKeepsInv(s, PutOne(0));
    IdsOverwrite(s.mem.table, b.us[1]);
    assert OverwriteViews(s.mem.views, b.us[1]) == s.mem.views;
  }

  lemma MovedAfterUnlock(s: State)
    requires Locked(s) && Can(s, Unlock) && Ids(s.mem.table) == [OLD_HAND, NEWCOMER]
    requires s.mem.views == [View([NewPlayer(OLD_HAND).(name := "old")], false, [OLD_HAND])]
    ensures Moved(Do(s, Unlock))
  {
    StepKeepsInv(s, Unlock);
    SecondListing(Do(s, Unlock));
  }

  /** The dump's second listing is the old hand's last. */
  lemma SecondListing(s: State)
    requires Inv(s) && s.tick.Some? && s.tick.value.dump.slots == Reply() && Started(s.tick.value.dump.stage)
    ensures |s.tick.value.dump.out| == 2
    ensures LastListing(s.tick.value, OLD_HAND, 2, 1)
  {
    var t := s.tick.value;
    ReplyListing();
    assert t.dump.slots[..t.dump.next] == Reply();
  }

  /** The state after the dump pass has written and before the bot-detector pass reads. */
  ghost predicate Moved(s: State) {
    && Inv(s) && s.lock.None? && Can(s, BdRead([]))
    && s.mem.views == [View([NewPlayer(OLD_HAND).(name := "old")], false, [OLD_HAND])]
    && Ids(s.mem.table) == [OLD_HAND, NEWCOMER]
    && s.tick.value.bd == BdPass(Working, 0, false, [], [], [])
    && s.tick.value.dump.stage.Written?
    && |s.tick.value.dump.out| == 2 && LastListing(s.tick.value, OLD_HAND, 2, 1)
  }

  /** The bot-detector pass has read the record it holds and taken the lock. */
  ghost predicate Stale(s: State) {
    && Inv(s) && s.tick.Some? && s.lock.Some?
    && s.lock.value.us == [NewPlayer(OLD_HAND).(name := "old")]
    && s.lock.value.rooms == [] && Can(s, PutOne(0))
    && Ids(s.mem.table) == [OLD_HAND, NEWCOMER]
    && s.tick.value.bd.stage.Writing? && s.tick.value.bd.seen == [2] && s.tick.value.bdLast
    && s.tick.value.dump.stage.Written?
    && |s.tick.value.dump.out| == 2 && LastListing(s.tick.value, OLD_HAND, 2, 1)
  }

  lemma StaleRead(s: State)
    requires Moved(s)
    ensures Can(Do(s, BdRead([])), BdWrite) && Stale(Do(Do(s, BdRead([])), BdWrite))
  {
    StepKeepsInv(s, BdRead([]));
    StepKeepsInv(Do(s, BdRead([])), BdWrite);
  }

  /** Read after all of the dump's puts, written last, and still without the dump's stamp and score. */
  ghost predicate Lost(s: State) {
    && TickComplete(s)
    && s.tick.value.bdLast && s.tick.value.bd.seen == [|s.tick.value.dump.out|]
    && LastListing(s.tick.value, OLD_HAND, |s.tick.value.dump.out|, 1)
    && Ids(s.mem.table) == [OLD_HAND, NEWCOMER]
    && Listed(s.tick.value.dump.slots)[1].score == 7
    && s.mem.table[0].g15UpdatedOn == Never && s.mem.table[0].score == 0
  }

  lemma StaleWrite(s: State)
    requires Stale(s) && s.tick.value.dump.slots == Reply()
    ensures Can(Do(s, PutOne(0)), Unlock) && Lost(Do(Do(s, PutOne(0)), Unlock))
  {
    var p := s.lock.value.us[0];
    ReplyListing();
    IdsOverwrite(s.mem.table, p);
    assert s.mem.table[0].steamID == Ids(s.mem.table)[0];
  }

  /**
  The bot-detector pass read the old hand after the dump pass had written, wrote
  last, and the record ends without the dump's stamp and score.
  */
  lemma ReadAfterWriteStillLoses() returns (steps: seq<Step>)
    ensures Runnable(Initial(0), steps) && Lost(Exec(Initial(0), steps))
  {
    steps := ReadyIsReachable();
    LockedAfterLookups(Exec(Initial(0), steps));
    Then(Initial(0), steps, DumpWrite);
    steps := steps + [DumpWrite];
    NewcomerMoves(Exec(Initial(0), steps));
    Then(Initial(0), steps, PutOne(4));
    steps := steps + [PutOne(4)];
    OldHandPut(Exec(Initial(0), steps));
    Then(Initial(0), steps, PutOne(0));
    steps := steps + [PutOne(0)];
    MovedAfterUnlock(Exec(Initial(0), steps));
    Then(Initial(0), steps, Unlock);
    steps := steps + [Unlock];
    StaleRead(Exec(Initial(0), steps));
    Then(Initial(0), steps, BdRead([]));
    Then(Initial(0), steps + [BdRead([])], BdWrite);
    steps := steps + [BdRead([])] + [BdWrite];
    StaleWrite(Exec(Initial(0), steps));
    Then(Initial(0), steps, PutOne(0));
    Then(Initial(0), steps + [PutOne(0)], Unlock);
    steps := steps + [PutOne(0)] + [Unlock];
  }
}
