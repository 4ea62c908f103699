# tf-tui: a Dafny model of its state, routing, formats and caches

tf-tui watches one or more Team Fortress 2 servers. It polls each server's
console for a player dump, keeps a table of players, routes log lines to
handlers, looks players up in bot-detector lists and in a profile service, and
records chat and kills. This project models that logic and proves what holds
for every input, every history and every interleaving.

`dafny verify dfyconfig.toml` checks the whole project.

## How the model is laid out

| file | models |
|---|---|
| `Domain.dfy` | ids, stamps, players, dump slots |
| `PlayerTable.dfy` | the player table as a value: closed form of `setPlayer`, upsert, expiry, dumps |
| `SharedSlice.dfy` | a table and the snapshots sharing its memory, as values: one element write is one `Put` |
| `ServerState.dfy` | the table as a growable slice on a shared backing array; snapshots alias it |
| `ServerRuns.dfy` | whole runs of the select loop, with the two halves of a tick interleaved down to single element reads and writes |
| `LostUpdate.dfy` | a concrete run that undoes a write it had read past |
| `Channels.dfy`, `Router.dfy` | non-blocking channels and the event router |
| `Text.dfy`, `G15.dfy`, `CVars.dfy` | strings and numbers, the `g15_dumpplayer` reader, the variable listing |
| `Fetcher.dfy`, `EndToEnd.dfy` | fetching, server-mode slots, and console output all the way to the table |
| `Rcon.dfy` | reassembly of long console responses |
| `Remote.dfy`, `Tally.dfy` | inbound log packets and their counters |
| `MetaCache.dfy`, `BotLists.dfy`, `BlackBox.dfy` | profile cache, bot-detector lists, event recorder |
| `StableSort.dfy`, `PlayerRows.dfy` | the stable sort and the sorted player rows |

## What comes out

* `setPlayer` has a closed form. The flag that remembers a match is never
  reset, so the call appends only the updates before the first whose id is
  already known (or repeated), then replaces every record by the last update
  for its id; all other updates are lost. It is an upsert if and only if no
  unknown id follows a known one. A consequence over runs: a dump that starts
  with a known player lets nobody join in that tick.
* A snapshot shares memory with the live table. It never changes its length or
  the id at any position in any run, but it does see later field values: every
  overwrite of a `setPlayer` call, or none of them, according to whether the
  call's leading new players fit into the spare capacity. The heap model and
  the step model use one rule, `SharedSlice.Put`: each element write on the
  heap is proved to be one `Put` of the heap's abstraction, and each write step
  of a run is one.
* Inside a tick the bot-detector pass never changes which players there are or
  their order. Which field values survive depends on who wrote last and what
  the last writer had read, which for the lock-free bot-detector reads may be
  the middle of the dump's batch. That a bot-detector pass which reads a record
  after the dump pass wrote it also keeps that write is false when the dump
  moved the table to a new array: `LostUpdate.ReadAfterWriteStillLoses` is such
  a run. `ServerRuns.TickOutcome` and the lemmas beside it give the final
  record of every player, newcomers included, for every interleaving.
* The fetcher is a value receiver, so the dump it remembers is never kept. A
  failed fetch yields the empty dump, not the last good one as the comment at
  `internal/state/server.go:342` says; the table is then left as it is.
* Two fixed-size arrays can be overrun: a dump line naming a slot from 102 on,
  and a server-mode listing of more than 102 players. A log packet whose marker
  comes before its sixth byte slices out of bounds. Each is modelled as an
  outcome with the exact inputs that lead to it; `G15.OverrunByOneLine` and
  `Remote.CrashingPacket` name one each for the line and the packet.
* Against a service that gives every id a fixed profile, a cached lookup that
  succeeds returns what asking for every id would. When the request or the
  storing of a profile fails, it returns the cached part of that and an error.
  Whatever fails, and in whatever sequence of lookups, the cache never comes to
  hold a wrong profile.
* An event channel keeps order and loses an event only when its buffer is full
  and nobody waits: no run with at most as many sends as the capacity drops
  anything.
* A player stays for thirty seconds after the last dump that listed it. A
  player known from a status line alone has no stamp and goes with the next
  expiry pass.
* Sorting rows with `asc` set leaves them descending with ties reversed: three
  clicks are one, and two are one exactly when every group of ties is a
  palindrome.

## Modelling decisions

* An id is a raw number that passes or fails the library's validity test; two
  ids are equal when they are the same value. The decimal form of an id is
  assumed to tell ids apart wherever the cache needs it.
* The zero time is its own value, `Never`; it is always older than any limit.
* Clocks, replies, download results, insert failures, receivers and the
  capacity chosen by a reallocation are arbitrary inputs.
* A channel send hands over to a parked receiver, else fills the buffer, else
  drops; unbuffered channels are the case of capacity zero.
* The line parser of the router is an arbitrary total function. The one pattern
  for `g15_dumpplayer` lines is written out as a direct matcher.
* JSON decoding is taken to invert encoding; anything else in a cache file is
  `Corrupt`.
* The library's stable sort is fixed by its promise; `StableSort.SortUnique`
  shows that the promise leaves one possible result.
* Trimming works on bytes and removes the UTF-8 forms of all Unicode white
  space characters, as the Go library does.

## Model

| member | source | states |
|---|---|---|
| PlayerTable.LookupIsFirst | internal/state/server.go:306-316 | a lookup returns the first record with the id, and nothing when there is none |
| PlayerTable.SetPlayersClosedForm | internal/state/server.go:227-244 | the leading unknown updates are appended, then every record is the last update for its id; nothing else is added |
| PlayerTable.LeadingIsFirstKnown | internal/state/server.go:230-242 | the appended updates are exactly those before the first id that is known or repeated |
| PlayerTable.LatestIsLast | internal/state/server.go:231-238 | among several updates for one id the last one stays |
| PlayerTable.SetPlayersIds | internal/state/server.go:227-244 | the ids after a call depend only on the ids before it and the ids of the updates |
| PlayerTable.SetPlayersKeepsUnique | internal/state/server.go:227-244 | a table without repeated ids stays one |
| PlayerTable.UpsertIsMapUpdate | internal/state/server.go:227-244 | the reference upsert is a last-wins map update |
| PlayerTable.SetPlayersIsUpsertIff | internal/state/server.go:227-244 | the call equals the reference upsert if and only if no unknown id follows a known one |
| PlayerTable.NothingSkippedIff | internal/state/server.go:227-244 | no unknown id follows a known one if and only if every update's id is in the table afterwards |
| PlayerTable.NewcomerBehindKnownIsLost | internal/state/server.go:229-242 | a batch that is no upsert: a newcomer behind a known player is lost |
| PlayerTable.SetPlayersSnoc | internal/state/server.go:230-243 | a batch is its updates one after the other with the flag carried along |
| PlayerTable.SetPlayersLookup | internal/state/server.go:227-244 | what a lookup finds afterwards; exactly the skipped ids stay unknown |
| PlayerTable.SetPlayersSameIds | internal/state/server.go:199-211 | a batch that rewrites the table's own records position by position just stores them |
| PlayerTable.SurvivorsAreFresh | internal/state/server.go:365-379 | an expiry pass keeps exactly the records that are not too old |
| PlayerTable.KeptForThirtySeconds | internal/state/server.go:365-379 | a record stays exactly when a dump stamped it within thirty seconds of its clock reading |
| PlayerTable.AppliedFields | internal/state/server.go:396-411 | each field of a slot goes to its own field of the record; id, matches and profile stay |
| PlayerTable.SurvivorsConcat | internal/state/server.go:365-379 | survivors keep their order |
| SharedSlice.PutKeepsSound | internal/state/server.go:231-243 | one element write keeps the ids unique and every snapshot's length and ids |
| SharedSlice.PutAllTable | internal/state/server.go:227-244 | element writes one by one leave the table the whole call computes |
| SharedSlice.PutAllViews | internal/state/server.go:227-244 | a snapshot on the array sees all overwrites of a batch or none, by whether the leading new players fit |
| ServerState.AppendTo | internal/state/server.go:241-241 | append writes in place while capacity lasts and otherwise leaves the old array untouched |
| ServerState.Server.constructor | internal/state/server.go:40-62 | the table starts empty with no snapshots out |
| ServerState.Server.Snapshot | internal/state/server.go:318-332 | the live slice itself is handed out, attached to the array the table writes to |
| ServerState.Server.Find | internal/state/server.go:306-316 | the loop finds the first record with the id |
| ServerState.Server.OverwriteInPlace | internal/state/server.go:232-239 | the inner loop overwrites every record with the id and reports whether there was one |
| ServerState.Server.SetOne | internal/state/server.go:231-243 | one round on the heap is one `Put` of its abstraction: table, spare capacity and every snapshot |
| ServerState.Server.WriteBatch | internal/state/server.go:230-243 | the loop on the heap is a sequence of `Put`s with the flag carried along |
| ServerState.Server.SetPlayer | internal/state/server.go:227-244 | new table, all snapshots stable, and each snapshot on the array sees all overwrites or none by whether the new players fit |
| ServerState.Server.CollectValid | internal/state/server.go:369-376 | the loop collects the survivors in a new array |
| ServerState.Server.RemoveExpired | internal/state/server.go:365-379 | the table becomes the records stamped in the last thirty seconds, in order; no array a snapshot holds is written |
| ServerState.Server.OnStatusID | internal/state/server.go:267-280 | a status line adds the player or renames the one that is there |
| ServerState.Server.UpdateDumpPlayer | internal/state/server.go:381-417 | undisturbed, the dump pass writes one batch with every listed slot applied to the known record |
| ServerState.Server.UpdateBD | internal/state/server.go:199-211 | undisturbed, every record just gets the matches of its own search; earlier snapshots stay stable |
| ServerRuns.StepKeepsInv | internal/state/server.go:185-244 | every step, single element reads and writes of a tick in any interleaving included, keeps unique ids, stable snapshots, honest stamps and the tick relation |
| ServerRuns.ReachableInv | internal/state/server.go:174-197 | the invariant holds in every state of every run |
| ServerRuns.SnapshotStability | internal/state/server.go:318-332 | a snapshot keeps its length and the id at every position however the run goes on |
| ServerRuns.TickIds | internal/state/server.go:289-304 | under every interleaving a tick leaves the ids, in order, that the dump pass alone would leave |
| ServerRuns.TickOutcome | internal/state/server.go:289-316 | the final record of each listed player under every interleaving; it carries both halves when the last writer had read the other's final record |
| ServerRuns.TickOutcomeBetweenPuts | internal/state/server.go:199-244 | a read between two element writes of a dump listing the player twice keeps the listing put by then |
| ServerRuns.TickOutcomeLost | internal/state/server.go:199-244 | when the bot-detector pass writes last and no listing showed in its read, the dump's update is lost |
| ServerRuns.TickOutcomeNewcomer | internal/state/server.go:381-417 | an admitted newcomer has the dump's record, with matches exactly when the snapshot was late |
| ServerRuns.TickOutcomeUnlisted | internal/state/server.go:199-211 | a player not in the dump ends with its old record and the new matches |
| ServerRuns.ExpiryBound | internal/state/server.go:365-379 | whoever is in the table after an expiry pass was stamped by a dump at most 30 seconds ago |
| ServerRuns.ExpiryOverRuns | internal/state/server.go:365-379 | an id no dump listed since t is gone after an expiry pass later than t plus 30 seconds, in every run |
| ServerRuns.RemoveKeepsFresh | internal/state/server.go:365-379 | an expiry pass that ends within thirty seconds of a record's stamp keeps the record |
| ServerRuns.OnlyWayOut | internal/state/server.go:185-211 | a player goes only in an expiry pass, and only without a stamp from the last thirty seconds |
| ServerRuns.OnlyWayIn | internal/state/server.go:187-211 | an absent id comes in only as the record of a status line or of a dump that lists it |
| ServerRuns.NoJoinBehindKnown | internal/state/server.go:381-417 | a dump headed by a known player admits nobody in that tick |
| ServerRuns.StatusLineOutcome | internal/state/server.go:267-280 | a status line, once written, leaves the player there under the name it shows |
| ServerRuns.LookupStampsNow | internal/state/server.go:383-412 | each lookup of the dump pass applies its slot to the record of the moment, stamped with the clock of the moment |
| ServerRuns.SnapshotShowsTable | internal/state/server.go:318-332 | a snapshot step hands out the table of the moment on the live array |
| ServerRuns.PassInputs | internal/state/server.go:199-211 | the passes use the reply they fetched and the matches they found |
| LostUpdate.ReadAfterWriteStillLoses | internal/state/server.go:199-244 | a run in which a read after all of the dump's element writes still loses them |
| Channels.ChannelFifo | internal/tf/events/router.go:77-106 | received plus buffered is the offered sequence minus drops, in order; offered is delivered plus dropped |
| Channels.RunKeepsFifo | internal/tf/events/router.go:77-106 | the same from any such state, for any mix of sends, receives and departures |
| Channels.OfferedIsSent | internal/tf/events/router.go:77-106 | a channel is offered exactly the events sent to it |
| Channels.OfferOutcome | internal/tf/events/router.go:77-106 | a send is taken exactly when a receiver is parked or the buffer has room, and goes to one of them |
| Channels.DroppedOnlyWhenFull | internal/tf/events/router.go:77-106 | in every run a send is dropped only when the buffer is full and nobody waits |
| Channels.NoDropsWithinCapacity | internal/tf/events/router.go:77-106 | a run with no more sends than the capacity delivers or buffers them all |
| Channels.ParkedReceiver | internal/tf/events/router.go:77-106 | a parked receiver is handed the next event; one that leaves changes nothing |
| Router.DeliveryCount | internal/tf/events/router.go:31-107 | for every history of registrations, the number of offers to a handler is the sum of its registrations' shares |
| Router.HostIsolation | internal/tf/events/router.go:77-97 | a handler registered only for other hosts is offered nothing |
| Router.Chan.TrySend | internal/tf/events/router.go:79-83 | a send never waits; it is taken exactly when a receiver is parked or the buffer has room, and else dropped |
| Router.Chan.Take | internal/state/blackbox.go:32-33 | a receive takes the oldest buffered event, or parks |
| Router.Chan.Depart | internal/state/server.go:185-197 | a parked receiver gives up when another case of its select is taken |
| Router.EventRouter.constructor | internal/tf/events/router.go:10-17 | a new router has no registrations |
| Router.EventRouter.ListenFor | internal/tf/events/router.go:31-62 | the three tables always equal what the history of registrations builds |
| Router.EventRouter.EventForMeaning | internal/tf/events/router.go:67-72 | the event carries the host; without a match its type is Any and its text the line, with one it is the parser's |
| Router.EventRouter.Send | internal/tf/events/router.go:65-107 | each channel gets the event exactly as often as its registrations ask; no other channel changes |
| Text.TrimPadded | internal/tf/tf.go:174-174 | trimming removes exactly the padding around a string without white space at its ends |
| Text.AsciiSpaces | internal/tf/tf.go:174-174 | the ASCII white space characters |
| Text.TwoByteSpaces | internal/tf/tf.go:174-174 | the two-byte UTF-8 characters that are white space |
| Text.ThreeByteSpaces | internal/tf/tf.go:174-174 | the three-byte UTF-8 characters that are white space |
| Text.LinesOfAnyText | internal/tf/rcon/fetcher.go:208-212 | lines put together are the text, and all but the last end in their only break |
| Text.ParseInt32 | internal/tf/rcon/fetcher.go:259-266 | whatever is read lies in the 32-bit range |
| Text.ParseDecimal | internal/tf/rcon/fetcher.go:259-266 | every 32-bit number survives printing and reading |
| Text.ParseInt32Iff | internal/tf/rcon/fetcher.go:259-266 | exactly the signed, zero-padded spellings of 32-bit numbers are read, as those numbers |
| G15.ParsePlayerState | internal/tf/rcon/fetcher.go:202-257 | the loop computes the fold of the line effects, or stops at an index past the arrays |
| G15.StoreReads | internal/tf/rcon/fetcher.go:224-247 | each field goes to its own cell and to no other |
| G15.PanicIff | internal/tf/rcon/fetcher.go:214-247 | parsing fails exactly when some scanned line names a slot from 102 on |
| G15.OverrunIff | internal/tf/rcon/fetcher.go:202-257 | a printed response runs off the arrays exactly when one of its lines names a slot from 102 on |
| G15.OverrunByOneLine | internal/tf/rcon/fetcher.go:214-227 | one line of text that does |
| G15.LastLineWins | internal/tf/rcon/fetcher.go:208-248 | otherwise every cell holds the value of the last line naming it, or zero |
| G15.EffectOfPrinted | internal/tf/rcon/fetcher.go:28-28 | a printed line, parentheses in names included, matches as exactly its own assignment |
| G15.DumpRoundTrip | internal/tf/rcon/fetcher.go:202-257 | printing a dump in any order with any line breaks, the last one optional, and parsing it gives the dump back |
| G15.NameLine | internal/tf/rcon/fetcher.go:225-226 | a line of text with `m_szName` sets the name of its slot and nothing else, parentheses included |
| G15.PingLine | internal/tf/rcon/fetcher.go:227-228 | a line of text with `m_iPing` sets the ping of its slot and nothing else |
| G15.ScoreLine | internal/tf/rcon/fetcher.go:229-230 | a line of text with `m_iScore` sets the score of its slot and nothing else |
| G15.DeathsLine | internal/tf/rcon/fetcher.go:231-232 | a line of text with `m_iDeaths` sets the deaths of its slot and nothing else |
| G15.TeamLine | internal/tf/rcon/fetcher.go:235-236 | a line of text with `m_iTeam` sets the team of its slot and nothing else |
| G15.HealthLine | internal/tf/rcon/fetcher.go:239-240 | a line of text with `m_iHealth` sets the health of its slot and nothing else |
| G15.AccountLine | internal/tf/rcon/fetcher.go:241-242 | a line of text with `m_iAccountID` sets the id of its slot and nothing else |
| G15.UserLine | internal/tf/rcon/fetcher.go:245-246 | a line of text with `m_iUserID` sets the user id of its slot and nothing else |
| G15.ConnectedLine | internal/tf/rcon/fetcher.go:233-234 | a line of text with `m_bConnected` sets the connected flag of its slot and nothing else |
| G15.AliveLine | internal/tf/rcon/fetcher.go:237-238 | a line of text with `m_bAlive` sets the alive flag of its slot and nothing else |
| G15.ValidLine | internal/tf/rcon/fetcher.go:243-244 | a line of text with `m_bValid` sets the valid flag of its slot and nothing else |
| G15.BadNumberIsZero | internal/tf/rcon/fetcher.go:259-266 | a value that is no 32-bit number reads as zero |
| G15.BadUserIsMinusOne | internal/tf/rcon/fetcher.go:245-246 | as a user id it reads as minus one |
| G15.OnlyLineForm | internal/tf/rcon/fetcher.go:28-28 | only lines of the pattern's form match |
| G15.ReturnsIgnored | internal/tf/rcon/fetcher.go:209-209 | carriage returns around a line do not matter |
| G15.ForeignLine | internal/tf/rcon/fetcher.go:209-212 | a line without a bracket, or starting otherwise than the field names, assigns nothing |
| G15.ForeignLinesIgnored | internal/tf/rcon/fetcher.go:208-212 | such lines may stand anywhere in a response |
| G15.LongLineEndsScan | internal/tf/rcon/fetcher.go:205-208 | a line of 65536 bytes ends the scan |
| Fetcher.FillSlots | internal/tf/rcon/fetcher.go:109-135 | the loop fills one slot per sorted player, or overruns beyond 102 |
| Fetcher.ServerSlot | internal/tf/rcon/fetcher.go:119-134 | the whole slot of a listed player, with zero for what the listing does not show |
| Fetcher.SlotOrder | internal/tf/rcon/fetcher.go:109-135 | slots are a permutation in ascending user id with ties in input order, and zero behind |
| Fetcher.TeamsBalanced | internal/tf/rcon/fetcher.go:129-134 | BLU has half the players rounded up, RED half rounded down |
| Fetcher.FirstServerDump | internal/state/server.go:381-417 | from an empty table, distinct valid ids produce exactly those players in slot order |
| Fetcher.Fetch | internal/tf/rcon/fetcher.go:45-143 | dump and status for every mode, reply and failure; in server mode both list the same players in ascending user id |
| Fetcher.ReadStatusParts | internal/tf/rcon/fetcher.go:94-108 | a listing or stats line that can be read replaces the last one, otherwise the last one stays |
| Fetcher.FailedFetchKeepsTable | internal/state/server.go:334-348 | a failed fetch leaves the player table as it is |
| EndToEnd.DumpedRecord | internal/state/server.go:381-417 | an admitted player's record comes from the last slot that lists the id |
| EndToEnd.ConsoleToTable | internal/state/server.go:381-417 | every cell the console prints for an admitted player is the cell the table shows; matches and profile stay |
| EndToEnd.StatusToTable | internal/tf/rcon/fetcher.go:119-128 | in server mode every listed player the table admits shows its own values; matches and profile stay |
| EndToEnd.FirstStatusAdmitsAll | internal/state/server.go:381-417 | an empty table admits every listed player |
| Rcon.Connection.RconLarge | internal/tf/rcon/rcon.go:66-91 | returns the payloads with the command's id up to and including the first below 4096 bytes, and consumes nothing behind it |
| Rcon.CutInStream | internal/tf/rcon/rcon.go:74-88 | in any mix with foreign packets a cut body ends at its own last packet and joins to the body |
| Rcon.ReceiveBody | internal/tf/rcon/rcon.go:66-91 | any body comes back whole with exactly its packets consumed |
| Rcon.NoShortNoResponse | internal/tf/rcon/rcon.go:74-88 | there is no response exactly when no own packet is short |
| Remote.MarkerInsideRead | internal/tf/console/remote.go:106-155 | the marker found in the zeroed buffer lies inside the bytes read |
| Remote.CrashIff | internal/tf/console/remote.go:139-155 | decoding slices out of bounds exactly for a secret packet with its first marker before the sixth byte |
| Remote.CrashingPacket | internal/tf/console/remote.go:139-155 | a packet that does |
| Remote.PacketRoundTrip | internal/tf/console/remote.go:139-163 | every packet with a mapped secret and a fitting body reaches its host as the trimmed body |
| Remote.PlainPacketKeepsPadding | internal/tf/console/remote.go:126-138 | a plain packet goes to the empty host and keeps the buffer's zero padding |
| Remote.PlainPacket | internal/tf/console/remote.go:126-138 | the line of a plain packet is the whole buffer, header and zero padding included |
| Remote.OtherPacket | internal/tf/console/remote.go:125-170 | a packet of another kind is passed on to nobody and counted under no secret |
| Remote.UnknownSecret | internal/tf/console/remote.go:148-161 | a packet whose secret is no number or unknown is skipped |
| Remote.NoMarker | internal/tf/console/remote.go:139-146 | a secret packet without a marker is skipped |
| Remote.CountedOne | internal/tf/console/remote.go:163-170 | what one packet adds to the counters and to the lines passed on |
| Remote.SkippedLeavesNoTrace | internal/tf/console/remote.go:106-170 | a skipped packet anywhere changes neither the counters nor the lines passed on |
| Remote.Listener.Bump | internal/tf/console/remote.go:166-170 | counters stay the multiplicities of the counted secrets and add up to the number of packets |
| Remote.Listener.Start | internal/tf/console/remote.go:92-172 | exactly the packets not skipped are counted, under their secret, and exactly the decoded lines are passed on |
| BlackBox.Recorder.constructor | internal/state/blackbox.go:26-28 | a new recorder refers to nothing |
| BlackBox.Recorder.OnConnect | internal/state/blackbox.go:64-73 | a connect starts a new match and keeps the remembered ids |
| BlackBox.Recorder.History | internal/state/blackbox.go:75-86 | returns the player's one history, creating it if needed |
| BlackBox.Recorder.OnKill | internal/state/blackbox.go:88-97 | the kill is appended to its source's history and to no other |
| BlackBox.Recorder.EnsureSID | internal/state/blackbox.go:100-118 | success means the player row exists; failure changes nothing |
| BlackBox.Recorder.OnMsg | internal/state/blackbox.go:120-141 | a chat row is added only after its player row exists |
| BlackBox.Recorder.Handle | internal/state/blackbox.go:33-58 | what each kind of event does to the rows, the remembered ids, the kill log and the match header |
| BlackBox.Recorder.Start | internal/state/blackbox.go:30-62 | after any run under any failures: one chat row per accepted message in order, exactly the inserted ids stored and remembered, the kills and header since the last connect, foreign keys kept |
| BlackBox.KillsBehindLastConnect | internal/state/blackbox.go:30-73 | the logged kills are the kill events behind the last connect, or all of them when there was none |
| BlackBox.Recorder.CountKills | internal/state/blackbox.go:88-97 | the kills in all histories together are the kills since the last connect |
| BlackBox.KillsConserved | internal/state/blackbox.go:75-97 | with distinct histories that cover the log, no kill is lost or doubled |
| BotLists.FirstHit | internal/bd/bd.go:139-161 | the first entry with a valid equal id |
| BotLists.Fetcher.Update | internal/bd/bd.go:52-133 | one placeholder per configured list, then the lists in arrival order |
| BotLists.Fetcher.Search | internal/bd/bd.go:136-166 | the nested loops yield exactly each list's first valid entry for the id, in list order |
| BotLists.MatchesMember | internal/bd/bd.go:136-166 | a match is exactly some list's first valid entry for the id, under that list's title |
| BotLists.MatchOfList | internal/bd/bd.go:139-161 | one list gives its first entry for the id or nothing |
| BotLists.MatchesConcat | internal/bd/bd.go:136-166 | matches follow the order of the lists |
| BotLists.SuccessesConcat | internal/bd/bd.go:52-133 | the successful downloads are the lists that came, in configured order |
| BotLists.ArrivalOrderFree | internal/bd/bd.go:52-166 | the matches do not depend on arrival order or on placeholders, for every subset of successful downloads |
| BotLists.MatchCount | internal/bd/bd.go:136-166 | at most one match per list, and none exactly when no list holds the id |
| MetaCache.CacheNameInjective | internal/cache/cache.go:119-121 | different ids or variants never share a file |
| MetaCache.Fetcher.Get | internal/cache/cache.go:76-117 | a body is returned exactly for a readable file within the age limit; a stale file stays |
| MetaCache.UsedForAWeek | internal/cache/cache.go:76-117 | an entry is used exactly while it is readable, decodes and is at most seven days old |
| MetaCache.Fetcher.Set | internal/cache/cache.go:57-74 | the entry is replaced, untouched or left truncated, by how the write goes |
| MetaCache.FailedStore | internal/cache/cache.go:57-74 | a failed write leaves an unusable entry, a failed creation leaves all as it was |
| MetaCache.Fetcher.CachedMetaProfiles | internal/meta/meta_profiles.go:57-83 | usable entries and missing ids, both in order |
| MetaCache.Fetcher.FetchMetaProfiles | internal/meta/meta_profiles.go:85-120 | the reply is stored one by one up to the first failure |
| MetaCache.StoredUpToFailure | internal/meta/meta_profiles.go:107-117 | the profiles before the first failure are stored, none behind it |
| MetaCache.Fetcher.MetaProfiles | internal/meta/meta_profiles.go:35-55 | exactly the missing ids are requested; against a fixed service success returns all profiles, failure exactly the cached ones, and the cache stays honest |
| MetaCache.StoredAllHonest | internal/meta/meta_profiles.go:107-117 | whatever fails on the way, no wrong profile gets into the cache |
| MetaCache.CallTransparent | internal/meta/meta_profiles.go:35-120 | a lookup that succeeds returns the profiles asking for every id would, one that fails exactly the cached ones, and the cache stays honest |
| MetaCache.RunTransparent | internal/meta/meta_profiles.go:35-120 | the same for every call of every sequence of calls, with any failed requests and writes in between |
| MetaCache.RepeatRequestsNothing | internal/meta/meta_profiles.go:40-47 | a repeat after a successful lookup requests nothing while no entry used or stored has passed the age limit |
| StableSort.SortUnique | internal/ui/table_player_data.go:97-124 | an ascending arrangement that keeps ties in order is the stable sort |
| PlayerRows.TableData.constructor | internal/ui/table_player_data.go:20-52 | the table holds the valid players of the team, in order |
| PlayerRows.TeamRowsMember | internal/ui/table_player_data.go:40-49 | exactly the valid players of the team |
| PlayerRows.TeamRowsConcat | internal/ui/table_player_data.go:40-49 | the rows keep their order and repetitions |
| PlayerRows.TableData.SortBy | internal/ui/table_player_data.go:93-129 | the rows are permuted: descending with ties reversed for `asc`, ascending with ties kept otherwise |
| PlayerRows.OneArrangement | internal/ui/table_player_data.go:93-129 | direction and order of ties fix the arrangement, both ways |
| PlayerRows.OrderIsPreorder | internal/ui/table_player_data.go:97-124 | every column's comparison is a total preorder |
| PlayerRows.TextOrder | internal/ui/table_player_data.go:101-112 | names and addresses compare by the first differing character |
| PlayerRows.SortedOrder | internal/ui/table_player_data.go:93-129 | a permutation, descending with ties reversed for `asc`, ascending with ties kept otherwise |
| PlayerRows.SortThrice | internal/ui/table_player_data.go:93-129 | three sorts equal one |
| PlayerRows.SortTwiceIff | internal/ui/table_player_data.go:93-129 | two sorts equal one exactly when every group of ties is a palindrome |
| PlayerRows.SecondClickSwaps | internal/ui/table_player_data.go:93-129 | two rows with one score change places at every click |
| PlayerRows.SortTwiceDistinct | internal/ui/table_player_data.go:93-129 | with distinct keys sorting is idempotent |
| PlayerRows.ColumnMeaning | internal/ui/table_player_data.go:97-128 | which values come first for each column |
| CVars.ParseCVars | internal/tf/tf.go:164-201 | the loops compute one variable per four-column line |
| CVars.FlagsRoundTrip | internal/tf/tf.go:184-191 | the quoted, comma-separated flag column reads back as the flags |
| CVars.ListingRoundTrip | internal/tf/tf.go:164-201 | parsing a printed listing gives back exactly its variables |
| CVars.JunkLineIgnored | internal/tf/tf.go:166-171 | a line without four columns contributes nothing wherever it is inserted |

## Left out

- HTTP, UDP, RCON dialing, file tailing, UPnP, geoip, SQLite and configuration loading: foreign calls, present only as arbitrary inputs and failures.
- The event parser's patterns and field extraction (internal/tf/events/parser.go): the router needs only a total function from lines to events.
- Decoding of ids in bot-detector entries and status lines: the foreign id library does it; entries hold the decoded id.
- Debug sample data in `Fetch` and in the list download: scaffolding.
- `Manager.metaUpdater`, `updateMetaProfile` and `UpdateMetaProfile`: not called or unfinished.
- `UpdateStatus`, address, country, plugin and variable fields of the server state: plain assignments.
- Server statistics parsing: floating point with no deeper property.
- Rendering, styles, key bindings and the rest of the user interface.
- ServerState.Server.UpdateBD: undisturbed runs only; interference is in ServerRuns.
- Torn reads: the element reads of the bot-detector pass race with writes in the program; the model reads each element atomically.
- PlayerRows.TableData.SortBy: the sort is a sequence assignment; the in-place algorithm of the library is not modelled.
- BotLists.Fetcher.Update: the downloads run concurrently in the program; the model receives their results in an arbitrary order.
