/**
Values shared by the packages: account ids, wall-clock stamps, the per-server
player record and one slot of a player dump.
*/
module Domain {

  datatype Option<+T> = None | Some(value: T)

  /**
  An account id. The library that decodes and checks ids is foreign: an id is
  a raw number that either passes its validity test or does not. The zero
  value does not.
  */
  datatype SteamID = Invalid(raw: nat) | Account(raw: nat) {
    predicate Valid() {
      Account?
    }
  }

  const NO_STEAM_ID := Invalid(0)

  /** A stamp. `Never` is the zero time, which lies centuries before any clock reading. */
  datatype Time = Never | At(ns: int)

  const SECOND := 1_000_000_000

  // Teams are plain integers in the program; a dump may hold any number.
  const UNASSIGNED := 0
  const BLU := 2
  const RED := 3

  const MAX_PLAYER_COUNT := 102

  /** A hit in one bot-detector list. */
  datatype Match = Match(player: ListedPlayer, listName: string)

  /** An entry of a bot-detector list, with its id field already decoded. */
  datatype ListedPlayer = ListedPlayer(steamID: SteamID, details: string)

  /** An externally fetched profile: the id it belongs to and everything else. */
  datatype MetaProfile = MetaProfile(steamID: SteamID, details: string)

  const NO_PROFILE := MetaProfile(NO_STEAM_ID, "")

  /** One tracked player. */
  datatype Player = Player(
    steamID: SteamID,
    name: string,
    ping: int,
    loss: int,
    address: string,
    time: int,
    score: int,
    deaths: int,
    connected: bool,
    team: int,
    alive: bool,
    health: int,
    valid: bool,
    userID: int,
    bdMatches: seq<Match>,
    meta: MetaProfile,
    metaUpdatedOn: Time,
    g15UpdatedOn: Time
  )

  /** The record a player starts from when only the id is known. */
  function NewPlayer(id: SteamID): Player {
    Player(id, "", 0, 0, "", 0, 0, 0, false, UNASSIGNED, false, 0, false, 0, [], NO_PROFILE, Never, Never)
  }

  /** One index of the arrays of a player dump. */
  datatype Slot = Slot(
    name: string,
    ping: int,
    score: int,
    deaths: int,
    connected: bool,
    team: int,
    alive: bool,
    health: int,
    steamID: SteamID,
    valid: bool,
    userID: int,
    loss: int,
    state: string,
    address: string,
    time: int
  )

  const ZERO_SLOT := Slot("", 0, 0, 0, false, UNASSIGNED, false, 0, NO_STEAM_ID, false, 0, 0, "", "", 0)

  /** A whole dump: always 102 slots. */
  predicate IsDump(slots: seq<Slot>) {
    |slots| == MAX_PLAYER_COUNT
  }

  function EmptyDump(): (r: seq<Slot>)
    ensures IsDump(r)
  {
    seq(MAX_PLAYER_COUNT, _ => ZERO_SLOT)
  }
}
