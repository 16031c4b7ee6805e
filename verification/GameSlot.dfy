/** The slots of a game: who sits there, and with what settings. */
module GameSlot {

  const OPEN := 0
  const CLOSED := 1
  const OCCUPIED := 2
  const RACE_RANDOM := 32
  const RACE_SELECTABLE := 64
  const COMPUTER_NORMAL := 1
  const FULL_HANDICAP := 100
  const MAX_SLOTS := 24

  datatype Slot = Slot(
    pid: nat,
    downloadStatus: nat,
    status: nat,
    computer: nat,
    team: nat,
    colour: nat,
    race: nat,
    computerType: nat := COMPUTER_NORMAL,
    handicap: nat := FULL_HANDICAP)

  /** How many slots are occupied, by players or computers. */
  function Occupied(slots: seq<Slot>): (n: nat)
    ensures n <= |slots|
  {
    if slots == [] then 0 else (if slots[0].status == OCCUPIED then 1 else 0) + Occupied(slots[1..])
  }
}
