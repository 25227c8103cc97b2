/** The Go opponents an arena can meet (sim/go-arena.ts, tools/go-promotion-statistics.ts). */
module GoOpponents {

  /** `Hidden` is the opponent of the world daemon's board; `Other` is any name the arenas do not list. */
  datatype Opponent =
    | Netburners | SlumSnakes | TheBlackHand | Tetrads | Daedalus | Illuminati
    | Hidden
    | Other(name: string)

  datatype Profile = Small5 | Daemon19

  /** The opponents a profile plays, in the arenas' order. */
  function Opponents(profile: Profile): seq<Opponent> {
    match profile
    case Small5 => [Netburners, SlumSnakes, TheBlackHand, Tetrads, Daedalus, Illuminati]
    case Daemon19 => [Hidden]
  }
}
