/** The enumerations and numeric constants of the two revisions' Constants classes. */
module Constants {

  /** Sweep direction. The root revision declares Vertical, Horizontal and Optimal; the trunk
      revision adds Both and NONE (here NoDirection). One datatype carries all five. */
  datatype Direction = Vertical | Horizontal | Both | NoDirection | Optimal

  /** Kind of a user energy marking. */
  datatype EnergyType = Normal | Max | Min

  /** Which neighbour the root backtracker asks for. */
  datatype NeighbourType = LeftNeighbour | RightNeighbour | StraightNeighbour

  /** One step code of a seam. Straight is the first member and so the default value that an
      unwritten array cell holds. */
  datatype SeamPixelDirection = Straight | Left | Right

  /** What the last resize operation did (trunk revision). */
  datatype ActionType = NoAction | Shrink | Enlarge

  /** Energy bounds of the trunk revision. */
  const MaxEnergy: int := 10000
  const MinEnergy: int := -10000
  const ValidationFactor: int := 100

  /** The energy a user marking writes: 50000 for Max, -50000 otherwise. */
  const MarkedHigh: int := 50000
  const MarkedLow: int := -50000
}
