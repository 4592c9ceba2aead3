/** The price rules every advice must meet (packages/schema/schema/advice.py). */
module AdviceSchema {
  datatype Direction = Long | Short | Flat

  datatype Band = Band(lo: real, hi: real)

  predicate BandAscending(b: Band) {
    b.lo <= b.hi
  }

  predicate DirectionConsistent(direction: Direction, entry: Band, target: Band, stopLoss: real) {
    match direction
    case Long => entry.hi < target.lo && stopLoss < entry.lo
    case Short => target.hi < entry.lo && stopLoss > entry.hi
    case Flat => entry.lo == entry.hi == target.lo == target.hi
  }

  predicate PricesValid(direction: Direction, entry: Band, target: Band, stopLoss: real) {
    BandAscending(entry) && BandAscending(target) && DirectionConsistent(direction, entry, target, stopLoss)
  }
}
