/** The fixed geometry of the intersection: where each road's vehicles enter,
    which way they travel, and the centre line past which they have crossed. */
module Geometry {
  import opened Roads

  /** The constants that differ between the variants of the program, and the
      timing constants they share. Times are in milliseconds. */
  datatype Config = Config(
    width: int,          // WIDTH
    height: int,         // HEIGHT
    roadWidth: int,      // ROAD_WIDTH
    initialFlash: int,   // the flash_timer of a new vehicle
    greenDuration: int,  // GREEN_LIGHT_DURATION
    spawnInterval: int,  // the interval between automatic spawns
    maxVehicles: int)    // MAX_VEHICLES

  /** src/app.py: a 900 x 600 window, 100-wide roads, flash timer starting at 1. */
  const AppConfig: Config := Config(900, 600, 100, 1, 3000, 500, 10)

  /** new.py and src/new.py: an 800 x 600 window, 120-wide roads, flash timer starting at 0. */
  const NewConfig: Config := Config(800, 600, 120, 0, 3000, 500, 10)

  const NormalSpeed: int := 2
  const EmergencySpeed: int := 4

  function Speed(isEmergency: bool): (s: int)
    ensures s > 0
    ensures !isEmergency ==> s == NormalSpeed
    ensures isEmergency ==> s == 2 * NormalSpeed
  {
    if isEmergency then EmergencySpeed else NormalSpeed
  }

  /** The unit vector (dx, dy) of travel on each road, in screen coordinates
      (y grows downwards): North-road traffic comes down from the top edge,
      South-road traffic up from the bottom edge, East-road traffic in from
      the right edge and West-road traffic in from the left edge. */
  function Heading(r: Road): (h: (int, int))
    ensures h.0 == 0 <==> (r == North || r == South)
    ensures h.0 * h.0 + h.1 * h.1 == 1
  {
    match r
    case North => (0, 1)
    case South => (0, -1)
    case East => (-1, 0)
    case West => (1, 0)
  }

  /** The coordinate at which a new vehicle of road `r` is placed. All
      divisors are positive, where Dafny's `/` agrees with Python's `//`. */
  function Entry(cfg: Config, r: Road): (p: (int, int))
    ensures cfg.width >= 0 && cfg.height >= 0 ==> !Crossed(cfg, r, p.0, p.1)
  {
    match r
    case North => (cfg.width / 2 - cfg.roadWidth / 4, 0)
    case South => (cfg.width / 2 + cfg.roadWidth / 4, cfg.height)
    case East => (cfg.width, cfg.height / 2 + cfg.roadWidth / 4)
    case West => (0, cfg.height / 2 - cfg.roadWidth / 4)
  }

  /** The removal test of the per-tick update: a vehicle of road `r` at
      (x, y) is strictly past the centre line in its direction of travel. */
  predicate Crossed(cfg: Config, r: Road, x: int, y: int) {
    (r == North && y > cfg.height / 2) ||
    (r == South && y < cfg.height / 2) ||
    (r == East && x < cfg.width / 2) ||
    (r == West && x > cfg.width / 2)
  }

  /** How far a vehicle travels from its entry point to the centre line. */
  function ClearDistance(cfg: Config, r: Road): int {
    match r
    case North => cfg.height / 2
    case South => cfg.height - cfg.height / 2
    case East => cfg.width - cfg.width / 2
    case West => cfg.width / 2
  }

  /** Entry point, heading and removal test agree: a vehicle that has gone
      `d` units from its entry point along its heading is past the centre
      line exactly when `d` exceeds the clear distance, and when the window
      has a non-negative size that distance is not negative (a new vehicle
      is not removed before it moves). */
  lemma CrossingAlongHeading(cfg: Config, r: Road, d: int)
    ensures Crossed(cfg, r, Entry(cfg, r).0 + d * Heading(r).0, Entry(cfg, r).1 + d * Heading(r).1)
            <==> d > ClearDistance(cfg, r)
    ensures cfg.width >= 0 && cfg.height >= 0 ==> ClearDistance(cfg, r) >= 0
  {
  }
}
