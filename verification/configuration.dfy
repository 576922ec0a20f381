/**
 * The engine's configuration and the requested action kinds.
 */
module Configuration {
  import opened Color

  /**
   * Capture origin (x, y), field of view (xFov by yFov pixels), the in-game
   * sensitivity, the two gains that turn a pixel offset into mouse units,
   * and the inclusive HSV window of the target colour.
   */
  datatype Config = Config(
    x: int,
    y: int,
    xFov: nat,
    yFov: nat,
    sensitivity: real,
    moveSpeed: real,
    flickSpeed: real,
    lowerHsv: Hsv,
    upperHsv: Hsv)

  /** The configuration used when the caller supplies none. */
  const DefaultConfig := Config(0, 0, 75, 75, 0.23, 0.435, 4.628, Hsv(140, 120, 180), Hsv(160, 200, 255))

  datatype Action = Move | Click | Flick

  /** A pair of gains (move, flick). */
  datatype Speeds = Speeds(move: real, flick: real)

  /**
   * The guard applied when the engine is created: if either gain is zero,
   * both are replaced by the gains derived from the sensitivity; otherwise
   * the caller's gains are kept. The derived gains are computed with a power
   * law that is not part of this model, so they arrive as `derived`.
   */
  function ResolveSpeeds(c: Config, derived: Speeds): (r: Config)
    ensures r.(moveSpeed := c.moveSpeed, flickSpeed := c.flickSpeed) == c
    ensures c.moveSpeed != 0.0 && c.flickSpeed != 0.0 ==> r == c
    ensures c.moveSpeed == 0.0 || c.flickSpeed == 0.0 ==>
      r.moveSpeed == derived.move && r.flickSpeed == derived.flick
  {
    if c.moveSpeed == 0.0 || c.flickSpeed == 0.0 then
      c.(moveSpeed := derived.move, flickSpeed := derived.flick)
    else c
  }

  /** The default gains are both non-zero, so creation keeps them. */
  lemma DefaultKeepsGains(derived: Speeds)
    ensures ResolveSpeeds(DefaultConfig, derived) == DefaultConfig
  {
  }

  /** Resolving twice with the same derived gains is the same as resolving once. */
  lemma ResolveSpeedsIdempotent(c: Config, derived: Speeds)
    ensures ResolveSpeeds(ResolveSpeeds(c, derived), derived) == ResolveSpeeds(c, derived)
  {
  }

  /** With non-zero derived gains, the resolved gains are never zero. */
  lemma ResolvedSpeedsNonZero(c: Config, derived: Speeds)
    requires derived.move != 0.0 && derived.flick != 0.0
    ensures ResolveSpeeds(c, derived).moveSpeed != 0.0 && ResolveSpeeds(c, derived).flickSpeed != 0.0
  {
  }
}
