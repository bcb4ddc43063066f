/** The gamification record (xp, level, streak, badges) and the level table of src/utils/game.js. */
module Game {
  import opened Wrappers
  import opened Catalog

  /** `LEVEL_THRESHOLDS`: the xp at which level i + 1 starts is the i-th entry. */
  const LevelThresholds: seq<int> := [0, 200, 500, 1000, 2000]

  /** `LEVEL_THRESHOLDS[i]`, which is `undefined` outside the table. */
  function Threshold(i: int): (r: Option<int>)
    ensures r.Some? <==> 0 <= i < |LevelThresholds|
    ensures r.Some? ==> r.value == LevelThresholds[i]
  {
    if 0 <= i < |LevelThresholds| then Some(LevelThresholds[i]) else None
  }

  /** The game metadata object `{xp, level, streak, lastDate, badges}`. */
  datatype GameMeta = GameMeta(
    xp: int,
    level: int,
    streak: int,
    lastDate: Option<Day>,
    badges: seq<string>)

  /** A player's level agrees with their xp: at least this level's threshold, below the next. */
  predicate LevelMatchesXp(g: GameMeta) {
    && 1 <= g.level <= |LevelThresholds|
    && LevelThresholds[g.level - 1] <= g.xp
    && (g.level < |LevelThresholds| ==> g.xp < LevelThresholds[g.level])
  }
}
