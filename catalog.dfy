/**
 * The specialisation catalogue: the closed set of nanobot types, the six stats
 * each type confers, and the complexity score of a behaviour script.
 * Stats and complexity are exact reals where the game uses floats.
 */
module Catalog {

  /** The nanobot specialisations; each one but `Normal` also names a core pool. */
  datatype Nanotype = Normal | Miner | Fighter | Super | Warper | Researcher | Hacker | Diplomat

  /** The six stats of a nanobot. */
  datatype Stats = Stats(
    miningRate: real,
    defenseRating: real,
    warpChance: real,
    learnRate: real,
    scanSuccessRate: real,
    connectionRate: real)

  /** Names for the six stats, so that one lemma can speak of each of them. */
  datatype Stat = Mining | Defense | Warp | Learn | Scan | Connection

  function Get(s: Stats, k: Stat): real {
    match k
    case Mining => s.miningRate
    case Defense => s.defenseRating
    case Warp => s.warpChance
    case Learn => s.learnRate
    case Scan => s.scanSuccessRate
    case Connection => s.connectionRate
  }

  /** The stats every nanobot starts from. */
  const Baseline := Stats(1.0, 1.0, 0.0, 0.2, 0.01, 0.1)

  /** The stat table: what each type's nanobot is built with. */
  function StatsOf(t: Nanotype): Stats {
    match t
    case Normal => Baseline
    case Miner => Baseline.(miningRate := 1.3)
    case Fighter => Baseline.(defenseRating := 1.3)
    case Super => Baseline.(miningRate := 1.3, defenseRating := 1.3)
    case Warper => Baseline.(warpChance := 0.1)
    case Researcher => Baseline.(learnRate := 0.5)
    case Hacker => Baseline.(scanSuccessRate := 0.2)
    case Diplomat => Baseline.(connectionRate := 0.3)
  }

  /** The stats a type raises above the baseline. */
  function Boosts(t: Nanotype): set<Stat> {
    match t
    case Normal => {}
    case Miner => {Mining}
    case Fighter => {Defense}
    case Super => {Mining, Defense}
    case Warper => {Warp}
    case Researcher => {Learn}
    case Hacker => {Scan}
    case Diplomat => {Connection}
  }

  /** The value a boosted stat takes, whichever type boosts it. */
  function Boosted(k: Stat): real {
    match k
    case Mining => 1.3
    case Defense => 1.3
    case Warp => 0.1
    case Learn => 0.5
    case Scan => 0.2
    case Connection => 0.3
  }

  /**
   * Every stat of a new nanobot is at its baseline except the ones its type
   * boosts, and a boost always raises the stat.
   */
  lemma StatsOfBoostsOnly(t: Nanotype, k: Stat)
    ensures Get(StatsOf(t), k) == if k in Boosts(t) then Boosted(k) else Get(Baseline, k)
    ensures k in Boosts(t) ==> Get(StatsOf(t), k) > Get(Baseline, k)
  {}

  /** Only `Super` boosts two stats; every other specialised type boosts exactly one. */
  lemma BoostCount(t: Nanotype)
    ensures |Boosts(t)| == if t == Normal then 0 else if t == Super then 2 else 1
  {
    if t == Super {
      assert Boosts(t) == {Mining} + {Defense};
    }
  }

  /**
   * The complexity of a script: a tenth of its length, doubled for every type but
   * `Normal`.
   */
  function Complexity(logic: string, t: Nanotype): (c: real)
    ensures c >= 0.0
  {
    (|logic| as real / 10.0) * (if t != Normal then 2.0 else 1.0)
  }

  /** A specialised nanobot's script is exactly twice as complex as a normal one's of the same length. */
  lemma ComplexityDoubles(s: string, s': string, t: Nanotype)
    requires |s| == |s'| && t != Normal
    ensures Complexity(s, t) == 2.0 * Complexity(s', Normal)
  {}

  /** A longer script is never less complex. */
  lemma ComplexityMonotone(s: string, s': string, t: Nanotype)
    requires |s| <= |s'|
    ensures Complexity(s, t) <= Complexity(s', t)
  {}
}
