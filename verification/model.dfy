/** The entities of the achievement engine and the configuration it reads.

    The metric tables, the template tables and the helpers that map a metric
    to its difficulty factor, display name, unit and snapshot column live
    outside the achievement service; here they are the fields of a `Config`
    value that every operation receives. */
module Model {
  import opened Seqs

  /** A metric identifier such as "attack", "zulrah" or "clue_scrolls_hard". */
  type Metric = string

  /** Names a template's own `validate` predicate; `Config.custom` interprets it. */
  type CheckId = nat

  /** `new Date(0)`: the "date unknown" timestamp. */
  const EpochZero: int := 0

  /** The value a snapshot holds for a metric that was not tracked. */
  const Untracked: int := -1

  const Overall: Metric := "overall"
  const Combat: Metric := "combat"

  /** One recorded snapshot: its metric columns (keyed by `Config.valueKey`)
      and its creation time in milliseconds since the epoch. */
  datatype Snapshot = Snapshot(values: map<string, int>, createdAt: int)

  /** An achievement template. Without a metric it is replicated over its
      family; `validate` is the template's own predicate, used only when the
      template names a metric and a single threshold. */
  datatype Template = Template(
    baseType: string,
    metric: Option<Metric>,
    thresholds: seq<int>,
    validate: Option<CheckId>)

  /** The predicate of a definition: the generated closure
      `snapshot[valueKey] >= threshold`, or a template-supplied one. */
  datatype Check = AtLeast(key: string, threshold: int) | Custom(id: CheckId)

  /** A hydrated template. `kind` is the achievement's `type` string. */
  datatype Definition = Definition(kind: string, metric: Metric, threshold: int, check: Check)

  /** A definition together with the date the engine assigns to it. */
  datatype Dated = Dated(def: Definition, createdAt: int)

  /** A row of the Achievement table. */
  datatype Achievement = Achievement(playerId: int, kind: string, metric: Metric, threshold: int, createdAt: int)

  datatype Config = Config(
    skills: seq<Metric>,
    activities: seq<Metric>,
    bosses: seq<Metric>,
    skillTemplates: seq<Template>,
    activityTemplates: seq<Template>,
    bossTemplates: seq<Template>,
    difficultyFactor: Metric -> int,
    formattedName: Metric -> string,
    measure: Metric -> string,
    valueKey: Metric -> string,
    custom: (CheckId, Snapshot) -> bool,
    cappedMaxTotalXp: int)

  /** A template naming a metric with at most one threshold is a fixed one:
      it must have exactly one threshold and its own predicate. */
  predicate ValidTemplate(t: Template) {
    t.metric.Some? && |t.thresholds| <= 1 ==> |t.thresholds| == 1 && t.validate.Some?
  }

  predicate ValidConfig(cfg: Config) {
    && (forall t | t in cfg.skillTemplates :: ValidTemplate(t))
    && (forall t | t in cfg.activityTemplates :: ValidTemplate(t))
    && (forall t | t in cfg.bossTemplates :: ValidTemplate(t))
  }

  /** Evaluates a definition's predicate on a snapshot. A column the snapshot
      lacks compares like JavaScript's `undefined`: never `>=` anything. */
  predicate Holds(cfg: Config, d: Definition, s: Snapshot) {
    match d.check
    case AtLeast(key, threshold) => key in s.values && s.values[key] >= threshold
    case Custom(id) => cfg.custom(id, s)
  }

  /** The snapshot's value for `m` is the untracked sentinel. */
  predicate IsUntracked(cfg: Config, s: Snapshot, m: Metric) {
    cfg.valueKey(m) in s.values && s.values[cfg.valueKey(m)] == Untracked
  }

  /** A dated definition stored as a row of a player. */
  function ToRow(a: Dated, playerId: int): (r: Achievement)
  {
    Achievement(playerId, a.def.kind, a.def.metric, a.def.threshold, a.createdAt)
  }

  function ToRows(s: seq<Dated>, playerId: int): (r: seq<Achievement>)
    ensures |r| == |s|
    ensures forall i | 0 <= i < |s| :: r[i] == ToRow(s[i], playerId)
  {
    seq(|s|, i requires 0 <= i < |s| => ToRow(s[i], playerId))
  }
}
