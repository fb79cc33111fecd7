/** Expansion of the three template families into the flat catalog of
    achievement definitions: `getDefinitions`
    (server/src/api/services/internal/achievement.service.ts:39-135).

    The catalog is specified by functions over the templates; the method
    `BuildDefinitions` pushes the definitions one at a time, as the source
    does, and is proved to produce exactly that catalog. */
module Catalog {
  import opened Seqs
  import opened Model
  import opened Format

  /** The skill family: every skill but 'overall', and nothing else. */
  function SkillFamily(cfg: Config): (r: seq<Metric>)
    ensures Overall !in r
    ensures forall m | m in r :: m in cfg.skills
    ensures forall m | m in cfg.skills && m != Overall :: m in r
  {
    SelectExact(cfg.skills, (m: Metric) => m != Overall);
    Select(cfg.skills, (m: Metric) => m != Overall)
  }

  /** The definition a generated template gives for metric `m` and raw
      threshold `raw`: the threshold is scaled by the metric's difficulty
      factor and the predicate is `snapshot[valueKey(m)] >= threshold`. */
  function Generated(cfg: Config, t: Template, m: Metric, raw: int): Definition
  {
    var threshold := raw * cfg.difficultyFactor(m);
    Definition(FormatType(cfg, t.baseType, threshold, m), m, threshold, AtLeast(cfg.valueKey(m), threshold))
  }

  /** A fixed template keeps its own type and predicate. */
  function FixedDef(cfg: Config, t: Template): Definition
    requires t.metric.Some? && |t.thresholds| >= 1 && t.validate.Some?
  {
    var m := t.metric.value;
    Definition(t.baseType, m, t.thresholds[0] * cfg.difficultyFactor(m), Custom(t.validate.value))
  }

  /** One generated definition per raw threshold, in order. */
  function ThresholdDefs(cfg: Config, t: Template, m: Metric, raws: seq<int>): (r: seq<Definition>)
    ensures |r| == |raws|
    ensures forall j {:trigger r[j]} | 0 <= j < |raws| :: r[j] == Generated(cfg, t, m, raws[j])
  {
    seq(|raws|, j requires 0 <= j < |raws| => Generated(cfg, t, m, raws[j]))
  }

  /** The definitions a metric-less template gives each member of `family`. */
  function MemberParts(cfg: Config, t: Template, family: seq<Metric>): (r: seq<seq<Definition>>)
    ensures |r| == |family|
    ensures forall i | 0 <= i < |r| :: r[i] == ThresholdDefs(cfg, t, family[i], t.thresholds)
  {
    seq(|family|, i requires 0 <= i < |family| => ThresholdDefs(cfg, t, family[i], t.thresholds))
  }

  /** A metric-less template replicated over `family`, member after member. */
  function MemberDefs(cfg: Config, t: Template, family: seq<Metric>): seq<Definition>
  {
    Flatten(MemberParts(cfg, t, family))
  }

  /** Replicating over one more member appends that member's definitions. */
  lemma MemberDefsSnoc(cfg: Config, t: Template, family: seq<Metric>, i: nat)
    requires i < |family|
    ensures MemberDefs(cfg, t, family[..i + 1])
         == MemberDefs(cfg, t, family[..i]) + ThresholdDefs(cfg, t, family[i], t.thresholds)
  {
    var before := MemberParts(cfg, t, family[..i]);
    assert MemberParts(cfg, t, family[..i + 1]) == before + [ThresholdDefs(cfg, t, family[i], t.thresholds)];
    FlattenSnoc(before, ThresholdDefs(cfg, t, family[i], t.thresholds));
  }

  /** A metric-less template gives |family| * k definitions. */
  lemma {:induction false} MemberDefsCount(cfg: Config, t: Template, family: seq<Metric>)
    ensures |MemberDefs(cfg, t, family)| == |family| * |t.thresholds|
  {
    if family != [] {
      var n, k := |family|, |t.thresholds|;
      MemberDefsCount(cfg, t, family[..n - 1]);
      MemberDefsSnoc(cfg, t, family, n - 1);
      assert family[..n] == family;
      MulSucc(n - 1, k);
    }
  }

  lemma MulSucc(a: nat, k: nat)
    ensures a * k + k == (a + 1) * k
  {
  }

  /** Each definition of a metric-less template is the generated one for some
      member of the family and some threshold. */
  lemma MemberDefsSound(cfg: Config, t: Template, family: seq<Metric>, d: Definition)
    requires d in MemberDefs(cfg, t, family)
    ensures exists i, j {:trigger Generated(cfg, t, family[i], t.thresholds[j])}
              | 0 <= i < |family| && 0 <= j < |t.thresholds| :: d == Generated(cfg, t, family[i], t.thresholds[j])
  {
    var parts := MemberParts(cfg, t, family);
    FlattenMember(parts, d);
    var i :| 0 <= i < |parts| && d in parts[i];
    var j :| 0 <= j < |parts[i]| && parts[i][j] == d;
    assert d == Generated(cfg, t, family[i], t.thresholds[j]);
  }

  /** Every member of the family gets a definition for every threshold. */
  lemma MemberDefsComplete(cfg: Config, t: Template, family: seq<Metric>, i: nat, j: nat)
    requires i < |family| && j < |t.thresholds|
    ensures Generated(cfg, t, family[i], t.thresholds[j]) in MemberDefs(cfg, t, family)
  {
    var parts := MemberParts(cfg, t, family);
    assert parts[i][j] == Generated(cfg, t, family[i], t.thresholds[j]);
    FlattenIn(parts, i, parts[i][j]);
  }

  /** The definitions of one template. */
  function TemplateDefs(cfg: Config, t: Template, family: seq<Metric>): seq<Definition>
    requires ValidTemplate(t)
  {
    match t.metric
    case None => MemberDefs(cfg, t, family)
    case Some(m) => if |t.thresholds| > 1 then ThresholdDefs(cfg, t, m, t.thresholds) else [FixedDef(cfg, t)]
  }

  /** `d` is one of the definitions template `t` stands for. */
  ghost predicate FromTemplate(cfg: Config, d: Definition, t: Template, family: seq<Metric>)
    requires ValidTemplate(t)
  {
    match t.metric
    case None =>
      exists i, j {:trigger Generated(cfg, t, family[i], t.thresholds[j])}
        | 0 <= i < |family| && 0 <= j < |t.thresholds| :: d == Generated(cfg, t, family[i], t.thresholds[j])
    case Some(m) =>
      if |t.thresholds| > 1 then
        exists j {:trigger Generated(cfg, t, m, t.thresholds[j])}
          | 0 <= j < |t.thresholds| :: d == Generated(cfg, t, m, t.thresholds[j])
      else d == FixedDef(cfg, t)
  }

  /** What a definition inherits from its template: its threshold is one of
      the template's raw thresholds times the difficulty factor of its metric;
      a metric-less template gives definitions for members of the family,
      checked by `snapshot[valueKey(metric)] >= threshold`; a fixed template
      keeps its own type and predicate. */
  lemma TemplateDefinition(cfg: Config, d: Definition, t: Template, family: seq<Metric>)
    requires ValidTemplate(t)
    requires FromTemplate(cfg, d, t, family)
    ensures exists j {:trigger t.thresholds[j]} | 0 <= j < |t.thresholds| ::
              d.threshold == t.thresholds[j] * cfg.difficultyFactor(d.metric)
    ensures t.metric.None? ==> d.metric in family
    ensures t.metric.Some? ==> d.metric == t.metric.value
    ensures t.metric.None? || |t.thresholds| > 1 ==> d.check == AtLeast(cfg.valueKey(d.metric), d.threshold)
    ensures t.metric.Some? && |t.thresholds| <= 1 ==> d.kind == t.baseType && d.check == Custom(t.validate.value)
  {
    match t.metric {
      case None =>
        var i, j :| 0 <= i < |family| && 0 <= j < |t.thresholds| && d == Generated(cfg, t, family[i], t.thresholds[j]);
        assert family[i] in family;
      case Some(m) =>
        if |t.thresholds| > 1 {
          var j :| 0 <= j < |t.thresholds| && d == Generated(cfg, t, m, t.thresholds[j]);
        } else {
          assert d.threshold == t.thresholds[0] * cfg.difficultyFactor(d.metric);
        }
    }
  }

  /** How many definitions a template gives. */
  function TemplateCount(t: Template, family: seq<Metric>): nat
  {
    if t.metric.None? then |family| * |t.thresholds|
    else if |t.thresholds| > 1 then |t.thresholds|
    else 1
  }

  /** |family| * k definitions for a metric-less template, k for a metric
      with several thresholds, else exactly one. */
  lemma TemplateDefsCount(cfg: Config, t: Template, family: seq<Metric>)
    requires ValidTemplate(t)
    ensures |TemplateDefs(cfg, t, family)| == TemplateCount(t, family)
  {
    if t.metric.None? {
      MemberDefsCount(cfg, t, family);
    }
  }

  /** Every definition of a template is one the template stands for. */
  lemma TemplateDefsSound(cfg: Config, t: Template, family: seq<Metric>, d: Definition)
    requires ValidTemplate(t)
    requires d in TemplateDefs(cfg, t, family)
    ensures FromTemplate(cfg, d, t, family)
  {
    match t.metric {
      case None =>
        MemberDefsSound(cfg, t, family, d);
      case Some(m) =>
        if |t.thresholds| > 1 {
          var r := ThresholdDefs(cfg, t, m, t.thresholds);
          var j :| 0 <= j < |r| && r[j] == d;
          assert d == Generated(cfg, t, m, t.thresholds[j]);
        }
    }
  }

  /** The definitions of each template of a list. */
  function TemplateParts(cfg: Config, templates: seq<Template>, family: seq<Metric>): (r: seq<seq<Definition>>)
    requires forall t | t in templates :: ValidTemplate(t)
    ensures |r| == |templates|
    ensures forall k | 0 <= k < |r| :: r[k] == TemplateDefs(cfg, templates[k], family)
  {
    seq(|templates|, k requires 0 <= k < |templates| => TemplateDefs(cfg, templates[k], family))
  }

  /** The definitions of a list of templates, template after template. */
  function FamilyDefs(cfg: Config, templates: seq<Template>, family: seq<Metric>): seq<Definition>
    requires forall t | t in templates :: ValidTemplate(t)
  {
    Flatten(TemplateParts(cfg, templates, family))
  }

  /** Expanding one more template appends its definitions. */
  lemma FamilyDefsSnoc(cfg: Config, templates: seq<Template>, family: seq<Metric>, k: nat)
    requires forall t | t in templates :: ValidTemplate(t)
    requires k < |templates|
    ensures FamilyDefs(cfg, templates[..k + 1], family)
         == FamilyDefs(cfg, templates[..k], family) + TemplateDefs(cfg, templates[k], family)
  {
    var before := TemplateParts(cfg, templates[..k], family);
    assert TemplateParts(cfg, templates[..k + 1], family) == before + [TemplateDefs(cfg, templates[k], family)];
    FlattenSnoc(before, TemplateDefs(cfg, templates[k], family));
  }

  /** The number of definitions of a list of templates. */
  function FamilyCount(templates: seq<Template>, family: seq<Metric>): nat
  {
    if templates == [] then 0
    else FamilyCount(templates[..|templates| - 1], family) + TemplateCount(templates[|templates| - 1], family)
  }

  /** A family gives exactly the sum of its templates' counts. */
  lemma {:induction false} FamilyDefsCount(cfg: Config, templates: seq<Template>, family: seq<Metric>)
    requires forall t | t in templates :: ValidTemplate(t)
    ensures |FamilyDefs(cfg, templates, family)| == FamilyCount(templates, family)
  {
    if templates != [] {
      var n := |templates|;
      FamilyDefsCount(cfg, templates[..n - 1], family);
      TemplateDefsCount(cfg, templates[n - 1], family);
      FamilyDefsSnoc(cfg, templates, family, n - 1);
      assert templates[..n] == templates;
    }
  }

  /** Every definition of a family comes from one of its templates. */
  lemma FamilyDefsSound(cfg: Config, templates: seq<Template>, family: seq<Metric>, d: Definition)
    requires forall t | t in templates :: ValidTemplate(t)
    requires d in FamilyDefs(cfg, templates, family)
    ensures exists k | 0 <= k < |templates| :: FromTemplate(cfg, d, templates[k], family)
  {
    var parts := TemplateParts(cfg, templates, family);
    FlattenMember(parts, d);
    var k :| 0 <= k < |parts| && d in parts[k];
    TemplateDefsSound(cfg, templates[k], family, d);
  }

  /** The whole catalog: skills, then activities, then bosses. */
  function Definitions(cfg: Config): seq<Definition>
    requires ValidConfig(cfg)
  {
    FamilyDefs(cfg, cfg.skillTemplates, SkillFamily(cfg))
      + FamilyDefs(cfg, cfg.activityTemplates, cfg.activities)
      + FamilyDefs(cfg, cfg.bossTemplates, cfg.bosses)
  }

  /** The catalog's size is the sum of every template's count. */
  lemma DefinitionsCount(cfg: Config)
    requires ValidConfig(cfg)
    ensures |Definitions(cfg)| == FamilyCount(cfg.skillTemplates, SkillFamily(cfg))
              + FamilyCount(cfg.activityTemplates, cfg.activities)
              + FamilyCount(cfg.bossTemplates, cfg.bosses)
  {
    FamilyDefsCount(cfg, cfg.skillTemplates, SkillFamily(cfg));
    FamilyDefsCount(cfg, cfg.activityTemplates, cfg.activities);
    FamilyDefsCount(cfg, cfg.bossTemplates, cfg.bosses);
  }

  /** Every definition in the catalog has as threshold one of its template's
      raw thresholds times the difficulty factor of its metric; one generated
      for the skill family is never for 'overall'. */
  lemma DefinitionOrigin(cfg: Config, d: Definition)
    requires ValidConfig(cfg)
    requires d in Definitions(cfg)
    ensures exists t | t in cfg.skillTemplates + cfg.activityTemplates + cfg.bossTemplates ::
              exists j {:trigger t.thresholds[j]} | 0 <= j < |t.thresholds| ::
                d.threshold == t.thresholds[j] * cfg.difficultyFactor(d.metric)
    ensures d.metric == Overall && d.check.AtLeast? ==>
              d !in FamilyDefs(cfg, cfg.skillTemplates, SkillFamily(cfg)) ||
              exists t | t in cfg.skillTemplates :: t.metric == Some(Overall)
  {
    var family, templates;
    if d in FamilyDefs(cfg, cfg.skillTemplates, SkillFamily(cfg)) {
      family, templates := SkillFamily(cfg), cfg.skillTemplates;
    } else if d in FamilyDefs(cfg, cfg.activityTemplates, cfg.activities) {
      family, templates := cfg.activities, cfg.activityTemplates;
    } else {
      family, templates := cfg.bosses, cfg.bossTemplates;
    }
    FamilyDefsSound(cfg, templates, family, d);
    var k :| 0 <= k < |templates| && FromTemplate(cfg, d, templates[k], family);
    var t := templates[k];
    TemplateDefinition(cfg, d, t, family);
    assert t in cfg.skillTemplates + cfg.activityTemplates + cfg.bossTemplates;
  }

  /** A metric-less skill template yields its definitions for every skill
      except 'overall'. */
  lemma SkillTemplateCoversSkills(cfg: Config, t: Template, skill: Metric, j: nat)
    requires ValidConfig(cfg)
    requires t in cfg.skillTemplates && t.metric.None?
    requires skill in cfg.skills && skill != Overall && j < |t.thresholds|
    ensures Generated(cfg, t, skill, t.thresholds[j]) in Definitions(cfg)
  {
    var ts := cfg.skillTemplates;
    var k :| 0 <= k < |ts| && ts[k] == t;
    var family := SkillFamily(cfg);
    var i :| 0 <= i < |family| && family[i] == skill;
    MemberDefsComplete(cfg, t, family, i, j);
    TemplateInFamily(cfg, ts, family, k, Generated(cfg, t, skill, t.thresholds[j]));
  }

  /** A definition of one template is a definition of its family. */
  lemma TemplateInFamily(cfg: Config, ts: seq<Template>, family: seq<Metric>, k: nat, d: Definition)
    requires forall t | t in ts :: ValidTemplate(t)
    requires k < |ts| && d in TemplateDefs(cfg, ts[k], family)
    ensures d in FamilyDefs(cfg, ts, family)
  {
    FlattenIn(TemplateParts(cfg, ts, family), k, d);
  }

  /** `getDefinitions` as the source runs it: nested loops pushing onto a
      growing list, family after family. */
  method BuildDefinitions(cfg: Config) returns (definitions: seq<Definition>)
    requires ValidConfig(cfg)
    ensures definitions == Definitions(cfg)
  {
    var skills := ExpandFamily(cfg, cfg.skillTemplates, SkillFamily(cfg));
    var activities := ExpandFamily(cfg, cfg.activityTemplates, cfg.activities);
    var bosses := ExpandFamily(cfg, cfg.bossTemplates, cfg.bosses);
    definitions := skills + activities + bosses;
  }

  /** The `forEach` over one template table (the source repeats this block
      for skills, activities and bosses). */
  method ExpandFamily(cfg: Config, templates: seq<Template>, family: seq<Metric>) returns (definitions: seq<Definition>)
    requires forall t | t in templates :: ValidTemplate(t)
    ensures definitions == FamilyDefs(cfg, templates, family)
  {
    definitions := [];
    for k := 0 to |templates|
      invariant definitions == FamilyDefs(cfg, templates[..k], family)
    {
      var more := ExpandTemplate(cfg, templates[k], family);
      definitions := definitions + more;
      FamilyDefsSnoc(cfg, templates, family, k);
    }
    assert templates[..|templates|] == templates;
  }

  /** The body of the `forEach`: one template's three cases. */
  method ExpandTemplate(cfg: Config, t: Template, family: seq<Metric>) returns (definitions: seq<Definition>)
    requires ValidTemplate(t)
    ensures definitions == TemplateDefs(cfg, t, family)
  {
    if t.metric.None? {
      definitions := [];
      for i := 0 to |family|
        invariant definitions == MemberDefs(cfg, t, family[..i])
      {
        var more := ExpandThresholds(cfg, t, family[i]);
        definitions := definitions + more;
        MemberDefsSnoc(cfg, t, family, i);
      }
      assert family[..|family|] == family;
    } else if |t.thresholds| > 1 {
      definitions := ExpandThresholds(cfg, t, t.metric.value);
    } else {
      definitions := [FixedDef(cfg, t)];
    }
  }

  /** The loop over one template's raw thresholds for metric `m`: each is
      scaled by the metric's difficulty factor and pushed as one definition. */
  method ExpandThresholds(cfg: Config, t: Template, m: Metric) returns (definitions: seq<Definition>)
    ensures definitions == ThresholdDefs(cfg, t, m, t.thresholds)
  {
    definitions := [];
    for j := 0 to |t.thresholds|
      invariant definitions == ThresholdDefs(cfg, t, m, t.thresholds[..j])
    {
      definitions := definitions + [Generated(cfg, t, m, t.thresholds[j])];
      assert ThresholdDefs(cfg, t, m, t.thresholds[..j + 1])
          == ThresholdDefs(cfg, t, m, t.thresholds[..j]) + [Generated(cfg, t, m, t.thresholds[j])];
    }
    assert t.thresholds[..|t.thresholds|] == t.thresholds;
  }
}
