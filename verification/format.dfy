/** Display strings of achievements: `formatThreshold` and `formatType`
    (server/src/api/services/internal/achievement.service.ts:16-34). */
module Format {
  import opened Seqs
  import opened Text
  import opened Model

  /** Experience at level 99, shown as "99". */
  const MaxLevelXp: int := 13034431

  /** The maximum total level, shown as itself. */
  const MaxTotalLevel: int := 2277

  /** The label of a threshold. The millions and billions branches round to
      two decimals, half up, in integer hundredths. A label is never empty
      and never contains '{', so it never creates a placeholder. */
  function FormatThreshold(threshold: int, cappedMaxTotalXp: int): (r: string)
    ensures |r| > 0 && '{' !in r
  {
    if threshold == MaxLevelXp then "99"
    else if threshold == cappedMaxTotalXp then "2277"
    else if threshold < 1000 || threshold == MaxTotalLevel then
      DigitsHaveNoBrace(NatToString(if threshold < 0 then -threshold else threshold));
      IntToString(threshold)
    else if threshold <= 10000 then
      DigitsHaveNoBrace(NatToString(threshold / 1000));
      NatToString(threshold / 1000) + "k"
    else if threshold < 1000000000 then
      DigitsHaveNoBrace(NatToString(((threshold + 5000) / 10000) / 100));
      Hundredths((threshold + 5000) / 10000) + "m"
    else
      DigitsHaveNoBrace(NatToString(((threshold + 5000000) / 10000000) / 100));
      Hundredths((threshold + 5000000) / 10000000) + "b"
  }

  /** The plain branch: the label reads back as the threshold itself. */
  lemma FormatThresholdPlain(threshold: int, cappedMaxTotalXp: int)
    requires threshold != MaxLevelXp && threshold != cappedMaxTotalXp
    requires threshold < 1000 || threshold == MaxTotalLevel
    ensures ParseInt(FormatThreshold(threshold, cappedMaxTotalXp)) == Some(threshold)
  {
    IntToStringRoundTrip(threshold);
  }

  /** The thousands branch: digits of the threshold's floor in thousands, then "k". */
  lemma FormatThresholdThousands(threshold: int, cappedMaxTotalXp: int)
    requires threshold != MaxLevelXp && threshold != cappedMaxTotalXp && threshold != MaxTotalLevel
    requires 1000 <= threshold <= 10000
    ensures var r := FormatThreshold(threshold, cappedMaxTotalXp);
      && |r| >= 2 && r[|r| - 1] == 'k' && AllDigits(r[..|r| - 1])
      && ParseNat(r[..|r| - 1]) * 1000 <= threshold < ParseNat(r[..|r| - 1]) * 1000 + 1000
  {
    var w := NatToString(threshold / 1000);
    ParseNatToString(threshold / 1000);
    assert (w + "k")[..|w|] == w;
  }

  /** The millions branch: the label, read back, is the threshold in millions
      rounded to the nearest hundredth (halves up), followed by "m". */
  lemma FormatThresholdMillions(threshold: int, cappedMaxTotalXp: int)
    requires threshold != MaxLevelXp && threshold != cappedMaxTotalXp
    requires 10000 < threshold < 1000000000
    ensures var r := FormatThreshold(threshold, cappedMaxTotalXp);
      && |r| >= 2 && r[|r| - 1] == 'm'
      && var h := ParseHundredths(r[..|r| - 1]);
      && h.Some?
      && h.value * 10000 - 5000 <= threshold < h.value * 10000 + 5000
  {
    var h: nat := (threshold + 5000) / 10000;
    var w := Hundredths(h);
    HundredthsRoundTrip(h);
    ParseNatToString(h / 100);
    assert (w + "m")[..|w|] == w;
  }

  /** The billions branch, likewise in billions, followed by "b". */
  lemma FormatThresholdBillions(threshold: int, cappedMaxTotalXp: int)
    requires threshold != MaxLevelXp && threshold != cappedMaxTotalXp
    requires threshold >= 1000000000
    ensures var r := FormatThreshold(threshold, cappedMaxTotalXp);
      && |r| >= 2 && r[|r| - 1] == 'b'
      && var h := ParseHundredths(r[..|r| - 1]);
      && h.Some?
      && h.value * 10000000 - 5000000 <= threshold < h.value * 10000000 + 5000000
  {
    var h: nat := (threshold + 5000000) / 10000000;
    var w := Hundredths(h);
    HundredthsRoundTrip(h);
    ParseNatToString(h / 100);
    assert (w + "b")[..|w|] == w;
  }

  /** The labels of the level-99 experience, the capped total and the
      maximum total level, for any capped-total value that is not one of the
      other two. */
  lemma FormatThresholdCaps(cappedMaxTotalXp: int)
    requires cappedMaxTotalXp != MaxLevelXp && cappedMaxTotalXp != MaxTotalLevel
    ensures FormatThreshold(MaxLevelXp, cappedMaxTotalXp) == "99"
    ensures FormatThreshold(cappedMaxTotalXp, cappedMaxTotalXp) == "2277"
    ensures FormatThreshold(MaxTotalLevel, cappedMaxTotalXp) == "2277"
  {
    assert NatToString(22) == "22";
    assert NatToString(227) == "227";
    assert NatToString(2277) == "2277";
  }

  /** The labels of a plain, a thousands, a millions and a billions
      threshold, for any capped-total value that is not one of them. */
  lemma FormatThresholdExamples(cappedMaxTotalXp: int)
    requires cappedMaxTotalXp !in {500, 5000, 500000000, 2500000000}
    ensures FormatThreshold(500, cappedMaxTotalXp) == "500"
    ensures FormatThreshold(5000, cappedMaxTotalXp) == "5k"
    ensures FormatThreshold(500000000, cappedMaxTotalXp) == "500m"
    ensures FormatThreshold(2500000000, cappedMaxTotalXp) == "2.5b"
  {
    assert NatToString(5) == "5";
    assert NatToString(50) == "50";
    assert NatToString(500) == "500";
    assert Hundredths(50000) == "500";
    assert Hundredths(250) == "2.5";
  }

  /** `formatType`: the base type with its placeholders filled in by the
      threshold's label and the metric's formatted name. A base type without
      placeholders is used as it is; the lemmas below give the result for
      base types with placeholders. */
  function FormatType(cfg: Config, baseType: string, threshold: int, metric: Metric): (r: string)
    ensures '{' !in baseType ==> r == baseType
  {
    Substitute(baseType, FormatThreshold(threshold, cfg.cappedMaxTotalXp), cfg.formattedName(metric))
  }

  /** The four replacements of `formatType`, in order: the first
      `{threshold}` by `text`, then the first `{skill}`, `{activity}` and
      `{boss}` by `name`. */
  function Substitute(baseType: string, text: string, name: string): (r: string)
    ensures '{' !in baseType ==> r == baseType
  {
    var s1 := ReplaceFirst(baseType, "{threshold}", text);
    var s2 := ReplaceFirst(s1, "{skill}", name);
    var s3 := ReplaceFirst(s2, "{activity}", name);
    NoPlaceholderLeft(baseType, "{threshold}", text);
    NoPlaceholderLeft(s1, "{skill}", name);
    NoPlaceholderLeft(s2, "{activity}", name);
    NoPlaceholderLeft(s3, "{boss}", name);
    ReplaceFirst(s3, "{boss}", name)
  }

  /** No placeholder can occur in a string without a '{'. */
  lemma NoBraceNoPlaceholder(s: string, pat: string)
    requires |pat| > 0 && pat[0] == '{'
    requires '{' !in s
    ensures forall i | 0 <= i <= |s| :: !OccursAt(s, pat, i)
  {
    forall i | 0 <= i <= |s| ensures !OccursAt(s, pat, i) {
      if i < |s| {
        assert s[i] in s;
      }
    }
  }

  /** A string of decimal digits has no '{'. */
  lemma DigitsHaveNoBrace(s: string)
    requires AllDigits(s)
    ensures '{' !in s
  {
    forall i | 0 <= i < |s| ensures s[i] != '{' {
      assert IsDigit(s[i]);
    }
  }

  /** A placeholder `pat` does not occur in `a + ph + b` when the only '{'
      there opens a different placeholder `ph`. */
  lemma OtherPlaceholder(a: string, ph: string, b: string, pat: string, rep: string)
    requires |pat| > 1 && |ph| > 1 && pat[0] == '{' && ph[0] == '{' && pat[1] != ph[1]
    requires '{' !in a && '{' !in ph[1..] && '{' !in b
    ensures ReplaceFirst(a + ph + b, pat, rep) == a + ph + b
  {
    var s := a + ph + b;
    forall i | 0 <= i <= |s| ensures !OccursAt(s, pat, i) {
      if i + |pat| <= |s| {
        assert s[i..i + |pat|][0] == s[i];
        assert s[i..i + |pat|][1] == s[i + 1];
        if i < |a| {
          assert s[i] == a[i] && a[i] in a;
        } else if i == |a| {
          assert s[i + 1] == ph[1];
        } else if i < |a| + |ph| {
          assert s[i] == ph[1..][i - |a| - 1] && ph[1..][i - |a| - 1] in ph[1..];
        } else {
          assert s[i] == b[i - |a| - |ph|] && b[i - |a| - |ph|] in b;
        }
      }
    }
    ReplaceFirstAbsent(s, pat, rep);
  }

  /** A string without '{' goes through a placeholder replacement as it is. */
  lemma NoPlaceholderLeft(s: string, pat: string, rep: string)
    requires |pat| > 0 && pat[0] == '{'
    ensures '{' !in s ==> ReplaceFirst(s, pat, rep) == s
  {
    if '{' !in s {
      NoBraceNoPlaceholder(s, pat);
      ReplaceFirstAbsent(s, pat, rep);
    }
  }

  /** The three name replacements of `formatType` put `name` where the one
      name placeholder of `a + ph + w` stands. */
  lemma NamePlaceholder(a: string, ph: string, w: string, name: string)
    requires ph == "{skill}" || ph == "{activity}" || ph == "{boss}"
    requires '{' !in a && '{' !in w && '{' !in name
    ensures ReplaceFirst(ReplaceFirst(ReplaceFirst(a + ph + w, "{skill}", name), "{activity}", name), "{boss}", name)
         == a + name + w
  {
    var done := a + name + w;
    assert '{' !in ph[1..];
    if ph == "{skill}" {
      ReplaceFirstAfter(a, ph, w, name);
      NoPlaceholderLeft(done, "{activity}", name);
      NoPlaceholderLeft(done, "{boss}", name);
    } else if ph == "{activity}" {
      OtherPlaceholder(a, ph, w, "{skill}", name);
      ReplaceFirstAfter(a, ph, w, name);
      NoPlaceholderLeft(done, "{boss}", name);
    } else {
      OtherPlaceholder(a, ph, w, "{skill}", name);
      OtherPlaceholder(a, ph, w, "{activity}", name);
      ReplaceFirstAfter(a, ph, w, name);
    }
  }

  /** A threshold placeholder followed by one name placeholder: the label
      and the name take their places and nothing else changes. */
  lemma SubstituteThresholdAndName(p: string, q: string, ph: string, w: string, text: string, name: string)
    requires ph == "{skill}" || ph == "{activity}" || ph == "{boss}"
    requires '{' !in p && '{' !in q && '{' !in w && '{' !in text && '{' !in name
    ensures Substitute(p + "{threshold}" + q + ph + w, text, name) == p + text + q + name + w
  {
    var a := p + text + q;
    assert p + "{threshold}" + q + ph + w == p + "{threshold}" + (q + ph + w);
    ReplaceFirstAfter(p, "{threshold}", q + ph + w, text);
    assert p + text + (q + ph + w) == a + ph + w;
    NamePlaceholder(a, ph, w, name);
  }

  /** One name placeholder and no threshold placeholder: the name takes its
      place. */
  lemma SubstituteNameOnly(p: string, ph: string, w: string, text: string, name: string)
    requires ph == "{skill}" || ph == "{activity}" || ph == "{boss}"
    requires '{' !in p && '{' !in w && '{' !in name
    ensures Substitute(p + ph + w, text, name) == p + name + w
  {
    assert '{' !in ph[1..];
    OtherPlaceholder(p, ph, w, "{threshold}", text);
    NamePlaceholder(p, ph, w, name);
  }

  /** One threshold placeholder and no name placeholder: the label takes its
      place. */
  lemma SubstituteThresholdOnly(p: string, q: string, text: string, name: string)
    requires '{' !in p && '{' !in q && '{' !in text
    ensures Substitute(p + "{threshold}" + q, text, name) == p + text + q
  {
    var done := p + text + q;
    ReplaceFirstAfter(p, "{threshold}", q, text);
    NoPlaceholderLeft(done, "{skill}", name);
    NoPlaceholderLeft(done, "{activity}", name);
    NoPlaceholderLeft(done, "{boss}", name);
  }

  /** A base type with a threshold placeholder followed by a name
      placeholder reads with the threshold's label and the metric's name in
      their places. */
  lemma FormatTypeThresholdAndName(cfg: Config, p: string, q: string, ph: string, w: string, threshold: int, metric: Metric)
    requires ph == "{skill}" || ph == "{activity}" || ph == "{boss}"
    requires '{' !in p && '{' !in q && '{' !in w && '{' !in cfg.formattedName(metric)
    ensures FormatType(cfg, p + "{threshold}" + q + ph + w, threshold, metric)
         == p + FormatThreshold(threshold, cfg.cappedMaxTotalXp) + q + cfg.formattedName(metric) + w
  {
    SubstituteThresholdAndName(p, q, ph, w, FormatThreshold(threshold, cfg.cappedMaxTotalXp), cfg.formattedName(metric));
  }

  /** A base type with one name placeholder and no threshold placeholder,
      such as "1k {boss} kills", reads with the metric's name in its place. */
  lemma FormatTypeNameOnly(cfg: Config, p: string, ph: string, w: string, threshold: int, metric: Metric)
    requires ph == "{skill}" || ph == "{activity}" || ph == "{boss}"
    requires '{' !in p && '{' !in w && '{' !in cfg.formattedName(metric)
    ensures FormatType(cfg, p + ph + w, threshold, metric) == p + cfg.formattedName(metric) + w
  {
    SubstituteNameOnly(p, ph, w, FormatThreshold(threshold, cfg.cappedMaxTotalXp), cfg.formattedName(metric));
  }

  /** A base type with one threshold placeholder and no name placeholder,
      such as "{threshold} Overall", reads with the threshold's label in its
      place. */
  lemma FormatTypeThresholdOnly(cfg: Config, p: string, q: string, threshold: int, metric: Metric)
    requires '{' !in p && '{' !in q
    ensures FormatType(cfg, p + "{threshold}" + q, threshold, metric)
         == p + FormatThreshold(threshold, cfg.cappedMaxTotalXp) + q
  {
    SubstituteThresholdOnly(p, q, FormatThreshold(threshold, cfg.cappedMaxTotalXp), cfg.formattedName(metric));
  }
}
