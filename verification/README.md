# Achievement engine model

A Dafny model of the achievement engine of Wise Old Man, an Old School
RuneScape progress tracker. The engine lives in
`server/src/api/services/internal/achievement.service.ts`. It does four things:

- it expands the achievement templates into a catalog of definitions
  ("99 Attack", "1k Zulrah kills", "Maxed Overall");
- it detects which definitions a player crossed between two snapshots;
- it dates achievements whose date is unknown by scanning the player's
  snapshot history;
- it keeps the Achievement table in step with what the snapshots prove.

Modules, one per file:

| module | file | models |
|---|---|---|
| `Seqs` | seqs.dfy | `filter` (as `Select`), a query `limit` (as `Take`), `Math.min`, flattening |
| `Text` | text.dfy | `String(n)`, how JavaScript prints a number with up to two decimals, `String.prototype.replace` with a string pattern |
| `Model` | model.dfy | snapshots, templates, definitions, achievement rows, and the configuration the service imports |
| `Format` | format.dfy | `formatThreshold`, `formatType` |
| `Catalog` | catalog.dfy | `getDefinitions`, as functions and as the nested loops of the source |
| `Diff` | diff.dfy | `getNewAchievements`, `getPreviousAchievements` |
| `Backfill` | backfill.dfy | `addPastDates` |
| `Store` | store.dfy | the Achievement table as a class, `syncAchievements`, `reevaluateAchievements`, `getPlayerAchievements` |

The model covers the following:

- **Configuration.** The metric tables, the template tables, `CAPPED_MAX_TOTAL_XP`
  and the helpers `getDifficultyFactor`, `getFormattedName`, `getMeasure` and
  `getValueKey` are defined outside the service. Here they are fields of a
  `Config` value that every operation receives.
- **Template predicates.** A template's own `validate` function is named by a
  `CheckId`, and `Config.custom` evaluates it.
- **Snapshots.** A snapshot is a map from column to value plus a creation time
  in milliseconds. A column the snapshot lacks behaves like JavaScript's
  `undefined`: it is never `>=` a threshold and never `=== -1`.
- **Snapshot history.** The history is a parameter, newest snapshot first, as
  the snapshot service returns it. `Take` models the query limits of 10 and 1000.
- **The current time.** `new Date()` is the parameter `now`.
- **The table.** The Achievement table is the field `rows` of the class
  `Store.AchievementStore`, kept in insertion order. The methods of that class
  mirror the service's functions statement by statement. The functions next to
  them specify the methods, and the lemmas prove what the service promises.

Snapshot history is read newest first, as the snapshot query returns it:
pair `i` diffs `snapshots[i]` (as the current snapshot) against
`snapshots[i + 1]` (as the previous one), and the date recorded is the earlier
of the detection date and `snapshots[i + 1].createdAt`. As a result, the first
pair to detect a type is the newest one, and no later pair can replace its
date. This holds even when that date is epoch 0, because a `Date` object is
always truthy.

## Model

| member | source | states |
|---|---|---|
| Format.FormatThresholdCaps | server/src/api/services/internal/achievement.service.ts:17-19 | 13034431 is labelled "99"; the capped maximum total experience and 2277 are labelled "2277" |
| Format.FormatThresholdPlain | server/src/api/services/internal/achievement.service.ts:19 | below 1000 (or 2277) the label is the number itself: it parses back to the threshold |
| Format.FormatThresholdThousands | server/src/api/services/internal/achievement.service.ts:20 | from 1000 up to 10000 the label is digits followed by "k", and those digits are the threshold floored to thousands |
| Format.FormatThresholdMillions | server/src/api/services/internal/achievement.service.ts:22-23 | above 10000 and below 10^9 the label is a number followed by "m"; read back, it is the threshold in millions rounded half up to two decimals |
| Format.FormatThresholdBillions | server/src/api/services/internal/achievement.service.ts:25 | from 10^9 on, the same in billions, followed by "b" |
| Format.FormatThresholdExamples | server/src/api/services/internal/achievement.service.ts:16-25 | 500, 5000, 500000000 and 2500000000 are labelled "500", "5k", "500m" and "2.5b" |
| Format.FormatThreshold | server/src/api/services/internal/achievement.service.ts:16-26 | a label is never empty and never contains '{', so a label never creates a placeholder |
| Format.FormatType | server/src/api/services/internal/achievement.service.ts:28-34 | a base type without placeholders is returned unchanged |
| Format.FormatTypeThresholdAndName | server/src/api/services/internal/achievement.service.ts:28-34 | in a base type with a threshold placeholder followed by one name placeholder, the first becomes the threshold's label and the second the metric's formatted name; nothing else changes |
| Format.FormatTypeNameOnly | server/src/api/services/internal/achievement.service.ts:28-34 | a base type with one `{skill}`, `{activity}` or `{boss}` placeholder and no threshold placeholder (such as "1k {boss} kills") gets the metric's formatted name in its place |
| Format.FormatTypeThresholdOnly | server/src/api/services/internal/achievement.service.ts:28-34 | a base type with one `{threshold}` placeholder and no name placeholder (such as "{threshold} Overall") gets the threshold's label in its place; nothing else changes |
| Text.ReplaceFirstAfter | server/src/api/services/internal/achievement.service.ts:29-33 | a pattern that follows a prefix free of the pattern's first character is the occurrence `replace` substitutes |
| Text.IntToStringRoundTrip | server/src/api/services/internal/achievement.service.ts:19 | `String(n)` of an integer parses back to `n`, negative numbers included |
| Text.ParseNatToString | server/src/api/services/internal/achievement.service.ts:20 | the decimal digits of a natural number parse back to it |
| Text.HundredthsRoundTrip | server/src/api/services/internal/achievement.service.ts:23 | the printed form of a number of hundredths ("2.5", "1.25", "500") parses back to it |
| Text.ReplaceFirstAt | server/src/api/services/internal/achievement.service.ts:29-33 | `replace` with a string pattern replaces the first occurrence of the pattern, and only that one |
| Text.ReplaceFirstAbsent | server/src/api/services/internal/achievement.service.ts:29-33 | without an occurrence of the pattern the string is returned unchanged |
| Catalog.SkillFamily | server/src/api/services/internal/achievement.service.ts:47 | the skill family holds every skill but 'overall', and nothing that is not a skill |
| Catalog.ThresholdDefs | server/src/api/services/internal/achievement.service.ts:48-55 | one definition per raw threshold, in order; definition `j` is generated from threshold `j` times the difficulty factor |
| Catalog.ExpandThresholds | server/src/api/services/internal/achievement.service.ts:59-66 | the loop over one template's thresholds pushes exactly `ThresholdDefs` |
| Catalog.ExpandTemplate | server/src/api/services/internal/achievement.service.ts:43-71 | the three branches of one template push exactly `TemplateDefs` |
| Catalog.ExpandFamily | server/src/api/services/internal/achievement.service.ts:42-72 | the loop over a template table pushes exactly `FamilyDefs` |
| Catalog.BuildDefinitions | server/src/api/services/internal/achievement.service.ts:39-135 | `getDefinitions` returns exactly the catalog `Definitions`: skills, then activities, then bosses |
| Catalog.MemberDefsCount | server/src/api/services/internal/achievement.service.ts:46-56 | a metric-less template gives (family size) × (number of thresholds) definitions |
| Catalog.MemberDefsSound | server/src/api/services/internal/achievement.service.ts:46-56 | each such definition is generated for some member of the family and some threshold |
| Catalog.MemberDefsComplete | server/src/api/services/internal/achievement.service.ts:46-56 | every member of the family gets a definition for every threshold |
| Catalog.TemplateDefinition | server/src/api/services/internal/achievement.service.ts:43-71 | a definition's threshold is a raw threshold times its metric's difficulty factor. Generated definitions check `snapshot[valueKey(metric)] >= threshold`; a metric-less template's metric is a member of the family. A fixed template keeps its own type and predicate |
| Catalog.TemplateDefsCount | server/src/api/services/internal/achievement.service.ts:46-71 | a template gives \|family\| × k, k or exactly 1 definitions, by branch |
| Catalog.TemplateDefsSound | server/src/api/services/internal/achievement.service.ts:43-71 | every definition of a template is one the template stands for |
| Catalog.FamilyDefsCount | server/src/api/services/internal/achievement.service.ts:42-72 | a template table gives the sum of its templates' counts |
| Catalog.FamilyDefsSound | server/src/api/services/internal/achievement.service.ts:42-72 | every definition of a table comes from one of its templates |
| Catalog.DefinitionsCount | server/src/api/services/internal/achievement.service.ts:39-135 | the catalog's size is the sum of the counts of all three tables |
| Catalog.DefinitionOrigin | server/src/api/services/internal/achievement.service.ts:39-135 | every catalog threshold is some template's raw threshold times the difficulty factor. No generated skill definition is for 'overall' unless a skill template names 'overall' |
| Catalog.SkillTemplateCoversSkills | server/src/api/services/internal/achievement.service.ts:46-56 | a metric-less skill template yields a catalog definition for every skill except 'overall' and every threshold |
| Diff.NewAchievements | server/src/api/services/internal/achievement.service.ts:181-195 | nothing when either snapshot is missing. Otherwise every result crossed (false on previous, true on current) and is dated epoch 0 when the previous value was untracked (-1), else `now` |
| Diff.NewAchievementsExact | server/src/api/services/internal/achievement.service.ts:186-192 | the results keep the catalog order and are exactly the crossed definitions, each as often as the catalog lists it |
| Diff.NewAchievementsComplete | server/src/api/services/internal/achievement.service.ts:186-187 | every crossed catalog definition is reported |
| Diff.PreviousAchievements | server/src/api/services/internal/achievement.service.ts:203-213 | nothing for a missing snapshot; otherwise every result holds on the snapshot and is dated epoch 0 |
| Diff.PreviousAchievementsExact | server/src/api/services/internal/achievement.service.ts:208-210 | the results keep the catalog order and are exactly the definitions that hold, each as often as the catalog lists it |
| Diff.PreviousAchievementsComplete | server/src/api/services/internal/achievement.service.ts:208-209 | every catalog definition that holds on the snapshot is reported |
| Diff.NoSelfCrossing | server/src/api/services/internal/achievement.service.ts:187 | diffing a snapshot with itself reports nothing |
| Diff.NewAndBaselinePartition | server/src/api/services/internal/achievement.service.ts:187-209 | a newly crossed definition is never in the previous snapshot's baseline and always in the current one's. The current snapshot's baseline is contained in the previous baseline plus the newly crossed definitions |
| Backfill.RecordDetections | server/src/api/services/internal/achievement.service.ts:161-168 | the loop over one pair's detections computes `Record` |
| Backfill.RecordSpec | server/src/api/services/internal/achievement.service.ts:161-168 | a type already in the date map keeps its date; a new detected type gets min(detection date, bound); no other type is added |
| Backfill.ScanPairs | server/src/api/services/internal/achievement.service.ts:153-169 | the loop over consecutive pairs builds the date map of all pairs |
| Backfill.FirstDetectionWins | server/src/api/services/internal/achievement.service.ts:155-169 | the first pair that detects a type fixes its date; later pairs do not change it |
| Backfill.NeverDetected | server/src/api/services/internal/achievement.service.ts:155-169 | a type no pair detects is not in the date map |
| Backfill.AddPastDates | server/src/api/services/internal/achievement.service.ts:141-172 | `addPastDates` computes `PastDates` |
| Backfill.PastDatesShape | server/src/api/services/internal/achievement.service.ts:141-150 | the result has the same achievements in the same order with only dates changed. No achievements give none; fewer than two snapshots change nothing |
| Backfill.PastDatesDetected | server/src/api/services/internal/achievement.service.ts:155-171 | an achievement whose type some pair detects gets the date of the first detecting pair |
| Backfill.PastDatesDetectedDate | server/src/api/services/internal/achievement.service.ts:164-165 | that date is min(epoch 0, bound) or min(now, bound), where bound is the older snapshot's creation time |
| Backfill.PastDatesUndetected | server/src/api/services/internal/achievement.service.ts:171 | an achievement whose type no pair detects keeps its date |
| Store.InsertAll | server/src/api/services/internal/achievement.service.ts:283 | a bulk insert that ignores duplicates keeps the stored rows as they are and appends only rows of the batch |
| Store.InsertAllKeys | server/src/api/services/internal/achievement.service.ts:283 | afterwards the keys are those of the table and of the batch together |
| Store.InsertAllUnique | server/src/api/services/internal/achievement.service.ts:246-248 | a bulk insert keeps (player, type) keys unique |
| Store.InsertAllPresent | server/src/api/services/internal/achievement.service.ts:246-248 | inserting rows whose keys are all stored changes nothing |
| Store.InsertAllIdempotent | server/src/api/services/internal/achievement.service.ts:246-248 | repeating a bulk insert adds nothing |
| Store.InsertAllFresh | server/src/api/services/internal/achievement.service.ts:240 | a batch of unique keys none of which is stored is appended as a whole |
| Store.OfPlayer | server/src/api/services/internal/achievement.service.ts:261 | the player's rows are rows of the table that belong to the player |
| Store.Without | server/src/api/services/internal/achievement.service.ts:237 | deletion removes exactly the player's rows of the given types: every other row stays |
| Store.SyncBaselineStored | server/src/api/services/internal/achievement.service.ts:263-283 | after a sync, every achievement of the previous snapshot's baseline has a row for its type |
| Store.SyncNewStored | server/src/api/services/internal/achievement.service.ts:273-283 | after a sync, every achievement crossed between the two latest snapshots has a row for its type |
| Store.SyncCovers | server/src/api/services/internal/achievement.service.ts:250-284 | after a sync, the player has a row for every catalog definition that holds on the current or the previous snapshot |
| Store.SyncIdempotent | server/src/api/services/internal/achievement.service.ts:246-284 | a second sync on the same history inserts nothing, whatever the clock reads the second time |
| Store.NewsKeysClockFree | server/src/api/services/internal/achievement.service.ts:186-192 | the crossed achievements found at two different clocks are the same rows, index by index, except for their dates |
| Store.SyncBatchSound | server/src/api/services/internal/achievement.service.ts:250-283 | a sync inserts nothing without two snapshots. Otherwise every inserted row is the player's, and is either a re-dated row of the previous snapshot's baseline whose type the player did not store, or an achievement crossed between the two latest snapshots |
| Store.AchievementStore.BulkCreate | server/src/api/services/internal/achievement.service.ts:283 | the loop keeps keys unique and leaves `InsertAll(old rows, batch)` |
| Store.AchievementStore.Destroy | server/src/api/services/internal/achievement.service.ts:237 | keeps keys unique and leaves `Without(old rows, player, types)` |
| Store.AchievementStore.Sync | server/src/api/services/internal/achievement.service.ts:250-284 | keeps keys unique and inserts exactly `SyncBatch`: the dated missing baseline, then the newly crossed achievements |
| Store.ResolvedRows | server/src/api/services/internal/achievement.service.ts:220-231 | each resolved row is one of the player's epoch-0 rows, now dated after the epoch. No two resolved rows share a key |
| Store.ReevaluateReplaces | server/src/api/services/internal/achievement.service.ts:233-243 | re-dating removes the player's rows of the resolved types and appends the resolved rows; it changes nothing when nothing was resolved |
| Store.ReevaluateKeepsKeys | server/src/api/services/internal/achievement.service.ts:233-243 | re-dating neither loses nor adds a (player, type) key |
| Store.ReevaluateOtherPlayers | server/src/api/services/internal/achievement.service.ts:237-240 | re-dating one player leaves every other player's rows as they were, in order |
| Store.ReevaluateKeepsUnresolved | server/src/api/services/internal/achievement.service.ts:231-240 | re-dating keeps every row that is not one of the player's rows of a resolved type, including the player's rows of other types |
| Store.ReevaluateSingleRow | server/src/api/services/internal/achievement.service.ts:233-243 | after re-dating, a resolved type has exactly one row of the player: the resolved row, in the table and dated after the epoch |
| Store.ReplaceKeepsOthers | server/src/api/services/internal/achievement.service.ts:237-240 | deleting and re-inserting one player's rows leaves every other player's rows as they were |
| Store.AchievementStore.Reevaluate | server/src/api/services/internal/achievement.service.ts:220-244 | keeps keys unique and leaves `ReevaluateRows(old rows)` |
| Store.PlayerViewStored | server/src/api/services/internal/achievement.service.ts:292-300 | without missing entries the result is the player's rows in storage order, with no measure |
| Store.PlayerView | server/src/api/services/internal/achievement.service.ts:292-322 | the result starts with the player's stored rows, in order and with their dates, followed, when missing entries are asked for, by one entry per catalog definition the player has no row for. Every entry is the player's; it is missing exactly when it has no date, and measured exactly when missing entries are asked for |
| Store.AchievementStore.PlayerAchievements | server/src/api/services/internal/achievement.service.ts:292-322 | the same promises as `PlayerView`, on the current table: the player's stored rows first, in order, then the missing entries when asked for; every entry is the player's, missing exactly when undated and measured exactly when missing entries are asked for |
| Store.PlayerViewEntry | server/src/api/services/internal/achievement.service.ts:302-321 | every entry belongs to the player and carries its measure. An entry is missing exactly when it has no date. A missing entry's type is one the player has no row for; a present entry is one of the player's rows |
| Store.PlayerViewOrder | server/src/api/services/internal/achievement.service.ts:296-316 | entry `i` is the player's `i`-th stored row while there are any; after them come the missing catalog definitions in order, each entry carrying its definition's type, metric and threshold |
| Store.MissingDefsOrder | server/src/api/services/internal/achievement.service.ts:302-314 | the missing definitions keep the catalog's order, and a catalog definition is missing exactly when the player stores no row of its type, as often as the catalog lists it |
| Store.PlayerViewCovers | server/src/api/services/internal/achievement.service.ts:302-321 | with missing entries, the type of every catalog definition appears |
| Store.PlayerViewNewPlayer | server/src/api/services/internal/achievement.service.ts:302-321 | a player without rows sees the whole catalog in order, every entry missing and measured |

## Left out

- Database access, the transaction around delete and re-insert, and `async` scheduling are not modelled. The table is a sequence of rows, and `reevaluateAchievements` runs its two statements one after the other with no concurrent writer.
- `findAllForGroup` (lines 324-334) is not part of this model. It is a paginated, joined read with no reconciliation logic.
- The UI pages `app/src/pages/Top/containers/Controls.jsx` and `app/src/pages/SubmitNameChange/SubmitNameChange.jsx` are not part of this model.
- The snapshot service, the metric utilities and the constants module are not part of this model. Their results are the `history` parameter and the `Config` fields. Their actual values (the real template tables, difficulty factors, names and measures) are not modelled, so every property holds for any configuration.
- The wall clock: `new Date()` is the parameter `now`.
- Format.FormatThresholdMillions: models `Math.round((t / 10^6 + Number.EPSILON) * 100) / 100` as integer rounding half up in hundredths. Floating-point error, `Number.EPSILON` and exponent notation for huge or fractional values are not modelled. Non-integer thresholds are not modelled either.
- Format.FormatThresholdBillions: the same simplification as the millions branch.
- Text.ReplaceFirstAt: the `$` substitution patterns of JavaScript's `replace` (such as `$&`) inside the replacement string are not modelled. The replacement is inserted literally.
- Backfill.PastDates: the date map is a true map. In the source it is a plain object, so a type named like an `Object.prototype` member (such as "constructor") reads as truthy and would never be dated. Achievement types are not such names.
- Store.PlayerViewEntry: `parseInt(a.threshold)` is the identity, because thresholds are integers in the model. Stored rows carry `missing: false` where the source has no such field.
- Store.OfPlayer: `findAll` results are in insertion order. The database guarantees no order without `order`, so properties about order hold for that order.
- Catalog.Definitions: requires `ValidConfig`, which says that a template naming a metric with at most one threshold has exactly one threshold and its own predicate. With no threshold the source would produce a NaN threshold and an undefined predicate.
- Store.AchievementStore: requires unique (player, type) keys on entry, the composite key that makes `ignoreDuplicates` skip rows. Within one batch, the first row with a key wins.
