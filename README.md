# FieldsShowOn, modelled in Dafny

FieldsShowOn is a Joomla system plugin that gives custom fields a `showon`
condition: an expression such as `colour:red[AND]size:L[OR]size:XL` that says
when the field is shown. The plugin acts in three places:

- **Field definitions.** On a field-definition form (context
  `com_fields.field.*`) it adds the `showon` parameter, unless the component is
  disabled.
- **Forms that use custom fields.**
  - It first rewrites the `showon` attributes inside the sub-form of every
    subform field. Joomla renames sub-form fields, so the plugin translates each
    declared name to its temporary name using the map it built in
    `onCustomFieldsPrepareDom`.
  - It then runs a reconciliation loop until the fields the form holds stop
    changing. In that loop, a field whose condition names a field that is absent
    from the form either has its `showon` blanked (it must always show) or is
    removed (it must always hide).
- **Display.** When an item's fields are displayed, a field whose condition
  fails on the item's stored values gets `display = 0`.

The model is split into five modules:

- `Strings` (strings.dfy) covers the PHP string primitives the plugin relies on:
  - `strpos` is `IndexOf`, `str_contains` is `Contains` and `stripos` is
    `ContainsCI`;
  - `explode` is `Split`, and `explode` with limit 2 is `SplitOnce`;
  - `implode` is `Join` and `Concat`;
  - `trim`, `rtrim` and `ltrim` with a character, and `str_starts_with` /
    `str_ends_with`.
- `ShowOn` (showon.dfy) covers the `showon` parser, both evaluators, and the
  three-way decision of `evaluateShowOn`.
- `Rework` (rework.dfy) covers:
  - the sub-form name map (`customFieldMap`), an ordered association list;
  - `array_search`;
  - `reworkShowOn`, both as a specification function and as the loop method;
  - `reworkFormSource`, over an element tree.
- `Forms` (form.dfy) covers the host form as a class holding its fieldsets. One
  reconciliation pass is specified as a function, generic in the decision it
  applies. Its lemmas prove:
  - a pass only removes names;
  - a pass that removes nothing is idempotent;
  - the names a pass records are the form's names when the pass starts.
- `Plugin` (plugin.dfy) covers the plugin object (class `FieldsShowOn`), with:
  - its name map and its per-item cache of field values;
  - the three event handlers;
  - the disabled-component gates;
  - the extraction of a field's own name from its control name;
  - the reconciliation loop, proved to end on a settled form.

Host services are parameters:

- `fetch(context, id)` stands for loading all custom fields of an item and
  indexing their raw values by name.
- The form's fieldsets are the state of a `Form` object.

Where the code does something surprising, the model does the same and proves it:

- **The rewriter drops every delimiter it cuts at.** It joins the segments
  with `implode('', …)`. `Rework.DelimitersDropped` states this. With both
  kinds present, it cuts at the later one, so the earlier one stays inside its
  segment: with an empty map, `a:1[AND]b[OR]c:3` becomes `a:1[AND]bc:3`.
  `Rework.ReworkKeepsEarlier` states this for every such showon.
- **At a mixed delimiter it splits at the later one.** `strpos('[AND]') >
  strpos('[OR]')` selects `[AND]`. `Rework.StreamFirstCut` states this.
- **Matching `[AND]` is case-insensitive, splitting it is not.** The test for
  `[AND]` uses `stripos`, but the split uses the case-sensitive `explode`. So a
  branch holding only `[and]` keeps its whole text as its OR atom, and the AND
  list becomes `[""]`. `ShowOn.LowercaseAnd` states this.
- **Only the last AND-bearing branch counts.** When several OR branches contain
  `[AND]`, each one overwrites `$showon['and']`, so only the last branch's AND
  atoms are kept. Every branch is still cut at its first `[AND]`.
- **An atom without `:` has no error path.** `[$name, $value] =
  explode(':', $atom)` leaves the value `null`, and PHP compares `null` like
  the empty string. Such an atom therefore names the whole atom and expects
  `""` (`ShowOn.AtomWithoutColon`).
- **`empty()` also counts `"0"` as empty.** A trimmed showon of `"0"` is
  skipped by both evaluators. A `"0"` remainder is dropped by the rewriter, and
  a child showon of `"0"` is not rewritten. The model uses PHP truthiness
  (`Strings.Truthy`) at each of these guards.
- **The loop runs 2 to N + 2 passes for N field names.** The
  signature starts as `''`, which `md5` never returns, so the loop runs at least
  two passes. It stops on the first pass that records the same names as the pass
  before it, which gives at most N + 2 passes (`Plugin.Settled`).

## Model

| member | source | states |
|---|---|---|
| Strings.IndexOf | src/Extension/FieldsShowOn.php:586-587 | `strpos`: the result is the first position where the needle occurs, and none means it occurs nowhere |
| Strings.SplitOnce | src/Extension/FieldsShowOn.php:589 | `explode($d, $s, 2)` on a string holding `$d`: the two parts put back around `$d` give the input, and the first part holds no `$d` |
| Strings.SplitJoin | src/Extension/FieldsShowOn.php:269 | `implode($d, explode($d, $s)) == $s`: explode loses nothing |
| Strings.SplitPiecesFree | src/Extension/FieldsShowOn.php:269 | no piece that `explode` returns contains the delimiter |
| Strings.ContainsImpliesContainsCI | src/Extension/FieldsShowOn.php:381 | a case-sensitive occurrence of `[AND]` is also found by `stripos` |
| Strings.LTrimChar | src/Extension/FieldsShowOn.php:194 | `ltrim($s, $c)`: the result is a suffix of the input, does not start with `$c`, and only `$c` was removed |
| Strings.RTrimChar | src/Extension/FieldsShowOn.php:193 | `rtrim($s, $c)`: the result is a prefix of the input, does not end with `$c`, and only `$c` was removed |
| Strings.TrimEmpty | src/Extension/FieldsShowOn.php:365-370 | `trim` yields the empty string exactly when every character is whitespace that `trim` strips |
| ShowOn.ParseShowOn | src/Extension/FieldsShowOn.php:374-389 | the parsing loop yields `Parse(t)`: the OR branches of `t`, each cut at its first `[AND]`, and the AND atoms of the last branch that contains `[AND]` in any case |
| ShowOn.WalkBranches | src/Extension/FieldsShowOn.php:377-389 | each OR branch is replaced by its text before `[AND]`, and the AND list is the one taken from the last AND-bearing branch |
| ShowOn.CutBranch | src/Extension/FieldsShowOn.php:381-386 | a branch is cut exactly when `stripos` finds `[AND]`; the tail is the pieces after the first case-sensitive `[AND]`, or `[""]` when only a lowercase `[and]` is present |
| ShowOn.LastAndBranchSpec | src/Extension/FieldsShowOn.php:379-386 | the branch whose AND atoms survive contains `[AND]` case-insensitively, and no later branch does |
| ShowOn.ParseRoundTrip | src/Extension/FieldsShowOn.php:374-389 | with a single AND-bearing branch, gluing its AND atoms back onto its OR atom and joining the branches with `[OR]` gives back the attribute |
| ShowOn.ParseWithoutAnd | src/Extension/FieldsShowOn.php:375-389 | without `[AND]` the OR atoms are exactly the `[OR]` pieces and there are no AND atoms |
| ShowOn.ParseAtomsFree | src/Extension/FieldsShowOn.php:375-389 | there is one OR atom per `[OR]` branch, no OR atom holds `[OR]` or `[AND]`, and no AND atom holds `[AND]` |
| ShowOn.LowercaseAnd | src/Extension/FieldsShowOn.php:381-386 | a branch whose only AND marker is lowercase keeps its whole text as its OR atom, and the AND list is `[""]` |
| ShowOn.AtomParts | src/Extension/FieldsShowOn.php:398 | `[$fieldName, $fieldValue] = explode(':', $value)` takes the text before the first `:` and the text up to the second; the atom starts with `name:value`, and is exactly that when it has one `:` |
| ShowOn.AtomWithoutColon | src/Extension/FieldsShowOn.php:398 | an atom without `:` names the field spelt by the whole atom and expects the empty value |
| ShowOn.CheckAnds | src/Extension/FieldsShowOn.php:394-407 | the AND loop fails exactly when some AND atom does not hold, and reports whether every field it names is in the form |
| ShowOn.CheckOrs | src/Extension/FieldsShowOn.php:409-416 | one boolean per OR atom, true exactly when that atom holds, and whether every field they name is in the form |
| ShowOn.EvaluateConditions | src/Extension/FieldsShowOn.php:391-418 | `$shouldHide` is true exactly when an AND atom fails or no OR atom holds; `$hasAllFields` is true exactly when every named field is in the form |
| ShowOn.HideOnDisplay | src/Extension/FieldsShowOn.php:285-310 | the display evaluator, which stops at the first failing AND atom, hides exactly when the form evaluator would hide |
| ShowOn.DecideCases | src/Extension/FieldsShowOn.php:365-448 | a showon that is not empty once trimmed: no action exactly when every named field is present; blank the showon exactly when a field is missing and the condition shows; remove the field exactly when a field is missing and it hides |
| ShowOn.DecideBlank | src/Extension/FieldsShowOn.php:365-370 | a showon that is all whitespace, or `"0"` once trimmed, is never acted on (`empty()` counts both as empty) |
| Rework.Lookup | src/Extension/FieldsShowOn.php:340 | a found value is stored under the key, and nothing means no entry has that key |
| Rework.PutLookup | src/Extension/FieldsShowOn.php:340 | `$map[$name] = $fieldname`: the key now maps to the new value and every other key keeps its value |
| Rework.PutKeys | src/Extension/FieldsShowOn.php:340 | overwriting keeps a key's place in the order; a new key is appended at the end |
| Rework.PutUnique | src/Extension/FieldsShowOn.php:340 | assigning a key keeps the keys unique |
| Rework.Search | src/Extension/FieldsShowOn.php:611 | `array_search`: the key of the first entry holding the value, and nothing when no entry holds it |
| Rework.Delimiter | src/Extension/FieldsShowOn.php:586-588 | the delimiter chosen is `[AND]` or `[OR]` and occurs in the text |
| Rework.StreamFirstCut | src/Extension/FieldsShowOn.php:586-591 | the first segment ends at the chosen delimiter. With both delimiters present, `[AND]` is chosen exactly when it comes after `[OR]`, so the cut is at the later one |
| Rework.StreamLossless | src/Extension/FieldsShowOn.php:584-598 | the streamed segments, the delimiters cut and the remaining text put back together give the attribute |
| Rework.ReworkShowOn | src/Extension/FieldsShowOn.php:579-616 | the method computes `ReworkShowOnF`: the segments streamed out of the attribute, each rewritten, concatenated |
| Rework.CollectSegments | src/Extension/FieldsShowOn.php:582-598 | the streaming loop, and the remainder unless it is `''` or `'0'`, yield `Tokenize(showon)` |
| Rework.RewriteSegments | src/Extension/FieldsShowOn.php:601-613 | the by-reference loop rewrites every segment in place, in order |
| Rework.RewriteSegment | src/Extension/FieldsShowOn.php:603-612 | one segment: unchanged without `:`, otherwise rewritten by the map |
| Rework.TranslateUnmapped | src/Extension/FieldsShowOn.php:608-612 | an unmapped name without `!` keeps its `name:value` form; the segment is cut after its second `:`, and is unchanged when it has one |
| Rework.TranslateDoublesBang | src/Extension/FieldsShowOn.php:610-612 | an unmapped name ending in `!` gets a second `!` (`a!:1` becomes `a!!:1`) |
| Rework.TranslateMapped | src/Extension/FieldsShowOn.php:611-612 | a declared name found in the map is replaced by the key of its first entry, when that key is truthy |
| Rework.SingleAtomRoundTrip | src/Extension/FieldsShowOn.php:579-616 | a single `name:value` atom whose name is not in the map comes back unchanged |
| Rework.DelimitersDropped | src/Extension/FieldsShowOn.php:591-615 | when no segment is rewritten, the result is the cut segments joined with every delimiter the loop cut at removed (and a remainder of `'0'` dropped), while the attribute itself is those segments interleaved with those delimiters; a delimiter inside a segment stays |
| Rework.EarlierDelimiterKept | src/Extension/FieldsShowOn.php:584-591 | with both `[AND]` and `[OR]` present, the first segment still holds the delimiter the loop did not cut at |
| Rework.ReworkKeepsEarlier | src/Extension/FieldsShowOn.php:584-615 | when the map changes no segment, the rewritten showon of a text holding both delimiters still holds the earlier one; only the one cut at is lost |
| Rework.ReworkFormSourceShape | src/Extension/FieldsShowOn.php:530-568 | the tag, the root showon and the shape of the tree are kept; each direct child's `form` children are reworked recursively and its other children are left alone; each child showon is rewritten unless it is `''` (absent) or `'0'` |
| Rework.ReworkFormSourceIdentity | src/Extension/FieldsShowOn.php:530-568 | a sub-form whose showons the rewriter leaves unchanged, at every level it visits, comes back unchanged |
| Forms.Filter | src/Extension/FieldsShowOn.php:448 | removing a name from a fieldset keeps exactly the other names |
| Forms.FilterExact | src/Extension/FieldsShowOn.php:448 | no field with the name is left, and every other field keeps its multiplicity |
| Forms.FilterUnique | src/Extension/FieldsShowOn.php:448 | removing a field keeps the fieldset's names unique |
| Forms.RemoveNameEffect | src/Extension/FieldsShowOn.php:448 | `removeField`: the form's names lose exactly that name, an absent name changes nothing, and unique names stay unique |
| Forms.RemoveNameExact | src/Extension/FieldsShowOn.php:448 | in every fieldset, no field with the name is left and every other field keeps its multiplicity |
| Forms.BlankNameExact | src/Extension/FieldsShowOn.php:438 | blanking the showon of the field with a name changes that field's showon to `''` and nothing else |
| Forms.SameNamesAgree | src/Extension/FieldsShowOn.php:196 | forms with the same field names in the same places agree on their names, their name set and uniqueness |
| Forms.RunFieldsetShrinks | src/Extension/FieldsShowOn.php:210-214 | evaluating the fields of one fieldset only removes names and keeps them unique |
| Forms.RecordedNames | src/Extension/FieldsShowOn.php:206-215 | the names recorded while the pass walks the fieldsets are the names they held when each was read |
| Forms.PassRecords | src/Extension/FieldsShowOn.php:204-217 | the names one pass records are the form's names when the pass starts |
| Forms.PassProgress | src/Extension/FieldsShowOn.php:202-225 | a pass keeps names unique and only removes names; either the names are unchanged or the name set strictly shrinks |
| Forms.PassQuiesces | src/Extension/FieldsShowOn.php:206-215 | a pass that removes nothing only blanks showons, once, as decided on the form it starts from |
| Forms.PassIdempotent | src/Extension/FieldsShowOn.php:217-222 | a pass that leaves the names unchanged is idempotent: the next pass changes nothing |
| Forms.Form.GetFieldset | src/Extension/FieldsShowOn.php:208 | `getFieldset` returns the fieldset as it is now |
| Forms.Form.RemoveField | src/Extension/FieldsShowOn.php:448 | the form's new state is `RemoveName` of the old one |
| Forms.Form.BlankShowon | src/Extension/FieldsShowOn.php:438 | the form's new state is `BlankName` of the old one |
| Forms.Form.SetFormsource | src/Extension/FieldsShowOn.php:196 | the form's new state is the old one with the sub-form set on the named field |
| Plugin.IsDefinitionDisabled | src/Extension/FieldsShowOn.php:135-141 | the definition gate fires exactly when the context starts with `com_fields.field.` followed by a disabled component |
| Plugin.IsUsageDisabled | src/Extension/FieldsShowOn.php:164-170 | the usage gate fires exactly when the context starts with a disabled component followed by `.` |
| Plugin.UsageGateNeedsDot | src/Extension/FieldsShowOn.php:251-257 | disabling `c` gates `c.article` and not `cbar.article` |
| Plugin.FieldKeyOfControl | src/Extension/FieldsShowOn.php:191-194 | the name extraction recovers `tour-dates` from a control name `…[tour-dates]` whose prefix is empty or ends in `]` |
| Plugin.LastPieceAfter | src/Extension/FieldsShowOn.php:193-194 | the last piece of `explode` is the text after the last delimiter |
| Plugin.ReworkField | src/Extension/FieldsShowOn.php:181-189 | reworking a field's sub-form changes neither its names nor its showon, and only a field with a sub-form gets one |
| Plugin.SourcesReworkedOnce | src/Extension/FieldsShowOn.php:172-198 | with unique names and well-formed control names, the formsource loop reworks every sub-form exactly once, as found when the loop starts, and changes nothing else |
| Plugin.MixSrcFieldset | src/Extension/FieldsShowOn.php:179-197 | the loop over one fieldset reworks exactly that fieldset's sub-forms |
| Plugin.DecideWithKeepsBlank | src/Extension/FieldsShowOn.php:365-370 | with any item's values, evaluating a blank showon does nothing |
| Plugin.LoopAdvances | src/Extension/FieldsShowOn.php:202-225 | one loop turn either settles the form or keeps the loop invariant with a strictly smaller measure |
| Plugin.ReconcileStops | src/Extension/FieldsShowOn.php:217-222 | equal signatures end the loop on a form that a further pass leaves unchanged |
| Plugin.ReconcileContinues | src/Extension/FieldsShowOn.php:217-224 | different signatures keep the loop invariant, and the name set has strictly shrunk |
| Plugin.FieldsShowOn.constructor | src/Extension/FieldsShowOn.php:125 | a new plugin has the given disabled components, an empty name map and an empty cache |
| Plugin.FieldsShowOn.GetCachedFields | src/Extension/FieldsShowOn.php:465-514 | returns the cached values of the item, or fetches them and caches them under its id; the name map is untouched |
| Plugin.FieldsShowOn.PrepareDom | src/Extension/FieldsShowOn.php:327-342 | the temporary name is recorded against the declared name exactly when the declared name is truthy; map keys stay unique |
| Plugin.FieldsShowOn.BeforePrepareField | src/Extension/FieldsShowOn.php:239-311 | `display` is set to 0 exactly when the context is not disabled, the trimmed showon is neither `''` nor `'0'`, and it hides on the item's values; it is never set to show. The cache is unchanged when the context is disabled or the showon is empty, and otherwise gains the item's values under its id |
| Plugin.FieldsShowOn.EvaluateShowOn | src/Extension/FieldsShowOn.php:363-449 | the form becomes `Step` of the old form: unchanged, the field's showon blanked, or the field removed, as `Decide` says on the item's values and the names present now. The cache is unchanged for an empty showon and otherwise gains the item's values under its id |
| Plugin.FieldsShowOn.PassFieldset | src/Extension/FieldsShowOn.php:208-214 | evaluates the fields of the fieldset copy in order against the form as it changes, and records their names; the cache is as it was or gains the item's values under its id (`CacheExtended`) |
| Plugin.FieldsShowOn.Pass | src/Extension/FieldsShowOn.php:204-215 | the form becomes `PassF` of the old one and the recorded names are the `Recorded` names; the cache is as it was or gains the item's values under its id |
| Plugin.FieldsShowOn.VisitFieldset | src/Extension/FieldsShowOn.php:206-215 | reading fieldset `i` afresh, recording its names and evaluating its fields keeps the pass invariant one fieldset further and keeps the cache an extension of the one the pass began with |
| Plugin.FieldsShowOn.ReworkFieldsetSources | src/Extension/FieldsShowOn.php:179-197 | the inner formsource loop is `RunSources` over the fieldset copy |
| Plugin.FieldsShowOn.ReworkSources | src/Extension/FieldsShowOn.php:172-198 | the formsource loop is `RunSourceSets`, each fieldset read when the loop reaches it |
| Plugin.FieldsShowOn.Reconcile | src/Extension/FieldsShowOn.php:200-225 | the loop ends after 2 to N + 2 passes for N field names. The result is the form after that many passes, and a further pass leaves it unchanged. Every pass but the last two changed the names, and the last-but-one did not. The cache is as it was or gains the item's values under its id |
| Plugin.FieldsShowOn.ReconcileLoop | src/Extension/FieldsShowOn.php:200-225 | the same settled-form guarantee, from the form and the item's values as the loop starts, with the same cache guarantee |
| Plugin.FieldsShowOn.Advance | src/Extension/FieldsShowOn.php:204-224 | one pass and the signature comparison keep the loop state and lower the loop measure, and keep the cache an extension of the one the loop began with |
| Plugin.FieldsShowOn.PrepareForm | src/Extension/FieldsShowOn.php:115-226 | a field-definition form is left alone (disabled or showon param added); a disabled component's form is left alone; any other form ends settled, reached from the form after the formsource loop. The cache is untouched on the two early paths, and on the last it is as it was or gains the item's values under its id |

## Left out

- XML is not parsed or serialised. A sub-form is an `Element` tree (tag, showon,
  children), and `SimpleXMLElement`, `dom_import_simplexml`, `saveXML`,
  `importNode`, `replaceChild` and `asXML` are not modelled. Attributes other
  than `showon`, text nodes and the document wrapper are not modelled either.
- The `showon.xml` field that `setField` adds to a field-definition form is not
  modelled. That path ends in the `ShowonParamAdded` outcome, and the form is
  unchanged in the model.
- Hashing is not modelled. The loop signature `md5(implode(':', names))` is the
  name sequence itself, and the initial `''` signature is `None`. This treats
  md5 as injective on the names the loop sees. It also treats a `:` inside a
  field name as unambiguous.
- The cache key `md5($item->id ?? '')` is the id itself, with `""` for an item
  that has no id.
- The static `self::$itemFields` cache is an instance field of the plugin
  object, and it is shared by every call on that object.
- Everything `getCachedFields` does through reflection and `FieldsHelper`
  (posing as a super user, clearing the model cache, `ArrayHelper::pivot`) is
  not modelled. It is the `fetch(context, id)` parameter, which returns the
  field values by name.
- PHP loose comparison `!=`/`==` between a raw value and an expected value is
  string equality, so numeric strings such as `"1"` and `"01"` are not
  identified. Item values are strings, so the `null` raw value of a field that
  was never saved is not modelled. `empty($itemFields[$name])` is "the name is not in the snapshot".
- The PHP warnings that malformed atoms raise (undefined offset, `explode` on
  `null`) are not modelled. Execution continues, and so does the model.
- Event dispatch, `getSubscribedEvents`, language loading and
  services/provider.php are not part of this model.
- Forms.Form.BlankShowon: blanking `$field->showon = ''` is modelled
  as persisting on the form's field record. In Joomla it writes to the
  `FormField` object that `getFieldset` returned.
- Plugin.FieldsShowOn.Reconcile: the settled-form guarantee assumes the form's
  custom field names are unique (`Unique`), as Joomla's custom fields are.
- Plugin.FieldsShowOn.PrepareForm: on the reconcile path it assumes the same
  unique names (`Unique`); the field-definition and disabled paths assume
  nothing.
- Rework.Search: `array_search` compares loosely, so in PHP 8 a reference
  `"01"` finds the declared name `"1"` and `"1e1"` finds `"10"`. The model
  compares names as exact strings.
- Plugin.SourcesReworkedOnce: this assumes every control name ends in
  `[fieldname]` (`WellKeyed`), as Joomla names custom fields. Without it the
  model still computes what the loop does (`RunSourceSets`), but the
  exactly-once statement is not proved.
- Forms.Form.RemoveField: Joomla's `removeField($name, 'com_fields')` removes the
  one field `findField` returns, the first with that name. The model removes
  every field with the name from the com_fields fieldsets, which is the same
  field when names are unique (`Unique`). The form's other groups are not
  modelled.
- Forms.Form.SetFormsource: Joomla's `setFieldAttribute` also acts on the first
  field `findField` returns. The model (`Forms.SetSource`) sets the sub-form on
  every field with the name, which is the same field under unique names.
