# SafeDOM.ai core in Dafny

SafeDOM.ai turns a marked-up document subtree into a payload that is safe to
send to a language model. Elements opt in with a `data-ai` directive:
`include`, `exclude` or `redact:<types>`. An optional `data-ai-label` names
the field an element's text goes to. Redaction replaces every match of a rule's
pattern with a numbered placeholder such as `__EMAIL_1__` and records what it
replaced. A separate helper puts the originals back, and an auditor reports
placeholder-shaped tokens that no record accounts for.

The project models four linked parts as immutable datatypes and pure
functions:

- `RedactionEngine` (`redaction.dfy`): `validateRedactionRules`, the
  default rule list as data, and `applyRedactions`. Each rule is applied in
  turn to the text the previous rules left, and one counter runs across all
  rules.
- `Dom`, `Traversal`, `Context` (`dom.dfy`, `traversal.dfy`, `context.dfy`):
  - the element tree and the parent-chain predicates of the DOM helpers;
  - the breadth-first `collectAiElements`;
  - the pre-order `collectFallbackText`;
  - `selectRules`, `appendField` and `buildAiContext`.
- `Reinject` (`reinject.dfy`): `reinjectPlaceholders`, an ordered
  split/join replacement of each placeholder by its original.
- `Placeholders` (`placeholders.dfy`): the token shape `__[A-Z]+_\d+__`, a
  hand-written scanner equivalent to the global pattern, and
  `findUnknownPlaceholders`.

The record shapes of `src/types.ts` are in `Types` (`types.dfy`). Supporting
modules:

- `Wrappers`: `Option`/`Result`.
- `Strings`: trimming, whitespace splitting, joining, decimal numerals.
- `Seqs`: small sequence lemmas.

The round trip `reinjectPlaceholders(applyRedactions(x)) == x` is proved in
`RoundTrip`. The proof follows every character of the redacted text back to
where it came from: a "trace" in `Cells`, rebuilt rule by rule in
`SpliceTrace` and undone placeholder by placeholder in `Refill`.

The host's regular-expression engine is a parameter of type `Engine`. It is
any function from a pattern's source, its flags and a text to match spans
that lie inside the text, are sorted and do not overlap. Because it is a
pure function, a fresh `RegExp` per call and the absence of `lastIndex`
state between calls come for free. A non-global pattern makes
`String.prototype.replace` visit only the first match, and the model keeps
only that one.

## Findings

`applyRedactions` numbers its placeholders "to avoid collisions"
(`src/redaction.ts:50-51`), and `reinjectPlaceholders` is meant to undo it.
Three inputs show that neither promise holds for every input.

| source | as written | input that shows it | evidently intended | confidence | as-written member | corrected member |
|---|---|---|---|---|---|---|
| node/src/reinject.ts:20-28 | Records are applied in the order they were produced. A later record whose original contains an earlier placeholder puts that placeholder back after the earlier placeholder's own record has already run. | Input `x`. Rule `__A_` matches `x`, then rule `__B_` matches `__A_1__`. The text reads `__B_2__` and reinjects to `__A_1__`. | Reinjecting the records gives back the input. | not executed | RoundTrip.MatchInsidePlaceholder | RoundTrip.ReinjectInvertsRedaction |
| node/src/reinject.ts:26 | `split(placeholder)` finds the leftmost occurrence, which may start in the input's own text. | Input `__A_1x` with `x` redacted by rule `__A_`. The text reads `__A_1__A_1__` and reinjects to `xA_1__`. | Reinjecting the records gives back the input. | not executed | RoundTrip.PlaceholderAcrossEdge | RoundTrip.ReinjectInvertsRedaction |
| src/redaction.ts:70 | The placeholder is the prefix followed by the counter's decimal digits, whatever the prefix ends with. | Prefix `__A1` with counter 1 and prefix `__A` with counter 11 both give `__A11__`. One call does this when a rule with prefix `__A1` matches ten times before a rule with prefix `__A` matches once. | Placeholders within one call are pairwise distinct. | not executed | RedactionEngine.DigitPrefixCollision | RedactionEngine.RedactionPlaceholdersDistinct |

The corrected members state the conditions under which the promise holds.
The proved round trip requires:

- an input without `_`;
- rule prefixes of the shape `__[A-Z]+_`;
- a counter that starts at zero or above;
- every visited match non-empty and lying only on characters that came
  from the input (`SpliceTrace.TraceOk`).

Distinct placeholders require only rule prefixes that are empty or do not
end in a digit, and a start at zero or above.

The only validation in the code is the global-flag check.
`buildAiContext` runs it once, at `src/domCollector.ts:106`, and
`applyRedactions` checks nothing.

## Model

| member | source | states |
|---|---|---|
| RedactionEngine.ValidateRules | src/redaction.ts:7-13 | Succeeds exactly when every rule's pattern is global (so on the empty list). A failure names a non-global rule that every earlier rule passes. |
| RedactionEngine.DefaultRulesValid | src/redaction.ts:19-47 | The default rule set passes validation. |
| RedactionEngine.RuleMatches | src/redaction.ts:68-69 | The matches a replacement visits are well-formed spans of the working text. A global pattern visits the engine's whole scan; a non-global one visits only its first match, and nothing when the scan is empty. |
| RedactionEngine.ApplyRedactions | src/redaction.ts:53-82 | Empty input gives empty text and no records whatever the rules and start; an empty rule list gives the input back with no records. |
| RedactionEngine.SpliceRecords | src/redaction.ts:69-77 | The i-th visited match of one rule becomes the i-th record: that rule's placeholder for counter `start + i` and type, with the matched text of the working string as original. |
| RedactionEngine.RulesNumbered | src/redaction.ts:64-79 | Records come out rule-major. The i-th record carries counter `counter + i` and the prefix and type of its rule, and the rule index never decreases along the list. |
| RedactionEngine.RedactionsNumbered | src/redaction.ts:53-82 | The same numbering for a whole call on a non-empty input, starting at `startIndex`. |
| RedactionEngine.NoMatchesUnchanged | src/redaction.ts:62-81 | When no rule matches the text, it comes back unchanged with no records. |
| RedactionEngine.PlaceholdersDistinct | src/types.ts:23-26 | Placeholders from prefixes not ending in a digit, with different non-negative counters, differ. |
| RedactionEngine.DigitPrefixCollision | src/redaction.ts:70 | Prefix `__A1` with counter 1 and prefix `__A` with counter 11 give the same placeholder `__A11__`. |
| RedactionEngine.RedactionPlaceholdersDistinct | src/redaction.ts:64-79 | Within one call with a non-negative start, and with every rule prefix empty or not ending in a digit, all placeholders are pairwise distinct. |
| Placeholders.GeneratedPlaceholderIsToken | src/types.ts:23-26 | A placeholder from a prefix of the shape `__[A-Z]+_` and a non-negative counter has the auditor's token shape. |
| Placeholders.MatchAtIsToken | src/utils/placeholders.ts:1 | What the pattern matches at a position is a token of the shape `__[A-Z]+_\d+__`. |
| Placeholders.MatchAtToken | src/utils/placeholders.ts:1 | Conversely, any token sitting at a position is exactly what the pattern matches there, whatever follows. |
| Placeholders.UnknownTokens | src/utils/placeholders.ts:9-19 | Set insertion over the scanned tokens equals the first-seen list of unknown tokens. Each is a token of the text and not known, no token appears twice, and every scanned unknown token is present. |
| Placeholders.FindUnknownPlaceholders | src/utils/placeholders.ts:7-20 | Returns the first-seen list of the scan's unknown tokens. Each has the placeholder shape, occurs in the text and is not known. There are no duplicates, and every scanned token is either known or returned (empty text gives the empty list). |
| Reinject.SplitJoin | node/src/reinject.ts:26 | `split(p).join(o)` equals the leftmost, non-overlapping replace-all of `p` by `o`. |
| Reinject.ReplaceAllNoOccurrence | node/src/reinject.ts:26 | A text without an occurrence of the placeholder is left unchanged. |
| Reinject.ReplaceAllSelf | node/src/reinject.ts:26 | Splitting on `p` and joining with `p` gives the text back. |
| Reinject.ReinjectPlaceholders | node/src/reinject.ts:11-18 | Empty text yields empty text, and an empty record list returns the text unchanged. |
| Reinject.ReinjectEachAppend | node/src/reinject.ts:20-28 | Records apply in list order: the result for `a + b` is `b` applied to the result for `a`. |
| Reinject.EmptyPlaceholderSkipped | node/src/reinject.ts:22-24 | A record with an empty placeholder has no effect. |
| Reinject.ReinjectNoPlaceholders | node/src/reinject.ts:11-28 | Text containing none of the non-empty placeholders comes back unchanged. |
| Refill.ReplaceIsFill | node/src/reinject.ts:26 | On a well-formed trace, replacing every occurrence of a placeholder equals putting back the original of each copy of that placeholder in the trace. |
| SpliceTrace.RulesText | src/redaction.ts:66-79 | Redacting the trace rule by rule spells exactly the text `applyRedactions` produces. |
| SpliceTrace.RulesOrig | src/redaction.ts:69-77 | When every match lies on input characters, the redacted trace still stands for the input. |
| RoundTrip.ReinjectInvertsRedaction | node/src/reinject.ts:20-28 | Reinjecting the records into the redacted text gives back the input, under the conditions listed above. |
| RoundTrip.OneRuleRoundTrip | src/redaction.ts:66-79 | With a single rule, the round trip needs only non-empty matches, an input without `_` and a shaped prefix. |
| RoundTrip.DefaultRulesRoundTrip | src/redaction.ts:19-47 | The default rules' prefixes are shaped, so the round trip holds for them under the trace condition. |
| RoundTrip.MatchInsidePlaceholder | src/redaction.ts:66-79 | A second rule that matches the first rule's placeholder makes reinjection return `__A_1__` instead of the input `x`. |
| RoundTrip.PlaceholderAcrossEdge | node/src/reinject.ts:26 | An input `__A_1x` with no placeholder in it, with `x` redacted, reinjects to `xA_1__`: the leftmost occurrence starts in the input's own text. |
| Dom.HasDataAiIsDirective | src/utils/domUtils.ts:17-20 | `hasDataAi` holds exactly when the attribute is present and non-blank after trimming. |
| Dom.ExcludedHasDataAi | src/utils/domUtils.ts:17-24 | The untrimmed `exclude` value implies `hasDataAi`, and its trimmed directive is `exclude`. |
| Dom.InExcludedSubtreeIff | src/utils/domUtils.ts:26-35 | The walk succeeds exactly when the element or some ancestor is excluded. |
| Dom.InLabeledSubtreeIff | src/utils/domUtils.ts:37-46 | The walk succeeds exactly when the element or some ancestor has a non-blank `data-ai`. |
| Dom.ExcludedSubtreeIsLabeled | src/utils/domUtils.ts:26-46 | Being inside an excluded subtree implies being inside a labelled one. |
| Dom.SubtreeMonotone | src/utils/domUtils.ts:26-46 | If a parent satisfies either walk, so does each of its children. |
| Traversal.BfsIsLevelOrder | src/domCollector.ts:23-48 | The queue loop equals the level-order reference. Each level keeps its collected elements, and an `exclude` element contributes no children. |
| Traversal.BfsCollectsReach | src/domCollector.ts:23-48 | Draining the queue collects exactly the collected elements of the pruned pre-order walk, with the same multiplicities. |
| Traversal.CollectAiElements | src/domCollector.ts:23-48 | The loop returns the level order from the root, which as a multiset is the collected elements of the pruned walk. Each one has a non-blank trimmed directive other than `exclude` and is not excluded. Children of `include`/`redact:` elements are still visited. |
| Traversal.ExcludedRootCollectsNothing | src/domCollector.ts:37-40 | A root whose trimmed directive is `exclude` yields no elements. |
| Traversal.FallbackTrimmed | src/domCollector.ts:63-72 | Every gathered fallback part is non-blank and already trimmed. |
| Traversal.LabeledChainNoFallback | src/domCollector.ts:63-72 | No text under an element with a directive is gathered by the fallback walk. |
| Traversal.ExclusionTestRedundant | src/domCollector.ts:65 | The fallback's exclusion test is subsumed by its label test. |
| Traversal.LabeledRootNoFallback | src/domCollector.ts:58-75 | A root with a directive, or under one, yields no fallback text. |
| Context.RulesOfKindsMembers | src/domCollector.ts:81-82 | The filter keeps exactly the available rules whose type is requested. |
| Context.RulesOfKindsAppend | src/domCollector.ts:82 | The filter keeps relative order: it distributes over concatenation. |
| Context.SelectRules | src/domCollector.ts:77-84 | With no request, or no available rule of a requested type, all rules are returned. Otherwise exactly the requested ones, as the order-preserving filter. Every result is an available rule. |
| Context.AppendField | src/domCollector.ts:15-21 | With no label the fields are unchanged. Otherwise only the label's field changes, it becomes present, and it ends with the value. |
| Context.AppendAllLines | src/domCollector.ts:15-21 | Starting from an absent or empty field, appending non-empty values leaves them in the field one per line. |
| Context.Classify | src/domCollector.ts:115-147 | A non-skipped element contributes its trimmed, non-blank text under its trimmed non-blank label, and is never excluded. |
| Context.ClassifySkips | src/domCollector.ts:116-124 | Excluded elements, elements with a trimmed `exclude` directive and blank text are skipped. |
| Context.StepSkips | src/domCollector.ts:116-124 | A skipped element leaves fields, raw parts, records and counter unchanged. |
| Context.StepInclude | src/domCollector.ts:128-132 | An `include` element with non-blank text adds that text verbatim as one raw part and to its labelled field, with no records and no change to the counter. |
| Context.ClassifyInclude | src/domCollector.ts:128-132 | An element with the trimmed directive `include` and non-blank text is classified as an inclusion of its trimmed text under its label. |
| Context.ClassifyRedact | src/domCollector.ts:134-139 | An element with a `redact:` directive and non-blank text is classified as a redaction of its trimmed text, requesting the whitespace-separated words after `redact:`. |
| Context.OtherDirectiveSkipped | src/domCollector.ts:115-148 | Any other non-blank directive falls through the loop body: the element is skipped and the accumulator is unchanged. |
| Context.StepRedact | src/domCollector.ts:134-146 | A `redact:` element applies the selected rules to its text from the running counter. The redacted text becomes one raw part and is appended to the labelled field, the records are appended, and the counter advances by their number. |
| Context.SelectedRecordsRequested | src/domCollector.ts:140-141 | When some rule in force has a requested type, redacting with the selected rules yields records of requested types only. |
| Context.RedactRecordsRequested | src/domCollector.ts:77-84 | When some rule in force has a requested type, every record a `redact:` element adds has one of the requested types. |
| Context.Step | src/domCollector.ts:115-147 | An element only appends: records and raw parts are extended (at most one part), and the counter advances by the number of records added. |
| Context.Fallback | src/domCollector.ts:150-161 | The fallback pass never touches fields. It only appends parts and records, and the counter advances with the records. |
| Context.FallbackPart | src/domCollector.ts:152-159 | The fallback pass adds the trimmed, newline-joined parts, redacted from the running counter, as the last raw part with its records; when that text is blank it changes nothing. |
| Context.FallbackRedactsWithAllRules | src/domCollector.ts:150-161 | With the fallback on, the gathered text is joined by newlines and trimmed. If non-blank, it is redacted with all rules in force from the counter the element loop reached; the result is the last raw part and its records come last. Blank text adds nothing. |
| Context.BuildAiContext | src/domCollector.ts:96-165 | Fails exactly when a rule in force is not global, with the error validation reports. |
| Context.RegionIgnored | src/types.ts:50-55 | The output is the same for every `region` value. |
| Context.LabeledOnlyDefault | src/types.ts:37-42 | Omitting `labeledOnly` behaves as `true`. |
| Context.FallbackOnlyInRawText | src/domCollector.ts:150-161 | Turning the fallback on or off changes neither success nor fields. The records without it are a prefix of those with it, and with `labeledOnly` the raw text is the element parts joined by blank lines. |
| Context.ContextNumbered | src/domCollector.ts:111-158 | The final records carry counters 1, 2, …, n in production order, each with the prefix and type of a rule in force. |
| Context.NoRulesNoRedactions | src/types.ts:44-48 | Supplying an empty rule list replaces the defaults: the call succeeds with no records. |
| Context.ExcludedRootEmpty | src/domCollector.ts:37-40 | A root whose trimmed directive is `exclude` yields empty fields, empty raw text and no records, with or without the fallback pass. |

## Left out

- Regular-expression semantics are left out: lookarounds, case-insensitive matching, backtracking and catastrophic backtracking. They belong to the host engine, which is the `Engine` parameter. The default patterns are kept as source text and flags only.
- Strings are modelled as sequences of Unicode code points, not of UTF-16 code units. A pattern without the `u` flag matches code units, so it can match one half of a surrogate pair. Such a match, and the lone-surrogate original it leaves in a record, cannot be represented: no `Engine` span splits a code point, and no `Redaction.original` holds a lone surrogate. For example, a custom rule `/\W/g` on the text `😀` matches each half separately and gives `__X_1____X_2__` with two records whose originals are `\uD83D` and `\uDE00`; the model allows at most one record for that input. Every match of the default rules is ASCII, and trimming, splitting and joining agree on well-formed strings.
- `resolveRoot` and the selector lookup are left out: the model takes the resolved root, and the error for a missing root is the host's.
- How text is extracted is left out: the form-control `value` versus `textContent` choice. Each element carries its extracted string as `text`, and the model applies only the trim.
- Because `textContent` is used, an `include` or `redact:` element's text also contains the text of `exclude` descendants. For example, `<div data-ai="include" data-ai-label="a">Hi <span data-ai="exclude">secret</span></div>` gives field `a` the value `Hi secret`. The model's `text` is whatever the host extracted, so it neither shows nor prevents this. `test/buildAiContext.test.ts:35-49` covers only an `exclude` element above an `include` one.
- The `TreeWalker` over text nodes is modelled as a pre-order walk of the tree's text nodes.
- The parent-chain walks go up to the document. The model passes the root's ancestors explicitly as `outer`.
- `RedactionEngine.RedactionPlaceholdersDistinct` and `Types.Placeholder` use unbounded integers for the counter. In the code the counter is a JavaScript number, which breaks the promise in three ways:
  - From a start of 2^53, the next increment rounds back to 2^53, so two matches get the same placeholder.
  - A counter of 10^21 or more renders in exponent form, such as `1e+21`, which is not the decimal numeral.
  - A fractional start such as 1.5 renders as `1.5`.
- Runtime type checks are left out: `Array.isArray(redactions)` and `original ?? ""`. Records are always a sequence with a string original.
- `applyRedactions`'s default `startIndex = 1` is not modelled: every caller passes the start explicitly.
- `RoundTrip.ReinjectInvertsRedaction`: its preconditions are stronger than strictly necessary. Matches must be non-empty, the whole input must be free of `_`, and prefixes must have the token shape. Together these make placeholders readable back unambiguously, and the two counterexamples show the weaker conditions do not suffice.
- `Context.AppendField`: its contract says the field ends with the value, not its exact new contents. The exact one-per-line contents are stated by `Context.AppendAllLines`.
- `Context.AppendField` and `Context.BuildAiContext` model `fields` as a map from label to text. In the code it is a plain object literal, which differs in three ways:
  - A label naming an inherited `Object.prototype` member reads that member as the existing value. With label `constructor`, the inherited function is truthy, so the field becomes `function Object() { [native code] }` followed by a newline and the value.
  - The label `__proto__` hits the prototype setter, so assigning a string to it is ignored and no field appears.
  - Integer-like labels come first, in numeric order, when the object's keys are listed. The model has no key order.
- `RedactionEngine.ApplyRedactions`: its own contract covers only the empty cases. The records and text are characterised by `SpliceRecords`, `RulesNumbered`, `SpliceTrace.RulesText` and the round trip.
