# Form service: a verified model

This project models six parts of a form service written in TypeScript and proves
what they promise. Paths below are those of the service's repository.

**Form logic.** A published spec is checked for cross-references
(`PublishGuard`, `PublishGuardMeaning`, `GuardLimits`, `GuardReferences`, with
the reference scanner in `FormulaScan`). Its calculation formulas are compiled
to spreadsheet cells by one regular-expression replacement per identifier
(`FormulaText`, `FormulaCompiler`, `FieldLayout`) and evaluated in a workbook
that is kept in a cache and written over by each submission (`CalcSheet`,
`CalcRunner`, `CalcMeaning`). A score is folded over rules and put into a bucket
(`ScoringRunner`), the page walk is replayed with jumps, skips and cycle
detection (`PageWalk`, with the paths a spec allows in `PagePaths`), and the
payload is stripped to the visited pages and stored (`PayloadStrip`,
`StableSpecs`, `UnsafeReads`). Rules are json-logic trees (`JsonLogic`).

**Canonical JSON and signatures.** Two recursive printers with sorted keys, a
parser to judge them by, and the `t=…,v1=…` header that is printed and split
again (`KeyedSort`, `JsonStrings`, `CanonicalJson`, `JsonParser`,
`WebhookSigner`, `Decimal`, `Whitespace`). Strings are UTF-16 code units; string
syntax is that of section 7 of RFC 8259, the key order that of section 3.2.3 of
RFC 8785.

**Analytics drain.** A paged copy with a compound cursor, optional deletion
behind the copy, failure or death at any call, events arriving before any call,
and retry (`EventOrder`, `AnalyticsDrain`).

**Experiments and version pointers.** Weighted assignment and weight patches
(`Assignment`), the race to record an exposure (`Exposures`), and every
transaction that writes a form's current version (`VersionPointers`).

**Billing and quota.** Subscription events delivered repeatedly (`Billing`), and
a counter that is checked before and incremented after (`Quota`).

**Refresh tokens.** A session table in which each login is a chain (`Sessions`).

Loops and updates in place are methods and classes proved against functions;
recursive code is functions. Where calls of several requests interleave
(`Exposures`, `Quota`), each database access is one step and results hold for
every list of steps. Where one process meets a changing environment
(`AnalyticsDrain`), each outside call consumes one move of a script that says
what arrived, whether the call took effect and whether the process survived it;
results hold for every script, and since a script may end in a crash at any
call, what is ensured at the end of an attempt holds wherever it can stop.

## Assumptions

- SHA-256, HMAC, the spreadsheet evaluator, json-logic's operators and
  `parseFloat` are arbitrary functions. The evaluator sees a cell only through
  the cell's value. Scores, cell values and bucket bounds are real numbers.
- A form id and version number determine the spec
  (`src/core/logic/calc.runner.ts:178` caches by them); the schema's unique
  index (`prisma/schema.prisma:159`) and `VersionPointers.PublishedForGood` support it.
- A database transaction is one atomic step, and what it throws undoes it.
- The billing directory (customers, priced plans) does not change while events
  are delivered, and equal event ids carry equal events.

## Where code and comments disagree

The model follows the code.

- `src/core/logic/action.runner.ts:134-146` ignores an array-valued
  `skip_pages`, which `src/core/forms/spec-3a.ts:111-115` calls the canonical
  form: the walk goes on to the page's next action, and is that of the spec
  without such actions (`PageWalk.SkipListsAreIgnored`).
- `src/core/forms/publish-guard.ts:232` lets a formula refer to a calculation
  declared later; `src/core/logic/calc.runner.ts:106-113` does not substitute it
  (`PublishGuardMeaning.AcceptedReferenceHasAValue`, with an accepted spec in
  `GuardLimits.ForwardReferenceIsAccepted`).
- `src/core/forms/publish-guard.ts:215` takes every hyphen between word characters
  into a reference; the compiler takes in only those of declared ids. Where ids
  have no hyphens, references tied by one are one to the guard and several to the
  compiler (`FormulaScan.ScanIsExactExactly`): the guard refuses such a formula,
  unless the reference begins in upper case
  (`PublishGuardMeaning.AcceptedScanIsExact`, `GuardLimits.UpperGlueHidesReferences`).
  What the guard finds in lower case is what the compiler works on
  (`GuardReferences.AcceptedReferenceIsAWord`).
- `src/core/forms/spec-3a.ts:87` speaks of buckets that share an integer; the
  comparison is of whole ranges, and refuses some reversed ranges that share
  nothing (`ScoringRunner.CheckIsTrueExactly`, `ScoringRunner.ReversedBoundsRefused`).
- `src/core/forms/version.service.ts:44` computes the next number from the
  pointer, which a rollback has moved back; the number then exists and the
  transaction fails (`VersionPointers.Db.PublishVersion`,
  `VersionPointers.RollbackBlocksPublishing`, `VersionPointers.PublishAfterRollback`).
- `src/core/workspaces/billing.service.ts:226-234` means to record an event of an
  unknown customer, but the column takes no null
  (`prisma/schema.prisma:703`), so the insert throws. `Billing` covers both.
- `src/core/webhooks/signer.ts:80` takes timestamp 0 for a missing one, so a
  delivery signed at 0 is never accepted (`WebhookSigner.SignThenVerify`).
- `src/core/experiments/experiment.service.ts:345-354` checks a weight patch's own
  sum only: entries that name other experiments' variants, that a later entry
  repeats, or variants that are not listed change the total
  (`Assignment.PatchKeepsTotalExactly`, `Assignment.PartialPatchStarves`,
  `Assignment.RepeatedEntryLoses`).
- `src/workers/analytics-drain.worker.ts:19-24` speaks of de-duplication; the model
  counts every inserted row.

## Model

| member | source | states |
|---|---|---|
| KeyedSort.SortIsSortedPermutation | src/core/forms/types.ts:153 | sorting gives a permutation ordered by key; `KeyedSort.TextLeqIs` says by which order |
| KeyedSort.TextLeqIs | src/core/forms/types.ts:153 | keys are in order exactly when one is a start of the other or has the smaller UTF-16 code unit where they first differ |
| KeyedSort.SortCommutesWithMap | src/core/forms/types.ts:153-159 | sorting looks at keys only, so printing members before or after sorting is the same |
| JsonStrings.StringRoundTrip | src/core/forms/types.ts:148 | a quoted string, with its escapes and lone surrogates, is read back whatever text follows |
| JsonStrings.WrittenPlainly | src/core/forms/types.ts:148 | a code unit stands for itself exactly when it is no control, quote, backslash or half of a surrogate pair |
| JsonStrings.WrittenShort | src/core/forms/types.ts:148 | the two-character escapes are exactly the seven of `JSON.stringify` |
| JsonStrings.WrittenAsHex | src/core/forms/types.ts:148 | any other escape is `\u` and the unit's four hexadecimal digits in lower case |
| JsonStrings.WrittenInOrder | src/core/forms/types.ts:148 | a string is written unit by unit between quotes, except that a pair of surrogates is copied |
| JsonStrings.NumberRunStops | src/core/forms/types.ts:148 | a printed number token is delimited by what may follow it |
| CanonicalJson.PrintersAgree | src/core/webhooks/signer.ts:18-40 | the webhook printer refuses exactly the values with a non-finite number and agrees with the spec printer on all others |
| CanonicalJson.SortedDecidesSameness | src/core/forms/types.ts:146-161 | two values sort to the same normal form exactly when they are equal up to key order at every depth |
| JsonParser.CanonicalIsStringifySorted | src/core/forms/types.ts:146-161 | printing canonically is plain `JSON.stringify` of the value sorted at every depth |
| JsonParser.ParseInvertsCanonical | src/core/forms/types.ts:146-161 | parsing a canonical text returns the value with its keys in order |
| JsonParser.CanonicalTextDecidesValue | src/core/forms/types.ts:146-161 | for both printers: same text exactly when equal up to key order |
| JsonParser.CanonicalTextIsInOrder | src/core/forms/types.ts:146-161 | either printer writes the text of a value with the same content whose neighbouring keys, at every depth, are in code-unit order, stated without the sorting function |
| JsonParser.ATextInOrder | src/core/forms/types.ts:146-161 | `{"b":1,"a":[null,true,"x"]}` prints as `{"a":[null,true,"x"],"b":1}`, code unit by code unit |
| JsonParser.SpecPrinterNullsNonFinite | src/core/forms/types.ts:147-149 | a value prints as it does with its non-finite numbers replaced by null, which leaves none |
| JsonParser.SpecTextDecidesValue | src/core/forms/types.ts:146-161 | for all values, non-finite numbers included: the spec printer writes one text for two exactly when, with those numbers as null, they are equal up to key order |
| Decimal.ParseInvertsDecimal | src/core/webhooks/signer.ts:55 | decimal digits of a natural number are read back |
| Decimal.NoLeadingZero | src/core/webhooks/signer.ts:55 | no zero is written in front |
| Whitespace.TrimIs | src/core/webhooks/signer.ts:75 | trimming takes away whitespace at both ends, and all of it |
| WebhookSigner.SplitIs | src/core/webhooks/signer.ts:73 | splitting gives parts without commas that joined by commas are the header |
| WebhookSigner.KeyValueIs | src/core/webhooks/signer.ts:74-75 | a part is cut at its first equals sign and both pieces are trimmed |
| WebhookSigner.LastPartCounts | src/core/webhooks/signer.ts:72-77 | of several parts with one key the last counts |
| WebhookSigner.SignedRequestIs | src/core/webhooks/signer.ts:49-60 | signing goes through exactly for finite numbers; timestamp, body, digest and header, the header and the signed text written out unit by unit |
| WebhookSigner.SignedStringParts | src/core/webhooks/signer.ts:52 | what is signed is the timestamp up to its first dot and the body after it |
| WebhookSigner.AcceptedExactly | src/core/webhooks/signer.ts:66-88 | for every header: accepted exactly when it gives a finite timestamp other than zero, at most the tolerance away on either side, and a `v1` that is the HMAC of that timestamp, a dot and the body |
| WebhookSigner.HeaderParts | src/core/webhooks/signer.ts:72-79 | splitting a printed header gives back its timestamp text and signature |
| WebhookSigner.SignThenVerify | src/core/webhooks/signer.ts:49-88 | a delivery is accepted exactly while the clocks are within tolerance, for every payload and secret; never at timestamp 0 |
| WebhookSigner.OneHeaderTwoBodies | src/core/webhooks/signer.ts:66-88 | any accepted header's `v1` is the HMAC of its own timestamp and the body; accepting two bodies would need a digest collision |
| WebhookSigner.SignedStringInjective | src/core/webhooks/signer.ts:52 | timestamp and body can be read back from the signed string |
| WebhookSigner.SignedStringDecidesPayload | src/core/webhooks/signer.ts:49-60 | two deliveries sign the same string exactly when they share the timestamp and differ at most in key order |
| FormulaText.LexIsLexed | src/core/logic/calc.runner.ts:140-141 | a formula's text is its words and other characters put together |
| FormulaText.WordCharIs | src/core/logic/calc.runner.ts:140 | a word character is a digit, an ASCII letter or an underscore |
| FormulaText.ReplaceIsSubstitute | src/core/logic/calc.runner.ts:140-141 | for every id that begins and ends in a word character, hyphens inside or not, `replace(/\bid\b/g, …)` replaces exactly the runs of tokens that are the id's |
| FormulaCompiler.OrderMattersExactly | src/core/logic/calc.runner.ts:134-151 | for hyphenated ids too: replacing one id at a time is, in every text, one simultaneous substitution of the longest ids, if and only if no id comes before one that it is the start of |
| FormulaCompiler.CompileFormula | src/core/logic/calc.runner.ts:127-155 | the longest-first loops, fields and then calculations, produce `=` followed by that simultaneous substitution |
| FormulaCompiler.EqualsSign | src/core/logic/calc.runner.ts:153 | a leading equals sign is there after replacing exactly when it was there before |
| FormulaCompiler.CompilePreservesMeaning | src/core/logic/calc.runner.ts:127-155 | for every evaluator, the compiled text evaluates to what the source does when each id stands for its cell's value |
| FieldLayout.CompileFieldMap | src/core/logic/calc.runner.ts:56-66 | exactly the field ids are mapped, each to `A` and the decimal number of its last row |
| FieldLayout.RowOfField | src/core/logic/calc.runner.ts:56-66 | a field's row comes after those of all pages before, in the order of its own page |
| FieldLayout.FieldAddressesDistinct | src/core/logic/calc.runner.ts:56-66 | no two field ids share a cell |
| FieldLayout.AddrToRowInverts | src/core/logic/calc.runner.ts:256-259 | reading an address back gives the row it was printed for |
| CalcSheet.FreshResultsFrame | src/core/logic/calc.runner.ts:187-228 | calculations depend only on the submitted values of the fields whose cells they name |
| CalcSheet.HFValueIs | src/core/logic/calc.runner.ts:238-253 | what a submitted value counts as: a number as itself, a truth value as 1 or 0, a text as the finite number it begins with, the rest as 0 |
| CalcSheet.ListsAddUp | src/core/logic/calc.runner.ts:246-251 | a list counts as the sum of the numbers in it |
| CalcSheet.ValueInIs | src/core/logic/calc.runner.ts:187-193 | a cell address stands for the row it names, counted from one, and a row that is not there is blank |
| CalcSheet.ReadBackIs | src/core/logic/calc.runner.ts:203-226 | a calculation reports null exactly for an empty cell or an error, a truth value as 1 or 0, and anything else as it is |
| CalcRunner.BuildHFEntry | src/core/logic/calc.runner.ts:84-117 | a new workbook has the field map, rows and compiled formulas of its spec |
| CalcRunner.CacheKeyInjective | src/core/logic/calc.runner.ts:178 | `formId@version` tells form and version apart even when the form id contains an at sign |
| CalcRunner.WrittenIsFresh | src/core/logic/calc.runner.ts:187-193 | writing every field cell erases whatever a workbook was used for before |
| CalcRunner.CalcService.Store | src/core/logic/calc.runner.ts:80-82 | storing keeps the cache within 256 entries, drops one other entry exactly when it would be over, and changes none that stays |
| CalcRunner.CalcService.EntryFor | src/core/logic/calc.runner.ts:178-183 | hit or miss, the workbook serves the submission's own spec |
| CalcRunner.CalcService.WriteFields | src/core/logic/calc.runner.ts:187-193 | the loop over the field map, in any order, writes each field's value into its own cell and nothing else |
| CalcRunner.CalcService.ComputeCalculationsServer | src/core/logic/calc.runner.ts:169-229 | served from the cache or not, the results are those of a workbook built for this submission alone |
| CalcRunner.ServeHistory | src/core/logic/calc.runner.ts:80-229 | the same for every history of submissions and evictions |
| CalcMeaning.CircularIsSelfMention | src/core/logic/calc.runner.ts:106-113 | a compiled formula refers to its own row or a later one exactly when the source mentions its own id or its author writes such an address |
| CalcMeaning.CalculationsMeanTheirSources | src/core/logic/calc.runner.ts:84-229 | through layout, compiler and workbook, each calculation has the value of its source under the submitted values and earlier results, cell addresses written by the author included |
| CalcMeaning.ResultsAre | src/core/logic/calc.runner.ts:195-228 | exactly the calculations' ids have results, each what its last declaration's source comes to |
| CalcMeaning.ResolveIsReplaceWords | src/core/logic/calc.runner.ts:119-155 | where the author writes no address, that value is the evaluator's on the formula with identifiers replaced by their values and nothing else changed |
| CalcMeaning.ReadFieldsAreMentioned | src/core/logic/calc.runner.ts:134-142 | the fields a calculation reads are exactly those some source mentions by id or names by cell |
| JsonLogic.CollectVarRefs | src/core/forms/publish-guard.ts:37-60 | the collector returns the root of every reachable `var` string, in order |
| JsonLogic.CollectedExactly | src/core/forms/publish-guard.ts:37-60 | a root is collected exactly when some path leads to a `var` string with it, past no other such object |
| JsonLogic.TruthyExactly | src/core/logic/action.runner.ts:124 | a condition's value is falsy exactly when it is one of the six falsy values |
| JsonLogic.MetFrame | src/core/logic/action.runner.ts:119-132 | with plain `var`s, whether a condition is met depends on the collected variables and no others |
| JsonLogic.CollectedIsAllExactly | src/core/forms/publish-guard.ts:37-60 | what the guard collects is all a condition can depend on exactly when its evaluated data-reading operators are `var`s with a non-empty string |
| ScoringRunner.ComputeScoreServer | src/core/logic/scoring.runner.ts:66-111 | the two loops: a disabled or absent scoring gives 0 and no bucket; otherwise the total is what the last matching `set` gives, or 0, plus all matching `add`s after it, and the bucket is the first that holds it |
| ScoringRunner.ClosedTotalIs | src/core/logic/scoring.runner.ts:82-99 | the closed form of the total is that, stated rule by rule |
| ScoringRunner.ClosedTotalSnoc | src/core/logic/scoring.runner.ts:82-99 | one more matching rule changes the closed form as one turn of the loop changes the total |
| ScoringRunner.BucketFor | src/core/logic/scoring.runner.ts:102-108 | a bucket is chosen exactly when some bucket holds the total, and it is the first that does |
| ScoringRunner.BucketsAccepted | src/core/forms/spec-3a.ts:86-98 | the nested loop accepts exactly when no two ranges overlap |
| ScoringRunner.SharedTotalExactly | src/core/forms/spec-3a.ts:85-100 | some total lies in two buckets exactly when two buckets with bounds in order overlap |
| ScoringRunner.CheckIsTrueExactly | src/core/forms/spec-3a.ts:85-100 | for all buckets: the check tells whether a total is shared exactly when it accepts or two buckets with bounds in order overlap |
| ScoringRunner.CheckIsExact | src/core/forms/spec-3a.ts:85-100 | so with bounds in order it accepts exactly when no total lies in two buckets |
| ScoringRunner.AcceptedHasNoSharedTotal | src/core/forms/spec-3a.ts:85-100 | whatever the bounds, accepted buckets share no total |
| ScoringRunner.ReversedBoundsRefused | src/core/forms/spec-3a.ts:95 | two buckets, one reversed, that share no total and are refused: the check is wrong there |
| ScoringRunner.BucketOrderIrrelevant | src/core/logic/scoring.runner.ts:100-108 | for accepted buckets the choice is the same in every listing order |
| PageWalk.DecideNext | src/core/logic/action.runner.ts:112-155 | the action loop of one page gives the index the page-exit step gives; what that index is, the next three rows say |
| PageWalk.NothingActs | src/core/logic/action.runner.ts:149-155 | a page on which no action acts is followed by the next one |
| PageWalk.JumpGoesThere | src/core/logic/action.runner.ts:134-141 | where the first action that acts is a jump, the walk goes to the last page with its target, or, when there is none, to the next page |
| PageWalk.SkipLeavesOut | src/core/logic/action.runner.ts:142-151 | where it is a count of n, exactly n pages are left out, and the walk is past the list when fewer are left |
| PageWalk.WalkDataAt | src/core/logic/action.runner.ts:85-90 | conditions see the score under `score` and `score_bucket`, a calculation's result before a submitted value, and else that value |
| PageWalk.ComputeVisitedPages | src/core/logic/action.runner.ts:72-166 | the loop ends and returns the walk, its skipped pages and its cycle flag; what a walk is, the next three rows say |
| PageWalk.NeighboursOfTheWalk | src/core/logic/action.runner.ts:97-156 | of two neighbouring visited pages the second is the target of the first one's jump, or comes n pages further for a count of n, or follows it when nothing acts or the target is unknown |
| PageWalk.EndsOfTheWalk | src/core/logic/action.runner.ts:97-166 | a walk starts on the first page and ends where the last exit leaves the list, or, exactly when the cycle flag is set, leads to a visited page |
| PageWalk.SkippedInOrder | src/core/logic/action.runner.ts:158 | the pages not visited are listed in the spec's order |
| PageWalk.WalkFollowsOrbit | src/core/logic/action.runner.ts:97-156 | for any spec, the visited ids are the start of the orbit of the exit step from page 0, without repeats, up to the first exit or repeated id |
| PageWalk.VisitedIsTheOrbit | src/core/logic/action.runner.ts:97-156 | with distinct page ids, a page is visited exactly when the orbit reaches it |
| PageWalk.CycleMeansForever | src/core/logic/action.runner.ts:103-107 | with distinct page ids, a cycle is reported exactly when the orbit never leaves the page list |
| PageWalk.VisitedAndSkippedSplit | src/core/logic/action.runner.ts:158 | visited and skipped together list every page id once |
| PageWalk.SkipListsAreIgnored | src/core/logic/action.runner.ts:134-146 | for every spec and all data, dropping the actions that list pages to skip leaves the walk as it is |
| PageWalk.WalkFromFrame | src/core/logic/action.runner.ts:84-147 | data that agree on what visited pages' conditions read give the same walk |
| PagePaths.UnavoidableIsVisited | src/core/logic/action.runner.ts:97-156 | a page that every path of possible exits from page 0 passes before it ends is visited, whatever the data |
| PagePaths.ExitsAre | src/core/logic/action.runner.ts:112-155 | the possible exits of a page are where its actions lead, up to the first without a condition, and the next page when there is none such |
| PagePaths.DominatorIsVisited | src/core/logic/action.runner.ts:97-156 | a walk that visits a page visits every page that all paths to it pass |
| PagePaths.GateIsUnavoidable | src/core/logic/action.runner.ts:134-156 | a page that no earlier page's exit passes over, all of them leading forward, is on every path |
| PagePaths.GateDominates | src/core/logic/action.runner.ts:134-156 | a page that no earlier page's exit passes over is on every path to the pages after it |
| PayloadStrip.SplitPayload | src/core/submissions/payload.validator.ts:63-87 | the loops keep, in order, the entries whose field is on a visited page and list the others |
| PayloadStrip.StripSkippedFields | src/core/submissions/payload.validator.ts:47-117 | payload, stripped ids and the audit row, which is written exactly when something was stripped and the write works, and names the job, the visited, skipped and stripped ids and the cycle |
| PayloadStrip.TraversalSees | src/core/submissions/payload.validator.ts:57-59 | the walk that decides sees the calculations and score of the raw payload |
| PayloadStrip.KeptInOrder | src/core/submissions/payload.validator.ts:72-87 | what is kept and what is stripped are each in the payload's order |
| PayloadStrip.KnownInOrder | src/routes/public/submit.ts:146-149 | so is what the route's filter keeps |
| PayloadStrip.ValuesOfPayload | src/core/submissions/payload.validator.ts:57-59 | each name of a payload has the value beside it, and no other name has any |
| PayloadStrip.SanitizedExactly | src/core/submissions/payload.validator.ts:71-87 | an entry survives exactly when a visited page declares its field |
| PayloadStrip.StrippingKeepsTheWalk | src/core/submissions/payload.validator.ts:56-87 | if every field that calculations, scoring rules and visited pages' conditions read is on a visited page, absent or overridden, the stripped payload takes the same walk |
| PayloadStrip.StrippingIsStable | src/core/submissions/payload.validator.ts:56-87 | then stripping again strips nothing more |
| StableSpecs.PathReadsAreSafe | src/core/submissions/payload.validator.ts:56-87 | for an accepted spec whose calculations and scoring read fields of pages on every path, and whose actions read those or fields of pages on every path to their own page, every read is safe whatever is submitted |
| StableSpecs.StoredPayloadIsStable | src/routes/public/submit.ts:145-244 | for such a spec and every payload, what the route stores takes the walk that decided it, and stripping it again changes nothing |
| StableSpecs.NoActionsAreStable | src/core/submissions/payload.validator.ts:56-87 | for an accepted spec without actions, whatever its calculations and scoring read, stripping the stored payload again changes nothing |
| UnsafeReads.UnsafeReadIsUnstable | src/core/submissions/payload.validator.ts:56-87 | a spec and payload without that, where the second run strips a field the first kept |
| PayloadStrip.SameCountSamePayload | src/routes/public/submit.ts:237-239 | equal entry counts mean that nothing was stripped |
| PayloadStrip.StoreSubmission | src/routes/public/submit.ts:145-244 | after filter, insert, strip and conditional update, the stored payload is the sanitized one |
| PayloadStrip.StoredExactly | src/routes/public/submit.ts:145-244 | what is stored is exactly the submitted entries of fields on visited pages |
| FormulaScan.ScanIsExactExactly | src/core/forms/publish-guard.ts:215-222 | for every formula: the guard's regular expression finds exactly the identifiers among its words if and only if no word that begins with a prefix is tied by hyphens to another |
| FormulaScan.RefsAreMatches | src/core/forms/publish-guard.ts:215-222 | the scan finds the leftmost longest matches of the expression, from left to right, and no others |
| FormulaScan.HyphenJoinsReferences | src/core/forms/publish-guard.ts:215 | a formula where a minus sign makes the guard see one reference and the compiler three tokens |
| PublishGuard.ValidatePublishableSpec | src/core/forms/publish-guard.ts:62-313 | the guard's loops report exactly the listed errors, in order, or only the archived error; what is listed, and in which order, the rows below say |
| PublishGuard.PatternsAre | src/core/forms/publish-guard.ts:29-30 | the two id patterns, character by character |
| PublishGuard.RefErrorsInOrder | src/core/forms/publish-guard.ts:148-312 | references that resolve to nothing are reported one for each occurrence and in their order |
| PublishGuard.FieldErrorsInOrder | src/core/forms/publish-guard.ts:116-145 | a later page's field errors follow those of the pages before, whose ids count as seen |
| PublishGuard.OneFieldsErrors | src/core/forms/publish-guard.ts:119-144 | of one field, the duplicate is reported before the pattern |
| PublishGuard.OnePagesErrors | src/core/forms/publish-guard.ts:83-145 | a page's own errors, pattern before emptiness, come before those of its fields |
| PublishGuard.PageErrorsInOrder | src/core/forms/publish-guard.ts:83-145 | what is reported of the first pages comes first, whatever pages follow |
| PublishGuard.PagesRefsInOrder | src/core/forms/publish-guard.ts:149-198 | references of visibility rules and row sources are looked up page after page |
| PublishGuard.CalcErrorsInOrder | src/core/forms/publish-guard.ts:217-240 | errors about formulas are reported calculation after calculation |
| PublishGuard.FormulaErrorsInOrder | src/core/forms/publish-guard.ts:222-239 | within a formula, reference after reference |
| PublishGuard.ActionsRefsInOrder | src/core/forms/publish-guard.ts:245-289 | page references of actions are looked up action after action |
| PublishGuard.RulesRefsInOrder | src/core/forms/publish-guard.ts:294-309 | references of scoring rules are looked up rule after rule |
| PublishGuardMeaning.ErrorsInSectionOrder | src/core/forms/publish-guard.ts:76-312 | errors about pages and fields come first, then those about visibility and row references, formulas, actions and scoring |
| PublishGuardMeaning.ErrorsAreViolations | src/core/forms/publish-guard.ts:76-312 | an error about an id is reported exactly when the spec has that defect there |
| PublishGuardMeaning.GuardAcceptsExactly | src/core/forms/publish-guard.ts:76-312 | no errors exactly when ids are unique and patterned, pages non-empty and every collected reference resolved |
| PublishGuardMeaning.AcceptedJumpsLand | src/core/logic/action.runner.ts:134-141 | in an accepted spec every jump that fires lands on its declared page |
| PublishGuardMeaning.AcceptedSpecIsUnambiguous | src/core/forms/publish-guard.ts:82-145 | an accepted spec has distinct page ids and no field on two pages |
| PublishGuardMeaning.AcceptedIdsArePlain | src/core/forms/publish-guard.ts:137 | an accepted spec's field ids are what the compiler works on, if they end in a word and hold no other id |
| PublishGuardMeaning.AcceptedScanIsExact | src/core/forms/publish-guard.ts:215-238 | in an accepted spec with hyphen-free ids the scan is exact exactly when no word that begins with an upper-case prefix is so tied |
| PublishGuardMeaning.AcceptedReferenceHasAValue | src/core/forms/publish-guard.ts:226-238 | in an accepted spec, where the scan is exact, a lower-case identifier of a formula has a value there exactly unless only a later calculation declares it |
| GuardReferences.AcceptedReferenceIsAWord | src/core/forms/publish-guard.ts:215-238 | for hyphenated ids too: in an accepted spec each lower-case reference the guard's expression finds is one word of what the compiler works on, with a value, exactly unless only a later calculation declares it |
| GuardLimits.ForwardReferenceIsAccepted | src/core/forms/publish-guard.ts:226-238 | an accepted spec with a formula that refers to a later calculation and has no value for it |
| GuardLimits.UpperGlueHidesReferences | src/core/forms/publish-guard.ts:215-238 | an accepted spec whose upper-case reference, tied to the next one, hides an id that nothing declares |
| EventOrder.SortedIsSorted | src/workers/analytics-drain.worker.ts:124 | the query's order lists the same rows, ascending by time and id |
| EventOrder.SortedTail | src/workers/analytics-drain.worker.ts:176-179 | what remains after a page is the sorted list of the rows not on it |
| AnalyticsDrain.Tables.FindMany | src/workers/analytics-drain.worker.ts:111-140 | a page is the first rows, in order, of all that lie after the cursor and within the window |
| AnalyticsDrain.PageCopied | src/workers/analytics-drain.worker.ts:160-179 | once a page is copied, every window event not copied lies after its last row |
| AnalyticsDrain.DeleteKeeps | src/workers/analytics-drain.worker.ts:169-174 | deleting copied rows loses no event |
| AnalyticsDrain.CopyWindow | src/workers/analytics-drain.worker.ts:103-183 | wherever it stops nothing is lost and only window rows are written; finishing means the window is copied, and otherwise it ended with the first call that did not go through and with that call's message; undisturbed, for every batch size, it finishes and copies the window once, in order |
| AnalyticsDrain.WindowCopiedMeans | src/workers/analytics-drain.worker.ts:111-140 | copied means that each row from the job's first moment to its last, ends included, has an event in the copy |
| AnalyticsDrain.CopiedExactlyMeans | src/workers/analytics-drain.worker.ts:103-183 | once and in order: the copy has grown by exactly those rows, ascending by time and id, and only they may be gone from the source |
| AnalyticsDrain.RunWorkspaceDrain | src/workers/analytics-drain.worker.ts:89-209 | the same for a job run; a copy that failed with a message is recorded with that message and leaves the stored time as it was, one that finished sets the time to now and clears the error; a run that died or whose write was not applied leaves the state row alone; the total grows by the rows inserted |
| AnalyticsDrain.RunJob | src/workers/analytics-drain.worker.ts:184-204 | over all attempts: nothing stored at the start is ever lost, a clean ending means all of the window is copied, an attempt that nothing disturbs ends the job well, copying the window exactly when it is the first, and with known replies the stored total is the rows inserted; as long as attempts only fail, with messages and working writes, the stored time has not moved and the stored error is the last attempt's |
| Assignment.AssignVariant | src/core/experiments/assignment.ts:31-65 | the walk stops at the first variant whose cumulative weight exceeds the bucket, or the last |
| Assignment.StopsInOwnRange | src/core/experiments/assignment.ts:51-64 | with valid weights each bucket stops at the one variant whose range holds it: the fallback is never taken |
| Assignment.BucketShare | src/core/experiments/assignment.ts:48-58 | of the 10000 buckets exactly `weightBps` reach each variant |
| Assignment.HashShare | src/core/experiments/assignment.ts:46-58 | of the 2^32 hashes each variant gets its exact number, between 429496 and 429497 per basis point |
| Assignment.WeightsAccepted | src/core/experiments/experiment.service.ts:101-117 | creation accepts exactly two or more positive weights summing to 10000 |
| Assignment.PatchWeights | src/core/experiments/experiment.service.ts:345-373 | a patch is accepted exactly when it sums to 10000 and names variants that exist; later entries win |
| Assignment.LastEntryCounts | src/core/experiments/experiment.service.ts:365-373 | each variant ends with the weight of the last entry for it, or its own when there is none |
| Assignment.TotalAfterPatch | src/core/experiments/experiment.service.ts:345-373 | for every patch: an experiment's total afterwards is the patch's sum, less what goes to other experiments and what later entries overwrite, plus what was not listed |
| Assignment.PatchKeepsTotalExactly | src/core/experiments/experiment.service.ts:345-354 | every accepted patch keeps the total at 10000 exactly when what goes elsewhere or is overwritten equals what was not listed |
| Assignment.OwnPatchKeepsTotalExactly | src/core/experiments/experiment.service.ts:345-354 | for own variants, each at most once: exactly when the patch lists every variant |
| Assignment.PartialPatchStarves | src/core/experiments/experiment.service.ts:345-354 | an accepted patch after which the total is 15000 and one variant gets no bucket |
| Assignment.RepeatedEntryLoses | src/core/experiments/experiment.service.ts:345-373 | an accepted patch that lists every variant, one twice, after which the total is 5000 |
| Exposures.ExperimentDb.RecordExposure | src/core/experiments/experiment.service.ts:185-235 | uninterrupted: an existing row is returned, a new one is assigned and recorded, no variants is an error that writes nothing |
| Exposures.UninterruptedCall | src/core/experiments/experiment.service.ts:185-235 | the three database accesses of a call, when nothing comes between, give the database and answer of the uninterrupted request |
| Exposures.RecordedForGood | src/core/experiments/experiment.service.ts:190-230 | in every interleaving of calls and weight patches, a recorded exposure never changes and completed calls return what is recorded |
| Exposures.CompletedStays | src/core/experiments/experiment.service.ts:230-234 | a completed call's answer does not change |
| Exposures.AllCallsAgree | src/core/experiments/experiment.service.ts:190-234 | any two completed calls of one visitor, at any points of any run, return the same variant, one of the experiment's own |
| VersionPointers.PointerIsTheCurrentVersion | src/core/forms/version.service.ts:38-72 | a form has at most one current version, and its pointer is that version's number, or 0 when there is none |
| VersionPointers.NextIsFree | src/core/forms/version.service.ts:44 | the next number is unused exactly when the current version is the newest |
| VersionPointers.Db.CreateForm | src/core/forms/form.service.ts:29-39 | one form more, with pointer 0, the slug and no version, and nothing else changed, unless the slug is taken |
| VersionPointers.Db.PublishVersion | src/core/forms/version.service.ts:38-72 | goes through exactly when the current version is the newest: one version more, the next number, with the given spec, which becomes the only current one and the pointer; otherwise nothing changes |
| VersionPointers.Db.SetCurrentVersion | src/core/forms/version.service.ts:107-140 | goes through exactly when the version exists, and moves flag and pointer together, leaving specs and other forms as they were |
| VersionPointers.Db.CreateExperiment | src/core/experiments/experiment.service.ts:97-152 | accepted exactly with valid weights and versions of the form: a draft and one row for each variant with its version and weight |
| VersionPointers.Db.StopExperimentWithWinner | src/core/experiments/experiment.service.ts:257-308 | the experiment is stopped with its winner, whose version, which is of the experiment's form, becomes the current one |
| VersionPointers.Db.DuplicateForm | src/core/forms/form.service.ts:48-126 | the new form has the slug and, when the source has a current version, exactly one version, number 1, current, pointed to and with that version's spec restamped; without one, no version and pointer 0; all that was there is unchanged; a refusal names its cause |
| VersionPointers.SlugIs | src/core/forms/form.service.ts:61-70 | a slug is accepted exactly when it is lower-case letters, digits and hyphens, with no hyphen at either end |
| VersionPointers.Db.CloneTemplateIntoForm | src/core/templates/template.service.ts:203-281 | a new form with the slug whose only version, current and pointed to, is the restamped template |
| VersionPointers.Run | src/core/forms/version.service.ts:19-141 | the transactions of any list, one after the other, give the tables the list determines, half-way and at the end |
| VersionPointers.EveryStepDoes | src/core/forms/version.service.ts:19-141 | in every run each transaction does to the tables before it what the rows above say, in terms of rows and fields, or leaves them as they were |
| VersionPointers.EveryRunIsValid | src/core/forms/version.service.ts:19-141 | after every list of transactions pointers are right and variants are of their experiment's form |
| VersionPointers.PublishedForGood | src/core/forms/version.service.ts:19-141 | however a run goes on, no version row changes its spec or disappears |
| VersionPointers.RollbackBlocksPublishing | src/core/forms/version.service.ts:38-72 | whenever a form goes back to an older version than another it has, publishing it changes nothing |
| VersionPointers.PublishAfterRollback | src/core/forms/version.service.ts:44 | a run that ends so: create, publish twice, back to version 1, publish: the version exists already |
| Billing.BillingService.ApplySubscriptionEvent | src/core/workspaces/billing.service.ts:184-454 | the branches' effects on plans, rows and audit, each row written out; which events are idempotent, ignored or throw, exactly; what throws changes nothing |
| Billing.EveryDeliveryDoes | src/core/workspaces/billing.service.ts:184-454 | in every history each delivery does that to the books before it, or nothing when the event has a row |
| Billing.RepeatsChangeNothing | src/core/workspaces/billing.service.ts:195-204 | any delivery sequence leaves the same plans, billing rows and audit rows as its first deliveries alone |
| Billing.PlanIsTheLastGiven | src/core/workspaces/billing.service.ts:207-372 | a workspace ends on the plan of the last event that gives it one, each counted at its first delivery |
| Billing.FailedPaymentKeepsPlans | src/core/workspaces/billing.service.ts:401-444 | invoice events never change a plan |
| Billing.BooksAgree | src/core/workspaces/billing.service.ts:263-289 | one billing row per event, and the audit rows replay the plans, each starting where the one before it left off |
| Quota.PlanService.AssertCanAcceptSubmission | src/core/workspaces/plan.service.ts:226-241 | refuses exactly at or above the quota, with count, limit and reset time |
| Quota.PlanService.RecordSubmission | src/core/workspaces/plan.service.ts:250-259 | increments the month's counter and, only where there is none, sets an expiry 32 days ahead |
| Quota.UnexpiredIs | src/core/workspaces/plan.service.ts:121-122 | a counter is gone exactly when its expiry has come, and is otherwise as it was |
| Quota.UninterruptedRequest | src/routes/public/submit.ts:153-165 | the four accesses of a request, when nothing comes between, do what the service's two calls do |
| Quota.KeyOutlivesItsMonth | src/core/workspaces/plan.service.ts:121-122 | the 32-day expiry set once never drops a key within its own month |
| Quota.OvershootBound | src/routes/public/submit.ts:153-165 | with at most K requests in flight no month records more than the quota less one plus K, across month ends and expiries, and the current counter is exact |
| Quota.BoundIsReached | src/routes/public/submit.ts:396-402 | the bound is exact: for every quota and every K some run records that many |
| Sessions.SessionDb.IssueSession | src/core/auth/session.ts:329-355 | a login is one session more, with the given account, issued now and running for the given time, and starts a chain of its own; an id that exists is refused |
| Sessions.SessionDb.RotateRefreshToken | src/core/auth/session.ts:157-242 | goes through exactly for a live token and a new id: the successor has the same account, is issued now, unrevoked and runs for the given time from now, with the given client data or the old one's; the old token is revoked now and is otherwise as it was, as is every other row; a refusal, with its cause, changes nothing |
| Sessions.SessionDb.RevokeRefreshToken | src/core/auth/session.ts:247-258 | sets the revocation time of an unrevoked token and leaves everything else as it was |
| Sessions.OneUnrevokedPerLogin | src/core/auth/session.ts:164-226 | of one login at most one session is unrevoked |
| Sessions.OneAccountPerLogin | src/core/auth/session.ts:210-219 | all sessions of one login belong to one account |
| Sessions.Run | src/core/auth/session.ts:157-355 | the operations of any list, one after the other, give the sessions and chains the list determines |
| Sessions.EveryStepDoes | src/core/auth/session.ts:157-355 | in every run each operation does that to the sessions before it, or nothing |
| Sessions.EverySessionHasItsTimes | src/core/auth/session.ts:157-355 | in every run each session has the times of the login or rotation that made it, and is revoked at the time of an operation on it |
| Sessions.EveryRunIsGood | src/core/auth/session.ts:157-355 | in every run each login is a simple chain of one account with all but its last session revoked |
| Sessions.RevokedForGood | src/core/auth/session.ts:157-258 | however a run goes on, what is revoked stays revoked the same way, and a token that became another became that one for good |

## Left out

Contracts that say less than the source does:

- FormulaCompiler.CompilePreservesMeaning: an id that ends in a hyphen, or has the start of another id or a sheet's name after a hyphen (`calc_x-fld_a`), is excluded: one replacement then takes what another has put in or needs, and there is no simultaneous one to compare with. An evaluator that treats a cell name other than through its value (a range, a reference written in lower case or in another notation) is not modelled.
- FormulaCompiler.OrderMattersExactly: the same ids are excluded.
- FormulaCompiler.CompileFormula: the same ids are excluded.
- CalcRunner.BuildHFEntry: the same ids are excluded.
- CalcRunner.CalcService.ComputeCalculationsServer: the same ids are excluded, and the spec is the one the form id and version determine.
- CalcMeaning.CalculationsMeanTheirSources: the same ids are excluded; a later row that the author names by its address is taken as an error value.
- CalcSheet.FreshResultsFrame: a formula that names its own row or a later one by a literal address is taken as an error value, as a circular one is.
- JsonLogic.MetFrame: operators that look at the data other than through a `var` with a non-empty string (`missing`, `missing_some`, `var` with an array or an empty path) are excluded; `JsonLogic.CollectedIsAllExactly` shows that the guard does not collect what they read.
- PayloadStrip.StrippingIsStable: the same operators are excluded from rules and conditions. `StableSpecs.StoredPayloadIsStable` takes every condition as one that may turn out either way.
- JsonParser.ParseInvertsCanonical: the parser reads text without insignificant whitespace, which the printers never write; `undefined`, functions and symbols inside a value are not modelled.
- WebhookSigner.SignThenVerify: timestamps are below 2^53, where decimal notation is exact; the digest is assumed to be hexadecimal.
- PublishGuard.ValidatePublishableSpec: an error carries its code and the id its message names; message wording and path are not modelled.
- AnalyticsDrain.RunJob: claims are about one job and its retries, not about successive nights, whose windows the code does not make adjacent; a batch insert takes effect as a whole or not at all.
- Exposures.AllCallsAgree: the `isNew` flag compares variants, so that two racers may both see true; nothing is said about it.
- Billing.RepeatsChangeNothing: a price is taken to name one plan; the plan cache that is dropped after a change is not modelled.
- Quota.OvershootBound: the quota is fixed; the 60-second plan cache and plan changes within a month are not modelled.
- Sessions.SessionDb.RotateRefreshToken: the transaction is one step; weaker isolation levels, in which two rotations could read the same row, are not modelled. Roles and the access token are not modelled.
- VersionPointers.Db.DuplicateForm: the source form is read before the transaction; here both are one step. The same holds of the checks in `createExperiment`.
- VersionPointers.Db.PublishVersion: spec validation and the schema hash are separate; a version row is named by its form and number.

Parts of the service that are not modelled:

- Routes, request schemas, cookies, rate limits, logging, environment and scripts, and the required-field check of the submit route: wiring without a hard property.
- The insides of Prisma, Redis, BullMQ, ClickHouse, Stripe, HyperFormula and json-logic-js.
- The payment lifecycle, role management, invitations, file uploads, prefill and the funnel readers: they would only add easy members.
- Starting and cancelling experiments: only the status column changes; one running experiment per form is a database index.
- Strings as formula results beyond reading them back, and floating-point rounding.
- The scheduler that enqueues drain jobs, and duplicate rows in ClickHouse after a retry.
