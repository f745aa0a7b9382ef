# techknow detection core in Dafny

techknow fingerprints the technologies a host runs. For each technology in
its catalog it sends one HTTPS probe per signature rule, checks each answer
against the rule's expected status code, headers and body pattern, combines
the rule outcomes through the technology's `required` / `optional`
condition, and reports the technologies found present. A second script
builds a map from technology to endpoints out of lines of the form
`endpoint tech1,tech2,...`.

This project models both pieces and proves what they compute:

- `Prober` (src/index.js:48-58): the request options built from a rule, with
  the defaults `GET`, `/` and `{}`.
- `Matcher` (src/index.js:64-79, 127-170): `checkStatus`, `checkHeader` (a
  loop with early return, proved against the predicate `HeadersMatch`),
  `checkBody` and the conjunction that decides one rule's outcome.
- `Evaluator` (src/index.js:97-119): `conditionCheck` as a three-valued value
  `Null | True | False` (`False` also stands for `undefined`), the `reduce`
  that seeds it, the `required` AND-loop and the `optional` OR-loop (each
  run only when its list has more than one entry), as a method proved equal
  to the function `ConditionCheck`, whose meaning is proved case by case.
- `Detector` (src/index.js:40-125): `makeRequest` as a method with the
  technology loop and the rule loop; it is proved to return
  `PresentTechnologies`, the catalog-order list of technologies whose
  condition is truthy.
- `Endpoints` (src/endpoints.js:6-25): the line loop and the inner
  `forEach`, as a method proved equal to the function `Build`, which either
  throws (a line without a space) or yields the map; lemmas give the keys,
  each list, the total number of entries and when the build aborts.
- `Strings`: `split` with a one-character separator, with its inverse `Join`.

The network is a parameter `server: Probe -> Response`: a probe names the
technology, the rule and the request built for it. The regular-expression
test of `checkBody` is a parameter `matches(pattern, body)`. Because it is a
function, its answer depends only on the pattern and the body; this matches
the source, which builds a fresh `RegExp` for every call so that the `g`
flag's `lastIndex` never carries over. Lemmas that need the fact that the
default pattern `""` matches every body take it as a precondition.

Behaviour worth noting:

- A network error leaves the rule's promise unsettled (src/index.js:81-88):
  the error handler only logs, so `makeRequest` never resolves. The model
  leaves this path out rather than treat it as a failed rule.
- `src/endpoints.js` only builds the endpoint map; `src/index.js` never
  reads it, so endpoints play no part in detection.
- The `reduce` seed OR-s every rule outcome of the technology
  (src/index.js:99), and a `required` list with a single entry is never
  looked at (src/index.js:100).
- A rule without a `code` fails the status check (src/index.js:127-131):
  `parseInt` yields NaN, which equals no status code.

## Model

| member | source | states |
|---|---|---|
| `Prober.BuildRequest` | src/index.js:48-58 | the request goes to the host; a method, endpoint or headers given by the rule are passed through, absent ones become `GET`, `/` and `{}` |
| `Prober.DefaultsAreIdempotent` | src/index.js:49-58 | defaults are applied once: rebuilding from a fully populated template changes nothing, and a fully populated rule is passed through as is |
| `Prober.EmptyTemplateProbesRoot` | src/index.js:48-51 | a rule with no request section probes `GET /` with no headers |
| `Matcher.CheckStatus` | src/index.js:127-131 | the status check holds iff the parsed code equals the status; a missing or non-numeric code never matches |
| `Matcher.CheckHeader` | src/index.js:133-149 | the loop returns true iff every expected key is present with a non-empty value identical to the expected one |
| `Matcher.NoExpectedHeadersMatch` | src/index.js:134-148 | with no expected headers, or `{}`, the header check passes |
| `Matcher.EmptyExpectedValueNeverMatches` | src/index.js:139-142 | an expected header value `""` can never be matched |
| `Matcher.ExtraHeadersIgnored` | src/index.js:136-147 | response headers the signature does not name do not change the verdict |
| `Matcher.HeaderKeysAreCaseSensitive` | src/index.js:139-141 | expected `Server: nginx` is not met by a response header `server: nginx` |
| `Matcher.CheckBody` | src/index.js:151-170 | with a configured pattern the body check is the regular-expression test of that pattern on the body; with none, the default `""` is used, so the check passes whenever that pattern matches every body |
| `Matcher.CheckRule` | src/index.js:64-79 | the rule outcome is status check AND header check AND body check |
| `Matcher.RuleWithoutCodeFails` | src/index.js:74-78 | a rule whose response section has no parseable code never succeeds |
| `Matcher.StatusMismatchFails` | src/index.js:74-78 | a status different from the configured code fails the rule whatever headers and body |
| `Matcher.StatusOnlyRule` | src/index.js:160-164 | with the empty default pattern matching every body, a rule configuring only a code succeeds iff the status equals it |
| `Evaluator.Or` | src/index.js:99-115 | JavaScript `\|\|` returns one of its operands and is truthy iff either is |
| `Evaluator.And` | src/index.js:100-107 | JavaScript `&&` returns one of its operands and is truthy iff both are |
| `Evaluator.Lookup` | src/index.js:99-115 | `rulesValid[key]` is never `null` and is truthy iff `key` names a rule that succeeded |
| `Evaluator.SeedFold` | src/index.js:99 | the `reduce` from `null` never yields `false` |
| `Evaluator.RequiredFold` | src/index.js:101-106 | after at least one step the value is no longer `null`, and it is truthy only if every listed rule succeeded |
| `Evaluator.OptionalFold` | src/index.js:109-114 | after at least one step the value is no longer `null`; a truthy start stays truthy, and a truthy result needs a truthy start or a listed rule that succeeded |
| `Evaluator.ConditionCheck` | src/index.js:97-115 | `conditionCheck` is `null` only when neither loop runs, and falsy-but-not-`null` only when one of them ran |
| `Evaluator.EvaluateCondition` | src/index.js:97-115 | the seed, the `required` loop and the `optional` loop compute `ConditionCheck` |
| `Evaluator.SeedFoldIsAny` | src/index.js:99 | the `reduce` from `null` yields `true` if some listed rule succeeded and `null` otherwise, never `false` |
| `Evaluator.RequiredFoldIsAll` | src/index.js:100-107 | from a non-false seed, the `required` loop over a non-empty list is the AND of the listed outcomes, a missing rule counting as false |
| `Evaluator.OptionalFoldIsAny` | src/index.js:108-115 | the `optional` loop yields true iff its start value is true or some listed rule succeeded, and false otherwise |
| `Evaluator.PresentWithoutCombination` | src/index.js:99-119 | with at most one `required` and one `optional` entry, presence iff some rule succeeded (a single required name never narrows) |
| `Evaluator.PresentRequiredOnly` | src/index.js:100-119 | with several `required` names and at most one `optional`, presence iff every required name is a rule that succeeded |
| `Evaluator.PresentOptionalOnly` | src/index.js:99-119 | with several `optional` names and at most one `required`, presence iff some rule succeeded, listed in `optional` or not |
| `Evaluator.PresentRequiredThenOptional` | src/index.js:100-119 | with several names in both lists, presence iff all required succeeded or some optional succeeded |
| `Evaluator.PresentNeedsSomeSuccess` | src/index.js:99-121 | under any condition a technology none of whose rules succeeded is not present |
| `Detector.MakeRequest` | src/index.js:40-125 | the loop returns exactly `PresentTechnologies`: the names of technologies whose condition is truthy, in catalog order |
| `Detector.RulesValid` | src/index.js:45-95 | the keys of `rulesValid` are exactly the rule names |
| `Detector.PresentTechnologies` | src/index.js:41-124 | no more names are reported than there are catalog technologies |
| `Detector.RulesValidKeys` | src/index.js:47-99 | `Object.keys(rulesValid)` lists exactly the rule names |
| `Detector.RulesValidFromRule` | src/index.js:47-95 | every entry of `rulesValid` is the outcome of a rule of that name |
| `Detector.RulesValidAt` | src/index.js:47-95 | with distinct rule names, each rule's outcome is stored under its name |
| `Detector.TechnologyPresentNeedsEvidence` | src/index.js:42-121 | a reported technology has at least one rule whose probe succeeded; one with no rules is never reported |
| `Detector.SingleRuleTechnology` | src/index.js:97-121 | a one-rule technology without multi-entry lists is present iff its rule succeeds |
| `Detector.RulesValidLocal` | src/index.js:45-95 | the rule outcomes of a technology depend only on the answers to its own probes |
| `Detector.TechnologyIndependence` | src/index.js:42-122 | a technology's verdict does not depend on how the host answers other technologies' probes |
| `Detector.PresentTechnologiesMembers` | src/index.js:41-124 | a name is in the result iff some catalog technology of that name is present |
| `Detector.PresentTechnologiesAppend` | src/index.js:41-124 | the result for a catalog split in two is the result for the first part followed by that for the second (catalog order) |
| `Endpoints.Fields` | src/endpoints.js:12 | `technologies` is absent iff the line has no space; neither `endpoint` nor `technologies` contains a space |
| `Endpoints.AddEndpoint` | src/endpoints.js:16-24 | the `forEach` keeps every existing technology and adds each named one as a key |
| `Endpoints.Build` | src/endpoints.js:11-25 | a successful build means every line has a space; a failure names a line of the file |
| `Endpoints.BuildFromText` | src/endpoints.js:6-14 | a file ending in a newline yields an empty last line, so the whole build throws |
| `Endpoints.BuildEndpoints` | src/endpoints.js:11-25 | the line loop with its `forEach` returns `Build`: the map, or the error of the first line without a space |
| `Endpoints.BuildFailureIsFinal` | src/endpoints.js:11-14 | once a line throws, the whole build fails with that error |
| `Endpoints.FieldsMissingIff` | src/endpoints.js:12-14 | a line lacks `technologies` iff it contains no space |
| `Endpoints.FieldsFirstTwo` | src/endpoints.js:12 | only the first two space-separated fields are used; text after a second space is ignored |
| `Endpoints.DoubleSpaceNamesEmptyTechnology` | src/endpoints.js:12-14 | two consecutive spaces after the endpoint give the technology name `""` |
| `Endpoints.AddEndpointAt` | src/endpoints.js:16-24 | each named technology gets the endpoint appended once per mention, a new name gets a fresh list, others are unchanged |
| `Endpoints.AddEndpointNonEmpty` | src/endpoints.js:18-23 | the `forEach` keeps every list non-empty |
| `Endpoints.BuildFailsIff` | src/endpoints.js:11-14 | the build fails iff some line has no space, and reports the first such line |
| `Endpoints.BuildKeys` | src/endpoints.js:14-23 | the key set is exactly the set of comma-separated names over all lines |
| `Endpoints.BuildLists` | src/endpoints.js:11-24 | each technology's list is the endpoints of the lines naming it, in line order, repeats kept |
| `Endpoints.BuildListsNonEmpty` | src/endpoints.js:16-23 | every list in the built map is non-empty |
| `Endpoints.AddEndpointTotal` | src/endpoints.js:16-24 | one `forEach` adds exactly one entry per comma-separated name |
| `Endpoints.BuildTotal` | src/endpoints.js:11-24 | the number of stored entries equals the number of comma-separated fields over all lines |
| `Endpoints.TokensCount` | src/endpoints.js:14 | a line contributes one more name than its technology field has commas |
| `Strings.Split` | src/endpoints.js:12-14 | `split` always yields at least one field, so the first destructured field is always defined |
| `Strings.SplitLength` | src/endpoints.js:12-14 | `split` yields one more field than there are separators |
| `Strings.JoinSplit` | src/endpoints.js:12-14 | joining the fields of a `split` with the separator gives back the string |
| `Strings.SplitAtFirst` | src/endpoints.js:12 | the first field of a `split` ends at the first separator |

## Left out

- HTTPS requests and response streaming (src/index.js:62-89, 151-170) are I/O. The server's answers are the parameter `server`, and the body is taken as already read to its end.
- The network-error path (src/index.js:81-88): the promise never settles and `makeRequest` hangs, so the model assumes every probe gets a response.
- The JavaScript regular-expression engine: it is the parameter `matches`. Its properties, including what ill-formed patterns do, are not modelled.
- Loading the catalog from YAML (src/index.js:14-29) is file I/O. Note that one failing file stops every later technology from loading. The catalog arrives as parsed values, and an absent `required` or `optional` list is the empty list.
- Reading the host list and printing results (src/index.js:7-10, 31-38) are I/O. A blank host line would still produce a request to an empty hostname.
- Reading `endpoints.txt` (src/endpoints.js:6-9) is I/O. The file's text is a parameter of `BuildFromText`.
- Full `parseInt` semantics: the expected `code` is an optional integer, where absent means NaN. Leading-digit parsing of strings is not modelled.
- Non-string YAML values (numbers as header values, a string in place of a list, `null` where a map is expected) and their JavaScript coercions.
- Node lower-cases the names in `res.headers`, so in practice an expected header name with an upper-case letter never matches. The model takes the response headers as given, so it admits header names the client never delivers (`Matcher.HeaderKeysAreCaseSensitive` states the consequence for the comparison itself).
- JavaScript object-key quirks (`__proto__`, `hasOwnProperty` as a name) and array-valued Node response headers.
- Matcher.CheckHeader: visits the expected keys in an arbitrary order, not `Object.keys` order. The result is the same, because the loop returns early only with `false`.
- The server is modelled as a function of the probe. Two identical probes of the same rule and technology therefore get the same answer.
- Detector.MakeRequest: uses the rule names in catalog order where the source uses `Object.keys(rulesValid)`. The two agree whenever rule names are distinct, which they always are for an object's keys.
