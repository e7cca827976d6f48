# Knob serialization: compatibility renaming, link and expression restoration

This project models the decision logic of Natron's `Engine/KnobSerialization.cpp` and proves
properties about it. A *knob* is a parameter of a node in the compositing graph. When a project
is saved, each knob is written as a record. When the project is loaded, that record is turned back
into a live knob. The model covers:

- **Legacy name compatibility.** This is a table of rules (`KnobNameFilters`) and the matcher that
  applies them (`matchKnobFilterInternal`, `filterKnobNameCompat`).
  - A rule first checks that the application version lies in a window.
  - It then checks optional plug-in ID and plug-in version conditions.
  - Finally it checks a name predicate.
  - Rules are tried in declaration order, and the first rule that matches replaces the name.
  - The five predicates a rule may carry (`startsWith`, `endsWith`, `containsString` and the
    two equality tests) are modelled as functions.
- **Save-time capture.** `ValueSerialization::initForSave` records a dimension's master link as a
  dimension, a node name, a parameter name and a tracking-marker name. It writes -1 as the
  dimension when there is nothing to record.
- **The type factory.** `createKnob` maps fifteen type names to parameter kinds and returns nothing
  for any other name.
- **Link lookup and restoration.** `findMaster` resolves a saved link in the loaded graph:
  - it remaps the node name through the old-to-new script-name map;
  - it takes the first node with that name;
  - it then looks either through the named tracking marker, or for the node's first persistent
    parameter with the saved name.

  `restoreKnobLinks` slaves each dimension to the link that resolves for it, or, in alias mode,
  binds the whole parameter to the front entry's target.
- **Expression restoration.** `restoreExpressions` visits the dimensions the saved and the live
  parameter have in common and skips empty texts. For each other text it replaces every old
  script name with its new name, in map order, and installs the result. The first failure is
  logged and stops the loop.

The modules follow the structure of the source:

- `Common`: Option and the first-hit scan.
- `StringMatchers`: the string predicates.
- `NameFilters`: the rule records, the table and the matcher.
- `KnobFactory`: `createKnob`.
- `KnobGraph`: nodes, markers, the name map and `findMaster`.
- `MasterCapture`: `initForSave`.
- `LinkRestoration`: the live parameter and `restoreKnobLinks`.
- `ExpressionRestoration`: textual renaming and `restoreExpressions`.

The code is imperative where the source is:

- `MatchKnobFilterInternal`, `FilterKnobNameCompat`, `FindMaster`, `RestoreDimensionLinks`,
  `RenameExpression` and `RestoreExpressions` are methods with loops.
- Each of those methods is proved equal to a specification function (`RuleMatches`,
  `CompatRename`, `MasterLookup`, `SlaveLinks`, `RenameScriptNames`,
  `Attempts`/`InstalledExpressions`).
- The rule table and the saved dimension are classes whose constructors and methods assign
  their fields.
- The loaded parameter is a class `LiveKnob`. Its `slaveTo`, `setKnobAsAliasOfThis` and
  `restoreExpression` are recorded as map and field updates.

The `try` block at Engine/KnobSerialization.cpp:283-299 encloses the whole dimension loop. The
first failed install therefore ends the restoration of that parameter's remaining dimensions.
`RestoreExpressions` states this.

Foreign parts are parameters of the model:

- The scripting engine's verdict on an expression is a function `ExpressionEngine` from
  (dimension, text, has-return-variable flag) to `Installed` or `Failed(message)`. An exception
  becomes `Failed`.
- The loaded node graph is a value (`seq<Node>`). Pointers are positions in it.
- The `std::map` of script names is its ascending-key entry sequence. `IsOrderedMapping` states
  the order a `std::map` guarantees.
- Logging to the error log is a returned `Option<LogEntry>`. The timestamp is not modelled.

## Model

| member | source | states |
|---|---|---|
| StringMatchers.StartsWith | Engine/KnobSerialization.cpp:313-320 | true iff the prefix is no longer than the string and agrees with it position by position |
| StringMatchers.EndsWith | Engine/KnobSerialization.cpp:322-328 | true iff the string is at least as long as the suffix and its last characters agree with it |
| StringMatchers.FindFrom | Engine/KnobSerialization.cpp:330-334 | `std::string::find`: the first position at or after `from` where the substring occurs, or none when it occurs nowhere from there on |
| StringMatchers.ContainsString | Engine/KnobSerialization.cpp:330-334 | true iff the substring occurs at some position; the empty string is contained in every string |
| StringMatchers.EqualsStringCaseSensitive | Engine/KnobSerialization.cpp:336-340 | true iff both strings have the same length and the same character at every position |
| StringMatchers.ToUpper | Engine/KnobSerialization.cpp:342-346 | ASCII folding: each lower-case letter maps to its own upper-case letter (32 code points down), every other character is kept |
| StringMatchers.EqualsStringCaseInsensitive | Engine/KnobSerialization.cpp:342-346 | true iff both strings have the same length and agree after case folding at every position |
| StringMatchers.CaseSensitiveImpliesInsensitive | Engine/KnobSerialization.cpp:336-346 | equal strings are equal ignoring case, and the case-insensitive test is symmetric |
| StringMatchers.CompareReflexive | Engine/KnobSerialization.cpp:313-346 | each of the five predicates accepts a subject equal to the rule's string |
| StringMatchers.Compare | Engine/KnobSerialization.cpp:570 | the rule's comparison kind applied as `func(subject, pattern)`: the subject (parameter name or plug-in ID) first, the rule's string second; the kind's meaning is stated by the five predicates above (also used at :598) |
| StringMatchers.CaseMatters | Engine/KnobSerialization.cpp:336-346 | the exact test tells "R" from "r"; the case-insensitive one does not |
| NameFilters.AddPluginMatch | Engine/KnobSerialization.cpp:446-451 | appends exactly one plug-in condition, holding the given ID and the four given version bounds, compared case-insensitively; earlier conditions and the name filter are kept |
| NameFilters.AddKnobFilter | Engine/KnobSerialization.cpp:454-462 | appends exactly one entry with no plug-in list and the given name predicate; the rest of the rule is kept |
| NameFilters.SetNatronVersionMin | Engine/KnobSerialization.cpp:470-475 | sets the lower application-version bound to the three given values and nothing else |
| NameFilters.SetNatronVersionMax | Engine/KnobSerialization.cpp:477-482 | sets the upper application-version bound to the three given values and nothing else |
| NameFilters.BuiltinFilters | Engine/KnobSerialization.cpp:484-525 | the table holds four rules, each with a non-empty replacement |
| NameFilters.KnobNameFilters.constructor | Engine/KnobSerialization.cpp:484-528 | building the table block by block with `push_back` yields exactly the four channel rules |
| NameFilters.AxisAdmits | Engine/KnobSerialization.cpp:538-560 | an axis rejects iff the value and the bound are both known (not -1) and the value is below the minimum or above the maximum; an unknown value never rejects; a -1 bound leaves its side open |
| NameFilters.NatronVersionAdmits | Engine/KnobSerialization.cpp:536-560 | the application version passes the window when every one of the three axes admits it (see `AxisAdmits`) |
| NameFilters.EntryVerdict | Engine/KnobSerialization.cpp:565-604 | one entry's decision: with a plug-in list, no ID match passes the turn on, and an ID match out of its version window rejects the rule; otherwise the name predicate accepts or passes the turn on |
| NameFilters.RuleMatches | Engine/KnobSerialization.cpp:562-606 | the meaning of a rule: the window admits, and there are no entries or some entry accepts while every earlier entry passes the turn on |
| NameFilters.MatchKnobFilterInternal | Engine/KnobSerialization.cpp:530-607 | the loop with its early returns, `continue` and `break` computes exactly `RuleMatches`: the version window admits, and either there are no entries, or some entry accepts while every earlier entry passes the turn on |
| NameFilters.PluginVersionRejectionIsFinal | Engine/KnobSerialization.cpp:567-594 | a plug-in whose ID matches but whose version is outside its window makes the whole rule fail, whatever later entries say |
| NameFilters.RuleMatchesWithoutVersionRejection | Engine/KnobSerialization.cpp:564-606 | when every plug-in condition whose ID matches admits the plug-in version (conditions for other plug-ins are unconstrained), a rule matches iff its window admits and it has no entries, or some entry's name predicate holds and that entry's plug-in list is empty or has an ID match |
| NameFilters.CompatRename | Engine/KnobSerialization.cpp:609-625 | some replacement is chosen iff some rule matches, and it is the replacement of the lowest-index matching rule |
| NameFilters.FilterKnobNameCompat | Engine/KnobSerialization.cpp:609-625 | returns true iff some rule matches; then the name becomes the first matching rule's replacement, and otherwise it is unchanged |
| NameFilters.CompatRenameAppend | Engine/KnobSerialization.cpp:613-624 | rules are tried in order: a list's result comes from its front part whenever a rule there matches, and from the back part only otherwise |
| NameFilters.ChannelRuleMatches | Engine/KnobSerialization.cpp:492-498 | a channel rule matches iff the application major version is at most 1 (or -1) and the name equals, case-sensitively, one of its two names |
| NameFilters.BuiltinFiltersRename | Engine/KnobSerialization.cpp:484-525 | the built-in table rewrites exactly r/doRed, g/doGreen, b/doBlue and a/doAlpha to the four process-channel names when the major version is at most 1 or -1, and rewrites nothing otherwise |
| NameFilters.LegacyRedExample | Engine/KnobSerialization.cpp:609-625 | "r" is renamed under application version 1.0.0 and left alone under 2.0.0 |
| KnobFactory.CreateKnob | Engine/KnobSerialization.cpp:141-184 | a created parameter has the kind whose type name was given and the requested dimension count; nothing is created iff no kind has that type name |
| KnobFactory.CreateKnobRoundTrip | Engine/KnobSerialization.cpp:141-184 | creating from a kind's own type name gives back that kind with the requested dimension count |
| KnobFactory.TypeNameInjective | Engine/KnobSerialization.cpp:147-183 | no two kinds share a type name, so the if-chain is unambiguous |
| KnobGraph.MappedName | Engine/KnobSerialization.cpp:196-206 | a saved name that is not a key is kept; with an ordered map, a key is replaced by its value |
| KnobGraph.RemappedNameIsUsed | Engine/KnobSerialization.cpp:202-206 | every key of an ordered map is looked up to its own value |
| KnobGraph.MasterLookup | Engine/KnobSerialization.cpp:186-242 | unresolved when no node has the remapped name; a result lies on the first node with that name and names a parameter with the saved name; with a track name it comes from that marker, never from the node's own list; without one it is the node's first persistent parameter with that name |
| KnobGraph.FindMaster | Engine/KnobSerialization.cpp:186-242 | the node scan with `break` and the parameter scan with an early return compute exactly `MasterLookup` |
| KnobGraph.ResolvesToNodeKnob | Engine/KnobSerialization.cpp:202-236 | a link to the first persistent parameter of that name, on the first node with the (remapped) name, resolves to that parameter |
| KnobGraph.ResolvesToMarkerKnob | Engine/KnobSerialization.cpp:202-227 | a link through a named marker resolves to the marker's first parameter of that name |
| MasterCapture.CaptureMaster | Engine/KnobSerialization.cpp:111-130 | the dimension is -1 iff there is no master or persistence is ignored, and then nothing else changes; a marker-held master records the marker's name and its context node's name; a node-held master records the node's script name; the parameter name and master dimension are recorded |
| MasterCapture.ValueSerialization.InitForSave | Engine/KnobSerialization.cpp:101-132 | the knob, dimension, expression and flag are stored, and the master record becomes `CaptureMaster` of its previous content |
| MasterCapture.ValueSerialization.constructor | Engine/KnobSerialization.cpp:87-99 | a default record followed by `initForSave` |
| MasterCapture.SaveThenRestoreNodeLink | Engine/KnobSerialization.cpp:111-130 | a captured link to a node's parameter resolves after load, through the name map, to the same parameter |
| MasterCapture.SaveThenRestoreMarkerLink | Engine/KnobSerialization.cpp:118-122 | a captured link to a marker's parameter resolves after load to that marker's parameter |
| MasterCapture.StaleTrackNameRedirectsLookup | Engine/KnobSerialization.cpp:111-126 | a record re-captured for a node-held master keeps an earlier track name, and then resolves through a marker or not at all |
| LinkRestoration.LiveKnob.SlaveTo | Engine/KnobSerialization.cpp:268-270 | records the link of exactly one dimension and changes nothing else |
| LinkRestoration.LiveKnob.SetKnobAsAliasOfThis | Engine/KnobSerialization.cpp:260-262 | records the alias target and changes nothing else |
| LinkRestoration.LiveKnob.RestoreExpression | Engine/KnobSerialization.cpp:293 | installs the text on that dimension when the engine accepts it, and leaves the parameter unchanged when it fails |
| LinkRestoration.ResolveAll | Engine/KnobSerialization.cpp:265-267 | one resolution per saved entry |
| LinkRestoration.SlaveLinks | Engine/KnobSerialization.cpp:265-273 | the links the first n entries restore: entry k slaves dimension k to its master dimension when it is not the -1 sentinel and resolves |
| LinkRestoration.RestoreKnobLinks | Engine/KnobSerialization.cpp:244-275 | alias mode uses only the front entry (an empty list does nothing) and leaves the links alone; per-dimension mode adds exactly `SlaveLinks` and leaves the alias alone; expressions are never touched |
| LinkRestoration.RestoreDimensionLinks | Engine/KnobSerialization.cpp:264-273 | the per-dimension branch adds exactly `SlaveLinks` of all entries and touches neither the alias nor the expressions |
| LinkRestoration.RestoreDimensionLink | Engine/KnobSerialization.cpp:266-271 | one entry slaves the dimension at its position to its resolved master when it is not the -1 sentinel and resolves, and otherwise changes nothing |
| LinkRestoration.SlaveLinksStep | Engine/KnobSerialization.cpp:265-273 | the position counter advances for every entry, and an entry adds at most the link of its own position |
| LinkRestoration.SlaveLinksDomain | Engine/KnobSerialization.cpp:265-273 | dimension d is slaved iff d is the position of an entry that is not the -1 sentinel and that resolves |
| LinkRestoration.AllResolvedSlavesExactlyNonSentinel | Engine/KnobSerialization.cpp:265-273 | when every non-sentinel entry resolves, exactly the non-sentinel positions are slaved |
| ExpressionRestoration.ReplaceAllAbsent | Engine/KnobSerialization.cpp:291 | a text that does not contain the old name is left unchanged |
| ExpressionRestoration.ReplaceAllIdentity | Engine/KnobSerialization.cpp:291 | replacing a name by itself leaves the text unchanged |
| ExpressionRestoration.ReplaceAll | Engine/KnobSerialization.cpp:291 | leftmost non-overlapping replacement of a non-empty old name; its properties are the lemmas below |
| ExpressionRestoration.ReplaceAllSameLength | Engine/KnobSerialization.cpp:291 | a replacement as long as the old name keeps the text's length |
| ExpressionRestoration.ReplaceAllAtFront | Engine/KnobSerialization.cpp:291 | an old name at the front of the text is replaced and the scan goes on right after it |
| ExpressionRestoration.ReplaceAllSkipFirst | Engine/KnobSerialization.cpp:291 | where the old name does not start the text, the first character is kept and the scan moves one position on |
| ExpressionRestoration.ReplaceAllAt | Engine/KnobSerialization.cpp:291 | when the first occurrence of a non-empty old name is at position i, the result is the text before i, the new name, then the replacement of everything after that occurrence |
| ExpressionRestoration.ReplaceAllAtFirstOccurrence | Engine/KnobSerialization.cpp:291 | in terms of `std::string::find`: no occurrence leaves the text unchanged; otherwise the occurrence find reports is replaced and the scan goes on right after it, so every occurrence that does not overlap an earlier replaced one is replaced |
| ExpressionRestoration.RenameScriptNames | Engine/KnobSerialization.cpp:289-292 | the expression after each entry of the map, in iteration order, has been applied as one replace-all |
| ExpressionRestoration.RenameUnmentioned | Engine/KnobSerialization.cpp:288-292 | an expression that mentions none of the old names is installed verbatim |
| ExpressionRestoration.RenameByIdentityMapping | Engine/KnobSerialization.cpp:288-292 | a map that sends every name to itself changes no expression |
| ExpressionRestoration.RenameSingle | Engine/KnobSerialization.cpp:288-292 | with one entry, renaming is one replace-all of that entry |
| ExpressionRestoration.RenameFront | Engine/KnobSerialization.cpp:288-292 | a one-entry map whose old name starts the text and occurs nowhere after it renames exactly that front reference |
| ExpressionRestoration.RenameOneReference | Engine/KnobSerialization.cpp:288-292 | "Blur1.size.get()" becomes "Blur2.size.get()" when Blur1 is renamed Blur2 |
| ExpressionRestoration.RenameTwoReferences | Engine/KnobSerialization.cpp:289-292 | with two entries both names are renamed: "Blur1+Grade1" becomes "Blur2+Grade2" |
| ExpressionRestoration.RenameHitsLongerNames | Engine/KnobSerialization.cpp:288-292 | the replacement is textual: "Blur10" is rewritten to "Blur20" when Blur1 is renamed Blur2 |
| ExpressionRestoration.RenameExpression | Engine/KnobSerialization.cpp:288-292 | the renaming loop computes exactly `RenameScriptNames` of the saved text |
| ExpressionRestoration.Attempts | Engine/KnobSerialization.cpp:284-294 | one verdict per visited dimension: skipped for empty text, otherwise the engine's verdict on the renamed text |
| ExpressionRestoration.InstalledExpressions | Engine/KnobSerialization.cpp:284-293 | the expressions installed on dimensions below n when none failed: each dimension with non-empty text gets its renamed text and its flag |
| ExpressionRestoration.InstalledExpressionsDomain | Engine/KnobSerialization.cpp:284-285 | the installed dimensions below n are exactly those whose saved text is non-empty |
| ExpressionRestoration.RestoreDimensionExpression | Engine/KnobSerialization.cpp:285-293 | one dimension: an empty text is skipped and changes nothing; otherwise the engine's verdict on the renamed text is returned, and the text is installed unless it was rejected |
| ExpressionRestoration.RestoreExpressions | Engine/KnobSerialization.cpp:277-300 | visits min(live, saved) dimensions; with no failure nothing is logged and every non-empty text is installed, renamed; at the first failure f that failure is logged under the parameter's name with the "Failed to restore expression: " prefix, only dimensions before f are installed, and links are never touched |
| ExpressionRestoration.AllAcceptedRestoresEverything | Engine/KnobSerialization.cpp:283-299 | an engine that accepts everything causes no failure at any dimension |

## Left out

- RestoreExpressions: requires at least one saved expression per visited dimension. `_expressions[i]` at Engine/KnobSerialization.cpp:285 is indexed without a check, and the code that fills the record is not part of this model, so the out-of-range case is excluded rather than modelled.
- Diagnostics: the `qDebug` messages of `findMaster` are not modelled.
- Timestamp: the error-log timestamp (`QDateTime`) is not modelled, and neither is the process-wide error log itself. The entry is returned instead.
- UTF-8: the `QString` round-trips are the identity on `seq<char>`, so they are not modelled.
- ReplaceAll: treats an empty old name as matching nothing. `QString::replace` with an empty needle inserts the new text at every position, including before the first and after the last character ("abc" becomes "XaXbXcX"). Qt is not part of this model, and a map key is a node's script name, which is never empty.
- EqualsStringCaseInsensitive: folds ASCII letters only. The locale rules of `boost::iequals` are not modelled.
- Internals of the foreign calls: real parameter construction, `populate()`, and the internals of `slaveTo`, `setKnobAsAliasOfThis` and `restoreExpression` are outside what is modelled. They are modelled by the state they record. An exception from `restoreExpression` is a `Failed` verdict, and a failed install is assumed to leave the parameter unchanged.
- Holders: instead of `dynamic_cast` on the holder there is a tagged `Holder` value, and the asserted-impossible missing holder is `NoHolder`.
- Constants and type names: the OFX names `kNatronOfxParamProcessR/G/B/A` and the `typeNameStatic()` strings come from headers that are not part of this model. They are written out with their usual spelling. The proofs rely only on the four OFX names being non-empty and on the fifteen type names being pairwise distinct.
- Marker and parameter lookup by name: `TrackerContext::getMarkerByName` and `KnobHolder::getKnobByName` are not part of this model. Both are taken to return the first element with the name.
- Unused pieces: `ValueSerialization::initForLoad`, `setChoiceExtraLabel`, `setChoiceExtraString`, `KnobChoiceOptionFilter` and `addOptionFilter` are not modelled. They are field writes behind a cast, or declarations that no code in this file evaluates.
- Debug assertion: `matchKnobFilterInternal` and `filterKnobNameCompat` assert in debug builds that the replacement is non-empty. `BuiltinFilters` states that property of the table instead of requiring it of callers.
- Static table: the process-wide static rule table becomes a rule list that is passed in. `FilterKnobNameCompat` takes the rules, and the built-in table is `BuiltinFilters`, or the `KnobNameFilters` class.
- Builders as values: `addPluginMatch`, `addKnobFilter` and `setNatronVersionMin/Max` update a rule through a reference. Here they are functions from the old rule to the new one, and the returned reference is not modelled.
