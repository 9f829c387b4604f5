# A verified model of the core of Better IAM

Better IAM decides requests with JSON policies, plans the same policies into filters over database rows, stores
records behind interchangeable drivers, keeps a hash-chained audit log and a leased delivery outbox, and speaks LDAP.
This project models that logic in Dafny and proves what the code and its comments promise about it. Every loop of the
program that updates variables is a method here, proved against a function or a declarative relation; objects whose
fields change are classes; expressions and recursion are functions; and the promises are lemmas over all inputs.

`dafny verify dfyconfig.toml` checks everything.

## What is modelled

**Policies, plans and SQL.** `Glob` defines what it means for a glob to accept a text, and shows that the greedy
backtracking matchers and the leftmost-piece matcher decide exactly that, within (tokens + 1)(characters + 1) steps.
`Patterns` adds policy variables, `Policy` the declarative decision, and `Engine` the evaluator with its work budget.
`PatternMeaning` says of texts what patterns and references match, and `Operators` what each condition operator asks.
`Filter`, `Residual`, `Conditions`, `PlanModel`, `ConditionFilters` and `Planner` (module `Planning`) are the query
planner; the main theorem is `Planning.PlanResources`: a returned plan passes exactly the resources the engine
permits, and of those whose requests the engine refuses to look at, exactly the ones the documents mean to permit.
`ServerPlans` is the server around it, which keys relations by joined texts and cuts them apart again for the planner,
and `PlanLimits` says where plans stop being exact. `Sql` compiles filters, and `SqlMeaning` evaluates the compiled
expression in three-valued logic and shows that it is never NULL and true exactly when the filter matches.

**Records.** `Order` is the id order, `Json` is JSON up to the order of members, and `Records` and `Storage` are the
record store: `Storage.RecordStore.Find` returns the page of one simple reference search whatever the driver can push
down and whichever cursors it ignores, and `Searching` says which records those are. `Hexadecimal` and `ValueEncoding`
are the PostgreSQL value encoding, `Jcs` is canonical JSON and `JsonReader` a reader written apart from it, `Snapshot`
is export and import, and `Importing` says which lines are imported.

**Runs.** `Audit` is the hash chain, `Tampering` how each way to alter one is reported, `Outbox` the leased outbox
over all interleavings of workers, crashes and clock ticks, `Mutexes` the SQLite adapter's per-file locks as
interleaved steps on a chain of promises, `LockRings` what several of them can do to each other, `Transactions` the
transactions they let in one at a time, and `RateLimit` both rate limiters.

**Codecs and a lattice.** `Ber` and `LdapFilter` are the BER form of LDAP search filters, `LdapWire` the same bytes as
the standards lay them out, `Dn` is distinguished names, `DnReading` what of them is escaped and when two are the
same, and `Labels` is the lattice of classification labels.

## Conventions

Strings are sequences of UTF-16 code units (`Text.Str`); `Text.Chars` iterates them by code point, as the program's
`for … of` does. Lower-casing, number and address texts, timestamps, UTF-8 and the hash are fields of a host record or
parameters, with the few laws a proof needs stated as a predicate on them, and each of these predicates has a lemma
that something meets it (`Patterns.SomeLawful`, `Dn.SomeLawful`, `LdapFilter.SomeLawful`, `Jcs.SomeLawful`,
`JsonReader.SomeReads`, `Audit.SomeCollisionFree`, `Sql.SomeAgrees`). Numbers in policies and filters are reals;
numbers in records and in the audit chain are `Numbers.Double`, of which there are only as many as there are texts.
Errors are results. Built-in sorting is insertion sort (`Sorting`), which returns the same sequence as any other sort
whenever no two elements tie.

## Where the code and its documentation part

`packages/core/src/plan.ts:16-18` says that a resource passes the filter exactly when the engine would allow it. The code
meets this with five exceptions, each stated as an equivalence:

- Two adjacent pattern characters that are a lone high and a lone low surrogate are joined into one character when the
  filter's glob text is written. `Residual.GlobFilterExactIff`: a glob filter is exact for every text if and only if its
  tokens hold no such pair.
- Under `StringLikeIgnoreCase` the engine lower-cases a value before it looks variables up, and the planner looks for row
  variables in the original spelling. `PlanLimits.IgnoreCaseExactIff`: the filter is exact for every row if and only if
  lower-casing reveals no row variable.
- `NaN`, `Infinity` and `-Infinity` in the context keep their capitals when the engine substitutes them under
  `StringLikeIgnoreCase`, so that the engine matches nothing, while the filter lower-cases both sides.
  `PlanLimits.NonFiniteExactIff`: the filter is exact for every row if and only if the lower-cased pattern refers to no
  such number, or to some variable without a value.
- The engine throws for a request whose action or resource text is empty, too long or holds a control character, which
  the planner does not look at. `PlanLimits.RequestExactIff`: engine and plan agree on a row, whatever the documents, if
  and only if the action and the text of the row's type and id are valid. The server refuses more ids than that, and
  `ServerPlans.ParentExactIff` says which.
- The server looks the relations held on a row's parent up under the key `type/id`, or under the id alone when the type
  is `iam`; the planner is told the keys cut at their first slash. `ServerPlans.ParentExactIff`: plans give a row the
  server's answer, whatever the policies and relations, if and only if the server takes its id, its parent is not `iam`
  naming another resource, and its parent's type has no slash that runs into another resource's key. For a row with
  another parent a deny that rests on `resource.parentRelations` can be dropped from the plan.

`Planning.PlanResources` assumes of every pattern and value just what the first three ask; `PlanModel.Tidy` spells this
out, and `PlanModel.CleanTidy` shows that texts without unpaired surrogates and finite context numbers are enough.

`packages/core/src/filter-compilers.ts:5-6` says that negations behave like the policy engine. With dates they do exactly
where the database reads the stored text as the moment the engine reads it as (`SqlMeaning.DateExactIff`); text it cannot
read makes a test and its negation NULL in SQLite and fails the statement in PostgreSQL (`SqlMeaning.DateTest`). Without
regard to case, tests are right exactly where the database lower-cases the row's text as the host does
(`SqlMeaning.CaseExactIff`), which SQLite's `LOWER` does for ASCII only.

`packages/adapter-sqlite/src/index.ts:67-74` refuses a call that would wait for a lock its own caller holds. Two call
chains that enter two locks in opposite orders are let in and wait for each other for ever: `LockRings.OppositeOrders`.
`LockRings.RingExactly` says when runs can wait for each other, and `LockRings.OrderedNeverRing` that entering locks in
one order prevents it.

Two more results are worth knowing. `Labels.ProtectsExactly` shows that `labelCovers` is stricter than readership alone:
it asks for the NOFORN mark even where it changes no reader. `Dn.NormalizedExactly` shows that a name within the length
limit can still be refused by `isUnder`, when its normalized text is longer than the limit.

## Model

| member | source | states |
|---|---|---|
| Glob.GlobMatches | packages/core/src/plan.ts:274-295 | the backtracking matcher answers exactly whether the glob accepts the text, within (tokens + 1)(characters + 1) steps |
| Glob.MatchStars | packages/core/src/policy.ts:251-273 | the leftmost-piece matcher for patterns without `?` decides the same relation |
| Glob.ParseGlob | packages/core/src/plan.ts:260-271 | a glob text is parsed to its tokens, escapes included |
| Glob.GlobRoundTrip | packages/core/src/plan.ts:245-271 | parsing the text written for tokens returns them if and only if no adjacent literals are halves of a surrogate pair |
| Glob.InseparableMatchesNothing | packages/core/src/plan.ts:245-257 | tokens that do not survive the round trip accept only texts with an unpaired high surrogate before an unpaired low one |
| Patterns.Tokenize | packages/core/src/policy.ts:137-165 | the token loop returns the specified tokens: row variables are stars on request, an unresolved variable gives none |
| PatternMeaning.ReferenceMatches | packages/core/src/policy.ts:112-165 | a text, a reference and a pattern match exactly the texts that split, between characters, into a match of the first, the printed value and a match of the last; an absent key, a list or an object matches nothing |
| PatternMeaning.ReferenceAlone | packages/core/src/policy.ts:112-165 | a reference alone matches the printed text of its value and nothing else |
| PatternMeaning.FirstCharacterMatches | packages/core/src/policy.ts:123-135 | without references: `*` matches any text, `?` one character, any other character itself |
| PatternMeaning.VariableExactly | packages/core/src/policy.ts:112-153 | the scan finds a reference exactly where one is written |
| PatternMeaning.ReferenceResolves | packages/core/src/policy.ts:215-224 | a condition value with a reference resolves to the texts around it and the printed value, and only if there is one |
| PatternMeaning.VariablesExactly | packages/core/src/policy.ts:204-213 | variables are valid exactly when a reference is written wherever its first two characters are |
| PatternMeaning.ResourceExactly | packages/core/src/policy.ts:478-483 | in a resource pattern a slash stands before every reference, and nothing else starts like one |
| Operators.ConditionExactly | packages/core/src/policy.ts:497-655 | for each operator: a condition holds exactly when what is under the key is of its kind and some, none or every listed value stands to it as the operator says |
| Policy.DecisionExactly | packages/core/src/policy.ts:672-708 | the reason is the first that applies of a deny, no grant and a boundary without allow; the marks are those of the matching statements, grants first, in the order of the documents |
| Patterns.HasRowVariable | packages/core/src/plan.ts:194-207 | true exactly when some variable reference of the text names the row |
| Patterns.PlainPattern | packages/core/src/policy.ts:227-243 | without a variable marker the substituted tokens are the plain glob's, which is why the shortcut may skip substitution |
| Patterns.UnitsAreChars | packages/core/src/policy.ts:227-243 | without surrogates code units are characters, which is why the shortcut may work on units |
| Patterns.WidestContains | packages/core/src/plan.ts:569-650 | what a row's pattern accepts, the pattern with stars for row variables accepts too |
| Engine.Evaluator.MatchTokens | packages/core/src/policy.ts:179-203 | with work left the answer is the glob relation; work is bounded and never refunded |
| Engine.Evaluator.MatchPattern | packages/core/src/policy.ts:227-243 | the dispatch between matchers never changes the answer |
| Engine.Evaluator.Matches | packages/core/src/policy.ts:629-655 | a statement matches exactly when action, resource and every condition do |
| Engine.Evaluator.EvaluatePolicy | packages/core/src/policy.ts:661-708 | invalid requests and invalid policies are errors, exactly; of all others the decision and matched statements are the declarative ones, or, only where a bound computed from the documents and the request passes the limit, the evaluation limit refuses with a prefix of the marks; the caller's budget is restored |
| Filter.AndMeaning | packages/core/src/plan.ts:110-119 | flattening, deduplicating and constant folding keep "all pass" |
| Filter.OrMeaning | packages/core/src/plan.ts:125-148 | flattening, merging of equality lists and folding keep "some passes" |
| Filter.NotMeaning | packages/core/src/plan.ts:151-156 | the negation passes exactly what the filter does not |
| Filter.ConstructorsPlanned | packages/core/src/plan.ts:109-167 | the constructors keep filters free of inner constants and empty lists |
| Residual.GlobFilterExact | packages/core/src/plan.ts:298-304 | the literal, exists-and-string and glob cases all accept exactly the texts the tokens accept |
| Residual.GlobFilterExactIff | packages/core/src/plan.ts:298-304 | a glob filter is exact for every text if and only if its tokens are separable |
| Residual.Closure | packages/core/src/plan.ts:310-341 | closing states over stars adds nothing that could not be reached |
| Residual.Advance | packages/core/src/plan.ts:310-341 | one character moves the state set to exactly the states it leads to |
| Residual.StepMeaning | packages/core/src/plan.ts:310-341 | the stepped states accept a text exactly when the former accept the character before it |
| Planning.Planner.IdFilter | packages/core/src/plan.ts:310-341 | the filter passes an id exactly when the whole glob accepts the prefix and the id, and is false only when it accepts no id at all; refused only for the work limit, and the work is bounded by (prefix + tokens + 1)(tokens + 1) |
| Conditions.AttributeMeaning | packages/core/src/plan.ts:388-483 | for every operator, negated, quantified and absent values included, the filter passes a row exactly when the condition holds of it |
| PlanModel.ContextsAgree | packages/server/src/decisions.ts:1103-1118 | the planner's context and the context a resource is decided with, classification keys included, agree on every key that is not the row's |
| PlanModel.ConcreteMeaning | packages/core/src/plan.ts:354-378 | a condition over known keys is evaluated as the engine evaluates it |
| PlanModel.RelationMeaning | packages/core/src/plan.ts:529-553 | a condition on held relations becomes a filter on ids or parents that holds exactly when the condition does |
| ConditionFilters.ConditionFilterExact | packages/core/src/plan.ts:556-650 | the filter of any one condition, with its fallback for shared keys, passes exactly the rows of which it holds |
| Planning.BuildIndexes | packages/core/src/plan.ts:677-728 | the index of relations holds exactly what the input lists |
| Planning.Planner.StatementFilter | packages/core/src/plan.ts:569-650 | a statement's filter passes exactly the resources it matches, or planning is refused for a stated cause in a statement that could apply |
| Planning.Planner.EveryBoundary | packages/core/src/plan.ts:668-670 | passes exactly the resources for which every boundary has a matching allow |
| PlanModel.CleanTidy | packages/core/src/plan.ts:214-243 | texts without unpaired surrogates and finite numbers meet all that exact planning asks of a statement, but for variables lower-casing reveals |
| Planning.PermittedWhen | packages/server/src/decisions.ts:1123-1141 | with valid documents, a resource is permitted by the evaluations that the server combines exactly when its request is valid, mandatory holds, nothing denies, every boundary allows, and some path allows |
| Planning.PlanResources | packages/core/src/plan.ts:677-728 | of the resources whose requests are valid a plan passes exactly those the engine permits, and of all others those the documents mean to permit; invalid input is refused exactly; any other refusal has its cause in a statement that could apply, or a bound on the work computed from the input passes the limit; where there is no such cause and the bound is within the limit, there is a plan |
| PlanLimits.IgnoreCaseExactIff | packages/core/src/plan.ts:388-483 | exact for every row if and only if lower-casing the value reveals no row variable |
| PlanLimits.RevealedVariable | packages/core/src/policy.ts:565-575 | whenever lower-casing reveals a row variable, plan and engine differ on some row |
| PlanLimits.NonFiniteExactIff | packages/core/src/plan.ts:380-400 | the filter of a StringLikeIgnoreCase value is exact for every row if and only if the lower-cased pattern refers to no NaN or infinity, or to some unresolved variable |
| PlanLimits.NonFiniteReady | packages/core/src/plan.ts:380-400 | for such values the requirement of the planner's theorem is not only enough but needed |
| PlanLimits.RequestExactIff | packages/core/src/policy.ts:661-669 | engine and plan agree on a row for all documents if and only if the action and the text of type and id are valid; otherwise a plan passes it for documents that allow everything, and the engine throws |
| PlanLimits.LineFeedRow | packages/core/src/policy.ts:661-669 | a row whose id is a line feed passes such a plan and is refused by the engine, whatever the action and type |
| ServerPlans.Gather | packages/server/src/decisions.ts:1080-1091 | under a key exactly the relations of the relationships whose joined type and id it is, one entry for each key |
| ServerPlans.SameDecision | packages/server/src/decisions.ts:1092-1141 | the server permits a row with an ordinary parent exactly when it takes the row's id and the documents, with the relations the planner is told, mean to |
| ServerPlans.PlanForType | packages/server/src/api/filters.ts:34-89 | the server permits a resource with an ordinary parent exactly when the plan passes it and its id is one the server takes, for actions the engine takes; where nothing stops planning there is a plan |
| ServerPlans.ParentExactIff | packages/server/src/decisions.ts:1092-1116 | plan and server agree on a row for all policies and relations if and only if its parent is ordinary and the server takes its id; otherwise a deny can be dropped, or a row passed that the server refuses |
| ServerPlans.RequestText | packages/server/src/validation.ts:2-11 | of the ids the server resolves, exactly those without U+007F make a valid request text, for every type of the catalog |
| ServerPlans.PartingParents | packages/server/src/decisions.ts:1092-1095 | parents of type `iam` that name a resource's key, and parent types that extend a resource's key, are not ordinary |
| Sql.FilterToSql | packages/core/src/filter-compilers.ts:178-246 | compiles exactly the expressible filters, with the arguments bound in order; a refusal is that of the first atom without SQL |
| Sql.ExpressibleExactly | packages/core/src/filter-compilers.ts:178-246 | a filter is expressible exactly when it has no address and no list atom and every field has a column |
| Sql.Compiler.Compile | packages/core/src/filter-compilers.ts:178-246 | each part appends its arguments to the shared list and refers to their places |
| SqlMeaning.LikeRoundTrip | packages/core/src/filter-compilers.ts:159-171 | the LIKE pattern is read back as the glob's tokens, escapes included |
| SqlMeaning.GlobPartsRoundTrip | packages/core/src/filter-compilers.ts:144-156 | the GLOB pattern is read back as the glob's tokens, special characters as one-character classes |
| SqlMeaning.PatternsMatch | packages/core/src/filter-compilers.ts:144-171 | LIKE, GLOB and the filter's own glob accept the same texts |
| SqlMeaning.MarksOfCompiled | packages/core/src/filter-compilers.ts:178-246 | placeholders are numbered by the places of their arguments, in order and without gaps |
| SqlMeaning.CompiledDecides | packages/core/src/filter-compilers.ts:178-246 | on stored rows whose texts under test the database lower-cases, and whose dates it reads, as the engine does, the compiled expression never fails, is never unknown, and is true exactly when the filter matches; nothing is asked of other texts |
| SqlMeaning.SelectsMatching | packages/core/src/filter-compilers.ts:178-246 | of such rows the statement as sent selects exactly the matching ones |
| SqlMeaning.DateExactIff | packages/core/src/filter-compilers.ts:233-238 | for all moments at once: date tests and their negations are right on a stored text if and only if the engine reads it and the database reads it as the same moment |
| SqlMeaning.DateTest | packages/core/src/filter-compilers.ts:233-238 | one date test and its negation: right if and only if there is no date, or the database reads it and puts it on the same side; a text it cannot read gives NULL, or an error, for both |
| SqlMeaning.CaseExactIff | packages/core/src/filter-compilers.ts:212-219 | for all texts at once: comparisons without regard to case and their negations are right on a stored text if and only if the database lower-cases it as the host does |
| SqlMeaning.PlannedWellFormed | packages/core/src/filter-compilers.ts:178-246 | what the planner builds compiles to SQL without inner constants or empty lists |
| Order.CompareIds | packages/core/src/storage.ts:306-318 | the loop over code units returns the comparison, with surrogates moved above U+FFFF |
| Order.TotalOrder | packages/core/src/storage.ts:306-318 | irreflexive, total and transitive |
| Order.ComparesCodePoints | packages/core/src/storage.ts:305-318 | on strings without unpaired surrogates it is the lexicographic order of code points |
| Order.OrdersPart | packages/core/src/storage.ts:305-318 | for all strings: it is the order of code points if and only if, where the strings first differ, no unpaired surrogate stands against a unit above the surrogates or a pair with a smaller first half |
| Json.EqualMeaning | packages/core/src/storage.ts:278-296 | deep equality decides exactly whether two values are the same up to member order |
| Records.StorableString | packages/core/src/storage.ts:174-185 | one pass decides exactly whether a column can hold the string |
| Records.StorableExactly | packages/core/src/storage.ts:174-185 | it can exactly when there is no U+0000, a low surrogate after every high one, and a high one before every low one |
| Storage.PlanQuery | packages/core/src/storage.ts:329-369 | the query selects every matching row and, when exact, no other; empty only when nothing can match; exact exactly when every member is pushable and at most 24 need a condition |
| Storage.FilteredAnswer | packages/core/src/storage.ts:421-438 | filtering a driver's answer again gives the reference search, cursor honoured or not |
| Storage.IgnoredCursor | packages/core/src/storage.ts:423-437 | a nonempty page read from the start whose rows are all past an ignored cursor proves that the whole answer is |
| Storage.SortedSelection | packages/core/src/storage.ts:440-450 | without driver queries, selecting, filtering and sorting give the reference search |
| Storage.RecordStore.Find | packages/core/src/storage.ts:393-452 | for every driver, filter, offset, limit and cursor: the page of the reference search |
| Searching.FoundExactly | packages/core/src/storage.ts:393-452 | a record is on the page exactly when it is of the collection, has all the filter asks for up to member order, lies past the cursor, and as many such records come before it as offset and limit say; in the order of ids, none twice |
| Storage.SameContent | packages/core/src/storage.ts:393-452 | the answer depends on which rows there are, not on the order the driver holds them in |
| Storage.RecordStore.Fetch | packages/core/src/storage.ts:379-391 | the row with the id, if any; refused exactly for malformed identifiers |
| Storage.RecordStore.Insert | packages/core/src/storage.ts:503-509 | adds exactly the record; in conflict exactly when a record of the collection has its id, or another of the same tenant its natural key, and then nothing changes |
| Storage.RecordStore.Put | packages/core/src/storage.ts:511-522 | replaces exactly the record of the same tenant; not found exactly without one of this id, in conflict exactly when that is another tenant's or another record of the tenant has the natural key, and then nothing changes |
| Storage.KeyColumns | packages/core/src/sql.ts:169-172 | the key columns find a natural key taken exactly when another record of the same collection and tenant has it |
| Storage.KeysApart | packages/core/src/sql.ts:169-172 | no two records of a store have one id in a collection, or one natural key in a collection and tenant |
| Storage.OthersIgnored | packages/core/src/sql.ts:171 | records of other tenants make no natural key taken |
| Storage.RecordStore.Delete | packages/core/src/storage.ts:524-531 | removes exactly the record |
| Storage.FindOrdered | packages/core/src/storage.ts:600-615 | reading chunks until the page is full gives the page of the whole filtered answer |
| Hexadecimal.HexInverse | packages/core/src/sql.ts:350-363 | the decoder reads exactly the encoder's output and refuses everything else |
| Hexadecimal.DecodeHex | packages/core/src/sql.ts:356-363 | the loop returns the decoded string, or refuses text that is not whole groups of digits |
| ValueEncoding.EncodedStorable | packages/core/src/sql.ts:341-380 | an encoded value holds only storable strings and names, and is JSON with distinct names |
| ValueEncoding.EncodedCompares | packages/core/src/sql.ts:341-347 | equality of an encoded value with a pushable value is equality of the original |
| ValueEncoding.ConditionOnEncoded | packages/core/src/sql.ts:344-346 | every typed condition on an ordinary field selects the same records, encoded or not |
| ValueEncoding.DecodedValue | packages/core/src/sql.ts:365-400 | decoding restores every JSON value up to member order, the reserved key included |
| Jcs.Write | packages/core/src/jcs.ts:11-52 | the recursive writer returns the canonical text, and none for a value without a JSON form |
| JsonReader.CanonicalReads | packages/core/src/jcs.ts:1-52 | a JSON reader written apart from the printer reads the canonical text as the canonical value, which is the value up to member order |
| JsonReader.PrintReads | packages/core/src/jcs.ts:11-52 | it reads the text of every value back, and leaves what follows |
| JsonReader.EscapedExactly | packages/core/src/jcs.ts:19 | escaped are exactly quotation mark, backslash, units below U+0020 and unpaired surrogates, the short way exactly where RFC 8785 has one |
| Jcs.PrintUnique | packages/core/src/jcs.ts:31-41 | the text of a value, whatever follows it, is read in one way only |
| Jcs.CanonicalSorted | packages/core/src/jcs.ts:36-39 | the canonical members are all of the members in strict order of their names' code units |
| Jcs.SameText | packages/core/src/jcs.ts:1-9 | two values have the same canonical text exactly when they are the same up to member order |
| Snapshot.EachPage | packages/core/src/snapshot.ts:74-102 | every record once, in id order, whichever cursors the store honours; the paging ends |
| Snapshot.EachRecord | packages/core/src/snapshot.ts:66-107 | the collections in turn, with the right counts |
| Snapshot.ImportStore | packages/core/src/snapshot.ts:155-227 | every line loads and the trailer agrees, or the store is as it was |
| Importing.ImportedExactly | packages/core/src/snapshot.ts:155-227 | lines are imported exactly when, blank ones aside, they are a header, entries the store takes one after another and a trailer that counts them, and the store held nothing looked for; it then holds those entries besides |
| Snapshot.AcceptedCounts | packages/core/src/snapshot.ts:209-224 | whatever is imported has a trailer that counts its entries, all of them and those of every collection |
| Snapshot.DamagedRefused | packages/core/src/snapshot.ts:10-13 | an export cut before its trailer, missing one entry, or with one entry again at any place, imports nothing |
| Snapshot.RepeatedRefused | packages/core/src/snapshot.ts:199-207 | any lines that hold an entry twice fail to load |
| Snapshot.ExportImports | packages/core/src/snapshot.ts:113-135 | an export loads into an empty store as exactly the exported records |
| Snapshot.SameAnswers | packages/core/src/snapshot.ts:151-227 | the imported store answers every search of an exported collection as the source does |
| Audit.AuditLog.Append | packages/core/src/audit.ts:69-94 | one tenant's chain grows by the event; every tenant's events stay a chain ending at its head |
| Audit.VerifyAuditChain | packages/core/src/audit.ts:105-163 | the first event that fails and its reason, the number checked, and with a head exactly whether the list is the whole chain, and else the sequence, event and reason of the first check it fails |
| Audit.SomeCollisionFree | packages/core/src/audit.ts:69-87 | some hash tells all events apart and never gives the genesis value, so the results that ask for one say something |
| Audit.RecordedAccepted | packages/core/src/audit.ts:65-94 | what was appended verifies against its head, whatever the hash |
| Audit.AcceptedExactly | packages/core/src/audit.ts:96-104 | with a collision-free hash, a list is accepted against a head if and only if it is, in any order, the recorded chain or the part after a prune checkpoint it holds |
| Audit.Untampered | packages/core/src/audit.ts:96-104 | with no checkpoint recorded, only the recorded events are accepted: no deletion, edit or insertion |
| Tampering.Omitted | packages/core/src/audit.ts:115-139 | an event left out is reported as a gap where the next one stands |
| Tampering.Edited | packages/core/src/audit.ts:115-139 | a changed event with its old hash is reported as a hash mismatch at the event |
| Tampering.Rewritten | packages/core/src/audit.ts:115-163 | a changed event with a fitting hash is reported at the one after it, or, as the last, against the head |
| Tampering.CutShort | packages/core/src/audit.ts:140-163 | a chain cut off at its end does not match its head |
| Tampering.CutFront | packages/core/src/audit.ts:140-163 | a chain cut off at its start is reported as missing a prefix, unless a checkpoint left in it accounts for that |
| Tampering.ResumableExactly | packages/core/src/audit.ts:147-158 | a chain may start late exactly when an event left in it is a prune that names the last event removed and its hash |
| Tampering.Padded | packages/core/src/audit.ts:140-163 | an event without chain fields beside the whole chain is reported |
| Outbox.StepKeeps | packages/auth/src/outbox.ts:58-141 | every step keeps: never both delivered and failed, the payload empty exactly when settled, delivered only after the holder's callback returned, one unsettled holder per lease |
| Outbox.StepCounts | packages/auth/src/outbox.ts:86-90 | attempts is the number of claims ever made of the message, and these are numbered apart |
| Outbox.OutcomeExactly | packages/auth/src/outbox.ts:108-137 | over every run: a message is delivered if and only if its holder recorded that its callback returned, and at that moment; it has failed for good if and only if its holder recorded the failure of its last attempt, at that moment and with that error |
| Outbox.StepRecords | packages/auth/src/outbox.ts:108-137 | what each step records of a message: the delivery, the failure for good, the failure with its error and the wait, or nothing |
| Outbox.EnqueuedExactly | packages/auth/src/outbox.ts:22-52 | over every run: a message is there from the first time something was enqueued under its id until it is removed, with the moment of that and, until it is settled, what was enqueued |
| Outbox.OutcomeByHolder | packages/auth/src/outbox.ts:108-137 | only the holder of the latest lease records an outcome, and the one its callback had |
| Outbox.SettledStays | packages/auth/src/outbox.ts:79-85 | over every run a settled message never changes |
| Outbox.LeaseExclusive | packages/auth/src/outbox.ts:76-91 | over every run, a leased message changes by its holder's hand only until the lease runs out |
| Outbox.ClaimExcludes | packages/auth/src/outbox.ts:86-90 | no claim for 60 seconds after a claim, unless its holder settles |
| Outbox.FailureWaits | packages/auth/src/outbox.ts:120-137 | after a recorded failure, no claim before the doubling backoff, capped at an hour |
| Outbox.LeaseEnds | packages/auth/src/outbox.ts:79-91 | after a claim that nothing follows the next one takes exactly once a minute has passed |
| Outbox.WaitEnds | packages/auth/src/outbox.ts:120-137 | after a failure the next claim takes exactly once the backoff has passed, and after the last attempt's never |
| Outbox.BackoffDoubles | packages/auth/src/outbox.ts:127 | the wait is 30 seconds, doubles with every attempt and is an hour exactly from the eighth attempt on |
| Outbox.Store.Dispatch | packages/auth/src/outbox.ts:58-141 | whatever others do meanwhile: a lease is issued only for its candidate, every claim is settled as its callback ended, and the counts are those of the messages claimed here and delivered, of those that failed, and of those among them that were claimed for their last attempt; where the lease is still the latest, the stored message is delivered, or has the error of its callback and has failed for good exactly if that was its last attempt |
| Outbox.OldestFirst | packages/auth/src/outbox.ts:63-71 | the candidates are the oldest claimable messages in the store, oldest first and ties by id, as many as the limit allows |
| Transactions.SqliteStore.Operate | packages/adapter-sqlite/src/index.ts:203-227 | a failed operation changes nothing and marks the context |
| Transactions.SqliteStore.Call | packages/adapter-sqlite/src/index.ts:229-238 | a callback's steps, nested transactions and caught errors show on the connection exactly, or the context is marked |
| Transactions.SqliteStore.Transact | packages/adapter-sqlite/src/index.ts:239-285 | commits exactly when the callback returned, no step it reached failed, caught or not, and the COMMIT went through, and then the store is what the steps wrote; otherwise, after a throw too, the store is unchanged; the context is dead |
| Transactions.CallbackExactly | packages/adapter-sqlite/src/index.ts:203-238 | step by step: a callback is marked exactly when a reached step fails, throws exactly when a reached step throws and nothing catches it, and else returns with what its steps wrote |
| Transactions.CommittedExactly | packages/adapter-sqlite/src/index.ts:239-285 | where a reached step throws or fails, or the COMMIT is refused, the store after is the store before; otherwise it is what the steps wrote |
| Transactions.SqliteStore.UseHandle | packages/adapter-sqlite/src/index.ts:195-201 | a finished transaction's handle is refused and changes nothing |
| Mutexes.Locks.Enter | packages/adapter-sqlite/src/index.ts:66-80 | the scan of the chain and the exchange of the tail are one step of the state machine; every step keeps the queue sound |
| Mutexes.StepKeeps | packages/adapter-sqlite/src/index.ts:66-92 | every call, begin and end keeps: each run waits for the run of its lock before it, chains list the runs a call is inside of, and nobody waits behind itself |
| Mutexes.HeldOnce | packages/adapter-sqlite/src/index.ts:66-92 | at no moment of any execution do two runs hold one lock |
| Mutexes.ServedInOrder | packages/adapter-sqlite/src/index.ts:75-83 | a run begins only when every earlier one of its lock is done |
| Mutexes.AlwaysQueue | packages/adapter-sqlite/src/index.ts:66-92 | at every moment the runs of a lock, as they arrived, are some done, at most one running and the rest waiting |
| Mutexes.RefusedExactly | packages/adapter-sqlite/src/index.ts:69-74 | a call is refused if and only if its caller is, or was called, inside the run that holds the lock now |
| Mutexes.WouldWait | packages/adapter-sqlite/src/index.ts:67-74 | without the refusal the call would wait for the run it is inside of |
| Mutexes.SomeoneBegins | packages/adapter-sqlite/src/index.ts:75-90 | while runs of a free lock wait, one of them can begin |
| Mutexes.TakesTurn | packages/adapter-sqlite/src/index.ts:75-83 | a run begins only when nobody holds its lock and it is the next of those that asked, in order of arrival |
| Mutexes.OthersTurns | packages/adapter-sqlite/src/index.ts:66-92 | refused calls and whatever happens to other locks leave the turns of a lock as they are |
| LockRings.RingExactly | packages/adapter-sqlite/src/index.ts:66-92 | at any moment of any execution: some runs can wait for each other in a ring if and only if some locks do, each held by a run inside of which a call waits for another |
| LockRings.RingStays | packages/adapter-sqlite/src/index.ts:66-92 | nobody in such a ring ever begins, and the ring stays until a run in it ends without the call it could wait for |
| LockRings.OrderedNeverRing | packages/adapter-sqlite/src/index.ts:66-92 | where every call made while locks are held is for a later lock, or one of these, there is never a ring |
| LockRings.OppositeOrders | packages/adapter-sqlite/src/index.ts:67-74 | two chains that enter two locks in opposite orders are let in, and wait for each other |
| Transactions.SqliteStore.Drain | packages/adapter-sqlite/src/index.ts:239-286 | everyone is served, and the store is what the transactions leave run one by one in order of arrival, which is the order in which the lock gives turns: at every moment as many of its runs are done as transactions ended, and in the end all |
| Transactions.AbortedExactly | packages/adapter-sqlite/src/index.ts:206-238 | a callback marks its transaction exactly when some reached operation failed or some nested callback threw, caught or not |
| Transactions.StatementCache.Prepare | packages/adapter-sqlite/src/index.ts:127-138 | the cache always holds the most recently used distinct statements, up to its size |
| Transactions.CachedExactly | packages/adapter-sqlite/src/index.ts:127-138 | a statement is found exactly when it was used before, and fewer distinct ones than the size since |
| RateLimit.MemoryRateLimiter.ConsumeKey | packages/auth/src/rate-limit.ts:34-49 | pruning, eviction and counting as specified, and never more than `maxKeys` counters |
| RateLimit.PrunedLive | packages/auth/src/rate-limit.ts:29-38 | in an aged map pruning from the front removes every expired counter and nothing else |
| RateLimit.RunAgrees | packages/auth/src/rate-limit.ts:25-54 | over every run with one window length and a clock that does not go back, while live keys fit, every answer is that of counters without a bound |
| RateLimit.OldestEvicted | packages/auth/src/rate-limit.ts:14-17 | at the cap exactly enough counters are dropped to make room for one, none newer than one that stays |
| RateLimit.WindowLimit | packages/auth/src/rate-limit.ts:39-48 | within one window never more than the limit is permitted |
| RateLimit.WindowExactly | packages/auth/src/rate-limit.ts:39-48 | for the counters of both limiters, over every run: while a window lasts an attempt is permitted if and only if fewer than the limit were since it opened; afterwards none is open |
| RateLimit.FreshExactly | packages/auth/src/rate-limit.ts:39-54 | with no window open an attempt is permitted if and only if the limit is above zero, and a reset leaves none open |
| RateLimit.StoreRateLimiter.SweepBatch | packages/auth/src/rate-limit.ts:67-78 | of the counters found stale, deletes exactly those that still are |
| RateLimit.SweepsUnseen | packages/auth/src/rate-limit.ts:62-105 | sweeps, however they fall between attempts, change no answer |
| RateLimit.SweepsApart | packages/auth/src/rate-limit.ts:93-103 | however attempts and ends of sweeps fall, two starts are a minute apart and the first sweep has ended before the second starts |
| RateLimit.StoredLimit | packages/auth/src/rate-limit.ts:80-92 | within one window the stored counters permit at most the limit, whatever is swept meanwhile |
| Ber.ReadElement | packages/ldap/src/ber.ts:73-96 | the reader with its offset and length loop returns the reading of the bytes from there |
| Ber.ReadStable | packages/ldap/src/ber.ts:69-96 | a complete or malformed reading ignores the bytes that follow |
| Ber.PrefixIncomplete | packages/ldap/src/ber.ts:69-96 | every proper prefix of an element is incomplete |
| Ber.ReadElementOf | packages/ldap/src/ber.ts:42-45 | an element reads back, whatever follows |
| Ber.LengthBytes | packages/ldap/src/ber.ts:33-39 | the shortest length octets, refused from four gigabytes on |
| Ber.ReadChildren | packages/ldap/src/ber.ts:99-109 | the children of a value, or a refusal when it is not a run of whole elements |
| Ber.IntegerBytes | packages/ldap/src/ber.ts:47-59 | the shortest two's complement form, refused exactly outside the safe integers |
| Ber.IntegerRoundTrip | packages/ldap/src/ber.ts:111-117 | an integer is read back exactly on [-2^47, 2^47) and refused outside |
| Ber.OneShortForm | packages/ldap/src/ber.ts:47-59 | an integer has only one shortest form |
| LdapWire.SignedMeans | packages/ldap/src/ber.ts:111-117 | integer octets are read in two's complement |
| LdapWire.LengthMeans | packages/ldap/src/ber.ts:33-39 | lengths are written as section 8.1.3 of X.690 has them, with no octet too many |
| LdapWire.ReadExactly | packages/ldap/src/ber.ts:73-96 | bytes are refused exactly for a tag of several octets, an indefinite or too long length, or more content than allowed; else the content announced is read as soon as it is all there |
| LdapWire.DecodedTag | packages/ldap/src/filter.ts:31-81 | a decoded filter is of the alternative its tag names |
| LdapWire.SubstringsExactly | packages/ldap/src/filter.ts:57-67 | substrings are refused exactly for an unknown part, and else have the last initial and final piece and the others in order |
| LdapWire.ExtensibleExactly | packages/ldap/src/filter.ts:70-78 | an extensible match is refused exactly for a flag that is not one octet; the last part of each kind counts |
| LdapWire.WireExactly | packages/ldap/src/filter.ts:84-122 | the encoder writes the bytes that the definition of a filter in section 4.5.1 of RFC 4511 asks for, alternative by alternative |
| LdapFilter.RoundTrip | packages/ldap/src/filter.ts:31-122 | within the size limit an encoded filter is decoded to itself if and only if it has at most 32 levels and 256 terms |
| LdapFilter.DecodeFilter | packages/ldap/src/filter.ts:31-81 | the decoder with its one mutable budget is the specified one |
| LdapFilter.MatchValues | packages/ldap/src/filter.ts:209-223 | some value of the attribute, folded as the pieces are, has a placement of them |
| LdapFilter.MatchSubstrings | packages/ldap/src/filter.ts:211-222 | taking each piece where it first occurs matches exactly when some placement of the pieces does |
| Dn.EscapeDnValue | packages/ldap/src/dn.ts:22-34 | the loop returns the escaped value |
| Dn.ReadDn | packages/ldap/src/dn.ts:37-103 | the cursor loops over types, values, escapes and separators return the specified parse |
| Dn.DnRoundTrip | packages/ldap/src/dn.ts:36-108 | a formatted name is parsed back if and only if every RDN has a part, every type is legal and the text is within 4096 units, for all values |
| DnReading.EscapedExactly | packages/ldap/src/dn.ts:22-34 | escaped are exactly the special characters, a space at either end and a number sign at the start, by a backslash, and control characters by their two digits |
| DnReading.QuotedRead | packages/ldap/src/dn.ts:55-72 | a value in quotation marks is read as meant, with any spaces around it and around its type |
| DnReading.SeparatedBack | packages/ldap/src/dn.ts:96-102 | semicolons separate as commas do |
| DnReading.UnderMeans | packages/ldap/src/dn.ts:110-138 | a name is under another exactly when its last RDNs have the same attributes as the other's, one by one, whatever the case of types, the order within an RDN and what folding ignores |
| Dn.NormalizedExactly | packages/ldap/src/dn.ts:110-126 | the names compared are the normalized RDNs one by one, or a refusal exactly when the normalized text is too long |
| Dn.UnderExactly | packages/ldap/src/dn.ts:128-138 | a name is under another exactly when its normalized RDNs end with the other's |
| Dn.UnderTransitive | packages/ldap/src/dn.ts:132-143 | being under is transitive and depths add up |
| Labels.CheckLabel | packages/core/src/classification.ts:264-310 | returns the normalized label exactly for the labels of the scheme |
| Labels.DominatesExactly | packages/core/src/classification.ts:395-430 | a party may read exactly what it is cleared for in rank and every compartment and, if asked, by an owner's and a named citizenship; else the refusal names the first of these that fails |
| Labels.CoversPreorder | packages/core/src/classification.ts:433-454 | covering is reflexive on valid labels and transitive |
| Labels.CoversSound | packages/core/src/classification.ts:402-454 | whoever may read what the covering label marks may read what the covered one does |
| Labels.JoinLeastUpperBound | packages/core/src/classification.ts:344-377 | the join covers both labels, and a label covers both exactly when it covers the join |
| Labels.JoinSound | packages/core/src/classification.ts:344-377 | whoever may read what the join marks may read what either label does |
| Labels.JoinCommutes | packages/core/src/classification.ts:351-377 | the same label either way round |
| Labels.JoinAssociates | packages/core/src/classification.ts:351-377 | the same label however three are grouped |
| Labels.JoinIdempotent | packages/core/src/classification.ts:351-377 | a label joined with itself is its normalized form |
| Labels.JoinInvalid | packages/core/src/classification.ts:348-350 | an invalid label stays in the join, and nobody may read what it marks |
| Labels.ProtectsExactly | packages/core/src/classification.ts:433-454 | covering but for the NOFORN mark is exactly: every reader of the upper label is one of the lower |

## Left out

- Planning.PlanResources: asks of the inputs what `PlanModel.Tidy` says, each part shown to be needed where it arises, and a mandatory filter built by the filter constructors.
- PlanLimits.NonFiniteExactIff: asks that the pattern's literals hold no unpaired surrogate, since what lower-casing makes of those is not pinned down; that exactness needs separable literals is stated without case folding only.
- Engine.Evaluator.EvaluatePolicy: statement ids are not part of the matched marks, a condition block is a flat list of conditions, and an absent context is the empty one.
- ServerPlans.PlanForType: fixed answers, confirmations and impersonation come before the part modelled; lists of relations are in the order they were gathered, which no operator looks at.
- SqlMeaning.CompiledDecides: address and list conditions, which do not compile, and ranges in GLOB classes, of which none are written; on texts and dates that a test reads, the database is taken to agree with the host; `CaseExactIff` and `DateExactIff` show that this is needed.
- Storage.RecordStore.Find: the shape checks of filters and options are preconditions; rows altered outside the store, which decoding would report as corrupt, do not occur.
- Storage.RecordStore.Put: as for Insert, records are JSON without undefined members and within the size limits.
- Storage.RecordStore.Insert: records are JSON without undefined members, and the limits on nesting and on the length of the record's text are left out.
- Storage.FindOrdered: the ordering of the answer by a numeric field is the store's.
- Audit.AcceptedExactly: the hash is collision-free by assumption, and canonical JSON of an event is its body.
- Outbox.StepKeeps: a transaction either commits and returns or throws and changes nothing, reads the clock once, and the clock is positive; the order of pending messages is computed but nothing is claimed about fairness.
- Transactions.SqliteStore.Drain: a callback is the list of the steps it took, and one connection per store; other locks stand still meanwhile, which by `Mutexes.OthersTurns` makes no difference to this one.
- RateLimit.RunAgrees: several window lengths in one limiter keep the bound and the counts but may evict early.
- Ber.LengthBytes: an element longer than four gigabytes is refused when written; `Ber.Element` gives it no length octets.
- LdapFilter.RoundTrip: filters with unpaired surrogates, which UTF-8 replaces, and with an empty rule or name, which the encoder drops.
- The string form of LDAP filters (`parseFilter`) and the rest of `matchFilter`: the recursion over and, or and not adds only easy members.
- Jcs.Write: cyclic values, `toJSON` and non-finite numbers; values here are trees.
- Prisma and MongoDB compilers, `intersectPlans` and the description of filters: their target semantics are outside the repository or they add easy members.
- Validation of whole schemes and policies: `validateScheme`, and of `validatePolicy` the shape checks, the uniqueness of statement ids and the count of keys under one operator, are preconditions.
- libSQL and PostgreSQL adapters: the same nesting and rollback rules over another driver.
- Networking, cryptography, HTTP and the command line.
