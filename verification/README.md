# Verified models of a service framework's stateful cores

A Dafny 4.11 model of the parts of the framework whose behaviour is a state machine, a fixpoint or
a parser, with the properties its documentation promises proved over every input and every run.

- **Layered configuration** (`crates/ulo-config`). Sources are overlaid into one tree whose nodes
  carry their origin. A section is read by a deserializer that runs again and again: a pass that
  meets a missing field has the field supplied as a placeholder on the next pass, and a pass ended
  by a leaf type's own refusal has that top-level section set aside. The model is the tree with its
  dotted paths (`Tree`, `TreeLaws`, `Layers`), the types a section is read as (`Schema`), one pass
  for any patches and any sections set aside (`Reader`), the same pass as the code runs it
  (`Deserializer`), the pass driver (`Driver`, `Config`), and two independent references: a walk
  that supplies every missing field as it meets it (`Walk`) and a one-pass recursive checker
  (`Check`). `Simulation` and `Passes` prove that a pass is that walk cut at the first field not
  yet supplied; `Sections` and `Report` prove that the driver's report is the walk of each section
  alone. `Meaning` says, apart from every reader, what a value of the tree means as a type; `Values`
  and `Yields` prove that a read yields a value exactly when the node means it, `Answers` that a
  section answers exactly then, and `Blame` which problems it lists otherwise. `Check`, `Refusals`,
  `Consumption`, `Marks` and `ConfigLaws` draw the further consequences; `Clean` and `CleanKeys` say
  which reads cannot confuse two tables, and `Confused` what the others can lose; `Exceptions` and
  `Mapped` say exactly when a report leaves a missing field out or tells of a value twice.
- **GraphQL operation scanner** (`crates/ulo-graphql-http`): `Scanner` is the byte scan, `GraphQl`
  the grammar of executable documents with every spelling of them, `ScannerLaws` and `GrammarLaws`
  the proof that the two agree.
- **graphql-transport-ws gateway** (`crates/ulo-graphql-ws`): `Gateway` holds the locked state and
  the machine of all interleavings, `GatewayLaws`, `GatewayAck` and `GatewayIds` what every run
  keeps, `GatewayHistory` what a run's own steps say of its state and its wire.
- **gRPC reply bodies, headers and timeouts** (`crates/ulo-grpc`): `Bodies`, `BodyLaws`, `BodyRuns`,
  `Headers`, `Timeout`.
- **Small protocols**: the migration lock (`Migrate`), the counting semaphore (`Slots`) and the
  release script's closure (`Lockstep`).

## How the model reads the source

- A `Schema` stands for a type's `Deserialize`: booleans, the ten integer widths, strings, a leaf
  type with a refusal of its own (`SLeaf`), options, sequences, maps with string keys, structs with
  optional and defaulted fields, a type made from another by a mapping that may refuse (`SMapped`,
  serde's `try_from`) and a self-describing read (`SAny`). The derive is the interpreter serde generates:
  entries in tree order, unknown keys ignored, a duplicate key refused, then missing fields in
  declaration order.
- `CleanRead` is the one condition on trees: every table read has unique keys, and no two tables
  the read visits, the tables of missing fields included, print one path. Keys may hold anything as
  long as that is so; `CleanKeys.NameableIsClean` proves it for keys with no `.` and no `[`, and
  `CleanKeys.FlatIsClean` for a map or struct of values under any keys. Without the condition a
  problem can be lost: `ConfusedPaths.ConfusedPathsLoseOne` loses a field missing in two tables that
  print one path, and `ConfusedPaths.SilentAskLosesOne` loses one though no field is missing in two.
  The condition is one way only: where two tables print one path, nothing here says when the report
  is complete. An exact rule would have to follow how every table that prints a path reads a
  placeholder meant for another of them.
- `Nameable` asks for clean keys. It is needed only where a statement is about the paths of
  problems: no two alike, or none beneath a key but its own.
- A leaf type's own message, an error rendered by serde and the driver's root error are one
  message, `Refused`; the texts are not modelled.
- A float is a `real`; `NaN` and the infinities have no counterpart.
- A document is a string of characters, where the code scans bytes; every byte of a character
  outside ASCII is treated alike by the scan, so the two agree.
- Concurrency is a machine whose steps are what runs between two points of waiting. Whatever the
  outside decides (a poll's answer, a failed write, a timer, the order of wake-ups) is a parameter
  of the step, so a statement over all runs is a statement over all of these.
- The wire of the gateway is the queue of outbound messages. Messages are handled one at a time, as
  the connection hands them to `on_message`; the init timeout and a disconnect run beside them.
- Where the documentation and the code differ the code is followed. The module comment of `de.rs`
  says a placeholder refused by a leaf type is dropped unrecorded. Under a `try_from` type the
  refusal of a placeholder for an ill-typed or incomplete value is recorded:
  `MappedTypes.MappedTells` says exactly when, for every inner type and every node, and
  `MappedTypes.MappedReported` says it of the driver's report. So a field missing in such a value
  can be two problems (`MappedTypes.MissingFieldToldAgain`), where the crate documentation says one.
  That documentation also lists the missing fields a report leaves out;
  `Exceptions.MissingFieldReported` gives the exact rule, which covers a field declared after a
  section that is present and refused as well.
- The comment of `run_locked` (`crates/ulo-db/src/migrate.rs:203-217`) says no failure after the lock
  is held is retryable. The code asks the migrator's own error for its type too, so a migrator that
  fails with a `LockTimedOut` is retried: `Migrate.RetriedAfterHandOver` is such a run, and
  `Migrate.RetryableExactlyWhen` the rule.

## Model

| member | source | states |
|---|---|---|
| `Trees.Tree.Overlay` | crates/ulo-config/src/tree.rs:66-72 | the tree after an overlay is the merge of the two |
| `Trees.Tree.Merge` | crates/ulo-config/src/tree.rs:147-162 | the in-place loop over the upper table's entries is the recursive merge |
| `Trees.Tree.Set` | crates/ulo-config/src/tree.rs:76-85 | a write makes the tables on the way and replaces what stands at the end |
| `Trees.Tree.SetIn` | crates/ulo-config/src/tree.rs:164-187 | the same below the root, position by position |
| `Trees.Tree.Get` | crates/ulo-config/src/tree.rs:89-119 | the cursor loop finds the node the dotted path names, or none |
| `Trees.Tree.Leaves` | crates/ulo-config/src/tree.rs:122-128 | every leaf with its path, in tree order |
| `Trees.Tree.Collect` | crates/ulo-config/src/tree.rs:189-203 | the accumulating walk appends exactly the leaves under a node |
| `TreeLaws.PrintedPathLeadsBack` | crates/ulo-config/src/tree.rs:89-145 | a node's printed path leads back to that very node if and only if every key on the way is non-empty, has no `.` or `[`, and is the first of its table |
| `TreeLaws.PrintedPathsDistinct` | crates/ulo-config/src/tree.rs:138-145 | two nodes reached by clean keys never print one path |
| `TreeLaws.LocatedIsClean` | crates/ulo-config/src/tree.rs:89-119 | whatever path is asked for, a node found is reached by clean keys only |
| `TreeLaws.ParsedIndexIs` | crates/ulo-config/src/tree.rs:89-119 | the text between brackets is an index if and only if it is that number in decimal, after any zeros and with or without a plus |
| `TreeLaws.EveryScalarListed` | crates/ulo-config/src/tree.rs:189-203 | no scalar of the tree is left out of its leaves |
| `TreeLaws.LeafPathsLeadBack` | crates/ulo-config/src/tree.rs:89-128 | in a clean tree each leaf's path leads back to that leaf, and no two leaves share a path |
| `Layers.ReachedAfterMerge` | crates/ulo-config/src/tree.rs:147-162 | where any walk by keys ends after a merge, from where it ends in each tree |
| `Layers.LoadedValue` | crates/ulo-config/src/config.rs:73-84 | a value with its origin stands in the loaded tree if and only if some layer supplied it there and every later layer's walk falls off inside a table |
| `Layers.MergeKeepsOrder` | crates/ulo-config/src/tree.rs:147-162 | a merge keeps the lower table's keys in their places, and the new ones follow in their order |
| `Layers.LoadedTableOrigin` | crates/ulo-config/src/tree.rs:147-162 | a table of the loaded tree has the origin of the layer that first made it one |
| `Layers.OverlayKeepsKeyed` | crates/ulo-config/src/tree.rs:66-72 | overlaying keeps every table's keys unique |
| `Layers.SetKeepsKeyed` | crates/ulo-config/src/tree.rs:76-85 | so does writing at a path |
| `Layers.SetReaches` | crates/ulo-config/src/tree.rs:76-85 | a written node is found under its keys, and every walk that diverges from them ends exactly where it did, found, fallen off or blocked, unless a leaf stood on the common way: then a table stands there and the walk falls off in it |
| `Layers.SetMakesTheWay` | crates/ulo-config/src/tree.rs:76-85 | every node on the way to a written value is a table: the one that was there with its origin, or a new one with the value's; a root that was no table keeps its origin; no keys, no write |
| `Layers.SetKeepsOrder` | crates/ulo-config/src/tree.rs:164-187 | a write keeps a table's keys in their places and puts a new one last |
| `Deserializers.Ctx.Leaf` | crates/ulo-config/src/de.rs:251-271 | the scalar at a node, marked read; nothing marked for anything else |
| `Deserializers.Ctx.Expect` | crates/ulo-config/src/de.rs:284-290 | a mismatch is recorded, an absence at most once |
| `Deserializers.Ctx.Finish` | crates/ulo-config/src/de.rs:293-313 | a visitor's error is recorded once, and not at all for a placeholder |
| `Deserializers.Ctx.Scalar` | crates/ulo-config/src/de.rs:327-343 | booleans, integers, strings and leaf types: value, placeholder or refusal as the pass specifies |
| `Meanings.ParsedIntIs` | crates/ulo-config/src/de.rs:327-333 | environment text is read as the integer it spells, zeros and a sign before the digits or not, if and only if 128 bits hold it |
| `Meanings.RangesAre` | crates/ulo-config/src/de.rs:454-471 | the numbers each integer type takes are exactly those its bounds say |
| `Meanings.ScalarTold` | crates/ulo-config/src/de.rs:284-343 | a scalar is told of if and only if it means nothing as the type: once, with its origin, as out of range if it is an integer, as refused if it is text for a leaf type, else with the kind expected and the kind found |
| `Meanings.BlankInstead` | crates/ulo-config/src/de.rs:335-343 | and in its place the type is given false, zero or the empty string |
| `Meanings.MessagesTellApart` | crates/ulo-config/src/de.rs:236-250 | the kind found tells any two kinds of value apart, the type expected any two integer types |
| `Meanings.RequiredIs` | crates/ulo-config/src/de.rs:403-425 | a field has to be supplied if and only if it has no default and its type is no option, seen through mappings |
| `Deserializers.Ctx.Sequence` | crates/ulo-config/src/de.rs:345-358 | the element loop does what one pass specifies, an error ending it |
| `Deserializers.Ctx.Table` | crates/ulo-config/src/de.rs:360-392 | the visitor's loop over keys, values and placeholders does what one pass specifies |
| `Deserializers.Ctx.TableEnds` | crates/ulo-config/src/de.rs:403-425 | a missing field becomes the pass's patch unless its section was set aside |
| `Deserializers.Ctx.Deserialize` | crates/ulo-config/src/de.rs:474-628 | every type is read by the method it calls, context and result as one pass specifies |
| `Deserializers.TableAcc.NextKey` | crates/ulo-config/src/de.rs:714-741 | the cursor hands out the next entry not set aside, then the placeholders |
| `Deserializers.TableAcc.NextValue` | crates/ulo-config/src/de.rs:743-777 | the value under the key handed out last, its failure noted only at the root, outside a patch and for a section not set aside |
| `Passes.SimRead` | crates/ulo-config/src/de.rs:360-425 | a pass given the first `m` fields the reference walk supplies finds what the walk finds and ends as it ends, or asks for field `m`: for every type, tree, and sections set aside |
| `FreshReads.PassesAreFresh` | crates/ulo-config/src/de.rs:714-777 | a pass never asks for a field it was given, nor fails in a section set aside |
| `Drivers.EachPassAdds` | crates/ulo-config/src/de.rs:891-923 | for any read: each pass but the last adds one field not yet held or one section not yet set aside |
| `Drivers.AdditionsCount` | crates/ulo-config/src/de.rs:43-55 | so `n` additions hold `n` distinct fields and sections, the measure by which the passes end |
| `Drivers.CutExactlyPastTheCap` | crates/ulo-config/src/de.rs:875-925 | for any read: the report is cut if and only if a 2049th addition was pending |
| `Sections.Advance` | crates/ulo-config/src/de.rs:895-903 | setting aside the section a walk stopped in holds what it met there and leaves the rest of the walk as it was |
| `Sections.Complete` | crates/ulo-config/src/de.rs:895-925 | a walk that stops in no section, with the sections set aside, makes up each section walked alone, and ends as the whole does |
| `ReportLaws.SectionReport` | crates/ulo-config/src/de.rs:858-946 | for every type and every tree no two of whose tables print one path: with at most 2048 additions the driver's problems are exactly those of each section walked alone and the fields missing after them, with the whole's value; with more, some of them, and no value |
| `ReportLaws.SilentWalk` | crates/ulo-config/src/de.rs:284-313 | beneath a field already reported missing nothing is reported |
| `Checks.PlainReport` | crates/ulo-config/src/de.rs:360-425 | for types that refuse nothing the driver reports exactly what the one-pass checker reports, unless more than 2048 fields have to be supplied, and then a part of it |
| `Checks.EachOnce` | crates/ulo-config/src/de.rs:273-290 | with clean keys no two problems of the checker share a path, so none is reported twice |
| `ValueLaws.ReadIsTrue` | crates/ulo-config/src/de.rs:443-628 | a read that reports nothing yields what the node holds: each scalar, element, entry, and what stands in for each absent field, and nothing else |
| `ValueLaws.WholeIsTrue` | crates/ulo-config/src/de.rs:858-960 | so does a section read that reports nothing |
| `ValueLaws.WholeIsVacant` | crates/ulo-config/src/de.rs:858-960 | a read of a section that is not there and reports nothing yields what the type makes of nothing: an empty map, and what stands in for each field |
| `YieldLaws.MeantIsRead` | crates/ulo-config/src/de.rs:443-628 | the converse: a node that means a value as the type is read as that value, with nothing told and nothing supplied |
| `YieldLaws.ReadExactlyWhenMeant` | crates/ulo-config/src/de.rs:443-628 | so a read tells of nothing and yields a value if and only if the value is what the node means |
| `YieldLaws.WholeExactlyWhenMeant` | crates/ulo-config/src/de.rs:858-960 | the same of the whole of a section, an absent one included |
| `RefusalLaws.OneRefusal` | crates/ulo-config/src/de.rs:10-18 | a walk tells of one refusal at most |
| `RefusalLaws.NoSectionIsLost` | crates/ulo-config/src/lib.rs:45-50 | whatever other sections refuse, every problem of each section in the tree, walked alone, is in the report |
| `RefusalLaws.SilenceIsSuccess` | crates/ulo-config/src/de.rs:951-957 | a read with nothing to report ends with a value |
| `ConfusedPaths.ConfusedPathsLoseOne` | crates/ulo-config/src/de.rs:370-377 | two tables printing one path: a field missing in both is reported once, where the checker reports two |
| `ConfusedPaths.SilentAskLosesOne` | crates/ulo-config/src/de.rs:370-425 | two tables printing one path and no field missing in both: a default of the second takes the placeholder meant for the first, asks in silence for a field inside it, and a third table that lacks that field is not reported, where the checker reports it |
| `CleanKeys.NameableIsClean` | crates/ulo-config/src/tree.rs:138-145 | where every key followed is non-empty and has no `.` or `[`, no two tables of the read print one path, wherever it starts |
| `CleanKeys.FlatIsClean` | crates/ulo-config/src/tree.rs:138-145 | nor do they in a map or struct of scalars, options and sequences, whatever its keys |
| `MappedTypes.MappedTells` | crates/ulo-config/src/de.rs:743-768 | for every inner type, mapping and node: the value is told of as the inner type tells of it, and once more as refused if and only if the mapping refuses what the inner read gave, placeholders included |
| `MappedTypes.IllTypedToldAgain` | crates/ulo-config/src/de.rs:743-768 | so a scalar that means nothing as the inner type is told of twice if and only if the mapping refuses false, zero or the empty string |
| `MappedTypes.OutOfRangeToldAgain` | crates/ulo-config/src/de.rs:743-768 | an integer the type does not hold, environment text included, if and only if it refuses zero |
| `MappedTypes.NoArrayToldAgain` | crates/ulo-config/src/de.rs:743-768 | what is no array, if and only if it refuses the empty one |
| `MappedTypes.MissingFieldToldAgain` | crates/ulo-config/src/lib.rs:45-50 | any table that lacks a field its struct needs: the field is told of, and the table again, if and only if the mapping refuses it completed with placeholders |
| `MappedTypes.MappedReported` | crates/ulo-config/src/de.rs:743-925 | in the driver's report a section of a mapping type has all problems of its inner type, and its refusal once more if the mapping refuses; with clean keys that refusal is listed exactly as often as the inner type lists it, and once more if and only if the mapping refuses |
| `Exceptions.MissingFieldReported` | crates/ulo-config/src/de.rs:403-425 | a missing top-level field is in the driver's report if no field declared before it is a failed section, a missing field whose placeholder is refused, or one that refuses what stands in for it; with clean keys, if and only if |
| `Exceptions.WalkUnder` | crates/ulo-config/src/de.rs:273-290 | with clean keys whatever a read reports lies at its path or beneath it |
| `Configs.Config.Load` | crates/ulo-config/src/config.rs:73-84 | the loop over sources loads the overlay of their trees and keeps all their failures |
| `Configs.Config.RunPass` | crates/ulo-config/src/de.rs:876-890 | one pass in a fresh context, and what it learnt |
| `Configs.Config.Passes` | crates/ulo-config/src/de.rs:865-925 | the loop with its six variables is the recursive driver |
| `Configs.Config.Section` | crates/ulo-config/src/de.rs:858-960 | a value, or the failures of the sources, the report and the cut notice; the paths read are marked |
| `Configs.Config.MarkConsumed` | crates/ulo-config/src/config.rs:33-36 | the paths are added to those read before |
| `Configs.Config.Unread` | crates/ulo-config/src/config.rs:39-48 | the leaves whose path no read marked, in order |
| `ConfigLaws.SectionAnswers` | crates/ulo-config/src/de.rs:927-960 | a section answers a value if and only if no source and no read reports a problem, else exactly the problems of the sources and of the whole read; past the cap, some of them and the notice; the answer that names no problem is never given |
| `ConfigLaws.SectionValue` | crates/ulo-config/src/de.rs:858-960 | the value answered is the one the tree holds at the path; with nothing there, the one the type makes of nothing |
| `AnswerLaws.ValidExactlyWhen` | crates/ulo-config/src/de.rs:858-960 | a section of a configuration loaded from any layers answers a value if and only if no source of any layer has a problem and that value is what its node means as the type, or what the type makes of nothing |
| `AnswerLaws.SourceProblemIsListed` | crates/ulo-config/src/de.rs:928-936 | a problem of any source of any layer makes every section invalid and is listed there, with its own origin or else its source |
| `AnswerLaws.SourcesComeFirst` | crates/ulo-config/src/de.rs:928-946 | the problems of all the sources, as many as there are, come first, then the read's |
| `AnswerLaws.CutListsTheFirst` | crates/ulo-config/src/de.rs:937-946 | a read that asks for more than 2048 fields before anything refuses lists exactly the missing ones among the first 2048, in order |
| `BlameLaws.CheckBlames` | crates/ulo-config/src/de.rs:284-425 | the checker lists a problem if and only if it is one of the tree: a scalar that means nothing, a value of the wrong kind, a required field without an entry, each at its own path and with its origin |
| `BlameLaws.ListedExactlyWhen` | crates/ulo-config/src/de.rs:858-960 | so, within the cap and with no failed source, a section of a type that refuses nothing lists exactly those |
| `ConfigLaws.PlainSectionAnswers` | crates/ulo-config/src/de.rs:858-960 | the same for types that refuse nothing, against the one-pass checker, whose problems have different paths where keys are clean |
| `ConfigLaws.NoticeExactlyPastTheCap` | crates/ulo-config/src/de.rs:937-946 | for any read: the notice is the last problem, with the number before it, if and only if a 2049th addition was pending, and is nowhere else |
| `ConfigLaws.SectionNotice` | crates/ulo-config/src/de.rs:937-946 | the same of every section of every tree |
| `Consumption.DrivenAdds` | crates/ulo-config/src/de.rs:251-271 | over all passes a read marks only leaves under what it reads |
| `Consumption.DrivenTakes` | crates/ulo-config/src/de.rs:474-491 | a self-describing read marks every one of them |
| `Consumption.MarkIsLeafPath` | crates/ulo-config/src/tree.rs:189-203 | in a clean tree a mark is one of the tree's leaf paths if and only if the section's path is spelled as the tree prints it |
| `ConfigLaws.MarkThatNamesNoLeaf` | crates/ulo-config/src/tree.rs:89-119 | a path with a trailing dot names a leaf and leaves a mark that is no leaf's path |
| `ConfigLaws.UnreadAreUnreached` | crates/ulo-config/src/config.rs:39-48 | after any self-describing reads, of sections spelled as the tree prints them, the unread report lists exactly the leaves no section read stands at or above |
| `Marks.DrivenKnown` | crates/ulo-config/src/de.rs:251-271 | whatever a typed read meets, over all its passes it marks only leaves its type reads |
| `Marks.DrivenMarks` | crates/ulo-config/src/de.rs:251-271 | a typed read that meets no refusal, within the cap, marks every one of them, the fields of wrong type included |
| `ConfigLaws.KnownByAddress` | crates/ulo-config/src/tree.rs:189-203 | in a clean tree those are, place by place, the leaves the type has a field, element or entry for |
| `ConfigLaws.UnreadAreUnknown` | crates/ulo-config/src/config.rs:39-48 | after reads of any sections with any types a leaf none of the types reads is in the unread report; if every read ends, the report lists no other leaf |
| `ConfigLaws.AnsweredEnds` | crates/ulo-config/src/de.rs:858-960 | a section that answers a value is such a read |
| `ConfigLaws.UnreadInOrder` | crates/ulo-config/src/config.rs:39-48 | the unread report keeps the order of the leaves, each as often as it is one |
| `Scanner.SkipString` | crates/ulo-graphql-http/src/controller.rs:451-475 | the index just past a string or block string, or none for one left open |
| `Scanner.OperationKindOf` | crates/ulo-graphql-http/src/controller.rs:348-447 | the loop over the document with its five variables is the recursive scan and selection |
| `ScannerLaws.TextScans` | crates/ulo-graphql-http/src/controller.rs:368-437 | any spelling of a token list, with comments, blanks, strings and block strings, scans as the tokens run |
| `ScannerLaws.LeftOpenHasNoKind` | crates/ulo-graphql-http/src/controller.rs:438-440 | a text that leaves a brace or a parenthesis open has no kind |
| `GrammarLaws.DocumentRuns` | crates/ulo-graphql-http/src/controller.rs:368-437 | the tokens of any executable document leave exactly its operations, and the scan at the top level |
| `GrammarLaws.ScanTellsTheKind` | crates/ulo-graphql-http/src/controller.rs:348-447 | for every spelling of every executable document the scan answers a kind if and only if the request selects an operation of that kind, so a selected mutation is always seen as one |
| `Gateway.ConnState.Init` | crates/ulo-graphql-ws/src/gateway.rs:264-283 | the first `connection_init` sets payload and acknowledgement together, a later one changes nothing |
| `Gateway.ConnState.Admit` | crates/ulo-graphql-ws/src/gateway.rs:323-341 | admission only once acknowledged, under an id not running, with a new number |
| `Gateway.ConnState.Finish` | crates/ulo-graphql-ws/src/gateway.rs:124-129 | an operation is forgotten only if the table still holds its own number |
| `Gateway.ConnState.Complete` | crates/ulo-graphql-ws/src/gateway.rs:289-294 | the operation removed is the one to cancel |
| `Gateway.ConnState.Drain` | crates/ulo-graphql-ws/src/gateway.rs:298-305 | every operation removed is to be cancelled |
| `GatewayLaws.OperationsAreAccountedFor` | crates/ulo-graphql-ws/src/gateway.rs:98-130 | after any interleaving each admitted operation is in the table, on its way to be cancelled, cancelled or forgotten at its own end, in exactly one of these, and numbers are unique |
| `GatewayLaws.LeavesByItsEndOrToBeCancelled` | crates/ulo-graphql-ws/src/gateway.rs:289-305 | an operation leaves the table only by its own end or by a removal that goes on to cancel it |
| `GatewayLaws.LateFinish` | crates/ulo-graphql-ws/src/gateway.rs:122-129 | a late end never removes a newer operation under the same id |
| `GatewayLaws.PendingIsCancelled` | crates/ulo-graphql-ws/src/gateway.rs:407-413 | whatever runs after it was removed, an operation is cancelled or still on its way to be, and then one step of the handler that removed it cancels it |
| `GatewayLaws.EachOperationIsOrderly` | crates/ulo-graphql-ws/src/gateway.rs:368-401 | each operation writes `next` messages, then at most one of `complete` or `error`, then nothing; one `connection_ack` at most; no operation before the accepted `connection_init`, whose payload each can read |
| `GatewayHistory.PayloadIsTheFirstSent` | crates/ulo-graphql-ws/src/gateway.rs:264-283 | over any run each operation reads the payload of the first `connection_init` received, which came before it |
| `GatewayHistory.SubscribeIsAnswered` | crates/ulo-graphql-ws/src/gateway.rs:323-355 | a `subscribe` starts an operation if and only if a `connection_init` came before it, no operation is live under its id and the connection accepts it; else nothing changes, and it is refused with an error if only the connection turns it down, with a close if not |
| `GatewayHistory.InitIsAnswered` | crates/ulo-graphql-ws/src/gateway.rs:264-283 | a `connection_init` is acknowledged if it is the first and closes the connection if not |
| `GatewayHistory.OthersAreAnswered` | crates/ulo-graphql-ws/src/gateway.rs:231-305 | a `ping` is answered; an unreadable message and the init timeout close the connection; a disconnect empties it |
| `GatewayHistory.CompleteIsAnswered` | crates/ulo-graphql-ws/src/gateway.rs:289-294 | a `complete` takes the operation live under its id out to be cancelled, and no other |
| `GatewayHistory.ClosingGoesOn` | crates/ulo-graphql-ws/src/gateway.rs:407-413 | a close closes the connection, then turns to its operations |
| `GatewayHistory.CloseTakesAll` | crates/ulo-graphql-ws/src/gateway.rs:407-413 | and takes every live one out to be cancelled |
| `GatewayHistory.HandlerStays` | crates/ulo-graphql-ws/src/gateway.rs:240-305 | whatever else runs, a handler stands where it is until it goes on itself |
| `GatewayHistory.WireIsWhatWasMeant` | crates/ulo-graphql-ws/src/gateway.rs:368-401 | over any run the wire is exactly what its steps were there to write, in order, each frame under the id its operation was admitted with |
| `GatewayHistory.ClosesExactlyWhen` | crates/ulo-graphql-ws/src/gateway.rs:407-425 | an open connection closes by a close frame, a disconnect, or an acknowledgement or `complete` it cannot take, and by nothing else |
| `GatewayHistory.ClosedIsQuiet` | crates/ulo-graphql-ws/src/gateway.rs:407-425 | a closed connection stays so, and nothing more is written on it |
| `GatewayHistory.SpawnedStreams` | crates/ulo-graphql-ws/src/gateway.rs:353-358 | an operation begins to stream when the handler of its `subscribe` goes on |
| `GatewayHistory.PhaseIsTheLastStep` | crates/ulo-graphql-ws/src/gateway.rs:368-401 | an operation stands where its own last step took it: streaming on after a written response, to its `complete` at the end of the stream or the drain, silently to its end when cancelled, failed or unwritable |
| `GatewayHistory.CanBeAcknowledged` | crates/ulo-graphql-ws/src/gateway.rs:264-283 | from any open connection at rest a first `connection_init` can be acknowledged |
| `GatewayHistory.CanBeServed` | crates/ulo-graphql-ws/src/gateway.rs:323-401 | and from any initialised one a `subscribe` under an id with no live operation can be served: any number of `next` messages, then `complete` |
| `GatewayAck.AckComesFirst` | crates/ulo-graphql-ws/src/gateway.rs:264-283 | in any run every `next`, `error` and `complete` comes after the `connection_ack` |
| `GatewayIds.OrderlyExactlyWhenGood` | crates/ulo-graphql-ws/src/gateway.rs:368-401 | in a reachable state, every way to go on without an answered `subscribe` under an id keeps the order under it if and only if the order holds, and the connection is closed or at most one operation or refusal can still write under the id, and none once an end was written; counted from any point of the wire |
| `GatewayIds.SubscribeNeedsClear` | crates/ulo-graphql-ws/src/gateway.rs:323-355 | a `subscribe` that starts or refuses an operation keeps that if and only if the id was clear: nothing can still write under it and no end was written under it |
| `GatewayIds.SubscriptionOrderlyExactlyWhenAlone` | crates/ulo-graphql-ws/src/gateway.rs:323-401 | what follows one answered `subscribe` under its id, up to the next, is `next` messages and then at most one end, whatever the scheduling, if and only if nothing could still write under the id or the connection is closed |
| `GatewayIds.OrderlyExactlyWhenPatient` | crates/ulo-graphql-ws/src/gateway.rs:323-401 | over any run, every subscription under an id is so if and only if each answered `subscribe` came when nothing could write under it, or on a closed connection |
| `GatewayIds.WaitingClientIsOrderly` | crates/ulo-graphql-ws/src/gateway.rs:323-401 | a client that uses an id again only after the end of its last subscription under it sees every one in order |
| `GatewayIds.OrderlyExactlyWhenCareful` | crates/ulo-graphql-ws/src/gateway.rs:323-401 | so the order under an id is safe at every point of a run, whatever the scheduling, if and only if each such `subscribe` found the id clear or the connection closed |
| `GatewayIds.ReusedAfterAnEnd` | crates/ulo-graphql-ws/src/gateway.rs:323-401 | after any run that wrote an end under an id, three steps that use the id again break the order |
| `GatewayIds.ReusedIdInterleaves` | crates/ulo-graphql-ws/src/gateway.rs:368-401 | a run, each message handled before the next is received, in which the old operation's `complete` comes between a second `subscribe` under its id and that one's `next` |
| `GatewayIds.FreshIdsAreOrderly` | crates/ulo-graphql-ws/src/gateway.rs:323-401 | a client that uses no id twice sees the order under every id, refusals included |
| `Bodies.CallBody.constructor` | crates/ulo-grpc/src/dispatch.rs:1090-1106 | a reply already at its end is ended and reported cut off |
| `Bodies.CallBody.PollFrame` | crates/ulo-grpc/src/dispatch.rs:1135-1196 | one poll under deadline and end of stream, field by field |
| `Bodies.CallBody.EndWith` | crates/ulo-grpc/src/dispatch.rs:1117-1128 | the body ends with a status of its own, reported once |
| `Bodies.CallBody.Drop` | crates/ulo-grpc/src/dispatch.rs:1208-1216 | a drop before the end cancels, then reports |
| `Bodies.LateItems.PollNext` | crates/ulo-grpc/src/dispatch.rs:988-1055 | one poll of a reply stream under cancellation and error handlers |
| `BodyLaws.FramesInOrder` | crates/ulo-grpc/src/dispatch.rs:1135-1196 | over any polls: data frames, then at most one trailers frame or error, then only the end |
| `BodyRuns.AnswersAreTheReply` | crates/ulo-grpc/src/dispatch.rs:1135-1196 | over any run each poll is answered what the reply yielded to it, up to the reply's own end or the poll the deadline cuts it off at; that one DEADLINE_EXCEEDED, every later one the end; which poll that is, is told from what the polls met |
| `BodyRuns.UncutAnswers` | crates/ulo-grpc/src/dispatch.rs:1135-1196 | with no deadline due every answer up to the first last one is the reply's own |
| `BodyRuns.EndedReport` | crates/ulo-grpc/src/dispatch.rs:1063-1071 | a marked stream's end is reported as completed if and only if the reply's own trailers carry `grpc-status: 0`, else as cut off with the first reason given up to that poll, whatever comes later |
| `BodyRuns.DroppedOpen` | crates/ulo-grpc/src/dispatch.rs:1208-1216 | one dropped before its end is reported cut off with the first reason given, the client's if none was |
| `BodyRuns.EmptyReport` | crates/ulo-grpc/src/dispatch.rs:1090-1106 | one already at its end is reported cut off with the reason it began with |
| `BodyLaws.ReportedOnce` | crates/ulo-grpc/src/dispatch.rs:1063-1071 | over any polls ended by a drop, a marked stream's end is reported exactly once, as completed if and only if trailers with `grpc-status: 0` were returned |
| `BodyLaws.UnmarkedReportsNothing` | crates/ulo-grpc/src/dispatch.rs:1090-1112 | a reply that is no marked stream reports nothing over any polls ended by a drop |
| `BodyLaws.DeadlineEnds` | crates/ulo-grpc/src/dispatch.rs:1141-1196 | a body has ended by the poll that observes the deadline or the next, and a marked stream yields no frame of the reply in between |
| `BodyLaws.NothingAfterTheEnd` | crates/ulo-grpc/src/dispatch.rs:988-1055 | at most one `Err` item in a stream's life, and nothing after it |
| `BodyRuns.ItemsAreTheStream` | crates/ulo-grpc/src/dispatch.rs:988-1055 | over any run each poll is answered as the stream yields, an item for a message and a wait for nothing, up to its end, its error or the poll a drain or deadline ends it at, with UNAVAILABLE or DEADLINE_EXCEEDED; an error the handlers take is answered as they decide; then only the end |
| `BodyRuns.EveryMessageIsDelivered` | crates/ulo-grpc/src/dispatch.rs:988-1055 | so a stream no drain and no deadline cancels delivers as many items as it is offered messages |
| `BodyRuns.WaitedItemIsDelivered` | crates/ulo-grpc/src/dispatch.rs:911-916 | a stream such a cancellation finds waiting delivers the message its next poll yields, and no other |
| `BodyLaws.OneMoreItem` | crates/ulo-grpc/src/dispatch.rs:911-916 | after a drain or deadline cancellation an unsettled stream yields at most one more item, and none unless it was waiting |
| `Headers.Written` | crates/ulo-grpc/src/dispatch.rs:489-494 | the record holds every `grpc-` header, each name's values in order, and no other |
| `Headers.Reply.Screen` | crates/ulo-grpc/src/dispatch.rs:506-536 | rewriting only the names touched gives every `grpc-` name its recorded values and leaves every other name as it was |
| `Headers.ScreenedIsAsWritten` | crates/ulo-grpc/src/dispatch.rs:499-505 | whatever was done to a recorded reply's headers, screening gives back exactly its own `grpc-` headers |
| `Headers.ScreeningTwiceIsOnce` | crates/ulo-grpc/src/dispatch.rs:506-536 | screening twice equals screening once |
| `Timeout.ParsedByTheGrammar` | crates/ulo-grpc/src/dispatch.rs:729-748 | a timeout is read if and only if it is one to eight digits and a unit |
| `Timeout.ParsedIsTheAmount` | crates/ulo-grpc/src/dispatch.rs:738-746 | and then as that many hours, minutes, seconds, milli-, micro- or nanoseconds, by its letter |
| `Timeout.WrittenInTheFinest` | crates/ulo-grpc/src/client.rs:146-155 | the time left is written in the finest unit whose amount has at most eight digits, cut to whole units |
| `Timeout.NoOverflow` | crates/ulo-grpc/src/dispatch.rs:738-746 | no multiplication of a parsed amount passes 64 bits |
| `Timeout.RoundTrip` | crates/ulo-grpc/src/client.rs:146-155 | the time read back is positive, at most the time left and less than one unit short of it, or `99999999H` for anything longer |
| `Migrate.FindLink` | crates/ulo-db/src/migrate.rs:272-282 | the bounded loop down an error's chain finds a link within its first 32 |
| `Migrate.Classify` | crates/ulo-db/src/migrate.rs:248-266 | the retry of a failure, by its own type and then its chain |
| `Migrate.OneMigratesAtATime` | crates/ulo-db/src/migrate.rs:218-246 | over any run of any number of replicas at most one holds the lock, and one whose step is over, by whatever exit, holds it no more |
| `Migrate.RetryableExactlyWhen` | crates/ulo-db/src/migrate.rs:203-217 | a failure after the lock was handed over is retried, as a wait for the lock, if and only if the migrator's own error is a `LockTimedOut`; before it, as a wait if the bound passed or the store's error names the wait within 32 links, as a lock step if it names neither that nor a permanent error |
| `Migrate.RetriedAfterHandOver` | crates/ulo-db/src/migrate.rs:247-266 | a run in which the migration fails after the hand-over and the failure is retryable, which the comment above it rules out |
| `Migrate.EndsAsTheMigrator` | crates/ulo-db/src/migrate.rs:218-246 | what the migrator ends with is what the step ends with once the lock is released, whatever other replicas do |
| `Migrate.EndsAsItFailed` | crates/ulo-db/src/migrate.rs:226-266 | a failed wait, a cut migration or release and a drop end the step at once, with that failure |
| `Migrate.NeverStuck` | crates/ulo-db/src/migrate.rs:218-246 | from any reachable state the holder's own steps, nothing failing, end in the lock given to any replica that waits |
| `Slots.BoundOf` | crates/ulo-conformance-support/src/lib.rs:202-207 | the smaller of the bounds given, none if none is |
| `Slots.Counter.Follow` | crates/ulo-conformance-support/src/lib.rs:175-200 | the count in memory, taken through the looks and drops of any run, grants exactly the slots the run went on with, is never given back below nothing, and ends as the number of live guards, at most the bound |
| `Slots.HeldIsTheGuards` | crates/ulo-conformance-support/src/lib.rs:175-200 | over any run the count is the live guards, never above the bound |
| `Slots.GrantedExactlyWhen` | crates/ulo-conformance-support/src/lib.rs:175-200 | a thread that looks gets a slot if and only if fewer guards than the bound are alive, and else sleeps |
| `Slots.NoWakeUpIsLost` | crates/ulo-conformance-support/src/lib.rs:195-200 | with a slot free and a thread waiting, another thread is woken or about to wake one |
| `Slots.NeverStuck` | crates/ulo-conformance-support/src/lib.rs:175-200 | no reachable state is stuck, spurious wake-ups aside |
| `Lockstep.Core` | scripts/release_check.py:152-166 | the worklist, in whatever order it is emptied, ends with exactly the packages a chain of dependencies reaches from a seed |
| `Lockstep.Findings` | scripts/release_check.py:141-184 | the findings are exactly those that hold of the packages and the group, each once: a name listed twice, no `ulo`, no such member, a required package not listed, a listed one not required, a version other than the core's, and under a pre-release any crate's |
| `Lockstep.NoFindingExactlyWhen` | scripts/release_check.py:141-184 | so there is none if and only if the group lists the required set once each, includes `ulo`, and the version rule holds |

## Left out

- `#[serde(flatten)]`, untagged enums, aliases, `deny_unknown_fields`, enums, tuples, characters, bytes, floats and unit types as read types: buffered content carries no path, and the rest would only add scalar cases.
- Secrets: their collection, the scrubbing of messages, and the texts of messages.
- Map keys of a type other than string: a key refused by its type is not modelled.
- ReportLaws.SectionReport: the order of problems within a report is not stated; the documentation promises none.
- Checks.PlainReport: needs `CleanRead`; a tree two of whose tables print one path is outside, see `ConfusedPaths.ConfusedPathsLoseOne` and `ConfusedPaths.SilentAskLosesOne`.
- BlameLaws.ListedExactlyWhen: for types that refuse nothing; of the others `ReportLaws.SectionReport` and `MappedTypes.MappedReported` speak.
- AnswerLaws.CutListsTheFirst: for a read whose first 2049 additions are missing fields; where refused sections are among them `ReportLaws.SectionReport` says only that the list is a part.
- ConfigLaws.UnreadAreUnknown: for a read that meets a refusal or passes the cap only the bound is stated, that it marks no leaf its types do not read; which of the leaves around a refusal are marked is not.
- File formats, `.env` parsing and the environment mapping of the configuration sources.
- The branch of `CallBody` that catches a panic of the reply stream.
- tonic's encoder between a reply stream's items and the frames of its body: the two are modelled apart.
- Bodies.LateItems.PollNext: the error handlers' outcome is a parameter of the poll; what they do is not modelled.
- Gateway.ConnState.Admit: the 64-bit counter of operations is unbounded here.
- The close codes and reasons of the gateway, the subprotocol refusal, and the rejection of a handshake without a session.
- GatewayAck.AckComesFirst: the order in which messages are queued; a connection set to drop its oldest queued message when full may drop the acknowledgement.
- A panic inside a message handler of the gateway, and a `pong`, which the gateway ignores.
- The `Accept` negotiation and the status mapping of the HTTP controller: settled by reading one branch.
- Migrate.OneMigratesAtATime: the lock is taken as exclusive and released by a dropped guard, as the trait demands; a store whose blocking thread outlives its dropped future is outside.
- Slots.HeldIsTheGuards: one bound for all threads, as one suite's scenarios have; different bounds on one set of slots are outside.
- The warnings logged for restored header names and the record that bounds them.
- The texts of the release script's findings, its package discovery, and its semver comparison.
