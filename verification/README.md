# Models of the INFINI framework, with proofs

This project models the parts of the framework whose behaviour is hard to see from one function, and
proves properties of those models for all inputs, all runs or all reachable states. It is written in
Dafny 4.11 and needs nothing but its own files: `dafny verify dfyconfig.toml`.

| files | what is modelled |
|---|---|
| `Clauses`, `SimplifiedShape`, `SimplifyMeaning`, `ClauseNodes`, `BuiltQuery` | the query simplifier: on values, the shape of its result, its exact effect on meaning, and on linked records updated in place; and what a built query with a free text asks for |
| `TermMerging`, `TermMeaning`, `TermNodes` | merging term filters on one field: on values, its effect on meaning, and on linked records updated in place |
| `Script`, `ScriptText`, `Pipelines`, `PipelineOrder`, `PipelineEngine`, `PipelineResults` | the script language of bucket_script, pipeline aggregations over a bucket list, when their order shows, the pass over a whole result tree, and what it leaves there |
| `EmittedCode`, `Generator`, `Documents`, `Marshalled`, `MarshalledStruct`, `MarshalledPackage`, `MarshalledJson`, `Json`, `JsonScan` | the JSON marshaller generator: the methods it emits for the structs of a package, an interpreter in which they call each other, the document of a value, and JSON as in RFC 8259 with a scanner that tells it apart |
| `Bulk`, `BulkCallbacks`, `BulkOutcome` | walking a bulk body, which callbacks that makes, and sorting its operations into three buffers |
| `Routing` | shard routing arithmetic |
| `Lease`, `TwoStepLease`, `ClientCache`, `CacheKey`, `KeyCollisions` | the lease lock with atomic calls and with calls of two steps, the client cache under concurrent calls, the cache key and which keys collide |
| `Partitions`, `NestedMap`, `MapNodes`, `Availability` | merging partitions, nested aggregation arguments as values and as map objects, node and cluster availability |
| `Separated`, `Options` | texts with separators, optional values |

## What the models show

- **Simplifier.** A query and its simplification are related by a verdict computed from the tree: they
  match the same documents, exactly opposite ones, or neither (`FateExact`, an if-and-only-if for trees
  that mention no leaf twice; `FateSound` for all trees). The verdict comes from the set of answers the two
  queries can give together, which is computed from the tree and which engines attain exactly
  (`OutcomeForeseen`, `OutcomeHappens`). It is "same" for every tree without empty clauses, without must_not
  beneath must_not, and without a minimum_should_match of two or more (`SimplifyPreservesPlain`). Flattening
  a must_not into a must_not turns the meaning around, and flattening or collapsing a should list forgets how
  many of it must match (`FlattenedShouldIff`, `CollapsedShouldIff`). A free text adds one requirement: some of
  the clauses generated from it match (`TextIsRequired`, `BuiltMeans`).
- **Term filters.** Merged requirements mean what they did exactly when every term for a field is forced by
  the rest of the list once another of the field's values is taken (`RequirementsKeptIff`).
- **Scripts.** Evaluation gives a value exactly for the token lists that are expressions, and that value
  (`ValueIff`); it indexes past the tokens exactly when a parameter with the empty name would complete
  the script (`PanicIff`). Numbers are any type with any operations, so nothing depends on rounding.
- **Pipelines.** Pipelines give the same result in every order when no path of one is the name of another
  (`OrderIrrelevant`); for derivatives over numbers with real subtraction, exactly then
  (`DerivativesCommuteIff`). Sibling pipelines of a scope do so exactly when one of them fails anyhow, or none
  needs a node that another creates (`SiblingsCommuteIff`). Where both hold at every level, the whole pass over
  a result tree does not depend on the order of any of its loops over maps (`EngineOrderIrrelevant`).
- **Marshaller.** Whatever emitted method of a package is called, and however deep the structs below it
  nest, it prints the document of the receiver and runs to the end exactly when it meets no nil pointer,
  which includes a nil receiver with a field to read (`StructRuns`, `NilReceiverRuns`). What it then printed
  is JSON exactly when every map it printed has keys printed as strings (`StructIsJsonIff`). The commas are
  right for every order of the fields; the order matters only in that the flag variable is needed when every
  field may be absent, so that no block declares its prefix constant twice (`FlagOnlyWhenAllOptional`).
- **Bulk.** A walk ends with given callbacks exactly when there is one or none for every line that suits it:
  a payload after the meta line of anything but a delete, and a meta line otherwise (`WalkIff`). Every operation lands in exactly one buffer, and walking the retryable buffer again reports
  exactly the retryable operations.
- **Lease.** With atomic calls, leases exclude each other in every run exactly when nobody's timeout is
  shorter than that of another client (`ExclusiveIff`). A call reads the record and then writes or deletes
  it, and others may come between: exclusion still holds in every run in which no other client's record
  falls between the read of a call and its own change (`UndisturbedIsExclusive`), and two runs show what
  happens otherwise (`ReadsBeforeWritesOverlap`, `SlowReleaseOverlaps`). A record written under a client
  name with a slash stays forever.
- **Client cache.** Two calls that return with no invalidation between them return the same client. The
  comment on `InvalidateClient` says that the next call rebuilds the client; that holds exactly when no
  other call has a client built and not yet published at that moment (`RebuildsIff`).
- **Cache key.** A configuration shares its key with a different connection exactly unless it has no
  credentials, no bar where one could separate fields, and a list of endpoints that can be read in one way
  (`CollidesIff`). In particular every key with credentials in it is also that of a configuration without.
- **Partitions.** Merged ranges cover every value exactly once. The partition for documents without a
  value, which `GetPartitions` appends with key 0, is lost from both lists or kept twice, or merged with a
  proper partition that has key 0 (`OtherLostOrDoubled`).

Where comments and code disagree, the models follow the code: a derivative subtracts the last value that
was present rather than that of the preceding bucket (`core/aggregate/engine.go:111-127`); a script
parameter whose node is not set takes the value stored in that node rather than always 0
(`core/aggregate/engine.go:129-146`).

## Model

| member | source | states |
|---|---|---|
| `Simplifier.SimplifyIsNormal` | core/orm/query.go:683-741 | every simplified clause is in normal form: no list holds an empty clause or a bool of only that list's type, and no bool has a sole must or a sole should |
| `Simplifier.NormalIsFixed` | core/orm/query.go:683-741 | simplification leaves a normal form as it is |
| `Simplifier.SimplifyIdempotent` | core/orm/query.go:675-741 | simplifying twice is simplifying once |
| `Simplifier.NormalIffFixed` | core/orm/query.go:683-741 | a clause is a normal form exactly when simplification leaves it unchanged |
| `SimplifiedShape.ShapeIs` | core/orm/query.go:683-741 | the shape of the simplified clause (gone, kept whole, or the sizes of its four lists) is told from the tree without simplifying it |
| `SimplifyMeaning.OutcomeForeseen` | core/orm/query.go:683-741 | for any tree and engine, what both queries answer and how many alternatives score lies in a finite set computed from the tree |
| `SimplifyMeaning.OutcomeHappens` | core/orm/query.go:683-741 | for a tree that mentions no leaf twice, every member of that set is attained by some engine |
| `SimplifyMeaning.FateExact` | core/orm/query.go:683-741 | for a tree that mentions no leaf twice, with any minimum_should_match, the verdict computed from the tree is "same" exactly when every engine answers both queries alike, and "inverted" exactly when every engine answers them oppositely |
| `SimplifyMeaning.FateSound` | core/orm/query.go:683-741 | for any tree, a verdict "same" or "inverted" is right for every engine |
| `SimplifyMeaning.SimplifyPreservesPlain` | core/orm/query.go:683-741 | a tree with nothing empty, no must_not beneath a must_not and no minimum_should_match of two or more matches the same documents once simplified |
| `SimplifyMeaning.MustNotOfMustNotInverts` | core/orm/query.go:732-735 | a must_not around a query that simplifies to only a must_not matches the complement once simplified |
| `SimplifyMeaning.NestedMustNotChangesMeaning` | core/orm/query.go:732-735 | a tree and an engine where flattening nested must_nots changes the answer |
| `SimplifyMeaning.EmptyShouldChangesMeaning` | core/orm/query.go:727-730 | a tree and an engine where dropping an empty alternative changes the answer |
| `SimplifyMeaning.EmptyMustChangesMeaning` | core/orm/query.go:727-730 | a tree and an engine where dropping an empty requirement makes optional alternatives required |
| `SimplifyMeaning.NestedCountChangesMeaning` | core/orm/query.go:732-735 | a tree and an engine where flattening a should with minimum_should_match 2 into a should changes the answer |
| `SimplifyMeaning.FlattenedShouldIff` | core/orm/query.go:732-735 | a should of leaves, the first of which occurs nowhere else, flattened into a should keeps the meaning exactly when its minimum_should_match is at most one |
| `SimplifyMeaning.CollapsedShouldIff` | core/orm/query.go:707-709 | a bool collapsed to its only should leaf keeps the meaning exactly when its minimum_should_match is at most one |
| `ClauseNodes.SimplifyClause` | core/orm/query.go:683-712 | run on linked records, overwriting their lists, it leaves a tree that stands for the simplified clause and uses only records of the given tree |
| `ClauseNodes.SimplifyNodes` | core/orm/query.go:714-741 | the loop over a list leaves separate trees that stand for the simplified list |
| `ClauseNodes.KeepNode` | core/orm/query.go:718-738 | what one simplified record adds to the list that holds it |
| `ClauseNodes.QueryBuilder.Build` | core/orm/query.go:675-681 | the root stands for the simplification of the root with the text clauses added once; a second build leaves a normal root as it is |
| `ClauseNodes.QueryBuilder.BuildFuzzinessQuery` | core/orm/query.go:879-904 | the generated clauses are added once: one as a must, several as a should within a must |
| `BuiltQuery.TextIsRequired` | core/orm/query.go:879-904 | for every engine, a root with the clauses of a non-empty text added matches exactly when its filters, requirements and exclusions hold, enough of its alternatives do, and at least one of the added clauses matches |
| `BuiltQuery.TextAddsOneMust` | core/orm/query.go:879-904 | adding them appends one requirement and leaves everything else of the root as it was |
| `BuiltQuery.NoTextAddsNothing` | core/orm/query.go:879-904 | without a text, without clauses for it, or once they were added, the root stays |
| `BuiltQuery.BuiltMeans` | core/orm/query.go:675-681 | the simplified query still asks for exactly that, when root and text clauses are plain |
| `TermNodes.MergeTermQueries` | core/orm/query_args_parser.go:302-340 | run on linked records, replacing their lists, it leaves separate trees for the other clauses followed by one merged clause per field, at every depth |
| `TermNodes.MergeSubClauses` | core/orm/query_args_parser.go:308-312 | replaces the four lists of a record by their merged forms |
| `TermNodes.AppendMerged` | core/orm/query_args_parser.go:329-337 | appends one new record per field, a term for one value and a terms for several |
| `TermMeaning.ValuesCounted` | core/orm/query_args_parser.go:320-338 | a merged clause lists each value as often as there were terms for it |
| `TermMeaning.OrderDistinct` | core/orm/query_args_parser.go:320-323 | there is one merged clause per field |
| `TermMeaning.OrderIsFirstSeen` | core/orm/query_args_parser.go:320-323 | merged clauses come in the order in which their fields are first seen |
| `TermMeaning.RegroupSome` | core/orm/query_args_parser.go:302-340 | as alternatives or as exclusions, a merged list means what the list did |
| `TermMeaning.RegroupAll` | core/orm/query_args_parser.go:302-340 | as requirements, a merged list asks for all other clauses and, for each field, some of its values |
| `TermMeaning.RegroupWidens` | core/orm/query_args_parser.go:302-340 | merging requirements never loses a match |
| `TermMeaning.RegroupHits` | core/orm/query_args_parser.go:302-340 | of alternatives none of which share a field, a merged list scores as many as the list did |
| `TermMeaning.CountedTermsLost` | core/orm/query_args_parser.go:302-340 | two terms on one field score two as alternatives and one once merged, which a minimum_should_match of 2 shows |
| `TermMeaning.RequirementsKeptIff` | core/orm/query_args_parser.go:76-105 | for the filters of a request (leaves, terms and must_nots of a leaf), merged requirements mean the same to every engine exactly when the rest of the list forces each term once another value of its field is taken |
| `TermMeaning.FiltersMean` | core/orm/query_args_parser.go:76-105 | the filters of a request (leaves and must_nots of a leaf), merged and required, ask for every filter that is no term and, for each field, one of its listed values |
| `TermMeaning.MergeKeepsMeaning` | core/orm/query_args_parser.go:302-340 | a whole tree keeps its meaning when no requirements in it ask a field for two values and no counted alternatives share a field |
| `ScriptParsing.ValueIff` | core/aggregate/engine.go:301-447 | a token list evaluates to a value exactly when it is an expression of the grammar with that value: left association, product before sum, x/0 = 0 |
| `ScriptParsing.PanicIff` | core/aggregate/engine.go:301-311 | evaluation indexes past the tokens exactly when an empty parameter name would complete the list |
| `ScriptText.TokenizeScript` | core/aggregate/engine.go:313-342 | the loop cuts the text into words, signs and dots, keeping decimal points |
| `ScriptText.TokenizeText` | core/aggregate/engine.go:313-342 | tokenizing the text of an expression gives its tokens back |
| `ScriptText.TokensCover` | core/aggregate/engine.go:313-342 | the tokens of any text, put together, are the text without its white space |
| `ScriptText.TokensProper` | core/aggregate/engine.go:313-342 | every token of any text is one sign, a dot, or a word that holds no sign, no white space and no dot but decimal points |
| `ScriptText.ScriptParser.Next` | core/aggregate/engine.go:356-360 | returns the current token, or the empty one, and advances |
| `ScriptText.ScriptParser.Expression` | core/aggregate/engine.go:362-383 | the loop over sums agrees with the parse, in value and in position |
| `ScriptText.ScriptParser.Product` | core/aggregate/engine.go:385-411 | the loop over products agrees with the parse, in value and in position |
| `ScriptText.ScriptParser.Atom` | core/aggregate/engine.go:413-447 | numbers, parameters, negation and parentheses agree with the parse |
| `ScriptText.EvalScript` | core/aggregate/engine.go:301-311 | tokenizing, parsing and the check for leftover tokens together compute the evaluation |
| `ScriptText.EvalOfText` | core/aggregate/engine.go:301-447 | evaluating the text of an expression tree, with the parentheses precedence asks for, gives the value of the tree, computed with the operations of the numbers, a quotient by zero being zero |
| `ScriptText.OperationsEvaluate` | core/aggregate/engine.go:362-447 | the texts of a sum, difference, product, quotient and negation of parameters evaluate by that operation, and a quotient by zero to zero |
| `ScriptText.PanicPossibleIff` | core/aggregate/engine.go:301-311 | some script text indexes past its tokens exactly when a parameter has the empty name |
| `ScriptText.NoIndexPanic` | core/aggregate/engine.go:301-311 | without an empty parameter name no script indexes past its tokens |
| `Pipelines.ApplyDerivative` | core/aggregate/engine.go:113-127 | each bucket gets its value minus the last one present before it, in place; the first present one gets nothing |
| `Pipelines.ApplyBucketScript` | core/aggregate/engine.go:129-146 | succeeds exactly when the script evaluates in every bucket, and then stores each value |
| `PipelineResults.NameNames` | core/aggregate/engine.go:196-223 | the document count is found under its two names, and the value of a node under its own |
| `PipelineResults.PathNames` | core/aggregate/engine.go:196-223 | what follows the sign of a path is looked up in the first bucket of the node before it |
| `PipelineResults.RatioStored` | core/aggregate/engine.go:129-146 | a script that divides two paths stores their quotient in every bucket, and zero where it divides by zero |
| `Pipelines.ApplyPipelines` | core/aggregate/engine.go:96-108 | applies the pipelines of a list one after the other in the order visited, stopping at an error |
| `Pipelines.AfterAllIs` | core/aggregate/engine.go:87-146 | when no path is the name of another pipeline, each stores what it would store alone |
| `Pipelines.AllSucceedIff` | core/aggregate/engine.go:87-146 | such pipelines all succeed in sequence exactly when each succeeds on the untouched list |
| `Pipelines.OrderIrrelevant` | core/aggregate/engine.go:96-146 | such pipelines give the same bucket list and the same success in every iteration order |
| `PipelineOrder.DerivativesCommuteIff` | core/aggregate/engine.go:96-127 | derivatives over numbers with real subtraction leave every bucket list the same in all iteration orders exactly when no path is the name of another of them |
| `PipelineOrder.ChainShows` | core/aggregate/engine.go:96-127 | a derivative of a derivative is there in one order and absent in the other, on three equal buckets |
| `PipelineOrder.SelfReaderShows` | core/aggregate/engine.go:96-127 | so do the orders differ when the one that is read reads itself |
| `PipelineOrder.MutualReadersShow` | core/aggregate/engine.go:96-127 | and when two read each other |
| `PipelineOrder.DependentOrderMatters` | core/aggregate/engine.go:96-127 | for the derivative of a derivative of the document count the order shows whatever the numbers are |
| `PipelineEngine.SiblingsCommuteIff` | core/aggregate/engine.go:49-69 | sum_bucket and max_bucket pipelines do the same to every scope in all iteration orders exactly when one of them fails anyhow, or none reads from the node of another that does not itself read from that node |
| `PipelineEngine.SiblingsStore` | core/aggregate/engine.go:49-83 | in any order, sibling pipelines that would each succeed on the scope all succeed, and each stores what it would store alone |
| `PipelineResults.SiblingLeaves` | core/aggregate/engine.go:227-245 | sum_bucket and max_bucket take the sum and the largest of the values under their two-part path, and fail on a path of one part or without the node |
| `PipelineResults.ValuesAre` | core/aggregate/engine.go:227-245 | every bucket in which the path is present contributes its value, in the order of the buckets |
| `PipelineResults.AsManyAsPresent` | core/aggregate/engine.go:227-245 | no other bucket contributes one |
| `PipelineResults.SumSeesInner` | core/aggregate/engine.go:34-109 | in every order of the loops, a sum_bucket over a list with a derivative adds up the changes that the derivative left there |
| `PipelineEngine.ListOrderIrrelevant` | core/aggregate/engine.go:87-109 | a bucket list, with the scopes inside its buckets processed first, ends up the same whatever the order of any loop over a map |
| `PipelineEngine.EngineOrderIrrelevant` | core/aggregate/engine.go:27-109 | so does a whole result tree, when at every level no pipeline of a list reads another and no sibling pipeline needs another first |
| `Generator.Generate` | cmd/genfastjson/main.go:210-274 | for the sorted fields it emits the code of the struct, and gives up exactly on a field for which it has no code that compiles or no zero test |
| `Generator.GeneratePackage` | cmd/genfastjson/main.go:124-147 | over all declarations, passing over those that need no method, it emits the methods of the whole package, or gives up exactly when a declared type is no struct or some field is not supported |
| `Generator.SupportedIff` | cmd/genfastjson/main.go:277-399 | the generator has code for a type exactly when it comes to no part it cannot write: another form of type, an unhandled basic kind, a struct without a method, a pointer to anything but those, a named basic type that is not converted |
| `Generator.FieldSupportedIff` | cmd/genfastjson/main.go:401-429 | and for a field marked omitempty only with a type that tells its zero itself or can be compared with a literal or nil |
| `Generator.TextLessIff` | cmd/genfastjson/main.go:211-221 | names are sorted by the first character that differs, a proper prefix first |
| `Generator.FlagOnlyWhenAllOptional` | cmd/genfastjson/main.go:210-226 | after sorting, the run-time flag is declared only when every field may be absent |
| `Marshalled.LoopRuns` | cmd/genfastjson/main.go:363-378 | an emitted slice loop whose rounds print their elements prints them joined by single commas |
| `Marshalled.EntriesRun` | cmd/genfastjson/main.go:380-399 | an emitted map loop prints its members joined by single commas |
| `MarshalledStruct.TestRuns` | cmd/genfastjson/main.go:401-429 | the emitted test is true exactly when the field differs from the zero value of its type, or when the type's own method says so |
| `MarshalledStruct.FieldsRun` | cmd/genfastjson/main.go:228-274 | the code for the fields from any point on prints the present ones with the comma that is due before each |
| `MarshalledStruct.MembersOfField` | cmd/genfastjson/main.go:228-274 | a field that is always there adds its name with null when it is a nil pointer, slice, map or interface, and with its document when it is not nil; one marked omitempty adds nothing when it is nil, false, zero or empty |
| `MarshalledStruct.NilReceiverWrites` | cmd/genfastjson/main.go:173-275 | on a nil receiver an emitted method fails exactly when there is a field to read |
| `MarshalledPackage.ValueWrites` | cmd/genfastjson/main.go:277-399 | the code emitted for any supported type and value, calling the emitted methods of the package, prints exactly the document of the value, and fails exactly on a nil pointer it dereferences, at every call depth at least that of the value |
| `MarshalledPackage.BehindPointer` | cmd/genfastjson/main.go:308-318 | through a pointer the basic value behind it is printed, or what the method of its type prints, or the members of its struct |
| `MarshalledPackage.StructRuns` | cmd/genfastjson/main.go:173-275 | the emitted method of any struct of the package prints the document of any receiver, structs within it included, and runs to the end exactly when it meets no nil pointer |
| `MarshalledPackage.DeepEnough` | cmd/genfastjson/main.go:173-275 | for every struct and receiver there is a depth of calls from which on the method does that |
| `MarshalledPackage.NilReceiverRuns` | cmd/genfastjson/main.go:173-275 | called on nil, the method of a struct runs to the end exactly when the struct has no field |
| `JsonScan.JsonIff` | cmd/genfastjson/main.go:363-399 | a document whose atoms are JSON and whose names do not pose as strings is printed as JSON exactly when every name in it is a string |
| `MarshalledJson.ValueIsJsonIff` | cmd/genfastjson/main.go:277-399 | what is printed for a value is JSON exactly when every map in it, at any depth, has keys printed as strings |
| `MarshalledJson.MapIsJsonIff` | cmd/genfastjson/main.go:380-399 | a non-empty map whose keys are written as basic values, of named types and through pointers too, is printed as JSON exactly when those are strings and its values print no other keys |
| `MarshalledJson.StructIsJsonIff` | cmd/genfastjson/main.go:173-275 | whatever emitted method of the package is called on whatever receiver, it runs to the end and has printed JSON as in RFC 8259 exactly when it meets no nil pointer and every map it prints has keys printed as strings |
| `MarshalledJson.StructIsJson` | cmd/genfastjson/main.go:173-275 | in a package all of whose maps have keys of string type, a method that runs to the end has printed JSON |
| `BulkLines.AddLineAppends` | core/elastic/bulk_buffer.go:109-130 | adding data with a newline where one is missing appends exactly its lines |
| `BulkLines.TerminatedKeepsLines` | core/elastic/bulk_buffer.go:77-83 | ending with a newline changes no line |
| `BulkLines.CompactKeepsLines` | core/elastic/bulk_processor.go:524-527 | replacing doubled newlines changes no line |
| `BulkWalk.WalkBulkRequests` | core/elastic/bulk_processor.go:109-238 | the line loop, with any answers of the hook that may skip lines, makes the meta and payload callbacks and the count of the state machine over the non-empty lines, and reports as done a delete by its meta line and any other operation by its payload |
| `BulkWalk.NeverSkipping` | core/elastic/bulk_processor.go:145-154 | a hook that never skips changes nothing |
| `BulkWalk.FinishedOnce` | core/elastic/bulk_processor.go:109-238 | whatever the hook says, no more operations are reported as done than were begun |
| `BulkWalk.CompactKeepsWalk` | core/elastic/bulk_processor.go:524-527 | replacing doubled newlines changes nothing the walk reports |
| `BulkCallbacks.WalkIff` | core/elastic/bulk_processor.go:109-238 | whatever the hook says, the walk makes given callbacks and counts given operations exactly when there is one or none for every non-empty line that suits it, and panics exactly when there is no such choice |
| `BulkCallbacks.OneCallbackALine` | core/elastic/bulk_processor.go:109-238 | without a hook there is one callback for each non-empty line: after the meta line of anything but a delete the payload of that operation with the bytes of the line, otherwise a meta line with index and type filled in from the path |
| `BulkCallbacks.CountIsFinished` | core/elastic/bulk_processor.go:213-238 | the count is that of the operations begun, and those are in order the ones reported as done, but for one whose payload never came |
| `BulkOutcome.BulkBuffer.WriteNewByteBufferLine` | core/elastic/bulk_buffer.go:97-130 | appends exactly the lines of the data |
| `BulkOutcome.BulkBuffer.SafetyEndWithNewline` | core/elastic/bulk_buffer.go:77-83 | keeps the lines and ends a non-empty buffer with a newline |
| `BulkOutcome.BulkBuffer.WriteMessageID` | core/elastic/bulk_buffer.go:151-158 | appends a non-empty id |
| `BulkOutcome.BulkBuffer.WriteErrorReason` | core/elastic/bulk_buffer.go:160-164 | appends a reason unless it is empty |
| `BulkOutcome.BulkBuffer.ResetData` | core/elastic/bulk_buffer.go:171-177 | empties bytes, ids and reasons |
| `BulkOutcome.HandleBulkResponse` | core/elastic/bulk_processor.go:733-916 | without a top-level error each buffer holds exactly the lines, ids and reasons of its class of operations; with one, everything is reported as rejected |
| `BulkOutcome.SplitItems` | core/elastic/bulk_processor.go:820-916 | the callbacks, with their shared flags, put meta and payload of an operation into the buffer of its class |
| `BulkOutcome.WalkIsPaired` | core/elastic/bulk_processor.go:109-238 | whatever the hook says, every payload callback directly follows the meta callback of the same operation |
| `BulkOutcome.EveryOperationOnce` | core/elastic/bulk_processor.go:820-916 | every callback lands in exactly one buffer, and the three message counts add up to the number of operations |
| `BulkOutcome.SelectedIff` | core/elastic/bulk_processor.go:852-916 | a callback lands among the successes when no item failed at its offset, else among those to retry when the rules say so for that item, else among the rejected |
| `BulkOutcome.IdRecorded` | core/elastic/bulk_processor.go:860-893 | the id recorded for an operation is that of its failed item or else its own, or its number when that is empty |
| `BulkOutcome.BareEndpointIsStable` | core/elastic/bulk_processor.go:240-269 | requests to the bulk endpoint itself need no meta line filled in |
| `BulkOutcome.ResendIsExact` | core/elastic/bulk_buffer.go:77-130 | walking the terminated retryable buffer reports exactly the retryable operations, with the same meta and payload lines in the same order |
| `Routing.RoutingModIsFloor` | core/elastic/hash.go:75-84 | the computed modulus is the floor modulus for every hash |
| `Routing.ShardIdIs` | core/elastic/hash.go:60-87 | the shard is the floor modulus of the hash, to which its remainder by the offset toward zero was added, divided by the routing factor |
| `Routing.InRangeIffDivides` | core/elastic/hash.go:32-87 | every hash gets a shard within range exactly when there are shards and the routing shard count is the default or a multiple of theirs |
| `Routing.ShardsAreEven` | core/elastic/hash.go:60-87 | each shard owns the same number of residues |
| `Routing.SplitKeepsParent` | core/elastic/hash.go:60-87 | a document's shard after a split, divided by the split factor, is its shard before |
| `Routing.DefaultIsPowerMultiple` | core/elastic/hash.go:32-43 | from version 7 on the default routing shard count is the shard count times a power of two |
| `Routing.DefaultFits1024` | core/elastic/hash.go:32-43 | that multiple lies above 512 and within 1024 for up to 512 shards, and is twice the shard count beyond |
| `Routing.ShardIdBefore7` | core/elastic/hash.go:32-87 | before version 7, with the default, a document goes to the shard that its hash leaves as remainder |
| `Routing.DoublingKeepsDefault` | core/elastic/hash.go:32-43 | doubling the shards leaves the default routing shard count alone exactly up to 256 shards |
| `Routing.DefaultDoublingIff` | core/elastic/hash.go:32-87 | with the default routing shard count, doubling keeps the documents of every 32-bit hash in their parent shards exactly up to 256 shards |
| `Lease.RecordReadsBack` | core/locker/locker.go:31-62 | a record is read back as written exactly when the client's name has no slash |
| `Lease.Locker.GetAllocateInfo` | core/locker/locker.go:37-62 | reads the record, or finds it absent or malformed |
| `Lease.Locker.Hold` | core/locker/locker.go:64-111 | the answer and the new record for an absent, own, live or expired record, and the panic on a malformed one |
| `Lease.Locker.Release` | core/locker/locker.go:113-131 | removes an own record, does nothing without one, and refuses otherwise |
| `Lease.HeldIff` | core/locker/locker.go:64-131 | a readable record of another client is taken over exactly by one that asks for it once the record is older than that client's timeout, or than 30 seconds when it gives none; only its owner can release it |
| `Lease.RunIsExclusive` | core/locker/locker.go:64-131 | in every run with a clock that does not go back, at no time do two clients both have a lease that has not run out |
| `Lease.ExclusiveIff` | core/locker/locker.go:64-131 | for timeouts of at least a second, that holds for all runs exactly when nobody's timeout is shorter than that of another client whose record can be read |
| `Lease.OnlyTakeoverChangesRecord` | core/locker/locker.go:80-131 | a call by another client changes a record exactly when it takes over a lease that ran out, and never deletes it |
| `Lease.RecordSurvives` | core/locker/locker.go:64-131 | any number of calls by others leave a lease alone until it runs out for them |
| `Lease.NeverStuck` | core/locker/locker.go:64-131 | after any run of clients whose names have no slash, every client is granted the lock at some time after any given one |
| `Lease.SlashIsForever` | core/locker/locker.go:31-62 | a record written under a name with a slash can never be taken over or released |
| `TwoStepLease.AtomicCalls` | core/locker/locker.go:64-131 | calls whose two steps follow each other do what the atomic calls do, and disturb nobody |
| `TwoStepLease.UndisturbedIsExclusive` | core/locker/locker.go:64-131 | with reads and changes as separate steps in any interleaving, no two clients have a live lease as long as no other client's record falls between the read of a call and its change |
| `TwoStepLease.UndisturbedExclusiveIff` | core/locker/locker.go:64-131 | for timeouts of at least a second, that holds in all such runs exactly when nobody's timeout is shorter than that of another client whose record can be read |
| `TwoStepLease.UndisturbedRemovesOwn` | core/locker/locker.go:113-131 | in such runs a release never removes the record of another client |
| `TwoStepLease.RecordSurvivesSteps` | core/locker/locker.go:64-131 | when nobody else has a call under way, the steps of others leave a record alone until it runs out for them |
| `TwoStepLease.ReadsBeforeWritesOverlap` | core/locker/locker.go:64-111 | for any two clients a run in which both read before either writes leaves both with a live lease |
| `TwoStepLease.SlowReleaseOverlaps` | core/locker/locker.go:113-131 | a run with undisturbed holds in which a slow release removes another's record and two clients end up with a live lease |
| `ClientCache.EntryStays` | core/elastic/client_provider.go:87-136 | between invalidations of a key its entry never changes once set |
| `ClientCache.ReturnedEntry` | core/elastic/client_provider.go:87-125 | a call returns a client that was the entry for its key at some moment of the call |
| `ClientCache.SameClient` | core/elastic/client_provider.go:87-136 | two calls that return with no invalidation of the key in between return the same client |
| `ClientCache.CallAlone` | core/elastic/client_provider.go:87-125 | a call that nothing interrupts returns the entry, or else builds, caches and returns the next client, or fails with the build and leaves the cache alone |
| `ClientCache.RebuildsIff` | core/elastic/client_provider.go:87-136 | after an invalidation at the end of any run, later calls return only clients built later exactly when no client for the key was built and waiting to be published |
| `CacheKey.ConfigCacheKey` | core/elastic/client_provider.go:153-169 | builds the key text from endpoint, endpoint list, distribution, credentials, token and version |
| `CacheKey.Resolved` | core/elastic/domain_actions.go:186-203 | the endpoint in the key is the configured one, or the first of the list |
| `CacheKey.SameKeyIff` | core/elastic/client_provider.go:153-177 | configurations without separator characters in their fields share a key exactly when they agree on everything that identifies the connection |
| `CacheKey.KeyReadsBack` | core/elastic/client_provider.go:153-169 | the fields of a configuration without separator characters can be read back from its key |
| `CacheKey.ColonInUserName` | core/elastic/client_provider.go:164-166 | with a colon in a user name different credentials can share a key |
| `KeyCollisions.CredentialsCollide` | core/elastic/client_provider.go:153-169 | every configuration with credentials shares its key with one without |
| `KeyCollisions.CollidesIff` | core/elastic/client_provider.go:153-177 | a configuration shares its key with one that is a different connection exactly unless it has no credentials, a resolved endpoint and other fields whose bars cannot be taken for separators, and a list of endpoints that can be read in one way |
| `Partitions.MergePartitions` | core/elastic/partition.go:229-268 | the loops compute the merge of the two lists |
| `Partitions.MergeIncreasing` | core/elastic/partition.go:229-268 | merging strictly increasing lists gives a strictly increasing list with exactly the keys of both |
| `Partitions.MergeHolds` | core/elastic/partition.go:229-268 | the result holds the partitions whose key only one list has, unchanged, and for each common key the hull of the two ranges with its filter |
| `Partitions.HullOfTwo` | core/elastic/partition.go:248-259 | for a common key there is one with the earlier start, the later end, the filter for that range and the larger count |
| `Partitions.CoveredOnce` | core/elastic/partition.go:229-268 | for lists cut by one histogram, every value in an input range is in exactly one output range |
| `Partitions.OtherLostOrDoubled` | core/elastic/partition.go:145-151 | when both lists end with a partition for documents without a value, the result has none if the lists end on the same key or below zero, one if a proper partition with key 0 met the end of the other list, and two otherwise |
| `MapNodes.ParseToNestedMap` | core/orm/aggs_args_parser.go:30-86 | the loop fills map objects in place with the relevant arguments one by one and stops at a conflict |
| `MapNodes.Place` | core/orm/aggs_args_parser.go:62-83 | follows one path down through the map objects, creating what is missing, and refuses exactly when it leads through a text |
| `NestedMap.NoConflict` | core/orm/aggs_args_parser.go:62-86 | when no path leads through another there is no conflict, and the leaves of the result are exactly the given paths with their values |
| `NestedMap.LeavesOfArguments` | core/orm/aggs_args_parser.go:33-86 | told from the arguments: under each path is the value of the last argument whose key is `agg` and then that path, and nothing when there is none |
| `NestedMap.OrderIrrelevant` | core/orm/aggs_args_parser.go:33-86 | with distinct paths none of which leads through another, every iteration order gives the same map |
| `NestedMap.AnyOrderIff` | core/orm/aggs_args_parser.go:33-86 | every iteration order is free of conflicts exactly when no path leads through another |
| `Availability.NodeAvailable.ReportFailure` | core/elastic/actions.go:41-75 | the new state of a node after a failure |
| `Availability.NodeAvailable.ReportSuccess` | core/elastic/actions.go:77-98 | the new state of a node after a success |
| `Availability.ClusterAvailable.ReportFailure` | core/elastic/actions.go:359-403 | the new state of a cluster after a failure, and whether it is down |
| `Availability.ClusterAvailable.ReportSuccess` | core/elastic/actions.go:405-426 | the new state of a cluster after a success |
| `Availability.RunIsSound` | core/elastic/actions.go:41-98 | in every run a dead target is unavailable and an unavailable one has no tickets |
| `Availability.ClusterRunIs` | core/elastic/actions.go:359-426 | a run of a cluster, which knows no dead mark, has the availability, tickets and latest success of the run that keeps one |
| `Availability.StaysUpIff` | core/elastic/actions.go:41-98 | a target stays up through a run exactly when no report trips it, told from the history alone; successes in between take no tickets back |
| `Availability.NodeStaysUpIff` | core/elastic/actions.go:41-75 | a node goes down by the first counting failure that is the 30th or later and more than 10 seconds after the latest success, or more than 60 seconds after it |
| `Availability.ClusterStaysUpIff` | core/elastic/actions.go:359-403 | a cluster, by the 10th or later and more than 5 seconds, or more than 10 seconds, when nothing else keeps it up |
| `Availability.StaysDownIff` | core/elastic/actions.go:77-98 | a target that is down stays down through a run exactly when no success is let through |
| `Availability.DeadIff` | core/elastic/actions.go:41-98 | a target is dead at the end of a run exactly when a failure came while it was down and over an hour after the latest success, and no success was let through since |
| `Availability.NeverDownWithinLimit` | core/elastic/actions.go:41-98 | a target whose failures all come within the soft limit of its latest success never goes down |

## Left out

- Lease.Locker.Hold: reading and writing the record are one atomic step; `TwoStepLease` has the two steps apart. Errors of the key-value store are not modelled.
- Lease.RunIsExclusive: is about atomic calls; `TwoStepLease.UndisturbedIsExclusive` is about interleaved steps.
- Lease.RecordSurvives: is about atomic calls; `TwoStepLease.RecordSurvivesSteps` is about interleaved steps.
- Lease.ExclusiveIff: is about atomic calls, and asks for timeouts of at least a second, because the recorded time is cut to seconds and shorter leases may have run out when they are granted; `RunIsExclusive` has no such condition, and `TwoStepLease.UndisturbedExclusiveIff` is about interleaved steps.
- TwoStepLease.UndisturbedIsExclusive: each client has at most one call under way; starting another abandons the first.
- TermNodes.MergeTermQueries: passes a nil clause through, where the original dereferences it and panics; trees share no record.
- MapNodes.ParseToNestedMap: keys are given cut into parts, since the regular expression and the unescaping belong to libraries, and an argument without a value is not modelled.
- SimplifyMeaning.FateExact: is about trees that mention no leaf twice; with repeated leaves the verdict is still right whenever it is "same" or "inverted", but "neither" may be too cautious.
- CacheKey.SameKeyIff: asks both configurations for fields without separator characters; which configurations collide with some other one, of whatever fields, is told by `KeyCollisions.CollidesIff`.
- MarshalledJson.StructIsJson: takes it as given that the writer quotes strings and formats numbers as JSON has them (no NaN or infinities), that hand-written methods and the marshalling of interface values print JSON, and that quoting a field name when the code is generated gives a JSON string.
- MarshalledPackage.StructRuns: values are finite trees, so a pointer that leads back to itself is not modelled; what hand-written methods and interface values print is a parameter.
- Generator.Generate: the sort is given by what it promises; reading struct tags (`makeStructField`) and which fields take part is not modelled. Code that would not compile (a zero test on a struct, a call of a method that no struct of the package has, a value of a named type that is passed to the writer without conversion) counts as giving up.
- Generator.GeneratePackage: the declared types that get a method are given; walking the syntax tree for them is not modelled.
- BulkOutcome.ResendIsExact: is about one response whose items line up with the walked bytes; across several retries the original walks the first body again, so no claim is made there. It asks that filling in a meta line is stable, which holds for requests to the bulk endpoint itself.
- BulkOutcome.HandleBulkResponse: what the buffers hold when the walk stops at a malformed line is not stated; no line is skipped, since its hook never skips.
- Pipelines.ApplyPipelines: is about one bucket list; the pass over the scopes inside its buckets is in `PipelineEngine`.
- PipelineEngine.EngineOrderIrrelevant: is about values, so nodes shared between places of the tree are not modelled; paths are given without surrounding space, and adding up and finding the largest of a list of numbers are parameters.
- PipelineOrder.DerivativesCommuteIff: is about derivatives; whether a script's value shows what it read depends on the script.
- ClauseNodes.QueryBuilder.Build: the clauses generated from the free-text query are given; the tables that generate them are left out.
- Availability.NodeAvailable.ReportFailure: the decisions of the rate limiter are parameters, and the clock is read once per report.
- A bool without should clauses matches whatever its minimum_should_match says, as in `modules/sqlite/orm/query_builder.go:184`. That builder reads any count as one (`modules/sqlite/orm/query_builder.go:194`), while `modules/elastic/orm/query_dsl.go:358-361` passes the count on; the model reads it as a count. Other parameters and boosts do not take part in matching.
- bucket_sort: a spec that holds one is not modelled. It moves buckets within the list, so what a derivative beside it stores depends on the iteration order by design, and the statements on order are about specs without it.
- Bucket scopes shared between buckets are not modelled.
- 64-bit overflow of shard counts beyond a billion is not modelled.
- `parseFilterToClause` and the other string-to-clause functions: a reading of one branch settles each.
- Murmur hashing, JSON parsing, HTTP, TLS, queues, statistics and logging are outside: each is a parameter or absent.
