# MongoDB.HelpingHand repository core, in Dafny

A model of `MongoRepository<T>`, the generic repository of MongoDB.HelpingHand.
The model covers the only logic the repository owns. The MongoDB driver does everything else.

- **Argument checks.** The constructor rejects a null or empty server, database name or collection name, in that order. GetMatches and GetFirst reject a combinator other than `And`/`Or` before they look at any entry. They then reject the first entry whose operator is `And`, `Or` or `Regex`, and `Regex` gets its own message. A malformed object-id string is rejected before any store call.
- **Filter compilation.** Each `(Key, Value, Operator)` entry becomes one node of the driver's filter tree, modelled as the datatype `FilterCompiler.Filter`. Operators with no case of their own fall back to equality. A list of entries becomes one `And` or `Or` node, with the entries in their original order. `Search` builds a single regular-expression node and does not pass through validation.
- **Result shaping.** The store's modified and deleted counts become booleans. Cursor batches are drained into one list (`GetDocuments`) or cut short at the first document (`GetDocument`).

The store is not modelled. Each operation takes the store's reply to the request it issues:
- `find` maps a query (the empty document, an `_id` lookup, or a compiled filter) to the batches its cursor yields.
- `replaceOne` and `deleteOne` map the parsed identity to the reported count.
- `deleteMany` maps the empty filter to the reported count.
- The per-field writes of a partial update get the sequence of modified counts, in call order.

Thrown exceptions become `Errors.Result` / `Errors.Outcome` values. `default(T)` (null for the entity classes) becomes `Option.None`. The constructor's three string arguments are `Option<string>`, with `None` for null.

Modules, one per file:
- `Errors` (errors.dfy)
- `ObjectIds` (object_ids.dfy)
- `FilterCompiler` (filter_compiler.dfy)
- `Cursors` (cursors.dfy)
- `MongoRepository` (mongo_repository.dfy)

Dafny has no overloading, so:
- `Update(id, entries)` is `UpdateFields`.
- `Update(id, value)` is `Replace`.
- `GetFirst(id)` is `GetFirstById`.
- The sequence overload of `CheckOperatorIsNotAndOrOrOrRegex` is `CheckOperatorsAreNotAndOrOrOrRegex`.

Default arguments (`operatorValue = And`, `sensitive = false`) are Dafny default parameters.

Two behaviours of the source worth knowing:
- The entry check throws at the first offending entry and does not look at the entries after it (MongoRepository.cs:305-311).
- The combinator and entry errors are `ArgumentOutOfRangeException`s whose text is passed where .NET expects a parameter name (MongoRepository.cs:286, 299, 302). `Errors.Error.ArgumentOutOfRange` keeps that text as `paramName`.

## Model

| member | source | states |
|---|---|---|
| `MongoRepository.NewRepository` | MongoDB.HelpingHand/Implementation/MongoRepository.cs:17-37 | construction succeeds iff server, database and collection names are all non-null and non-empty; otherwise ArgumentNull naming the first bad argument, in server, databaseName, collectionName order; on success the connection string is `mongodb://` followed by the server, and the names are kept |
| `ObjectIds.TryParse` | MongoDB.HelpingHand/Implementation/MongoRepository.cs:328 | an identity string parses iff it is exactly 24 hex digits, giving a 12-byte identifier |
| `ObjectIds.ValidateObjectId` | MongoDB.HelpingHand/Implementation/MongoRepository.cs:325-334 | succeeds iff the string parses, else ArgumentException "Object Id does not parse"; the parsed id's text form is the input in lower case |
| `ObjectIds.TryParseToText` | MongoDB.HelpingHand.Tests/MongoRepositoryTests.cs:466-481 | the text form of every identifier parses back to that identifier |
| `FilterCompiler.BuildFilterDefinition` | MongoDB.HelpingHand/Implementation/MongoRepository.cs:240-261 | one single-field node on the entry's key carrying its value; a regex node iff the operator is Regex, with ignore-case equal to not `sensitive`; an equality node iff the operator is Equals, And or Or |
| `FilterCompiler.BuildFilterDefinitionKeepsEntry` | MongoDB.HelpingHand/Implementation/MongoRepository.cs:240-261 | for every non-combinator operator, reading the node back gives the entry unchanged (the mapping is injective) |
| `FilterCompiler.CombinatorEntryCompilesToEquals` | MongoDB.HelpingHand/Implementation/MongoRepository.cs:257-259 | an And or Or entry falls into the default case and is compiled as Equals |
| `FilterCompiler.EveryFieldNodeIsBuilt` | MongoDB.HelpingHand/Implementation/MongoRepository.cs:240-261 | every single-field node is the compilation of some entry and sensitivity |
| `FilterCompiler.CheckOperatorIsAndOrOr` | MongoDB.HelpingHand/Implementation/MongoRepository.cs:282-288 | passes iff the combinator is And or Or; otherwise the "Can only pass And or Or" error |
| `FilterCompiler.CheckOperatorIsNotAndOrOrOrRegex` | MongoDB.HelpingHand/Implementation/MongoRepository.cs:290-303 | passes iff the operator is none of And, Or, Regex; Regex gets the "use the Search method" error, And/Or the other one |
| `FilterCompiler.FirstRefusal` | MongoDB.HelpingHand/Implementation/MongoRepository.cs:305-311 | checking a sequence of operators passes iff every operator is an allowed entry operator |
| `FilterCompiler.FirstOffenceDecides` | MongoDB.HelpingHand/Implementation/MongoRepository.cs:305-311 | the first refused operator decides the error, whatever follows it |
| `FilterCompiler.CheckOperatorsAreNotAndOrOrOrRegex` | MongoDB.HelpingHand/Implementation/MongoRepository.cs:305-311 | the loop that stops at the first refused operator returns exactly the first-refusal outcome |
| `FilterCompiler.CheckOperatorsAreValid` | MongoDB.HelpingHand/Implementation/MongoRepository.cs:313-317 | computes the validation outcome: combinator check first, then the entries' operators in order |
| `FilterCompiler.ValidationPassesIff` | MongoDB.HelpingHand/Implementation/MongoRepository.cs:313-317 | validation passes iff the combinator is And or Or and no entry uses And, Or or Regex |
| `FilterCompiler.BadCombinatorWins` | MongoDB.HelpingHand/Implementation/MongoRepository.cs:313-317 | with a combinator other than And/Or, the combinator error is reported whatever the entries are |
| `FilterCompiler.FirstOffendingEntryDecides` | MongoDB.HelpingHand/Implementation/MongoRepository.cs:290-317 | with a legal combinator, the first offending entry decides the error: the Search message for Regex, the And/Or message otherwise |
| `FilterCompiler.CompileEach` | MongoDB.HelpingHand/Implementation/MongoRepository.cs:321 | one compiled node per entry, same length, same order, each compiled with `sensitive = false` |
| `FilterCompiler.BuildFilterDefinitionWithOperator` | MongoDB.HelpingHand/Implementation/MongoRepository.cs:319-323 | an And node iff the combinator is And, an Or node otherwise; its children are the entries compiled one-to-one in order with `sensitive = false` |
| `FilterCompiler.CompileThenDecompile` | MongoDB.HelpingHand/Implementation/MongoRepository.cs:319-323 | for validated input, the entries and combinator are recovered from the compiled tree, in order |
| `FilterCompiler.ValidatedFilterHasNoRegex` | MongoDB.HelpingHand/Implementation/MongoRepository.cs:313-323 | a filter that passed validation contains no regex node |
| `Cursors.FlattenHoldsEveryBatch` | MongoDB.HelpingHand/Implementation/MongoRepository.cs:190-206 | a document is drained iff some batch of the cursor holds it |
| `Cursors.GetDocuments` | MongoDB.HelpingHand/Implementation/MongoRepository.cs:190-206 | the nested loops return the concatenation of all batches, in order |
| `Cursors.GetDocument` | MongoDB.HelpingHand/Implementation/MongoRepository.cs:208-232 | the loops with early exit return the first document of the first non-empty batch, or not-found |
| `Cursors.FirstDocumentIsHeadOfFlatten` | MongoDB.HelpingHand/Implementation/MongoRepository.cs:208-232 | GetDocument's result is the head of what GetDocuments would drain, or not-found when that is empty |
| `MongoRepository.GetAll` | MongoDB.HelpingHand/Implementation/MongoRepository.cs:43-46 | every document the store yields for the empty filter, in cursor order |
| `MongoRepository.MatchesFilter` | MongoDB.HelpingHand/Implementation/MongoRepository.cs:54-57 | fails iff validation fails, with validation's error; otherwise the combined filter, which has no regex node |
| `MongoRepository.GetMatches` | MongoDB.HelpingHand/Implementation/MongoRepository.cs:54-60 | fails iff validation fails, with its error and without the store's reply; otherwise everything the store yields for the filter `MatchesFilter` gives, which is the combined filter and has no regex node |
| `MongoRepository.GetFirstById` | MongoDB.HelpingHand/Implementation/MongoRepository.cs:67-71 | ArgumentException iff the id does not parse; otherwise the first document of the `_id` lookup, or not-found (not an error) |
| `MongoRepository.GetFirst` | MongoDB.HelpingHand/Implementation/MongoRepository.cs:79-85 | same validation as GetMatches; otherwise the first document for the filter `MatchesFilter` gives (the combined filter, regex-free), or not-found |
| `MongoRepository.Search` | MongoDB.HelpingHand/Implementation/MongoRepository.cs:94-104 | queries exactly one regex node on `key` with pattern `value`, ignore-case iff not `sensitive` (insensitive by default); no validation is applied |
| `MongoRepository.SearchEntryIsRefusedByValidation` | MongoDB.HelpingHand/Implementation/MongoRepository.cs:290-303 | the entry Search builds would be refused by GetMatches/GetFirst validation for every combinator, with the Search message when the combinator is legal |
| `MongoRepository.UpdateFields` | MongoDB.HelpingHand/Implementation/MongoRepository.cs:132-150 | ArgumentException with no writes iff the id does not parse; otherwise one set of (key, value) per entry on that id, in order, ignoring operators; true iff every modified count is exactly 1 (true for no entries) |
| `MongoRepository.Replace` | MongoDB.HelpingHand/Implementation/MongoRepository.cs:158-165 | ArgumentException iff the id does not parse; otherwise true iff the replace reports exactly one modified record |
| `MongoRepository.Delete` | MongoDB.HelpingHand/Implementation/MongoRepository.cs:181-188 | ArgumentException iff the id does not parse; otherwise true iff the store removed at least one record |
| `MongoRepository.DeleteAll` | MongoDB.HelpingHand/Implementation/MongoRepository.cs:171-175 | true iff the empty-filter delete removed at least one record |
| `MongoRepository.WellFormedIdIsNeverRejected` | MongoDB.HelpingHand.Tests/MongoRepositoryTests.cs:463-481 | the text form of any identifier validates to that identifier, so Replace returns whether exactly one record was modified and Delete whether one was removed, never the malformed-id error; with their own contracts, GetFirstById therefore gives not-found and UpdateFields gives false (the partial-update test with a well-formed unknown id) rather than an error |

## Left out

- The MongoDB client, database and collection handles, and every store call (`FindAsync`, `UpdateOneAsync`, `ReplaceOneAsync`, `DeleteOneAsync`, `DeleteManyAsync`). They are network I/O. The model takes their replies as parameters, and `Repository` keeps only the connection string and the two names it resolves.
- `Insert` and `InsertBatch`. They hand the value straight to the driver and have no logic of their own.
- `CreateIndex`. It is declared in `IMongoRepository.cs`, but `MongoRepository.cs` has no implementation of it.
- `BuildBsonElement`. Nothing calls it.
- The async/`Task` surface and concurrency. The model is sequential.
- What a filter matches. The store evaluates the filter and the .NET engine runs the regex; the model builds only the filter tree.
- The regex pattern is `entry.Value.ToString()`. The value type is opaque here, so the regex node carries the operand itself rather than its string form.
- `ObjectIds.TryParse` follows the driver's documented identifier text form: 24 hex digits in either case. The driver's own parser is not part of this model.
- A null object-id string is not modelled separately. The driver rejects it just like any other string that does not parse.
- The `Operator` enum's declaration is not among the repository files modelled. Only its nine named members are modelled. C# integer casts to values outside those members are not modelled.
- Store counts are C# `long`. They are modelled as unbounded integers, because the code only compares them with 0 and 1.
- `MongoRepository.UpdateFields` requires one reply per issued write, in call order. This is a demand on the stand-in for the store, not on callers.
- `MongoRepository.Search` does not model the exceptions of the regex construction at MongoRepository.cs:254. `new Regex(...)` throws ArgumentException for a malformed pattern such as `"("`, and `Value.ToString()` throws NullReferenceException for a null value. The model's Search always returns the store's documents, because the .NET regex parser is not part of this model.
- `MongoRepository.NewRepository` does not model the exceptions the driver may raise while it builds the client and resolves the collection (MongoRepository.cs:34-36). Examples are a server string the driver cannot parse as a connection string, or a database name the driver refuses. The model succeeds whenever the three names are non-null and non-empty, because the driver's connection-string and name rules are not part of this model.
- Null entry lists, null entries and null keys are not modelled: entry lists are sequences of entries, and keys are plain strings. In the source, `GetMatches(null)` and `GetFirst(null)` throw ArgumentNullException at `entries.Select` (MongoRepository.cs:316), after the combinator check. A null element throws NullReferenceException at `x.Operator` when the check reaches it, unless an earlier entry has already been refused. `Update(id, null)` throws NullReferenceException at the `foreach` (line 137) after the id is validated. In `Update(id, [e0, null])`, e0's write is sent (line 141) before the throw at line 140. `MongoRepository.UpdateFields` cannot express such a partial write, because its issued writes are all or nothing. The driver also refuses a null key when it builds the field definition.
