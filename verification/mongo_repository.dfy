/** `MongoRepository<T>`: the repository's argument checks and the
    validate-compile-call-shape pipeline of each operation. The store itself is
    not modelled: each operation receives the store's reply to the request it
    issues, as a function of that request (`find`, `replaceOne`, `deleteOne`,
    `deleteMany`) or, for the sequence of writes of a partial update, as the
    sequence of replies in call order. */
module MongoRepository {
  import opened Errors
  import opened ObjectIds
  import opened FilterCompiler
  import opened Cursors

  /** .NET `string.IsNullOrEmpty`, with `None` for a null reference. */
  predicate IsNullOrEmpty(s: Option<string>) {
    s.None? || s.value == []
  }

  /** The scheme prefixed to the server address to form the client's
      connection string. */
  const ConnectionScheme := "mongodb://"

  /** What a constructed repository is bound to: the client's connection
      string and the names of the database and collection it resolves. */
  datatype Repository = Repository(connectionString: string, databaseName: string, collectionName: string)

  /** The constructor: the three arguments are checked in order, each failing
      with an ArgumentNullException naming it; only when all pass is the client
      created and the collection resolved. */
  function NewRepository(server: Option<string>, databaseName: Option<string>, collectionName: Option<string>)
    : (r: Result<Repository>)
    ensures r.Success? <==> !IsNullOrEmpty(server) && !IsNullOrEmpty(databaseName) && !IsNullOrEmpty(collectionName)
    ensures IsNullOrEmpty(server) ==> r == Failure(ArgumentNull("server"))
    ensures !IsNullOrEmpty(server) && IsNullOrEmpty(databaseName) ==> r == Failure(ArgumentNull("databaseName"))
    ensures !IsNullOrEmpty(server) && !IsNullOrEmpty(databaseName) && IsNullOrEmpty(collectionName)
      ==> r == Failure(ArgumentNull("collectionName"))
    ensures r.Success? ==> (ConnectionScheme <= r.value.connectionString
      && r.value.connectionString[|ConnectionScheme|..] == server.value
      && r.value.databaseName == databaseName.value && r.value.collectionName == collectionName.value)
  {
    if IsNullOrEmpty(server) then Failure(ArgumentNull("server"))
    else if IsNullOrEmpty(databaseName) then Failure(ArgumentNull("databaseName"))
    else if IsNullOrEmpty(collectionName) then Failure(ArgumentNull("collectionName"))
    else Success(Repository(ConnectionScheme + server.value, databaseName.value, collectionName.value))
  }

  /** The filter handed to the store's find. */
  datatype Query<V> =
    | Everything                  // an empty BsonDocument
    | ById(id: ObjectId)          // a document or filter on `_id`
    | Where(filter: Filter<V>)    // a compiled filter

  /** One write of a partial update: set `key` to `value` on the record `id`. */
  datatype FieldSet<V> = FieldSet(id: ObjectId, key: string, value: V)

  /** `GetAll`: every document the store yields for the empty filter. */
  method GetAll<V, T>(find: Query<V> -> seq<seq<T>>) returns (docs: seq<T>)
    ensures docs == Flatten(find(Everything))
  {
    docs := GetDocuments(find(Everything));
  }

  /** The filter GetMatches and GetFirst send: validation, then compilation. */
  function MatchesFilter<V>(entries: seq<FilterEntry<V>>, op: Operator): (r: Result<Filter<V>>)
    ensures r.Failure? <==> Validation(entries, op).Fail?
    ensures r.Failure? ==> r.error == Validation(entries, op).error
    ensures r.Success? ==> r.value == BuildFilterDefinitionWithOperator(entries, op) && !r.value.HasRegex()
  {
    match Validation(entries, op)
    case Fail(e) => Failure(e)
    case Pass =>
      ValidatedFilterHasNoRegex(entries, op);
      Success(BuildFilterDefinitionWithOperator(entries, op))
  }

  /** `GetMatches`: rejected before any store call when validation fails,
      otherwise every document the store yields for the compiled filter. */
  method GetMatches<V, T>(find: Query<V> -> seq<seq<T>>, entries: seq<FilterEntry<V>>, op: Operator := And)
    returns (r: Result<seq<T>>)
    ensures r.Failure? <==> Validation(entries, op).Fail?
    ensures r.Failure? ==> r.error == Validation(entries, op).error
    ensures r.Success? ==> r.value == Flatten(find(Where(MatchesFilter(entries, op).value)))
    ensures r.Success? ==> MatchesFilter(entries, op).value == BuildFilterDefinitionWithOperator(entries, op)
    ensures r.Success? ==> !MatchesFilter(entries, op).value.HasRegex()
  {
    var check := CheckOperatorsAreValid(entries, op);
    if check.Fail? {
      return Failure(check.error);
    }
    var filter := BuildFilterDefinitionWithOperator(entries, op);
    var docs := GetDocuments(find(Where(filter)));
    r := Success(docs);
  }

  /** `GetFirst(objectId)`: a malformed identity raises before the store is
      asked; a well-formed one that matches nothing gives not-found. */
  method GetFirstById<V, T>(find: Query<V> -> seq<seq<T>>, objectId: string) returns (r: Result<Option<T>>)
    ensures r.Failure? <==> TryParse(objectId).None?
    ensures r.Failure? ==> r.error == Argument(IdDoesNotParse)
    ensures r.Success? ==> r.value == FirstDocument(find(ById(TryParse(objectId).value)))
  {
    var parsed := ValidateObjectId(objectId);
    if parsed.Failure? {
      return Failure(parsed.error);
    }
    var doc := GetDocument(find(ById(parsed.value)));
    r := Success(doc);
  }

  /** `GetFirst(entries, op)`: the same validation as GetMatches, then the
      first document the store yields for the compiled filter. */
  method GetFirst<V, T>(find: Query<V> -> seq<seq<T>>, entries: seq<FilterEntry<V>>, op: Operator := And)
    returns (r: Result<Option<T>>)
    ensures r.Failure? <==> Validation(entries, op).Fail?
    ensures r.Failure? ==> r.error == Validation(entries, op).error
    ensures r.Success? ==> r.value == FirstDocument(find(Where(MatchesFilter(entries, op).value)))
    ensures r.Success? ==> MatchesFilter(entries, op).value == BuildFilterDefinitionWithOperator(entries, op)
    ensures r.Success? ==> !MatchesFilter(entries, op).value.HasRegex()
  {
    var check := CheckOperatorsAreValid(entries, op);
    if check.Fail? {
      return Failure(check.error);
    }
    var filter := BuildFilterDefinitionWithOperator(entries, op);
    var doc := GetDocument(find(Where(filter)));
    r := Success(doc);
  }

  /** `Search`: one regular-expression node on `key` with `value` as its
      pattern, case-insensitive unless `sensitive`; no operator validation. */
  method Search<V, T>(find: Query<V> -> seq<seq<T>>, key: string, value: V, sensitive: bool := false)
    returns (docs: seq<T>)
    ensures docs == Flatten(find(Where(MatchesRegex(key, value, !sensitive))))
  {
    var entry := FilterEntry(key, value, Regex);
    var filter := BuildFilterDefinition(entry, sensitive);
    docs := GetDocuments(find(Where(filter)));
  }

  /** The entry Search builds would be refused by GetMatches and GetFirst,
      whatever the combinator: Search must, and does, bypass validation. */
  lemma SearchEntryIsRefusedByValidation<V>(key: string, value: V, op: Operator)
    ensures Validation([FilterEntry(key, value, Regex)], op).Fail?
    ensures IsCombinator(op) ==>
      Validation([FilterEntry(key, value, Regex)], op) == Fail(ArgumentOutOfRange(UseSearchForRegex))
  {
  }

  /** `Update(objectId, entries)`: one field write per entry, in order, whatever
      the entry's operator; true exactly when every write modified exactly one
      record. `modifiedCounts[i]` is the store's reply to the i-th write. */
  method UpdateFields<V>(objectId: string, entries: seq<FilterEntry<V>>, modifiedCounts: seq<int>)
    returns (r: Result<bool>, issued: seq<FieldSet<V>>)
    requires |modifiedCounts| == |entries|
    ensures r.Failure? <==> TryParse(objectId).None?
    ensures r.Failure? ==> r.error == Argument(IdDoesNotParse) && issued == []
    ensures r.Success? ==> |issued| == |entries| && forall i | 0 <= i < |entries| ::
      issued[i] == FieldSet(TryParse(objectId).value, entries[i].key, entries[i].value)
    ensures r.Success? ==> (r.value <==> forall i | 0 <= i < |modifiedCounts| :: modifiedCounts[i] == 1)
  {
    var parsed := ValidateObjectId(objectId);
    if parsed.Failure? {
      return Failure(parsed.error), [];
    }
    var id := parsed.value;
    var updated := true;
    issued := [];
    for i := 0 to |entries|
      invariant |issued| == i
      invariant forall j | 0 <= j < i :: issued[j] == FieldSet(id, entries[j].key, entries[j].value)
      invariant updated <==> forall j | 0 <= j < i :: modifiedCounts[j] == 1
    {
      issued := issued + [FieldSet(id, entries[i].key, entries[i].value)];
      if modifiedCounts[i] != 1 {
        updated := false;
      }
    }
    r := Success(updated);
  }

  /** `Update(objectId, value)`: replaces the record; true exactly when the
      store reports one modified record, false (not an error) otherwise. */
  function Replace<T>(objectId: string, value: T, replaceOne: (ObjectId, T) -> int): (r: Result<bool>)
    ensures r.Failure? <==> TryParse(objectId).None?
    ensures r.Failure? ==> r.error == Argument(IdDoesNotParse)
    ensures r.Success? ==> (r.value <==> replaceOne(TryParse(objectId).value, value) == 1)
  {
    match ValidateObjectId(objectId)
    case Failure(e) => Failure(e)
    case Success(id) => Success(replaceOne(id, value) == 1)
  }

  /** `Delete(objectId)`: true exactly when the store removed a record. */
  function Delete(objectId: string, deleteOne: ObjectId -> int): (r: Result<bool>)
    ensures r.Failure? <==> TryParse(objectId).None?
    ensures r.Failure? ==> r.error == Argument(IdDoesNotParse)
    ensures r.Success? ==> (r.value <==> deleteOne(TryParse(objectId).value) > 0)
  {
    match ValidateObjectId(objectId)
    case Failure(e) => Failure(e)
    case Success(id) => Success(deleteOne(id) >= 1)
  }

  /** `DeleteAll`: removes with the empty filter; false on an empty collection. */
  function DeleteAll<V>(deleteMany: Query<V> -> int): (removed: bool)
    ensures removed <==> deleteMany(Everything) >= 1
  {
    deleteMany(Everything) > 0
  }

  /** The text form of any identifier is accepted by every identity-taking
      operation: a missing record is reported as not-found or false, never as
      the malformed-identity error. */
  lemma WellFormedIdIsNeverRejected<T>(id: ObjectId, value: T, replaceOne: (ObjectId, T) -> int,
                                       deleteOne: ObjectId -> int)
    requires |id.bytes| == IdBytes
    ensures ValidateObjectId(ToText(id)) == Success(id)
    ensures Replace(ToText(id), value, replaceOne) == Success(replaceOne(id, value) == 1)
    ensures Delete(ToText(id), deleteOne) == Success(deleteOne(id) >= 1)
  {
    TryParseToText(id);
  }
}
