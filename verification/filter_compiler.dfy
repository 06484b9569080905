/** The filter compiler of `MongoRepository<T>`: the legality checks on the
    combinator and on each entry's operator, and the translation of
    `(Key, Value, Operator)` entries into the driver's filter tree.
    The operand type `V` stays opaque: the repository never inspects values. */
module FilterCompiler {
  import opened Errors

  datatype Operator =
    | Equals | NotEquals
    | GreaterThan | GreaterThanEquals | LessThan | LessThanEquals
    | Regex
    | And | Or

  /** An operator that may combine several entries. */
  predicate IsCombinator(op: Operator) {
    op == And || op == Or
  }

  /** An operator allowed on an entry of GetMatches and GetFirst. */
  predicate IsEntryOperator(op: Operator) {
    !IsCombinator(op) && op != Regex
  }

  /** One caller-supplied condition (the `BsonDocumentBuilder` record). */
  datatype FilterEntry<V> = FilterEntry(key: string, value: V, op: Operator)

  /** The driver's `FilterDefinition<T>`, as built by `Builders<T>.Filter`. */
  datatype Filter<V> =
    | Eq(key: string, value: V)
    | Ne(key: string, value: V)
    | Gt(key: string, value: V)
    | Gte(key: string, value: V)
    | Lt(key: string, value: V)
    | Lte(key: string, value: V)
    | MatchesRegex(key: string, pattern: V, ignoreCase: bool)
    | AllOf(children: seq<Filter<V>>)
    | AnyOf(children: seq<Filter<V>>)
  {
    /** A node that constrains one field. */
    predicate IsField() {
      !AllOf? && !AnyOf?
    }

    /** The field a single-field node constrains. */
    function Field(): string
      requires IsField()
    {
      key
    }

    /** Whether a regular-expression node occurs anywhere in the tree. */
    predicate HasRegex()
      decreases this
    {
      match this
      case MatchesRegex(_, _, _) => true
      case AllOf(cs) => exists i | 0 <= i < |cs| :: cs[i].HasRegex()
      case AnyOf(cs) => exists i | 0 <= i < |cs| :: cs[i].HasRegex()
      case _ => false
    }
  }

  /** Parameter text of the exception for a combinator other than And or Or. */
  const OnlyAndOrOr := "Can only pass And or Or"
  /** Parameter text of the exception for a Regex entry. */
  const UseSearchForRegex := "For Regular Expressions. Use the Search method."
  /** Parameter text of the exception for an And or Or entry. */
  const NoCombinatorInEntry := "Cannot use And or Or. Must use Equals, Not Equals, Greater Than, Greater Than Equals, Less Than, Less Than Equals"

  // ---------------------------------------------------------------------
  // Single-entry compilation

  /** `BuildFilterDefinition`: one entry becomes one single-field node on its
      key; `sensitive` only matters for Regex, and every operator without a
      case of its own (Equals, And, Or) falls back to equality. */
  function BuildFilterDefinition<V>(entry: FilterEntry<V>, sensitive: bool := false): (r: Filter<V>)
    ensures r.IsField() && r.Field() == entry.key
    ensures r.MatchesRegex? <==> entry.op == Regex
    ensures r.MatchesRegex? ==> r.pattern == entry.value && r.ignoreCase == !sensitive
    ensures !r.MatchesRegex? ==> r.value == entry.value
    ensures r.Eq? <==> entry.op == Equals || IsCombinator(entry.op)
  {
    match entry.op
    case GreaterThan => Gt(entry.key, entry.value)
    case GreaterThanEquals => Gte(entry.key, entry.value)
    case LessThan => Lt(entry.key, entry.value)
    case LessThanEquals => Lte(entry.key, entry.value)
    case Regex => MatchesRegex(entry.key, entry.value, !sensitive)
    case NotEquals => Ne(entry.key, entry.value)
    case _ => Eq(entry.key, entry.value)
  }

  /** Reads a single-field node back as the entry that denotes it. */
  function EntryOf<V>(f: Filter<V>): (e: FilterEntry<V>)
    requires f.IsField()
    ensures e.key == f.Field() && !IsCombinator(e.op)
  {
    match f
    case Eq(k, v) => FilterEntry(k, v, Equals)
    case Ne(k, v) => FilterEntry(k, v, NotEquals)
    case Gt(k, v) => FilterEntry(k, v, GreaterThan)
    case Gte(k, v) => FilterEntry(k, v, GreaterThanEquals)
    case Lt(k, v) => FilterEntry(k, v, LessThan)
    case Lte(k, v) => FilterEntry(k, v, LessThanEquals)
    case MatchesRegex(k, p, _) => FilterEntry(k, p, Regex)
  }

  /** Every non-combinator entry survives compilation unchanged, whatever the
      case sensitivity: distinct operators give distinct nodes. */
  lemma BuildFilterDefinitionKeepsEntry<V>(entry: FilterEntry<V>, sensitive: bool)
    requires !IsCombinator(entry.op)
    ensures EntryOf(BuildFilterDefinition(entry, sensitive)) == entry
  {
  }

  /** A combinator used as an entry operator is silently read as Equals. */
  lemma CombinatorEntryCompilesToEquals<V>(entry: FilterEntry<V>, sensitive: bool)
    requires IsCombinator(entry.op)
    ensures BuildFilterDefinition(entry, sensitive) == Eq(entry.key, entry.value)
    ensures EntryOf(BuildFilterDefinition(entry, sensitive)) == entry.(op := Equals)
  {
  }

  /** Every single-field node is what some entry compiles to. */
  lemma EveryFieldNodeIsBuilt<V>(f: Filter<V>)
    requires f.IsField()
    ensures BuildFilterDefinition(EntryOf(f), f.MatchesRegex? && !f.ignoreCase) == f
  {
  }

  // ---------------------------------------------------------------------
  // Operator checks

  /** `CheckOperatorIsAndOrOr`. */
  function CheckOperatorIsAndOrOr(op: Operator): (r: Outcome)
    ensures r.Pass? <==> op == And || op == Or
    ensures r.Fail? ==> r.error == ArgumentOutOfRange(OnlyAndOrOr)
  {
    if op != And && op != Or then Fail(ArgumentOutOfRange(OnlyAndOrOr)) else Pass
  }

  /** `CheckOperatorIsNotAndOrOrOrRegex` for one operator: Regex and the two
      combinators are refused, with a message of their own for Regex. */
  function CheckOperatorIsNotAndOrOrOrRegex(op: Operator): (r: Outcome)
    ensures r.Pass? <==> IsEntryOperator(op)
    ensures op == Regex ==> r == Fail(ArgumentOutOfRange(UseSearchForRegex))
    ensures IsCombinator(op) ==> r == Fail(ArgumentOutOfRange(NoCombinatorInEntry))
  {
    if op != And && op != Or && op != Regex then Pass
    else if op == Regex then Fail(ArgumentOutOfRange(UseSearchForRegex))
    else Fail(ArgumentOutOfRange(NoCombinatorInEntry))
  }

  /** The outcome of checking `ops` in order and stopping at the first refusal. */
  function FirstRefusal(ops: seq<Operator>): (r: Outcome)
    ensures r.Pass? <==> forall i | 0 <= i < |ops| :: IsEntryOperator(ops[i])
  {
    if ops == [] then Pass
    else match CheckOperatorIsNotAndOrOrOrRegex(ops[0])
      case Fail(e) => Fail(e)
      case Pass => FirstRefusal(ops[1..])
  }

  /** The first offending operator decides the error, whatever follows it. */
  lemma {:induction false} FirstOffenceDecides(ops: seq<Operator>, i: nat)
    requires i < |ops| && !IsEntryOperator(ops[i])
    requires forall j | 0 <= j < i :: IsEntryOperator(ops[j])
    ensures FirstRefusal(ops) == CheckOperatorIsNotAndOrOrOrRegex(ops[i])
  {
    if i > 0 {
      assert IsEntryOperator(ops[0]);
      FirstOffenceDecides(ops[1..], i - 1);
    }
  }

  /** `CheckOperatorIsNotAndOrOrOrRegex` over a sequence: checks each operator
      in turn and throws at the first one refused. */
  method CheckOperatorsAreNotAndOrOrOrRegex(ops: seq<Operator>) returns (r: Outcome)
    ensures r == FirstRefusal(ops)
  {
    var i := 0;
    while i < |ops|
      invariant 0 <= i <= |ops|
      invariant FirstRefusal(ops) == FirstRefusal(ops[i..])
    {
      var check := CheckOperatorIsNotAndOrOrOrRegex(ops[i]);
      if check.Fail? {
        return check;
      }
      assert ops[i..][1..] == ops[i + 1..];
      i := i + 1;
    }
    r := Pass;
  }

  /** The operators of the entries, in entry order. */
  function Operators<V>(entries: seq<FilterEntry<V>>): (ops: seq<Operator>)
    ensures |ops| == |entries|
    ensures forall i | 0 <= i < |entries| :: ops[i] == entries[i].op
  {
    seq(|entries|, i requires 0 <= i < |entries| => entries[i].op)
  }

  /** What `CheckOperatorsAreValid` decides: the combinator first, then the
      entries in order. */
  function Validation<V>(entries: seq<FilterEntry<V>>, op: Operator): Outcome {
    match CheckOperatorIsAndOrOr(op)
    case Fail(e) => Fail(e)
    case Pass => FirstRefusal(Operators(entries))
  }

  /** `CheckOperatorsAreValid`. */
  method CheckOperatorsAreValid<V>(entries: seq<FilterEntry<V>>, op: Operator) returns (r: Outcome)
    ensures r == Validation(entries, op)
  {
    r := CheckOperatorIsAndOrOr(op);
    if r.Pass? {
      r := CheckOperatorsAreNotAndOrOrOrRegex(Operators(entries));
    }
  }

  /** Validation passes exactly when the combinator is And or Or and no entry
      uses And, Or or Regex. */
  lemma ValidationPassesIff<V>(entries: seq<FilterEntry<V>>, op: Operator)
    ensures Validation(entries, op).Pass? <==>
      IsCombinator(op) && forall i | 0 <= i < |entries| :: IsEntryOperator(entries[i].op)
  {
  }

  /** A bad combinator is reported before any entry is looked at. */
  lemma BadCombinatorWins<V>(entries: seq<FilterEntry<V>>, op: Operator)
    requires !IsCombinator(op)
    ensures Validation(entries, op) == Fail(ArgumentOutOfRange(OnlyAndOrOr))
  {
  }

  /** With a legal combinator, the first offending entry decides the error:
      the Search message for Regex, the combinator message for And and Or. */
  lemma FirstOffendingEntryDecides<V>(entries: seq<FilterEntry<V>>, op: Operator, i: nat)
    requires IsCombinator(op)
    requires i < |entries| && !IsEntryOperator(entries[i].op)
    requires forall j | 0 <= j < i :: IsEntryOperator(entries[j].op)
    ensures entries[i].op == Regex ==> Validation(entries, op) == Fail(ArgumentOutOfRange(UseSearchForRegex))
    ensures entries[i].op != Regex ==> Validation(entries, op) == Fail(ArgumentOutOfRange(NoCombinatorInEntry))
  {
    FirstOffenceDecides(Operators(entries), i);
  }

  // ---------------------------------------------------------------------
  // Combined compilation

  /** Each entry compiled on its own, with the default (insensitive) flag. */
  function CompileEach<V>(entries: seq<FilterEntry<V>>): (r: seq<Filter<V>>)
    ensures |r| == |entries|
    ensures forall i | 0 <= i < |entries| :: r[i] == BuildFilterDefinition(entries[i], false)
  {
    if entries == [] then []
    else [BuildFilterDefinition(entries[0], false)] + CompileEach(entries[1..])
  }

  /** `BuildFilterDefinitionWithOperator`: an And node when the combinator is
      And, an Or node for anything else, over one child per entry in order. */
  function BuildFilterDefinitionWithOperator<V>(entries: seq<FilterEntry<V>>, op: Operator): (r: Filter<V>)
    ensures r.AllOf? <==> op == And
    ensures r.AnyOf? <==> op != And
    ensures |r.children| == |entries|
    ensures forall i | 0 <= i < |entries| :: r.children[i] == BuildFilterDefinition(entries[i], false)
  {
    if op == And then AllOf(CompileEach(entries)) else AnyOf(CompileEach(entries))
  }

  /** Reads a combined node back as its entries and combinator. */
  function Decompile<V>(f: Filter<V>): (r: (seq<FilterEntry<V>>, Operator))
    requires f.AllOf? || f.AnyOf?
    requires forall i | 0 <= i < |f.children| :: f.children[i].IsField()
    ensures |r.0| == |f.children|
    ensures IsCombinator(r.1)
  {
    (seq(|f.children|, i requires 0 <= i < |f.children| => EntryOf(f.children[i])),
     if f.AllOf? then And else Or)
  }

  /** Compilation of validated input loses nothing: the entries and the
      combinator can be read back from the tree, in their order. */
  lemma {:induction false} CompileThenDecompile<V>(entries: seq<FilterEntry<V>>, op: Operator)
    requires Validation(entries, op).Pass?
    ensures Decompile(BuildFilterDefinitionWithOperator(entries, op)) == (entries, op)
  {
    ValidationPassesIff(entries, op);
    var f := BuildFilterDefinitionWithOperator(entries, op);
    var back := Decompile(f);
    forall i | 0 <= i < |entries|
      ensures back.0[i] == entries[i]
    {
      BuildFilterDefinitionKeepsEntry(entries[i], false);
    }
    assert back.0 == entries;
  }

  /** A validated filter never contains a regular-expression node: Search is
      the only way to reach one. */
  lemma ValidatedFilterHasNoRegex<V>(entries: seq<FilterEntry<V>>, op: Operator)
    requires Validation(entries, op).Pass?
    ensures !BuildFilterDefinitionWithOperator(entries, op).HasRegex()
  {
  }
}
