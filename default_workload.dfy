/** The size-driven workload as the objects blurr mutates: the run
    state shared by the workers, and the `Default` workload whose
    DeletedItems counter advances on every removal. Each method is proved
    equal to the functions of DefaultGen and BatchSpec. */
module DefaultWorkload {
  import opened Wrappers
  import opened GoLib
  import opened WorkloadTypes
  import opened DefaultGen
  import opened BatchSpec

  /** The run state: completed operations, created records and error
      counts by token letter plus "total". */
  class State {
    var operations: int
    var records: int
    var errors: map<string, int>

    constructor (operations: int, records: int, errors: map<string, int>)
      ensures this.operations == operations && this.records == records && this.errors == errors
    {
      this.operations := operations;
      this.records := records;
      this.errors := errors;
    }
  }

  /** The counters one batch reads and writes, taken from the workload and
      the run state. */
  function CountersOf(w: Default, state: State): Counters
    reads w, state
  {
    Counters(state.operations, state.records, w.deletedItems, state.errors)
  }

  /** One of the five token loops of PrepareBatch: appends `n` copies of
      the token (none when n <= 0). */
  method AppendTokens(tokens: seq<Op>, op: Op, n: int) returns (r: seq<Op>)
    ensures r == tokens + Repeat(op, n)
  {
    r := tokens;
    var i := 0;
    while i < n
      invariant 0 <= i <= Max0(n)
      invariant r == tokens + Repeat(op, i)
    {
      r := r + [op];
      i := i + 1;
    }
  }

  class Default {
    const config: Config
    var deletedItems: int

    constructor (config: Config, deletedItems: int)
      ensures this.config == config && this.deletedItems == deletedItems
    {
      this.config := config;
      this.deletedItems := deletedItems;
    }

    /** Formats DeletedItems + 1, advances DeletedItems, and returns the
        hash: successive calls target indices d + 1, d + 2, ... */
    method GenerateKeyForRemoval(hash: string -> string) returns (key: string)
      requires ValidHash(hash)
      modifies this
      ensures deletedItems == old(deletedItems) + 1
      ensures key == KeyForRemoval(hash, old(deletedItems))
      ensures key == GenerateNewKey(hash, deletedItems)
    {
      var keyForRemoval := FormatInt(deletedItems + 1);
      deletedItems := deletedItems + 1;
      key := hash(keyForRemoval);
    }

    /** Aborts (log.Fatal) when indexableFields >= 20; otherwise fills the
        map field by field, then adds the body field. */
    method GenerateValue(key: string, indexableFields: int, size: int, randString: (string, int) -> string)
      returns (r: Result<map<string, string>, Panic>)
      requires 10 <= |key|
      requires indexableFields < 20 ==> indexableFields + 9 <= |key|
      ensures r.Failure? <==> indexableFields >= 20
      ensures r.Failure? ==> r.error == TooManyFields
      ensures r.Success? ==> r.value == ValueMap(key, indexableFields, size, randString)
      ensures r.Success? && 0 <= indexableFields ==>
                |r.value| == indexableFields + 1 &&
                r.value.Keys == FieldNames(indexableFields + 1) &&
                forall i :: 0 <= i < indexableFields ==> r.value[FieldName(i)] == FieldName(i) + "-" + key[i..i + 10]
    {
      if indexableFields >= 20 {
        return Failure(TooManyFields);
      }
      var value: map<string, string> := map[];
      var i := 0;
      while i < indexableFields
        invariant 0 <= i <= Max0(indexableFields)
        invariant value == IndexedFields(key, i)
      {
        var fieldName := "field" + FormatInt(i);
        value := value[fieldName := fieldName + "-" + key[i..i + 10]];
        i := i + 1;
      }
      assert i == Max0(indexableFields);
      var fieldName := "field" + FormatInt(indexableFields);
      var expectedLength := size - |fieldName + "-" + key[..10]| * indexableFields;
      assert fieldName == FieldName(indexableFields);
      assert expectedLength == BodyLength(key, indexableFields, size);
      value := value[fieldName := randString(key, expectedLength)];
      assert value == ValueMap(key, indexableFields, size, randString);
      r := Success(value);
      if 0 <= indexableFields {
        ValueMapShape(key, indexableFields, size, randString);
      }
    }

    /** Appends the c, r, u, d and q tokens in five loops, aborts
        (log.Fatal) unless there are exactly 100, then places token
        perm[i] at position i. */
    method PrepareBatch(perm: seq<int>) returns (r: Result<seq<Op>, Panic>)
      requires IsPermutation(perm, 100)
      ensures r.Failure? <==> |Mix(config)| != 100
      ensures r.Failure? ==> r.error == WrongPercentages
      ensures r.Success? ==> IndicesBelow(perm, 100) && r.value == Shuffle(Mix(config), perm)
      ensures r.Success? ==> |r.value| == 100 && forall op :: multiset(r.value)[op] == Max0(Percentage(config, op))
    {
      var operations: seq<Op> := [];
      operations := AppendTokens(operations, Create, config.createPercentage);
      operations := AppendTokens(operations, Read, config.readPercentage);
      operations := AppendTokens(operations, Update, config.updatePercentage);
      operations := AppendTokens(operations, Delete, config.deletePercentage);
      operations := AppendTokens(operations, Query, config.queryPercentage);
      assert operations == Mix(config);
      if |operations| != 100 {
        return Failure(WrongPercentages);
      }
      PermutationIndices(perm, 100);
      var randOperations := new Op[100];
      for j := 0 to 100
        invariant forall m :: 0 <= m < j ==> randOperations[m] == operations[perm[m]]
      {
        randOperations[j] := operations[perm[j]];
      }
      assert randOperations[..] == Shuffle(operations, perm);
      r := Success(randOperations[..]);
      BatchCounts(config, perm);
    }

    /** One batch: PrepareBatch, then every token claims one unit of the
        operation budget while any is left, is dispatched, and a failed
        database call is counted. `failed[i]` is the database's answer to
        the i-th token's call; `draws[i]` its random draws. A panic
        (log.Fatal or a runtime panic) stops the batch where it happens. */
    method DoBatch(state: State, env: Env, perm: seq<int>, draws: seq<Draw>, failed: seq<bool>)
      returns (calls: seq<DbCall>, panic: Option<Panic>)
      requires ValidHash(env.hash)
      requires IsPermutation(perm, 100)
      requires |draws| == 100 && |failed| == 100
      modifies this, state
      ensures var out := BatchOutcome(config, env, old(CountersOf(this, state)), perm, draws, failed);
              CountersOf(this, state) == out.counters && calls == out.calls && panic == out.panic
    {
      var prepared := PrepareBatch(perm);
      if prepared.Failure? {
        return [], Some(prepared.error);
      }
      calls, panic := RunBatch(state, env, prepared.value, draws, failed);
    }

    /** The loop of DoBatch over a prepared batch. */
    method RunBatch(state: State, env: Env, batch: seq<Op>, draws: seq<Draw>, failed: seq<bool>)
      returns (calls: seq<DbCall>, panic: Option<Panic>)
      requires ValidHash(env.hash)
      requires |batch| == |draws| == |failed|
      modifies this, state
      ensures Progress(CountersOf(this, state), calls, panic) ==
              Run(config, Issuer(config, env), old(CountersOf(this, state)), batch, draws, failed, |batch|)
    {
      ghost var start := CountersOf(this, state);
      calls, panic := [], None;
      var k := 0;
      while k < |batch| && panic.None?
        invariant 0 <= k <= |batch|
        invariant Progress(CountersOf(this, state), calls, panic) == Run(config, Issuer(config, env), start, batch, draws, failed, k)
      {
        var v := batch[k];
        if state.operations < config.operations {
          ghost var p := Run(config, Issuer(config, env), start, batch, draws, failed, k);
          ghost var claimed := p.counters.(operations := p.counters.operations + 1);
          state.operations := state.operations + 1;
          var outcome := Dispatch(state, env, v, draws[k], claimed);
          RunIssued(config, env, start, batch, draws, failed, k, p, claimed, (CountersOf(this, state), outcome));
          match outcome
          case Failure(e) =>
            panic := Some(e);
          case Success(call) =>
            calls := calls + [call];
            if failed[k] {
              state.errors := state.errors[Letter(v) := Get(state.errors, Letter(v)) + 1];
              state.errors := state.errors["total" := Get(state.errors, "total") + 1];
            }
        } else {
          RunExhausted(config, env, start, batch, draws, failed, k);
        }
        k := k + 1;
      }
      PanicIsFinal(config, Issuer(config, env), start, batch, draws, failed, k, |batch|);
    }

    /** The switch on one token, after Operations has been claimed. */
    method Dispatch(state: State, env: Env, v: Op, draw: Draw, ghost claimed: Counters) returns (outcome: Result<DbCall, Panic>)
      requires ValidHash(env.hash)
      requires CountersOf(this, state) == claimed
      modifies this, state
      ensures Issue(config, env, claimed, v, draw) == (CountersOf(this, state), outcome)
    {
      match v
      case Create => outcome := IssueCreate(state, env);
      case Read => outcome := IssueRead(state, env, draw);
      case Update => outcome := IssueUpdate(state, env, draw);
      case Delete => outcome := IssueDelete(state, env);
      case Query => outcome := IssueQuery(state, env, draw);
    }

    /** "c": a new record with the next key; aborts on too many fields. */
    method IssueCreate(state: State, env: Env) returns (outcome: Result<DbCall, Panic>)
      requires ValidHash(env.hash)
      modifies state
      ensures Issue(config, env, old(CountersOf(this, state)), Create, Draw(0, 0, 0)) == (CountersOf(this, state), outcome)
    {
      state.records := state.records + 1;
      var key := GenerateNewKey(env.hash, state.records);
      var value := GenerateValue(key, config.indexableFields, config.valueSize, env.randString);
      outcome := if value.Failure? then Failure(value.error) else Success(CreateCall(key, value.value));
    }

    /** "r": reads a live key; rand.Int63n panics when no record is live. */
    method IssueRead(state: State, env: Env, draw: Draw) returns (outcome: Result<DbCall, Panic>)
      requires ValidHash(env.hash)
      ensures Issue(config, env, CountersOf(this, state), Read, draw) == (CountersOf(this, state), outcome)
    {
      var span := state.records - deletedItems;
      // rand.Int63n(span): this test is Int63n(span, draw.record).Failure?
      if span <= 0 {
        outcome := Failure(NonPositiveBound);
      } else {
        var key := GenerateExistingKey(env.hash, deletedItems, state.records, draw.record % span);
        outcome := Success(ReadCall(key));
      }
    }

    /** "u": a new value for a live key. */
    method IssueUpdate(state: State, env: Env, draw: Draw) returns (outcome: Result<DbCall, Panic>)
      requires ValidHash(env.hash)
      ensures Issue(config, env, CountersOf(this, state), Update, draw) == (CountersOf(this, state), outcome)
    {
      var span := state.records - deletedItems;
      // rand.Int63n(span): this test is Int63n(span, draw.record).Failure?
      if span <= 0 {
        outcome := Failure(NonPositiveBound);
      } else {
        var key := GenerateExistingKey(env.hash, deletedItems, state.records, draw.record % span);
        var value := GenerateValue(key, config.indexableFields, config.valueSize, env.randString);
        outcome := if value.Failure? then Failure(value.error) else Success(UpdateCall(key, value.value));
      }
    }

    /** "d": removes the oldest live key. */
    method IssueDelete(state: State, env: Env) returns (outcome: Result<DbCall, Panic>)
      requires ValidHash(env.hash)
      modifies this
      ensures Issue(config, env, old(CountersOf(this, state)), Delete, Draw(0, 0, 0)) == (CountersOf(this, state), outcome)
    {
      var key := GenerateKeyForRemoval(env.hash);
      outcome := Success(DeleteCall(key));
    }

    /** "q": a query on a random indexed field; rand.Intn panics without
        indexable fields, rand.Int63n when no record is live, and the key
        slice when the field index is past 22. */
    method IssueQuery(state: State, env: Env, draw: Draw) returns (outcome: Result<DbCall, Panic>)
      requires ValidHash(env.hash)
      ensures Issue(config, env, CountersOf(this, state), Query, draw) == (CountersOf(this, state), outcome)
    {
      if config.indexableFields <= 0 {
        return Failure(NoIndexableFields);
      }
      var i := draw.field % config.indexableFields;
      var span := state.records - deletedItems;
      // rand.Int63n(span): this test is Int63n(span, draw.record).Failure?
      if span <= 0 {
        outcome := Failure(NonPositiveBound);
      } else if i + 10 > 32 {
        outcome := Failure(SliceOutOfRange);
      } else {
        var (fieldName, fieldValue, limit) := GenerateQuery(env.hash, deletedItems, config.indexableFields, state.records,
                                                           i, draw.record % span, draw.limit % 10);
        outcome := Success(QueryCall(fieldName, fieldValue, limit));
      }
    }
  }
}
