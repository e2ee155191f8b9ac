/** What one `DoBatch` call does, as functions: each token of the batch is
    one `Step` over the run counters, and the lemmas below state what a
    whole batch does to the operation budget, the record and deletion
    counters, the keys it hands to the database and the error map. The
    imperative `Default.DoBatch` is proved equal to `BatchOutcome`. */
module BatchSpec {
  import opened Wrappers
  import opened GoLib
  import opened WorkloadTypes
  import opened DefaultGen

  /** The counters a batch reads and writes: state.Operations,
      state.Records, state.Errors and the workload's DeletedItems. */
  datatype Counters = Counters(operations: int, records: int, deletedItems: int, errors: map<string, int>)

  /** The random draws made for one token, before they are reduced to the
      range of the Go call (rand.Int63n(n) gives `record % n`, the field
      index is `field % indexableFields`, the limit `10 + limit % 10`). */
  datatype Draw = Draw(record: nat, field: nat, limit: nat)

  /** The counters after some tokens, the calls issued so far, and the
      panic that ended the batch, if one did. */
  datatype Progress = Progress(counters: Counters, calls: seq<DbCall>, panic: Option<Panic>)

  /** A Go map lookup: a missing key reads as 0. */
  function Get(m: map<string, int>, k: string): int {
    if k in m then m[k] else 0
  }

  /** state.Errors[v]++ followed by state.Errors["total"]++. */
  function CountError(errors: map<string, int>, op: Op): (e: map<string, int>)
    ensures Get(e, Letter(op)) == Get(errors, Letter(op)) + 1
    ensures Get(e, "total") == Get(errors, "total") + 1
    ensures forall k :: k != Letter(op) && k != "total" ==> Get(e, k) == Get(errors, k)
  {
    LetterInjective(op, op);
    var e1 := errors[Letter(op) := Get(errors, Letter(op)) + 1];
    e1["total" := Get(e1, "total") + 1]
  }

  /** The counters after the switch on one token (Operations already
      claimed), and the call it makes or the panic it raises. */
  function Issue(cfg: Config, env: Env, c: Counters, op: Op, draw: Draw): (Counters, Result<DbCall, Panic>)
    requires ValidHash(env.hash)
  {
    match op
    case Create =>
      var c' := c.(records := c.records + 1);
      var key := GenerateNewKey(env.hash, c'.records);
      if cfg.indexableFields >= 20 then (c', Failure(TooManyFields))
      else (c', Success(CreateCall(key, ValueMap(key, cfg.indexableFields, cfg.valueSize, env.randString))))
    case Read =>
      var span := c.records - c.deletedItems;
      // rand.Int63n(span): this test is Int63n(span, draw.record).Failure?
      if span <= 0 then (c, Failure(NonPositiveBound))
      else (c, Success(ReadCall(GenerateExistingKey(env.hash, c.deletedItems, c.records, draw.record % span))))
    case Update =>
      var span := c.records - c.deletedItems;
      // rand.Int63n(span): this test is Int63n(span, draw.record).Failure?
      if span <= 0 then (c, Failure(NonPositiveBound))
      else
        var key := GenerateExistingKey(env.hash, c.deletedItems, c.records, draw.record % span);
        if cfg.indexableFields >= 20 then (c, Failure(TooManyFields))
        else (c, Success(UpdateCall(key, ValueMap(key, cfg.indexableFields, cfg.valueSize, env.randString))))
    case Delete =>
      (c.(deletedItems := c.deletedItems + 1), Success(DeleteCall(KeyForRemoval(env.hash, c.deletedItems))))
    case Query =>
      if cfg.indexableFields <= 0 then (c, Failure(NoIndexableFields))
      else
        var i := draw.field % cfg.indexableFields;
        var span := c.records - c.deletedItems;
        // rand.Int63n(span): this test is Int63n(span, draw.record).Failure?
        if span <= 0 then (c, Failure(NonPositiveBound))
        else if i + 10 > 32 then (c, Failure(SliceOutOfRange))
        else
          var q := GenerateQuery(env.hash, c.deletedItems, cfg.indexableFields, c.records, i, draw.record % span, draw.limit % 10);
          (c, Success(QueryCall(q.0, q.1, q.2)))
  }

  /** The switch of one token, as a value: from the counters (Operations
      already claimed), the token and its draws, the counters after the
      switch and the call made or the panic raised. The batch loop is
      stated for any dispatcher; blurr's is `Issuer`. */
  type Dispatcher = (Counters, Op, Draw) -> (Counters, Result<DbCall, Panic>)

  function Issuer(cfg: Config, env: Env): Dispatcher
    requires ValidHash(env.hash)
  {
    (c, op, draw) => Issue(cfg, env, c, op, draw)
  }

  /** One iteration of the batch loop: nothing happens once the budget
      state.Operations < Config.Operations is used up (or after a panic);
      otherwise one unit of budget is claimed, the token is dispatched and
      a failed call is counted under its letter and under "total". */
  function Step(cfg: Config, issue: Dispatcher, p: Progress, op: Op, draw: Draw, failed: bool): Progress {
    if p.panic.Some? || !(p.counters.operations < cfg.operations) then p
    else
      var claimed := p.counters.(operations := p.counters.operations + 1);
      var (c, outcome) := issue(claimed, op, draw);
      match outcome
      case Failure(e) => Progress(c, p.calls, Some(e))
      case Success(call) =>
        var c' := if failed then c.(errors := CountError(c.errors, op)) else c;
        Progress(c', p.calls + [call], None)
  }

  /** The first k iterations of the batch loop. */
  function Run(cfg: Config, issue: Dispatcher, start: Counters, batch: seq<Op>, draws: seq<Draw>, failed: seq<bool>, k: nat): Progress
    requires |draws| == |batch| == |failed| && k <= |batch|
  {
    if k == 0 then Progress(start, [], None)
    else Step(cfg, issue, Run(cfg, issue, start, batch, draws, failed, k - 1), batch[k - 1], draws[k - 1], failed[k - 1])
  }

  /** A whole DoBatch call: PrepareBatch (log.Fatal when the tokens are
      not 100), then the loop over the shuffled batch. */
  function BatchOutcome(cfg: Config, env: Env, start: Counters, perm: seq<int>, draws: seq<Draw>, failed: seq<bool>): Progress
    requires ValidHash(env.hash)
    requires IsPermutation(perm, 100)
    requires |draws| == 100 && |failed| == 100
  {
    if |Mix(cfg)| != 100 then Progress(start, [], Some(WrongPercentages))
    else
      PermutationIndices(perm, 100);
      Run(cfg, Issuer(cfg, env), start, Shuffle(Mix(cfg), perm), draws, failed, 100)
  }

  /** Iteration k of blurr's batch, once token k has been dispatched
      to `r` with the budget claimed. */
  lemma RunIssued(cfg: Config, env: Env, start: Counters, batch: seq<Op>, draws: seq<Draw>, failed: seq<bool>, k: nat,
                  p: Progress, claimed: Counters, r: (Counters, Result<DbCall, Panic>))
    requires ValidHash(env.hash)
    requires |draws| == |batch| == |failed| && k < |batch|
    requires p == Run(cfg, Issuer(cfg, env), start, batch, draws, failed, k)
    requires p.panic.None? && p.counters.operations < cfg.operations
    requires claimed == p.counters.(operations := p.counters.operations + 1)
    requires r == Issue(cfg, env, claimed, batch[k], draws[k])
    ensures Run(cfg, Issuer(cfg, env), start, batch, draws, failed, k + 1) ==
              match r.1
              case Failure(e) => Progress(r.0, p.calls, Some(e))
              case Success(call) =>
                Progress(if failed[k] then r.0.(errors := CountError(r.0.errors, batch[k])) else r.0, p.calls + [call], None)
  {
    var issue := Issuer(cfg, env);
    assert issue(claimed, batch[k], draws[k]) == r;
    assert Run(cfg, issue, start, batch, draws, failed, k + 1) == Step(cfg, issue, p, batch[k], draws[k], failed[k]);
    StepIssued(cfg, issue, p, batch[k], draws[k], failed[k], claimed, r);
  }

  /** One step with the budget open, for any dispatcher that answered `r`. */
  lemma StepIssued(cfg: Config, issue: Dispatcher, p: Progress, op: Op, draw: Draw, failed: bool,
                   claimed: Counters, r: (Counters, Result<DbCall, Panic>))
    requires p.panic.None? && p.counters.operations < cfg.operations
    requires claimed == p.counters.(operations := p.counters.operations + 1)
    requires issue(claimed, op, draw) == r
    ensures Step(cfg, issue, p, op, draw, failed) ==
              match r.1
              case Failure(e) => Progress(r.0, p.calls, Some(e))
              case Success(call) =>
                Progress(if failed then r.0.(errors := CountError(r.0.errors, op)) else r.0, p.calls + [call], None)
  {
  }

  /** Iteration k once the budget is used up: nothing changes. */
  lemma RunExhausted(cfg: Config, env: Env, start: Counters, batch: seq<Op>, draws: seq<Draw>, failed: seq<bool>, k: nat)
    requires ValidHash(env.hash)
    requires |draws| == |batch| == |failed| && k < |batch|
    requires Run(cfg, Issuer(cfg, env), start, batch, draws, failed, k).counters.operations >= cfg.operations
    ensures Run(cfg, Issuer(cfg, env), start, batch, draws, failed, k + 1) == Run(cfg, Issuer(cfg, env), start, batch, draws, failed, k)
  {
  }

  /** After a panic the remaining tokens change nothing. */
  lemma {:induction false} PanicIsFinal(cfg: Config, issue: Dispatcher, start: Counters, batch: seq<Op>, draws: seq<Draw>, failed: seq<bool>, j: nat, n: nat)
    requires |draws| == |batch| == |failed| && j <= n <= |batch|
    requires Run(cfg, issue, start, batch, draws, failed, j).panic.Some? || j == n
    ensures Run(cfg, issue, start, batch, draws, failed, n) == Run(cfg, issue, start, batch, draws, failed, j)
    decreases n - j
  {
    if j < n {
      PanicIsFinal(cfg, issue, start, batch, draws, failed, j, n - 1);
    }
  }

  // ---------------------------------------------------------------------
  // Counting helpers

  /** How many tokens issued: the first min(k, budget left) positions. */
  function Executed(cfg: Config, start: Counters, k: nat): nat {
    Max0(Min(k, cfg.operations - start.operations))
  }

  /** With Operations at start + Executed(k - 1) before token k - 1, that
      token is issued exactly when the budget is not used up. */
  lemma ExecutedStep(cfg: Config, start: Counters, k: nat, ops: int)
    requires k > 0
    requires ops == start.operations + Executed(cfg, start, k - 1)
    ensures ops < cfg.operations ==> Executed(cfg, start, k - 1) == k - 1 && Executed(cfg, start, k) == k
    ensures ops >= cfg.operations ==> Executed(cfg, start, k) == Executed(cfg, start, k - 1)
  {
  }

  /** Occurrences of `op` among the first n tokens. */
  function CountOf(batch: seq<Op>, op: Op, n: nat): nat
    requires n <= |batch|
  {
    if n == 0 then 0 else CountOf(batch, op, n - 1) + (if batch[n - 1] == op then 1 else 0)
  }

  /** Failed calls of kind `op` among the first n tokens. */
  function FailuresOf(batch: seq<Op>, failed: seq<bool>, op: Op, n: nat): nat
    requires n <= |batch| == |failed|
  {
    if n == 0 then 0 else FailuresOf(batch, failed, op, n - 1) + (if batch[n - 1] == op && failed[n - 1] then 1 else 0)
  }

  /** Failed calls among the first n tokens. */
  function Failures(failed: seq<bool>, n: nat): nat
    requires n <= |failed|
  {
    if n == 0 then 0 else Failures(failed, n - 1) + (if failed[n - 1] then 1 else 0)
  }

  function KindOf(call: DbCall): Op {
    match call
    case CreateCall(_, _) => Create
    case ReadCall(_) => Read
    case UpdateCall(_, _) => Update
    case DeleteCall(_) => Delete
    case QueryCall(_, _, _) => Query
  }

  /** The keys of the create calls, in order. */
  function CreatedKeys(calls: seq<DbCall>): seq<string> {
    if |calls| == 0 then []
    else CreatedKeys(calls[..|calls| - 1]) + (if calls[|calls| - 1].CreateCall? then [calls[|calls| - 1].key] else [])
  }

  /** The keys of the delete calls, in order. */
  function DeletedKeys(calls: seq<DbCall>): seq<string> {
    if |calls| == 0 then []
    else DeletedKeys(calls[..|calls| - 1]) + (if calls[|calls| - 1].DeleteCall? then [calls[|calls| - 1].key] else [])
  }

  /** What dispatching one token does to the counters, and which call
      it makes. */
  ghost predicate IssueShape(env: Env, c: Counters, op: Op, r: (Counters, Result<DbCall, Panic>))
    requires ValidHash(env.hash)
  {
    var (c', outcome) := r;
    c'.operations == c.operations && c'.errors == c.errors &&
    c'.records == c.records + (if op == Create then 1 else 0) &&
    c'.deletedItems == c.deletedItems + (if op == Delete then 1 else 0) &&
    (outcome.Success? ==> KindOf(outcome.value) == op) &&
    (op == Delete ==> outcome.Success?) &&
    (outcome.Success? && op == Create ==> outcome.value.key == GenerateNewKey(env.hash, c.records + 1)) &&
    (outcome.Success? && op == Delete ==> outcome.value.key == KeyForRemoval(env.hash, c.deletedItems))
  }

  /** A dispatcher that behaves as `IssueShape` says on every input. */
  ghost predicate Conforms(env: Env, issue: Dispatcher)
    requires ValidHash(env.hash)
  {
    forall c, op, draw :: IssueShape(env, c, op, issue(c, op, draw))
  }

  /** Create bumps Records and uses the key of the new count; Delete bumps
      DeletedItems and uses the key of the old count plus one; a call is
      of its token's kind; nothing else in the counters moves. */
  lemma IssueFacts(cfg: Config, env: Env, c: Counters, op: Op, draw: Draw)
    requires ValidHash(env.hash)
    ensures IssueShape(env, c, op, Issue(cfg, env, c, op, draw))
  {
    match op
    case Create => CreateFacts(cfg, env, c, draw);
    case Read => ReadFacts(cfg, env, c, draw);
    case Update => UpdateFacts(cfg, env, c, draw);
    case Delete =>
    case Query => QueryFacts(cfg, env, c, draw);
  }

  lemma CreateFacts(cfg: Config, env: Env, c: Counters, draw: Draw)
    requires ValidHash(env.hash)
    ensures IssueShape(env, c, Create, Issue(cfg, env, c, Create, draw))
  {
  }

  lemma ReadFacts(cfg: Config, env: Env, c: Counters, draw: Draw)
    requires ValidHash(env.hash)
    ensures IssueShape(env, c, Read, Issue(cfg, env, c, Read, draw))
  {
  }

  lemma UpdateFacts(cfg: Config, env: Env, c: Counters, draw: Draw)
    requires ValidHash(env.hash)
    ensures IssueShape(env, c, Update, Issue(cfg, env, c, Update, draw))
  {
  }

  lemma QueryFacts(cfg: Config, env: Env, c: Counters, draw: Draw)
    requires ValidHash(env.hash)
    ensures IssueShape(env, c, Query, Issue(cfg, env, c, Query, draw))
  {
  }

  lemma IssuerConforms(cfg: Config, env: Env)
    requires ValidHash(env.hash)
    ensures Conforms(env, Issuer(cfg, env))
  {
    forall c, op, draw
      ensures IssueShape(env, c, op, Issuer(cfg, env)(c, op, draw))
    {
      IssueFacts(cfg, env, c, op, draw);
    }
  }

  /** What one iteration does, in the terms the batch lemmas use: `p'`
      follows `p` on token `op` whose call failed or not. */
  ghost predicate StepShape(cfg: Config, env: Env, p: Progress, op: Op, failed: bool, p': Progress)
    requires ValidHash(env.hash)
  {
    (p.panic.Some? || p.counters.operations >= cfg.operations ==> p' == p) &&
    (p.panic.None? && p.counters.operations < cfg.operations && p'.panic.Some? ==>
       p'.calls == p.calls && p'.counters.deletedItems == p.counters.deletedItems &&
       p'.counters.operations == p.counters.operations + 1) &&
    (p.panic.None? && p.counters.operations < cfg.operations && p'.panic.None? ==>
       p'.counters.operations == p.counters.operations + 1 &&
       p'.counters.records == p.counters.records + (if op == Create then 1 else 0) &&
       p'.counters.deletedItems == p.counters.deletedItems + (if op == Delete then 1 else 0) &&
       p'.counters.errors == (if failed then CountError(p.counters.errors, op) else p.counters.errors) &&
       |p'.calls| == |p.calls| + 1 && p'.calls == p.calls + [p'.calls[|p.calls|]] &&
       KindOf(p'.calls[|p.calls|]) == op &&
       (op == Create ==> p'.calls[|p.calls|].key == GenerateNewKey(env.hash, p.counters.records + 1)) &&
       (op == Delete ==> p'.calls[|p.calls|].key == KeyForRemoval(env.hash, p.counters.deletedItems)))
  }

  lemma StepFacts(cfg: Config, env: Env, issue: Dispatcher, p: Progress, op: Op, draw: Draw, failed: bool)
    requires ValidHash(env.hash) && Conforms(env, issue)
    ensures StepShape(cfg, env, p, op, failed, Step(cfg, issue, p, op, draw, failed))
  {
    if p.panic.None? && p.counters.operations < cfg.operations {
      var claimed := p.counters.(operations := p.counters.operations + 1);
      assert IssueShape(env, claimed, op, issue(claimed, op, draw));
      var p' := Step(cfg, issue, p, op, draw, failed);
      if p'.panic.None? {
        assert p'.calls == p.calls + [p'.calls[|p.calls|]];
      }
    }
  }

  /** Appending a call of the next token's kind keeps the calls in batch
      order. */
  lemma KindsExtend(calls: seq<DbCall>, call: DbCall, batch: seq<Op>)
    requires |calls| < |batch|
    requires forall i :: 0 <= i < |calls| ==> KindOf(calls[i]) == batch[i]
    requires KindOf(call) == batch[|calls|]
    ensures forall i :: 0 <= i < |calls + [call]| ==> KindOf((calls + [call])[i]) == batch[i]
  {
  }

  lemma CreatedKeysExtend(calls: seq<DbCall>, call: DbCall)
    ensures CreatedKeys(calls + [call]) == CreatedKeys(calls) + (if call.CreateCall? then [call.key] else [])
  {
    assert (calls + [call])[..|calls|] == calls;
  }

  lemma DeletedKeysExtend(calls: seq<DbCall>, call: DbCall)
    ensures DeletedKeys(calls + [call]) == DeletedKeys(calls) + (if call.DeleteCall? then [call.key] else [])
  {
    assert (calls + [call])[..|calls|] == calls;
  }

  /** Keys that follow the index sequence base + 1, base + 2, ... keep
      doing so when the next one is appended. */
  lemma NewKeysExtend(keys: seq<string>, extra: seq<string>, hash: string -> string, base: int)
    requires ValidHash(hash)
    requires forall j :: 0 <= j < |keys| ==> keys[j] == GenerateNewKey(hash, base + j + 1)
    requires |extra| <= 1 && (|extra| == 1 ==> extra[0] == GenerateNewKey(hash, base + |keys| + 1))
    ensures forall j :: 0 <= j < |keys + extra| ==> (keys + extra)[j] == GenerateNewKey(hash, base + j + 1)
  {
  }

  lemma RemovalKeysExtend(keys: seq<string>, extra: seq<string>, hash: string -> string, base: int)
    requires ValidHash(hash)
    requires forall j :: 0 <= j < |keys| ==> keys[j] == KeyForRemoval(hash, base + j)
    requires |extra| <= 1 && (|extra| == 1 ==> extra[0] == KeyForRemoval(hash, base + |keys|))
    ensures forall j :: 0 <= j < |keys + extra| ==> (keys + extra)[j] == KeyForRemoval(hash, base + j)
  {
  }

  /** The calls so far are of the kinds of the first tokens, in order. */
  ghost predicate KindsInOrder(batch: seq<Op>, p: Progress) {
    |p.calls| <= |batch| && forall i :: 0 <= i < |p.calls| ==> KindOf(p.calls[i]) == batch[i]
  }

  /** The create calls so far use the keys of indices start.records + 1,
      + 2, ... and, without a panic, there is one per step of Records. */
  ghost predicate CreatesFollow(env: Env, start: Counters, p: Progress)
    requires ValidHash(env.hash)
  {
    (p.panic.None? ==> |CreatedKeys(p.calls)| == p.counters.records - start.records) &&
    forall j :: 0 <= j < |CreatedKeys(p.calls)| ==>
      CreatedKeys(p.calls)[j] == GenerateNewKey(env.hash, start.records + j + 1)
  }

  /** The delete calls so far target the keys of indices
      start.deletedItems + 1, + 2, ..., one per step of DeletedItems. */
  ghost predicate DeletesFollow(env: Env, start: Counters, p: Progress)
    requires ValidHash(env.hash)
  {
    |DeletedKeys(p.calls)| == p.counters.deletedItems - start.deletedItems &&
    forall j :: 0 <= j < |DeletedKeys(p.calls)| ==>
      DeletedKeys(p.calls)[j] == KeyForRemoval(env.hash, start.deletedItems + j)
  }

  lemma KindsStep(cfg: Config, env: Env, batch: seq<Op>, k: nat, failed: bool, p: Progress, p': Progress)
    requires ValidHash(env.hash)
    requires k < |batch|
    requires StepShape(cfg, env, p, batch[k], failed, p')
    requires KindsInOrder(batch, p) && |p.calls| <= k
    requires p.panic.None? && p.counters.operations < cfg.operations ==> |p.calls| == k
    ensures KindsInOrder(batch, p') && |p'.calls| <= k + 1
  {
    if p.panic.None? && p.counters.operations < cfg.operations && p'.panic.None? {
      var call := p'.calls[|p.calls|];
      KindsExtend(p.calls, call, batch);
    }
  }

  lemma CreatesStep(cfg: Config, env: Env, start: Counters, p: Progress, op: Op, failed: bool, p': Progress)
    requires ValidHash(env.hash)
    requires StepShape(cfg, env, p, op, failed, p')
    requires CreatesFollow(env, start, p)
    ensures CreatesFollow(env, start, p')
  {
    if p.panic.None? && p.counters.operations < cfg.operations && p'.panic.None? {
      var call := p'.calls[|p.calls|];
      var keys := CreatedKeys(p.calls);
      var extra := if call.CreateCall? then [call.key] else [];
      assert CreatedKeys(p'.calls) == keys + extra by {
        CreatedKeysExtend(p.calls, call);
      }
      assert |extra| == 1 ==> extra[0] == GenerateNewKey(env.hash, start.records + |keys| + 1) by {
        if call.CreateCall? {
          assert op == Create;
        }
      }
      NewKeysExtend(keys, extra, env.hash, start.records);
    } else if p.panic.None? && p.counters.operations < cfg.operations {
      assert p'.calls == p.calls;
    }
  }

  lemma DeletesStep(cfg: Config, env: Env, start: Counters, p: Progress, op: Op, failed: bool, p': Progress)
    requires ValidHash(env.hash)
    requires StepShape(cfg, env, p, op, failed, p')
    requires DeletesFollow(env, start, p)
    ensures DeletesFollow(env, start, p')
  {
    if p.panic.None? && p.counters.operations < cfg.operations && p'.panic.None? {
      var call := p'.calls[|p.calls|];
      var keys := DeletedKeys(p.calls);
      var extra := if call.DeleteCall? then [call.key] else [];
      assert DeletedKeys(p'.calls) == keys + extra by {
        DeletedKeysExtend(p.calls, call);
      }
      assert |extra| == 1 ==> extra[0] == KeyForRemoval(env.hash, start.deletedItems + |keys|) by {
        if call.DeleteCall? {
          assert op == Delete;
        }
      }
      RemovalKeysExtend(keys, extra, env.hash, start.deletedItems);
    } else if p.panic.None? && p.counters.operations < cfg.operations {
      assert p'.calls == p.calls;
    }
  }

  // ---------------------------------------------------------------------
  // What a batch does, for any conforming dispatcher

  /** The budget is claimed before dispatch: Operations never passes
      Config.Operations unless it started above it, and grows by at most
      one per token. */
  lemma {:induction false} BudgetRespected(cfg: Config, env: Env, issue: Dispatcher, start: Counters, batch: seq<Op>, draws: seq<Draw>, failed: seq<bool>, k: nat)
    requires ValidHash(env.hash) && Conforms(env, issue)
    requires |draws| == |batch| == |failed| && k <= |batch|
    ensures var ops := Run(cfg, issue, start, batch, draws, failed, k).counters.operations;
            start.operations <= ops <= start.operations + k &&
            (start.operations <= cfg.operations ==> ops <= cfg.operations)
  {
    if k > 0 {
      BudgetRespected(cfg, env, issue, start, batch, draws, failed, k - 1);
      StepFacts(cfg, env, issue, Run(cfg, issue, start, batch, draws, failed, k - 1), batch[k - 1], draws[k - 1], failed[k - 1]);
    }
  }

  /** Without a panic, exactly min(k, budget left) tokens are issued, one
      call each. */
  lemma {:induction false} IssuedCalls(cfg: Config, env: Env, issue: Dispatcher, start: Counters, batch: seq<Op>, draws: seq<Draw>, failed: seq<bool>, k: nat)
    requires ValidHash(env.hash) && Conforms(env, issue)
    requires |draws| == |batch| == |failed| && k <= |batch|
    ensures var p := Run(cfg, issue, start, batch, draws, failed, k);
            p.panic.None? ==>
              p.counters.operations == start.operations + Executed(cfg, start, k) &&
              |p.calls| == Executed(cfg, start, k)
  {
    if k > 0 {
      IssuedCalls(cfg, env, issue, start, batch, draws, failed, k - 1);
      var p := Run(cfg, issue, start, batch, draws, failed, k - 1);
      StepFacts(cfg, env, issue, p, batch[k - 1], draws[k - 1], failed[k - 1]);
      if Run(cfg, issue, start, batch, draws, failed, k).panic.None? {
        ExecutedStep(cfg, start, k, p.counters.operations);
      }
    }
  }

  /** The i-th call is of the i-th token's kind: the calls follow the
      batch order. */
  lemma {:induction false} CallsFollowBatch(cfg: Config, env: Env, issue: Dispatcher, start: Counters, batch: seq<Op>, draws: seq<Draw>, failed: seq<bool>, k: nat)
    requires ValidHash(env.hash) && Conforms(env, issue)
    requires |draws| == |batch| == |failed| && k <= |batch|
    ensures var p := Run(cfg, issue, start, batch, draws, failed, k);
            |p.calls| <= k && forall i :: 0 <= i < |p.calls| ==> KindOf(p.calls[i]) == batch[i]
  {
    if k > 0 {
      CallsFollowBatch(cfg, env, issue, start, batch, draws, failed, k - 1);
      IssuedCalls(cfg, env, issue, start, batch, draws, failed, k - 1);
      var p := Run(cfg, issue, start, batch, draws, failed, k - 1);
      StepFacts(cfg, env, issue, p, batch[k - 1], draws[k - 1], failed[k - 1]);
      if p.panic.None? {
        ExecutedStep(cfg, start, k, p.counters.operations);
      }
      KindsStep(cfg, env, batch, k - 1, failed[k - 1], p, Run(cfg, issue, start, batch, draws, failed, k));
    }
  }

  /** Without a panic, Records grows by exactly the number of issued
      create tokens. */
  lemma {:induction false} RecordsCountCreates(cfg: Config, env: Env, issue: Dispatcher, start: Counters, batch: seq<Op>, draws: seq<Draw>, failed: seq<bool>, k: nat)
    requires ValidHash(env.hash) && Conforms(env, issue)
    requires |draws| == |batch| == |failed| && k <= |batch|
    ensures var p := Run(cfg, issue, start, batch, draws, failed, k);
            p.panic.None? ==> p.counters.records == start.records + CountOf(batch, Create, Executed(cfg, start, k))
  {
    if k > 0 {
      RecordsCountCreates(cfg, env, issue, start, batch, draws, failed, k - 1);
      IssuedCalls(cfg, env, issue, start, batch, draws, failed, k - 1);
      var p := Run(cfg, issue, start, batch, draws, failed, k - 1);
      StepFacts(cfg, env, issue, p, batch[k - 1], draws[k - 1], failed[k - 1]);
      if Run(cfg, issue, start, batch, draws, failed, k).panic.None? {
        ExecutedStep(cfg, start, k, p.counters.operations);
      }
    }
  }

  /** The create calls use the keys of indices start.records + 1,
      start.records + 2, ... in order, and without a panic there is one for
      every step of Records. */
  lemma {:induction false} CreatesInOrder(cfg: Config, env: Env, issue: Dispatcher, start: Counters, batch: seq<Op>, draws: seq<Draw>, failed: seq<bool>, k: nat)
    requires ValidHash(env.hash) && Conforms(env, issue)
    requires |draws| == |batch| == |failed| && k <= |batch|
    ensures CreatesFollow(env, start, Run(cfg, issue, start, batch, draws, failed, k))
  {
    if k > 0 {
      CreatesInOrder(cfg, env, issue, start, batch, draws, failed, k - 1);
      var p := Run(cfg, issue, start, batch, draws, failed, k - 1);
      StepFacts(cfg, env, issue, p, batch[k - 1], draws[k - 1], failed[k - 1]);
      CreatesStep(cfg, env, start, p, batch[k - 1], failed[k - 1], Run(cfg, issue, start, batch, draws, failed, k));
    }
  }

  /** Deletion is first in, first out: the delete calls target the keys of
      indices start.deletedItems + 1, + 2, ... in order, one per step of
      DeletedItems, whether or not those records were ever created. */
  lemma {:induction false} DeletesInOrder(cfg: Config, env: Env, issue: Dispatcher, start: Counters, batch: seq<Op>, draws: seq<Draw>, failed: seq<bool>, k: nat)
    requires ValidHash(env.hash) && Conforms(env, issue)
    requires |draws| == |batch| == |failed| && k <= |batch|
    ensures DeletesFollow(env, start, Run(cfg, issue, start, batch, draws, failed, k))
  {
    if k > 0 {
      DeletesInOrder(cfg, env, issue, start, batch, draws, failed, k - 1);
      var p := Run(cfg, issue, start, batch, draws, failed, k - 1);
      StepFacts(cfg, env, issue, p, batch[k - 1], draws[k - 1], failed[k - 1]);
      DeletesStep(cfg, env, start, p, batch[k - 1], failed[k - 1], Run(cfg, issue, start, batch, draws, failed, k));
    }
  }

  /** Without a panic, every failed call adds one to its letter's count
      and one to "total", and no other entry of the error map changes. */
  lemma {:induction false} ErrorsCounted(cfg: Config, env: Env, issue: Dispatcher, start: Counters, batch: seq<Op>, draws: seq<Draw>, failed: seq<bool>, k: nat)
    requires ValidHash(env.hash) && Conforms(env, issue)
    requires |draws| == |batch| == |failed| && k <= |batch|
    ensures var p := Run(cfg, issue, start, batch, draws, failed, k);
            var n := Executed(cfg, start, k);
            p.panic.None? ==>
              n <= k &&
              (forall op :: Get(p.counters.errors, Letter(op)) == Get(start.errors, Letter(op)) + FailuresOf(batch, failed, op, n)) &&
              Get(p.counters.errors, "total") == Get(start.errors, "total") + Failures(failed, n) &&
              (forall key :: key != "total" && key !in {"c", "r", "u", "d", "q"} ==> Get(p.counters.errors, key) == Get(start.errors, key))
  {
    if k > 0 {
      ErrorsCounted(cfg, env, issue, start, batch, draws, failed, k - 1);
      IssuedCalls(cfg, env, issue, start, batch, draws, failed, k - 1);
      var p := Run(cfg, issue, start, batch, draws, failed, k - 1);
      var p' := Run(cfg, issue, start, batch, draws, failed, k);
      StepFacts(cfg, env, issue, p, batch[k - 1], draws[k - 1], failed[k - 1]);
      if p'.panic.None? {
        assert p.panic.None?;
        ExecutedStep(cfg, start, k, p.counters.operations);
        if p.counters.operations < cfg.operations {
          var op := batch[k - 1];
          var e, e' := p.counters.errors, p'.counters.errors;
          forall o
            ensures Get(e', Letter(o)) == Get(start.errors, Letter(o)) + FailuresOf(batch, failed, o, k)
          {
            LetterInjective(o, op);
          }
          forall key | key != "total" && key !in {"c", "r", "u", "d", "q"}
            ensures Get(e', key) == Get(start.errors, key)
          {
            assert key != Letter(op);
          }
        }
      }
    }
  }

  /** Counting one by one agrees with the multiset count. */
  lemma {:induction false} CountOfMultiset(batch: seq<Op>, op: Op, n: nat)
    requires n <= |batch|
    ensures CountOf(batch, op, n) == multiset(batch[..n])[op]
  {
    if n > 0 {
      CountOfMultiset(batch, op, n - 1);
      assert batch[..n] == batch[..n - 1] + [batch[n - 1]];
    }
  }

  /** One DoBatch call with blurr's own dispatch: a bad configuration
      stops it before anything changes; otherwise the budget is respected,
      every issued token makes one call, a batch the budget fully covers
      creates exactly CreatePercentage records, and creates and deletes
      follow the index order. */
  lemma DoBatchSummary(cfg: Config, env: Env, start: Counters, perm: seq<int>, draws: seq<Draw>, failed: seq<bool>)
    requires ValidHash(env.hash)
    requires IsPermutation(perm, 100)
    requires |draws| == 100 && |failed| == 100
    ensures var p := BatchOutcome(cfg, env, start, perm, draws, failed);
            (|Mix(cfg)| != 100 ==> p == Progress(start, [], Some(WrongPercentages))) &&
            (start.operations <= cfg.operations ==> p.counters.operations <= cfg.operations) &&
            (p.panic.None? ==>
               |p.calls| == Executed(cfg, start, 100) &&
               p.counters.operations == start.operations + Executed(cfg, start, 100)) &&
            (p.panic.None? && start.operations + 100 <= cfg.operations ==>
               p.counters.records == start.records + Max0(cfg.createPercentage)) &&
            CreatesFollow(env, start, p) && DeletesFollow(env, start, p)
  {
    if |Mix(cfg)| == 100 {
      BatchCounts(cfg, perm);
      var batch := Shuffle(Mix(cfg), perm);
      var issue := Issuer(cfg, env);
      IssuerConforms(cfg, env);
      var p := Run(cfg, issue, start, batch, draws, failed, 100);
      assert BatchOutcome(cfg, env, start, perm, draws, failed) == p;
      BudgetRespected(cfg, env, issue, start, batch, draws, failed, 100);
      IssuedCalls(cfg, env, issue, start, batch, draws, failed, 100);
      RecordsCountCreates(cfg, env, issue, start, batch, draws, failed, 100);
      CreatesInOrder(cfg, env, issue, start, batch, draws, failed, 100);
      DeletesInOrder(cfg, env, issue, start, batch, draws, failed, 100);
      if start.operations + 100 <= cfg.operations {
        assert Executed(cfg, start, 100) == 100;
        CountOfMultiset(batch, Create, 100);
        assert batch[..100] == batch;
        assert Percentage(cfg, Create) == cfg.createPercentage;
      }
    }
  }
}
