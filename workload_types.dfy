/** Types shared by both workload variants: the configuration the
    generators read, the five operation tokens, the database calls a batch
    issues, the ways a batch can stop the process, and the two helpers the
    generators call but whose code is not part of this model (Hash and
    RandString), passed in as functions. */
module WorkloadTypes {
  import opened Wrappers
  import opened GoLib

  /** The fields of the run configuration that the workload engine reads.
      Go's `int` / `int64` are modelled as unbounded integers. */
  datatype Config = Config(
    createPercentage: int,
    readPercentage: int,
    updatePercentage: int,
    deletePercentage: int,
    queryPercentage: int,
    operations: int,
    indexableFields: int,
    valueSize: int,
    hotDataPercentage: int,
    hotSpotAccessPercentage: int)

  /** One operation token of a batch: "c", "r", "u", "d" or "q". */
  datatype Op = Create | Read | Update | Delete | Query

  /** The token's string, which is also its key in the error map. */
  function Letter(op: Op): (s: string)
    ensures |s| == 1
  {
    match op
    case Create => "c"
    case Read => "r"
    case Update => "u"
    case Delete => "d"
    case Query => "q"
  }

  lemma LetterInjective(a: Op, b: Op)
    ensures Letter(a) == Letter(b) ==> a == b
    ensures Letter(a) != "total"
  {
  }

  /** The configured percentage for a token kind. */
  function Percentage(cfg: Config, op: Op): int {
    match op
    case Create => cfg.createPercentage
    case Read => cfg.readPercentage
    case Update => cfg.updatePercentage
    case Delete => cfg.deletePercentage
    case Query => cfg.queryPercentage
  }

  /** The helpers defined outside the modelled files: `Hash(s)` and
      `RandString(key, length)`. */
  datatype Env = Env(hash: string -> string, randString: (string, int) -> string)

  /** What the generators rely on about Hash: it always returns a
      32-character lowercase hexadecimal digest. */
  ghost predicate ValidHash(hash: string -> string) {
    forall s :: |hash(s)| == 32 && AllLowerHex(hash(s))
  }

  /** How a batch can end the process: `log.Fatal` on a bad configuration,
      or a Go runtime panic (rand.Int63n / rand.Intn of a non-positive
      bound, a slice beyond the end of a key). */
  datatype Panic =
    | WrongPercentages    // log.Fatal: percentages do not add up to 100 tokens
    | TooManyFields       // log.Fatal: indexableFields >= 20
    | NonPositiveBound    // rand.Int63n with a bound <= 0
    | NoIndexableFields   // rand.Intn(indexableFields) with a bound <= 0
    | SliceOutOfRange     // key[i:i+10] past the end of a 32-character key

  /** One call made on the database client. */
  datatype DbCall =
    | CreateCall(key: string, value: map<string, string>)
    | ReadCall(key: string)
    | UpdateCall(key: string, value: map<string, string>)
    | DeleteCall(key: string)
    | QueryCall(fieldName: string, fieldValue: string, limit: int)

  /** rand.Int63n(n) given the raw draw: a value in [0, n), or a panic
      when n <= 0. */
  function Int63n(n: int, draw: nat): (r: Result<int, Panic>)
    ensures r.Success? <==> n > 0
    ensures r.Success? ==> 0 <= r.value < n
    ensures r.Failure? ==> r.error == NonPositiveBound
  {
    if n <= 0 then Failure(NonPositiveBound) else Success(draw % n)
  }
}
