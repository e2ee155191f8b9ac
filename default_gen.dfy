/** The pure side of the size-driven workload (`Default`): how record
    indices become keys, what value a key is given, which query parameters
    are drawn, and which tokens a batch holds. The random draws are
    parameters, each required to lie in the range the Go call draws from. */
module DefaultGen {
  import opened GoLib
  import opened WorkloadTypes

  // ---------------------------------------------------------------------
  // Key space: a record's key is the hash of its decimal index

  /** The key of the record with index `currentRecords`. */
  function GenerateNewKey(hash: string -> string, currentRecords: int): (key: string)
    requires ValidHash(hash)
    ensures |key| == 32 && AllLowerHex(key)
  {
    hash(FormatInt(currentRecords))
  }

  /** Different indices are hashed from different strings, so keys can
      only coincide through a collision of Hash itself. */
  lemma NewKeyInputsDistinct(m: int, n: int)
    requires m != n
    ensures FormatInt(m) != FormatInt(n)
  {
    FormatIntInjective(m, n);
  }

  /** The index GenerateExistingKey hashes: DeletedItems plus a draw of
      rand.Int63n(currentRecords - DeletedItems), so an index in
      [DeletedItems, currentRecords). */
  function ExistingIndex(deletedItems: int, currentRecords: int, pick: int): (idx: int)
    requires 0 <= pick < currentRecords - deletedItems
    ensures deletedItems <= idx < currentRecords
    ensures idx - deletedItems == pick
  {
    deletedItems + pick
  }

  /** A key drawn from the current key space: the key a create gave to
      some index in [DeletedItems, currentRecords). */
  function GenerateExistingKey(hash: string -> string, deletedItems: int, currentRecords: int, pick: int): (key: string)
    requires ValidHash(hash)
    requires 0 <= pick < currentRecords - deletedItems
    ensures exists idx :: deletedItems <= idx < currentRecords && key == GenerateNewKey(hash, idx)
  {
    GenerateNewKey(hash, ExistingIndex(deletedItems, currentRecords, pick))
  }

  /** The key GenerateKeyForRemoval hashes: index DeletedItems + 1. */
  function KeyForRemoval(hash: string -> string, deletedItems: int): (key: string)
    requires ValidHash(hash)
    ensures key == GenerateNewKey(hash, deletedItems + 1)
  {
    hash(FormatInt(deletedItems + 1))
  }

  /** The existing-key range is shifted one below the live records: it
      never reaches the newest index `currentRecords`, and its lowest draw
      is the index the last removal targeted. */
  lemma ExistingKeyRangeShifted(hash: string -> string, deletedItems: int, currentRecords: int)
    requires ValidHash(hash)
    requires 1 <= deletedItems < currentRecords
    ensures GenerateExistingKey(hash, deletedItems, currentRecords, 0) == KeyForRemoval(hash, deletedItems - 1)
    ensures forall pick :: 0 <= pick < currentRecords - deletedItems ==>
              ExistingIndex(deletedItems, currentRecords, pick) != currentRecords
  {
  }

  // ---------------------------------------------------------------------
  // Values: indexable fields shifted over the key, plus a body field

  /** "field" followed by the decimal index. */
  function FieldName(i: int): (name: string)
    ensures |name| == 5 + |FormatInt(i)|
    ensures name[..5] == "field" && name[5..] == FormatInt(i)
  {
    "field" + FormatInt(i)
  }

  lemma FieldNameInjective(i: int, j: int)
    ensures FieldName(i) == FieldName(j) ==> i == j
  {
    if FieldName(i) == FieldName(j) {
      assert FieldName(i)[5..] == FieldName(j)[5..];
      FormatIntInjective(i, j);
    }
  }

  /** The value of indexable field i: its name, a dash and the
      10-character window of the key starting at offset i. */
  function IndexedValue(key: string, i: nat): (v: string)
    requires i + 10 <= |key|
    ensures |v| == |FieldName(i)| + 11
  {
    FieldName(i) + "-" + key[i..i + 10]
  }

  /** The map after the first k iterations of the field loop. */
  function IndexedFields(key: string, k: nat): (m: map<string, string>)
    requires k + 9 <= |key|
  {
    if k == 0 then map[]
    else IndexedFields(key, k - 1)[FieldName(k - 1) := IndexedValue(key, k - 1)]
  }

  /** The names field0 .. field(k-1). */
  function FieldNames(k: nat): (names: set<string>)
    ensures forall i :: 0 <= i < k ==> FieldName(i) in names
  {
    if k == 0 then {} else FieldNames(k - 1) + {FieldName(k - 1)}
  }

  lemma {:induction false} FieldNamesExactly(k: nat, name: string)
    ensures name in FieldNames(k) <==> exists i :: 0 <= i < k && name == FieldName(i)
  {
    if k > 0 {
      FieldNamesExactly(k - 1, name);
    }
  }

  lemma {:induction false} FieldNamesCount(k: nat)
    ensures |FieldNames(k)| == k
  {
    if k > 0 {
      FieldNamesCount(k - 1);
      if FieldName(k - 1) in FieldNames(k - 1) {
        FieldNamesExactly(k - 1, FieldName(k - 1));
        var i :| 0 <= i < k - 1 && FieldName(k - 1) == FieldName(i);
        FieldNameInjective(i, k - 1);
      }
    }
  }

  /** The first k fields are field0 .. field(k-1), each with its window. */
  lemma {:induction false} IndexedFieldsShape(key: string, k: nat)
    requires k + 9 <= |key|
    ensures IndexedFields(key, k).Keys == FieldNames(k)
    ensures forall i :: 0 <= i < k ==> FieldName(i) in IndexedFields(key, k) && IndexedFields(key, k)[FieldName(i)] == IndexedValue(key, i)
  {
    if k > 0 {
      IndexedFieldsShape(key, k - 1);
      var m := IndexedFields(key, k - 1);
      assert IndexedFields(key, k) == m[FieldName(k - 1) := IndexedValue(key, k - 1)];
      forall i | 0 <= i < k - 1
        ensures IndexedFields(key, k)[FieldName(i)] == IndexedValue(key, i)
      {
        FieldNameInjective(i, k - 1);
      }
    }
  }

  /** The length asked of RandString for the body field: the configured
      size minus `indexableFields` times the length of
      "field<indexableFields>-" plus ten key characters. */
  function BodyLength(key: string, indexableFields: int, size: int): int
    requires 10 <= |key|
  {
    size - |FieldName(indexableFields) + "-" + key[..10]| * indexableFields
  }

  /** The charge per field is 16 characters plus the digits of
      indexableFields, whatever the key. */
  lemma BodyLengthFormula(key: string, indexableFields: int, size: int)
    requires 10 <= |key|
    ensures BodyLength(key, indexableFields, size) == size - (16 + |FormatInt(indexableFields)|) * indexableFields
  {
  }

  /** Every field is charged the overhead of the LAST field's name, and the
      result is not clamped at zero. */
  lemma BodyLengthExamples(key: string, size: int)
    requires 10 <= |key|
    ensures BodyLength(key, 9, size) == size - 17 * 9
    ensures BodyLength(key, 10, size) == size - 18 * 10
    ensures BodyLength(key, 1, 0) == -17
  {
    assert FormatInt(9) == "9";
    assert FormatInt(10) == "10";
    assert FormatInt(1) == "1";
  }

  /** The map GenerateValue returns when it does not abort. */
  function ValueMap(key: string, indexableFields: int, size: int, randString: (string, int) -> string): map<string, string>
    requires 10 <= |key| && indexableFields + 9 <= |key|
  {
    IndexedFields(key, Max0(indexableFields))[FieldName(indexableFields) := randString(key, BodyLength(key, indexableFields, size))]
  }

  /** For 0 <= indexableFields, the value holds exactly indexableFields + 1
      fields: field0 .. field(n-1) with their key windows, and the body
      field fieldN produced by RandString. */
  lemma ValueMapShape(key: string, n: int, size: int, randString: (string, int) -> string)
    requires 0 <= n
    requires 10 <= |key| && n + 9 <= |key|
    ensures ValueMap(key, n, size, randString).Keys == FieldNames(n + 1)
    ensures |ValueMap(key, n, size, randString)| == n + 1
    ensures forall i :: 0 <= i < n ==>
              FieldName(i) in ValueMap(key, n, size, randString) &&
              ValueMap(key, n, size, randString)[FieldName(i)] == FieldName(i) + "-" + key[i..i + 10]
    ensures ValueMap(key, n, size, randString)[FieldName(n)] == randString(key, BodyLength(key, n, size))
  {
    var body := randString(key, BodyLength(key, n, size));
    assert ValueMap(key, n, size, randString) == IndexedFields(key, n)[FieldName(n) := body];
    BodyFieldAdded(key, n, body);
  }

  /** Adding field fieldN to the first n indexed fields gives n + 1 fields
      and leaves the indexed ones as they were. */
  lemma BodyFieldAdded(key: string, n: nat, body: string)
    requires n + 9 <= |key|
    ensures IndexedFields(key, n)[FieldName(n) := body].Keys == FieldNames(n + 1)
    ensures |IndexedFields(key, n)[FieldName(n) := body]| == n + 1
    ensures forall i :: 0 <= i < n ==>
              FieldName(i) in IndexedFields(key, n)[FieldName(n) := body] &&
              IndexedFields(key, n)[FieldName(n) := body][FieldName(i)] == FieldName(i) + "-" + key[i..i + 10]
  {
    IndexedFieldsShape(key, n);
    FieldNamesCount(n + 1);
    var v := IndexedFields(key, n)[FieldName(n) := body];
    assert v.Keys == FieldNames(n) + {FieldName(n)};
    forall i | 0 <= i < n
      ensures FieldName(i) in v && v[FieldName(i)] == FieldName(i) + "-" + key[i..i + 10]
    {
      FieldNameInjective(i, n);
      assert v[FieldName(i)] == IndexedFields(key, n)[FieldName(i)] == IndexedValue(key, i);
    }
  }

  // ---------------------------------------------------------------------
  // Query parameters

  /** GenerateQuery: a field index drawn by rand.Intn(indexableFields), the
      window of an existing key at that offset, and a limit 10 +
      rand.Intn(10). */
  function GenerateQuery(hash: string -> string, deletedItems: int, indexableFields: int, currentRecords: int,
                         fieldPick: int, recordPick: int, limitPick: int): (q: (string, string, int))
    requires ValidHash(hash)
    requires 0 <= fieldPick < indexableFields
    requires 0 <= recordPick < currentRecords - deletedItems
    requires 0 <= limitPick < 10
    requires fieldPick + 10 <= 32
    ensures q.0 == FieldName(fieldPick)
    ensures exists idx :: deletedItems <= idx < currentRecords &&
              q.1 == q.0 + "-" + GenerateNewKey(hash, idx)[fieldPick..fieldPick + 10]
    ensures 10 <= q.2 < 20
  {
    var fieldName := FieldName(fieldPick);
    var key := GenerateExistingKey(hash, deletedItems, currentRecords, recordPick);
    (fieldName, fieldName + "-" + key[fieldPick..fieldPick + 10], 10 + limitPick)
  }

  /** The queried pair is one that GenerateValue stores for the drawn key,
      whatever the size, whenever the value has more indexable fields than
      the drawn offset. */
  lemma QueryMatchesStoredField(hash: string -> string, deletedItems: int, indexableFields: int, currentRecords: int,
                                fieldPick: int, recordPick: int, limitPick: int,
                                size: int, randString: (string, int) -> string)
    requires ValidHash(hash)
    requires 0 <= fieldPick < indexableFields < 20
    requires 0 <= recordPick < currentRecords - deletedItems
    requires 0 <= limitPick < 10
    ensures var q := GenerateQuery(hash, deletedItems, indexableFields, currentRecords, fieldPick, recordPick, limitPick);
            var key := GenerateExistingKey(hash, deletedItems, currentRecords, recordPick);
            q.0 in ValueMap(key, indexableFields, size, randString) &&
            ValueMap(key, indexableFields, size, randString)[q.0] == q.1
  {
    var key := GenerateExistingKey(hash, deletedItems, currentRecords, recordPick);
    ValueMapShape(key, indexableFields, size, randString);
  }

  // ---------------------------------------------------------------------
  // Batches: the percentages expanded into tokens, then permuted

  /** `n` copies of a token (none when n <= 0, as a Go `for i := 0; i < n`
      loop appends nothing). */
  function Repeat(op: Op, n: int): (s: seq<Op>)
    ensures |s| == Max0(n)
    ensures forall i :: 0 <= i < |s| ==> s[i] == op
  {
    seq(Max0(n), _ => op)
  }

  lemma {:induction false} RepeatCount(op: Op, n: int, other: Op)
    ensures multiset(Repeat(op, n))[op] == Max0(n)
    ensures other != op ==> multiset(Repeat(op, n))[other] == 0
    decreases Max0(n)
  {
    if n > 0 {
      assert Repeat(op, n) == Repeat(op, n - 1) + [op];
      RepeatCount(op, n - 1, other);
    } else {
      assert Repeat(op, n) == [];
    }
  }

  /** The tokens before shuffling: the create, read, update, delete and
      query tokens, in that order. */
  function Mix(cfg: Config): seq<Op> {
    Repeat(Create, cfg.createPercentage) + Repeat(Read, cfg.readPercentage) +
    Repeat(Update, cfg.updatePercentage) + Repeat(Delete, cfg.deletePercentage) +
    Repeat(Query, cfg.queryPercentage)
  }

  /** Each kind occurs as often as its (non-negative part of the)
      percentage, and the length is their sum. */
  lemma MixCounts(cfg: Config)
    ensures |Mix(cfg)| == Max0(cfg.createPercentage) + Max0(cfg.readPercentage) + Max0(cfg.updatePercentage) +
                          Max0(cfg.deletePercentage) + Max0(cfg.queryPercentage)
    ensures forall op :: multiset(Mix(cfg))[op] == Max0(Percentage(cfg, op))
  {
    forall op
      ensures multiset(Mix(cfg))[op] == Max0(Percentage(cfg, op))
    {
      RepeatCount(Create, cfg.createPercentage, op);
      RepeatCount(Read, cfg.readPercentage, op);
      RepeatCount(Update, cfg.updatePercentage, op);
      RepeatCount(Delete, cfg.deletePercentage, op);
      RepeatCount(Query, cfg.queryPercentage, op);
    }
  }

  function Iota(n: nat): (s: seq<int>)
    ensures |s| == n && forall i :: 0 <= i < n ==> s[i] == i
  {
    seq(n, i => i)
  }

  /** `perm` is a permutation of 0 .. n-1, as rand.Perm(n) returns. */
  ghost predicate IsPermutation(perm: seq<int>, n: nat) {
    multiset(perm) == multiset(Iota(n))
  }

  predicate IndicesBelow(perm: seq<int>, n: nat) {
    forall i :: 0 <= i < |perm| ==> 0 <= perm[i] < n
  }

  lemma PermutationIndices(perm: seq<int>, n: nat)
    requires IsPermutation(perm, n)
    ensures |perm| == n && IndicesBelow(perm, n)
  {
    assert |multiset(perm)| == |multiset(Iota(n))|;
    forall i | 0 <= i < |perm|
      ensures 0 <= perm[i] < n
    {
      assert perm[i] in multiset(perm);
      assert perm[i] in Iota(n);
    }
  }

  /** Position i of the shuffled batch holds the token at position perm[i]. */
  function Shuffle(ops: seq<Op>, perm: seq<int>): (s: seq<Op>)
    requires IndicesBelow(perm, |ops|)
    ensures |s| == |perm|
  {
    seq(|perm|, i requires 0 <= i < |perm| => ops[perm[i]])
  }

  lemma ShuffleConcat(ops: seq<Op>, p: seq<int>, q: seq<int>)
    requires IndicesBelow(p, |ops|) && IndicesBelow(q, |ops|)
    ensures IndicesBelow(p + q, |ops|)
    ensures Shuffle(ops, p + q) == Shuffle(ops, p) + Shuffle(ops, q)
  {
    assert IndicesBelow(p + q, |ops|) by {
      forall i | 0 <= i < |p + q|
        ensures 0 <= (p + q)[i] < |ops|
      {
        if i >= |p| { assert (p + q)[i] == q[i - |p|]; }
      }
    }
  }

  /** Taking the first element off `p` and its match out of `q` keeps the
      two multisets equal. */
  lemma RemoveMatching(p: seq<int>, q: seq<int>, j: nat)
    requires |p| > 0 && j < |q| && q[j] == p[0]
    requires multiset(p) == multiset(q)
    ensures multiset(p[1..]) == multiset(q[..j] + q[j + 1..])
  {
    var x := p[0];
    assert q == q[..j] + [x] + q[j + 1..];
    assert p == [x] + p[1..];
    calc {
      multiset(p[1..]);
      multiset(p) - multiset{x};
      multiset(q) - multiset{x};
      multiset(q[..j]) + multiset(q[j + 1..]);
      multiset(q[..j] + q[j + 1..]);
    }
  }

  lemma ShuffleCons(ops: seq<Op>, x: int, rest: seq<int>)
    requires 0 <= x < |ops| && IndicesBelow(rest, |ops|)
    ensures IndicesBelow([x] + rest, |ops|)
    ensures Shuffle(ops, [x] + rest) == [ops[x]] + Shuffle(ops, rest)
  {
    ShuffleConcat(ops, [x], rest);
    assert Shuffle(ops, [x]) == [ops[x]];
  }

  lemma ShuffleSplit(ops: seq<Op>, q: seq<int>, j: nat)
    requires j < |q| && IndicesBelow(q, |ops|)
    ensures IndicesBelow(q[..j], |ops|) && IndicesBelow(q[j + 1..], |ops|)
    ensures Shuffle(ops, q) == Shuffle(ops, q[..j]) + [ops[q[j]]] + Shuffle(ops, q[j + 1..])
    ensures IndicesBelow(q[..j] + q[j + 1..], |ops|)
    ensures Shuffle(ops, q[..j] + q[j + 1..]) == Shuffle(ops, q[..j]) + Shuffle(ops, q[j + 1..])
  {
    var a, b := q[..j], q[j + 1..];
    assert q == a + ([q[j]] + b);
    ShuffleCons(ops, q[j], b);
    ShuffleConcat(ops, a, [q[j]] + b);
    ShuffleConcat(ops, a, b);
  }

  /** Index sequences with the same multiset select tokens with the same
      multiset. */
  lemma {:induction false} ShuffleSameMultiset(ops: seq<Op>, p: seq<int>, q: seq<int>)
    requires IndicesBelow(p, |ops|) && IndicesBelow(q, |ops|)
    requires multiset(p) == multiset(q)
    ensures multiset(Shuffle(ops, p)) == multiset(Shuffle(ops, q))
    decreases |p|
  {
    if |p| == 0 {
      assert |q| == |multiset(q)| == 0;
    } else {
      var x := p[0];
      assert x in multiset(q);
      var j :| 0 <= j < |q| && q[j] == x;
      RemoveMatching(p, q, j);
      ShuffleSplit(ops, q, j);
      var rest := q[..j] + q[j + 1..];
      ShuffleSameMultiset(ops, p[1..], rest);
      assert p == [x] + p[1..];
      ShuffleCons(ops, x, p[1..]);
      var sa, sb := Shuffle(ops, q[..j]), Shuffle(ops, q[j + 1..]);
      calc {
        multiset(Shuffle(ops, p));
        multiset([ops[x]] + Shuffle(ops, p[1..]));
        multiset{ops[x]} + multiset(Shuffle(ops, rest));
        multiset{ops[x]} + multiset(sa + sb);
        multiset(sa + [ops[x]] + sb);
        multiset(Shuffle(ops, q));
      }
    }
  }

  /** Shuffling by a permutation keeps exactly the same tokens. */
  lemma ShufflePermutes(ops: seq<Op>, perm: seq<int>)
    requires IsPermutation(perm, |ops|)
    ensures IndicesBelow(perm, |ops|)
    ensures multiset(Shuffle(ops, perm)) == multiset(ops)
  {
    PermutationIndices(perm, |ops|);
    var id := Iota(|ops|);
    assert Shuffle(ops, id) == ops;
    ShuffleSameMultiset(ops, perm, id);
  }

  /** A batch built from a permutation of 0..99 holds exactly 100 tokens,
      and each kind as many times as its percentage. */
  lemma BatchCounts(cfg: Config, perm: seq<int>)
    requires |Mix(cfg)| == 100
    requires IsPermutation(perm, 100)
    ensures IndicesBelow(perm, 100)
    ensures |Shuffle(Mix(cfg), perm)| == 100
    ensures forall op :: multiset(Shuffle(Mix(cfg), perm))[op] == Max0(Percentage(cfg, op))
  {
    ShufflePermutes(Mix(cfg), perm);
    PermutationIndices(perm, 100);
    MixCounts(cfg);
  }
}
