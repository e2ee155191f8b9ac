/** The pure side of the schema-driven workload (`N1QL`): twelve-digit
    zero-padded keys, the hot/cold choice of an existing record, the
    64-character alphabet a key is expanded into, and the document built
    from fixed slices and single digits of that alphabet. */
module N1QLGen {
  import opened Wrappers
  import opened GoLib
  import opened WorkloadTypes

  // ---------------------------------------------------------------------
  // Key space: fmt.Sprintf("%012d", index)

  /** 10^12: the indices whose keys are exactly twelve digits. */
  const KeySpace: nat := 1_000_000_000_000

  lemma KeySpaceIsPow()
    ensures Pow(10, 12) == KeySpace
  {
  }

  /** The key of the record with index `currentRecords`. */
  function GenerateNewKey(currentRecords: int): string {
    SprintfZeroPadded(currentRecords, 12)
  }

  /** Below 10^12 a key is twelve decimal digits that read back as the
      index. */
  lemma NewKeyDigits(n: int)
    requires 0 <= n < KeySpace
    ensures |GenerateNewKey(n)| == 12
    ensures forall i :: 0 <= i < 12 ==> IsDecimalDigit(GenerateNewKey(n)[i])
    ensures AllDigits(GenerateNewKey(n), 10) && DigitsValue(GenerateNewKey(n), 10) == n
  {
    KeySpaceIsPow();
    ZeroPaddedValue(n, 12);
    var key := GenerateNewKey(n);
    forall i | 0 <= i < 12
      ensures IsDecimalDigit(key[i])
    {
      assert DigitValue(key[i]) < 10;
    }
  }

  /** Distinct indices below 10^12 get distinct keys. */
  lemma NewKeyInjective(m: int, n: int)
    requires 0 <= m < KeySpace && 0 <= n < KeySpace
    ensures GenerateNewKey(m) == GenerateNewKey(n) ==> m == n
  {
    NewKeyDigits(m);
    NewKeyDigits(n);
  }

  // ---------------------------------------------------------------------
  // Existing keys: a hot and a cold part of the live index range

  /** hot_records: the hot-data percentage of the live records, with Go's
      truncating division. */
  function HotRecords(totalRecords: int, hotDataPercentage: int): int {
    GoDiv(totalRecords * hotDataPercentage, 100)
  }

  /** For a percentage in [0, 100] the hot part lies between zero and the
      total, on the side of zero the total is on. */
  lemma HotRecordsBounds(total: int, pct: int)
    requires 0 <= pct <= 100
    ensures total >= 0 ==> 0 <= HotRecords(total, pct) <= total
    ensures total < 0 ==> total <= HotRecords(total, pct) <= 0
  {
    var n := Abs(total);
    var x := n * pct;
    assert 0 <= x <= n * 100 by {
      ShareBounds(n, pct);
    }
    assert total * pct == if total < 0 then -x else x;
    assert 0 <= x / 100 <= n;
  }

  lemma ShareBounds(n: nat, pct: int)
    requires 0 <= pct <= 100
    ensures 0 <= n * pct <= n * 100
  {
    assert n * 100 - n * pct == n * (100 - pct);
  }

  /** The index GenerateExistingKey formats. `accessPick` is
      rand.Intn(100); `recordDraw` feeds the one rand.Int63n call of the
      branch taken, which panics when the part it draws from is empty. */
  function ExistingIndex(deletedItems: int, currentRecords: int, hotDataPercentage: int,
                         hotSpotAccessPercentage: int, accessPick: int, recordDraw: nat): Result<int, Panic>
    requires 0 <= accessPick < 100
  {
    var total := currentRecords - deletedItems;
    var hot := HotRecords(total, hotDataPercentage);
    var cold := total - hot;
    if accessPick < hotSpotAccessPercentage then
      var r := Int63n(hot, recordDraw);
      if r.Failure? then Failure(r.error) else Success(1 + deletedItems + cold + r.value)
    else
      var r := Int63n(cold, recordDraw);
      if r.Failure? then Failure(r.error) else Success(1 + deletedItems + r.value)
  }

  /** The draw panics exactly when the part it draws from, hot or cold, is
      empty, whatever the percentages: with live records too, e.g. one
      record at 50% hot gives no hot records. */
  lemma ExistingIndexPanics(deletedItems: int, currentRecords: int, hotDataPercentage: int,
                            hotSpotAccessPercentage: int, accessPick: int, recordDraw: nat)
    requires 0 <= accessPick < 100
    ensures var r := ExistingIndex(deletedItems, currentRecords, hotDataPercentage, hotSpotAccessPercentage, accessPick, recordDraw);
            var hot := HotRecords(currentRecords - deletedItems, hotDataPercentage);
            var cold := currentRecords - deletedItems - hot;
            (r.Failure? <==> (accessPick < hotSpotAccessPercentage && hot <= 0) ||
                             (accessPick >= hotSpotAccessPercentage && cold <= 0)) &&
            (r.Failure? ==> r.error == NonPositiveBound)
  {
  }

  /** A live record at 50% hot data: the hot part is empty, so a hot
      access panics although a record is live. */
  lemma HotPartEmpty()
    ensures HotRecords(1, 50) == 0
    ensures ExistingIndex(0, 1, 50, 100, 0, 0).Failure?
  {
  }

  /** With a hot-data percentage in [0, 100]: the hot branch draws from
      (DeletedItems + cold, currentRecords], the cold branch from
      (DeletedItems, DeletedItems + cold], so every index lies in
      (DeletedItems, currentRecords]; with no live records both branches
      panic. */
  lemma ExistingIndexRange(deletedItems: int, currentRecords: int, hotDataPercentage: int,
                           hotSpotAccessPercentage: int, accessPick: int, recordDraw: nat)
    requires 0 <= accessPick < 100
    requires 0 <= hotDataPercentage <= 100
    ensures var r := ExistingIndex(deletedItems, currentRecords, hotDataPercentage, hotSpotAccessPercentage, accessPick, recordDraw);
            var hot := HotRecords(currentRecords - deletedItems, hotDataPercentage);
            var cold := currentRecords - deletedItems - hot;
            (currentRecords <= deletedItems ==> r.Failure?) &&
            (r.Failure? <==> (accessPick < hotSpotAccessPercentage && hot <= 0) ||
                             (accessPick >= hotSpotAccessPercentage && cold <= 0)) &&
            (r.Success? && accessPick < hotSpotAccessPercentage ==> deletedItems + cold < r.value <= currentRecords) &&
            (r.Success? && accessPick >= hotSpotAccessPercentage ==> deletedItems < r.value <= deletedItems + cold) &&
            (r.Success? ==> deletedItems < r.value <= currentRecords)
  {
    HotRecordsBounds(currentRecords - deletedItems, hotDataPercentage);
  }

  /** The Go code never checks that HotDataPercentage is at most 100. With
      200 the hot part is twice the live records, the cold part negative,
      and the hot branch draws an index below DeletedItems: here -9 with
      DeletedItems 0 and ten records. */
  lemma HotShareOutOfRange()
    ensures HotRecords(10, 200) == 20
    ensures ExistingIndex(0, 10, 200, 100, 0, 0) == Success(-9)
  {
  }

  /** Unlike the Default variant, the newest index is reachable (the last
      hot draw) and DeletedItems itself never is (the first cold draw
      gives DeletedItems + 1). */
  lemma ExistingIndexEnds(deletedItems: int, currentRecords: int, hotDataPercentage: int,
                          hotSpotAccessPercentage: int, accessPick: int)
    requires 0 <= accessPick < 100
    requires 0 <= hotDataPercentage <= 100
    ensures var hot := HotRecords(currentRecords - deletedItems, hotDataPercentage);
            var cold := currentRecords - deletedItems - hot;
            (accessPick < hotSpotAccessPercentage && hot > 0 ==>
               ExistingIndex(deletedItems, currentRecords, hotDataPercentage, hotSpotAccessPercentage, accessPick, hot - 1)
                 == Success(currentRecords)) &&
            (accessPick >= hotSpotAccessPercentage && cold > 0 ==>
               ExistingIndex(deletedItems, currentRecords, hotDataPercentage, hotSpotAccessPercentage, accessPick, 0)
                 == Success(deletedItems + 1))
  {
  }

  /** The key of the index GenerateExistingKey draws. */
  function GenerateExistingKey(deletedItems: int, currentRecords: int, hotDataPercentage: int,
                               hotSpotAccessPercentage: int, accessPick: int, recordDraw: nat): Result<string, Panic>
    requires 0 <= accessPick < 100
  {
    var idx := ExistingIndex(deletedItems, currentRecords, hotDataPercentage, hotSpotAccessPercentage, accessPick, recordDraw);
    if idx.Failure? then Failure(idx.error) else Success(GenerateNewKey(idx.value))
  }

  /** A drawn key is the key of some index in (DeletedItems,
      currentRecords], and the draw panics exactly when the index draw
      does. */
  lemma ExistingKeyInRange(deletedItems: int, currentRecords: int, hotDataPercentage: int,
                           hotSpotAccessPercentage: int, accessPick: int, recordDraw: nat)
    requires 0 <= accessPick < 100
    requires 0 <= hotDataPercentage <= 100
    ensures var r := GenerateExistingKey(deletedItems, currentRecords, hotDataPercentage, hotSpotAccessPercentage, accessPick, recordDraw);
            (currentRecords <= deletedItems ==> r.Failure?) &&
            (r.Failure? <==> ExistingIndex(deletedItems, currentRecords, hotDataPercentage, hotSpotAccessPercentage, accessPick, recordDraw).Failure?) &&
            (r.Success? ==> exists idx :: deletedItems < idx <= currentRecords && r.value == GenerateNewKey(idx))
  {
    ExistingIndexRange(deletedItems, currentRecords, hotDataPercentage, hotSpotAccessPercentage, accessPick, recordDraw);
  }

  // ---------------------------------------------------------------------
  // reverse and build_alphabet

  /** The elements of `s` in the opposite order. */
  function Reversed<T>(s: seq<T>): (r: seq<T>)
    ensures |r| == |s|
    ensures forall i :: 0 <= i < |s| ==> r[i] == s[|s| - 1 - i]
  {
    if |s| == 0 then [] else Reversed(s[1..]) + [s[0]]
  }

  /** Reversing twice gives the original back. */
  lemma ReversedInvolution<T>(s: seq<T>)
    ensures Reversed(Reversed(s)) == s
  {
    var r := Reversed(Reversed(s));
    assert forall i :: 0 <= i < |s| ==> r[i] == s[i];
  }

  /** Hash(key) followed by Hash(reverse(key)): 64 lowercase hex digits. */
  function BuildAlphabet(hash: string -> string, key: string): (alphabet: string)
    requires ValidHash(hash)
    ensures |alphabet| == 64 && AllLowerHex(alphabet)
  {
    var front := hash(key);
    var back := hash(Reversed(key));
    assert forall i :: 0 <= i < 64 ==> (front + back)[i] == if i < 32 then front[i] else back[i - 32];
    front + back
  }

  // ---------------------------------------------------------------------
  // The field builders: fixed slices and single digits of the alphabet

  function BuildName(alphabet: string): string
    requires 12 <= |alphabet|
  {
    alphabet[..6] + " " + alphabet[6..12]
  }

  function BuildEmail(alphabet: string): string
    requires 24 <= |alphabet|
  {
    alphabet[12..18] + "@" + alphabet[18..24] + ".com"
  }

  function BuildCity(alphabet: string): string
    requires 30 <= |alphabet|
  {
    alphabet[24..30]
  }

  function BuildRealm(alphabet: string): string
    requires 36 <= |alphabet|
  {
    alphabet[30..36]
  }

  function BuildCountry(alphabet: string): string
    requires 48 <= |alphabet|
  {
    alphabet[42..48]
  }

  function BuildCounty(alphabet: string): string
    requires 54 <= |alphabet|
  {
    alphabet[48..54]
  }

  function BuildStreet(alphabet: string): string
    requires 62 <= |alphabet|
  {
    alphabet[54..62]
  }

  /** A name is two words of six characters around a single space; over a
      hex alphabet that space is the only one, so the halves are
      recoverable. */
  lemma NameIsTwoWords(alphabet: string)
    requires 12 <= |alphabet|
    requires AllLowerHex(alphabet[..12])
    ensures |BuildName(alphabet)| == 13
    ensures forall i :: 0 <= i < 13 ==> (BuildName(alphabet)[i] == ' ' <==> i == 6)
    ensures BuildName(alphabet)[..6] == alphabet[..6] && BuildName(alphabet)[7..] == alphabet[6..12]
  {
    var name := BuildName(alphabet);
    forall i | 0 <= i < 13
      ensures name[i] == ' ' <==> i == 6
    {
      if i < 6 {
        assert name[i] == alphabet[..12][i];
      } else if i > 6 {
        assert name[i] == alphabet[..12][i - 1];
      }
    }
  }

  /** An email is six characters, '@', six characters and ".com"; over a
      hex alphabet the '@' is the only one. */
  lemma EmailShape(alphabet: string)
    requires 24 <= |alphabet|
    requires AllLowerHex(alphabet[12..24])
    ensures |BuildEmail(alphabet)| == 17
    ensures forall i :: 0 <= i < 17 ==> (BuildEmail(alphabet)[i] == '@' <==> i == 6)
    ensures BuildEmail(alphabet)[13..] == ".com"
  {
    var email := BuildEmail(alphabet);
    forall i | 0 <= i < 17
      ensures email[i] == '@' <==> i == 6
    {
      if i < 6 {
        assert email[i] == alphabet[12..24][i];
      } else if 6 < i < 13 {
        assert email[i] == alphabet[12..24][i - 1];
      }
    }
  }

  /** Four hex digits read as a number of cents, at least 0.1. */
  function BuildCoins(alphabet: string): (coins: real)
    requires 40 <= |alphabet|
    ensures coins >= 0.1
  {
    MaxReal(0.1, ParseInt(alphabet[36..40], 16) as real / 100.0)
  }

  /** Over hex digits the parsed number is in [0, 65535], so the coins are
      at most 655.35. */
  lemma CoinsRange(alphabet: string)
    requires 40 <= |alphabet|
    requires AllLowerHex(alphabet[36..40])
    ensures 0 <= ParseInt(alphabet[36..40], 16) <= 65535
    ensures 0.1 <= BuildCoins(alphabet) <= 655.35
  {
    var digits := alphabet[36..40];
    assert AllDigits(digits, 16) by {
      forall i | 0 <= i < |digits|
        ensures DigitValue(digits[i]) < 16
      {
        assert IsLowerHex(digits[i]);
      }
    }
    assert Pow(16, 4) == 65536;
  }

  /** One hex digit modulo 3; int16 holds it unchanged. */
  function BuildCategory(alphabet: string): (category: int)
    requires 42 <= |alphabet|
    ensures 0 <= category < 3
  {
    GoRem(ParseInt([alphabet[41]], 16), 3)
  }

  /** 1985 plus one base-32 digit; int16 holds it unchanged. */
  function BuildYear(alphabet: string): (year: int)
    requires 63 <= |alphabet|
    ensures 1985 <= year <= 2016
  {
    1985 + ParseInt([alphabet[62]], 32)
  }

  /** Over a hex alphabet the digit is below 16, so the year is at most
      2000. */
  lemma YearRange(alphabet: string)
    requires 63 <= |alphabet|
    requires IsLowerHex(alphabet[62])
    ensures 1985 <= BuildYear(alphabet) <= 2000
  {
    assert AllDigits([alphabet[62]], 32);
    assert DigitValue(alphabet[62]) < 16;
  }

  // ---------------------------------------------------------------------
  // build_state / build_full_state: Go's truncated remainder

  /** Go's remainder of a strings.Index result: the position modulo `n`
      when present; for the -1 of an absent character, -1 itself, except
      that -1 % 1 is 0. */
  lemma RemainderOfIndex(i: int, n: int)
    requires -1 <= i && n > 0
    ensures i >= 0 ==> GoRem(i, n) == i % n
    ensures i == -1 && n > 1 ==> GoRem(i, n) == -1
    ensures i == -1 && n == 1 ==> GoRem(i, n) == 0
  {
  }

  /** strings.Index(alphabet, c) % NUM_STATES, with -1 replaced by 56. */
  function StateIndex(alphabet: string, c: char, numStates: int): (idx: int)
    requires numStates > 0
    ensures 0 <= idx && (idx < numStates || idx == 56)
  {
    RemainderOfIndex(Index(alphabet, c), numStates);
    var idx := GoRem(Index(alphabet, c), numStates);
    if idx == -1 then 56 else idx
  }

  /** Present: the first position modulo the table size. Absent: exactly
      56, except for a one-row table, where -1 % 1 == 0 picks row 0. */
  lemma StateIndexCases(alphabet: string, c: char, numStates: int)
    requires numStates > 0
    ensures c in alphabet ==> StateIndex(alphabet, c, numStates) == Index(alphabet, c) % numStates
    ensures c !in alphabet && numStates > 1 ==> StateIndex(alphabet, c, numStates) == 56
    ensures c !in alphabet && numStates == 1 ==> StateIndex(alphabet, c, numStates) == 0
  {
    RemainderOfIndex(Index(alphabet, c), numStates);
  }

  /** Why the remainder must be Go's: a Euclidean remainder of -1 is never
      -1, so the fallback to row 56 could not fire. */
  lemma EuclideanRemainderHidesFallback(n: int)
    requires n > 1
    ensures GoRem(-1, n) == -1
    ensures (-1) % n == n - 1 != -1
  {
  }

  /** The abbreviation in the row StateIndex picks for '7'. */
  function BuildState(alphabet: string, states: seq<(string, string)>): string
    requires |states| > 56
  {
    states[StateIndex(alphabet, '7', |states|)].0
  }

  /** The full name in the row StateIndex picks for '8'. */
  function BuildFullState(alphabet: string, states: seq<(string, string)>): string
    requires |states| > 56
  {
    states[StateIndex(alphabet, '8', |states|)].1
  }

  // ---------------------------------------------------------------------
  // build_gmtime: only the offset from the epoch

  /** 396 days in seconds. */
  const GmtimeStep: nat := 396 * 24 * 3600

  /** The seconds after 1970-01-01 00:00 UTC that build_gmtime converts:
      396 days times one hex digit modulo 12. */
  function GmtimeOffset(alphabet: string): (seconds: int)
    requires 64 <= |alphabet|
    ensures 0 <= seconds <= 11 * GmtimeStep && seconds % GmtimeStep == 0
  {
    GmtimeStep * GoRem(ParseInt([alphabet[63]], 16), 12)
  }

  // ---------------------------------------------------------------------
  // build_achievements: an accumulator over sixteen digits

  /** One step: add digit value times position, reduce modulo 512. */
  function AchievementStep(achievement: int, c: char, i: nat): (next: int)
    ensures 0 <= achievement ==> 0 <= next < 512
  {
    var d := ParseInt([c], 16);
    ProductNonNegative(d, i);
    GoRem(achievement + d * i, 512)
  }

  lemma ProductNonNegative(d: int, i: nat)
    requires 0 <= d
    ensures 0 <= d * i
  {
  }

  /** The accumulator after the first k digits of `s`, starting at 256. */
  function Running(s: string, k: nat): (achievement: int)
    requires k <= |s|
    ensures 0 <= achievement < 512
  {
    if k == 0 then 256 else AchievementStep(Running(s, k - 1), s[k - 1], k - 1)
  }

  /** The accumulator values below 256 after each of the first k digits,
      in order. The first digit is multiplied by position 0, so the
      accumulator stays at 256 and nothing is emitted for it. */
  function Emitted(s: string, k: nat): (achievements: seq<int>)
    requires k <= |s|
    ensures forall j :: 0 <= j < |achievements| ==> 0 <= achievements[j] < 256
    ensures 1 <= k ==> |achievements| <= k - 1
  {
    if k == 0 then []
    else
      var a := Running(s, k);
      Emitted(s, k - 1) + (if a < 256 then [a] else [])
  }

  /** The achievements of an alphabet: its digits 42 .. 57. */
  function Achievements(alphabet: string): (achievements: seq<int>)
    requires 58 <= |alphabet|
    ensures |achievements| <= 15
    ensures forall j :: 0 <= j < |achievements| ==> 0 <= achievements[j] < 256
  {
    Emitted(alphabet[42..58], 16)
  }

  /** The int16 arithmetic of a step never wraps: with a digit below 16 at
      a position below 16 the sum stays below 512 + 225. */
  lemma AchievementStepFitsInt16(achievement: int, c: char, i: int)
    requires 0 <= achievement < 512 && 0 <= i < 16
    ensures 0 <= ParseInt([c], 16) * i <= 225
    ensures 0 <= achievement + ParseInt([c], 16) * i < 32768
  {
    ProductBound(ParseInt([c], 16), i);
  }

  lemma ProductBound(d: int, i: int)
    requires 0 <= d < 16 && 0 <= i < 16
    ensures 0 <= d * i <= 225
  {
    assert d * i <= 15 * i by {
      assert 15 * i - d * i == (15 - d) * i;
    }
  }

  // ---------------------------------------------------------------------
  // The document

  /** The value types of the document's fields. `Time` stands for the
      calendar slice build_gmtime derives from an offset from the epoch. */
  datatype FieldValue =
    | Text(text: string)
    | Number(number: real)
    | Integer(integer: int)
    | Integers(integers: seq<int>)
    | Time(secondsSinceEpoch: int)

  const DocumentFields: set<string> :=
    {"name", "email", "city", "realm", "country", "county", "street", "coins",
     "year", "category", "state", "full_state", "achievements", "gmtime"}

  /** The document for `key`; `size` is accepted and ignored. */
  function GenerateValue(hash: string -> string, states: seq<(string, string)>, key: string, size: int): map<string, FieldValue>
    requires ValidHash(hash)
    requires |states| > 56
  {
    Document(BuildAlphabet(hash, key), states)
  }

  /** The fourteen fields built from one alphabet. */
  function Document(alphabet: string, states: seq<(string, string)>): map<string, FieldValue>
    requires |alphabet| == 64
    requires |states| > 56
  {
    map[
      "name" := Text(BuildName(alphabet)),
      "email" := Text(BuildEmail(alphabet)),
      "city" := Text(BuildCity(alphabet)),
      "realm" := Text(BuildRealm(alphabet)),
      "country" := Text(BuildCountry(alphabet)),
      "county" := Text(BuildCounty(alphabet)),
      "street" := Text(BuildStreet(alphabet)),
      "coins" := Number(BuildCoins(alphabet)),
      "year" := Integer(BuildYear(alphabet)),
      "category" := Integer(BuildCategory(alphabet)),
      "state" := Text(BuildState(alphabet, states)),
      "full_state" := Text(BuildFullState(alphabet, states)),
      "achievements" := Integers(Achievements(alphabet)),
      "gmtime" := Time(GmtimeOffset(alphabet))
    ]
  }

  /** Every document has the same fourteen fields, and does not depend on
      `size`. */
  lemma DocumentFieldsFixed(hash: string -> string, states: seq<(string, string)>, key: string, size: int, size': int)
    requires ValidHash(hash)
    requires |states| > 56
    ensures GenerateValue(hash, states, key, size).Keys == DocumentFields
    ensures GenerateValue(hash, states, key, size) == GenerateValue(hash, states, key, size')
  {
    var alphabet := BuildAlphabet(hash, key);
    DocumentKeys(alphabet, states);
  }

  lemma DocumentKeys(alphabet: string, states: seq<(string, string)>)
    requires |alphabet| == 64
    requires |states| > 56
    ensures Document(alphabet, states).Keys == DocumentFields
  {
  }

  /** Which digest each text field is cut from: name, email and city from
      Hash(key); country, county, street and the achievement digits from
      Hash(reverse(key)); realm straddles the two. */
  lemma FieldSources(hash: string -> string, key: string)
    requires ValidHash(hash)
    ensures var a := BuildAlphabet(hash, key);
            var f := hash(key);
            var b := hash(Reversed(key));
            BuildName(a) == f[..6] + " " + f[6..12] &&
            BuildEmail(a) == f[12..18] + "@" + f[18..24] + ".com" &&
            BuildCity(a) == f[24..30] &&
            BuildRealm(a) == f[30..] + b[..4] &&
            BuildCountry(a) == b[10..16] &&
            BuildCounty(a) == b[16..22] &&
            BuildStreet(a) == b[22..30] &&
            Achievements(a) == Emitted(b[10..26], 16)
  {
    var a := BuildAlphabet(hash, key);
    var f := hash(key);
    var b := hash(Reversed(key));
    assert a == f + b;
    assert a[..6] == f[..6] && a[6..12] == f[6..12];
    assert a[12..18] == f[12..18] && a[18..24] == f[18..24];
    assert a[24..30] == f[24..30];
    assert a[30..36] == f[30..] + b[..4];
    assert a[42..58] == b[10..26];
    assert a[42..48] == b[10..16];
    assert a[48..54] == b[16..22];
    assert a[54..62] == b[22..30];
  }

  /** Over the 64 hex digits of an alphabet: coins in [0.1, 655.35], year
      in [1985, 2000], category in {0, 1, 2}, at most 15 achievements
      below 256, a time offset of whole 396-day steps up to 11, and the
      name and email shapes. */
  lemma DocumentRanges(hash: string -> string, states: seq<(string, string)>, key: string, size: int)
    requires ValidHash(hash)
    requires |states| > 56
    ensures var doc := GenerateValue(hash, states, key, size);
            doc["coins"].Number? && 0.1 <= doc["coins"].number <= 655.35 &&
            doc["year"].Integer? && 1985 <= doc["year"].integer <= 2000 &&
            doc["category"].Integer? && 0 <= doc["category"].integer < 3 &&
            doc["achievements"].Integers? && |doc["achievements"].integers| <= 15 &&
            (forall v :: v in doc["achievements"].integers ==> 0 <= v < 256) &&
            doc["gmtime"].Time? && 0 <= doc["gmtime"].secondsSinceEpoch <= 11 * GmtimeStep &&
            doc["name"].Text? && |doc["name"].text| == 13 &&
            doc["email"].Text? && |doc["email"].text| == 17 && doc["email"].text[13..] == ".com"
  {
    var a := BuildAlphabet(hash, key);
    assert GenerateValue(hash, states, key, size) == Document(a, states);
    HexDocumentRanges(a, states);
  }

  lemma HexDocumentRanges(a: string, states: seq<(string, string)>)
    requires |a| == 64 && AllLowerHex(a)
    requires |states| > 56
    ensures var doc := Document(a, states);
            doc["coins"].Number? && 0.1 <= doc["coins"].number <= 655.35 &&
            doc["year"].Integer? && 1985 <= doc["year"].integer <= 2000 &&
            doc["category"].Integer? && 0 <= doc["category"].integer < 3 &&
            doc["achievements"].Integers? && |doc["achievements"].integers| <= 15 &&
            (forall v :: v in doc["achievements"].integers ==> 0 <= v < 256) &&
            doc["gmtime"].Time? && 0 <= doc["gmtime"].secondsSinceEpoch <= 11 * GmtimeStep &&
            doc["name"].Text? && |doc["name"].text| == 13 &&
            doc["email"].Text? && |doc["email"].text| == 17 && doc["email"].text[13..] == ".com"
  {
    HexNumberFields(a, states);
    HexTextFields(a, states);
  }

  lemma HexNumberFields(a: string, states: seq<(string, string)>)
    requires |a| == 64 && AllLowerHex(a)
    requires |states| > 56
    ensures var doc := Document(a, states);
            doc["coins"] == Number(BuildCoins(a)) && 0.1 <= BuildCoins(a) <= 655.35 &&
            doc["year"] == Integer(BuildYear(a)) && BuildYear(a) <= 2000
  {
    assert AllLowerHex(a[36..40]);
    CoinsRange(a);
    YearRange(a);
  }

  lemma HexTextFields(a: string, states: seq<(string, string)>)
    requires |a| == 64 && AllLowerHex(a)
    requires |states| > 56
    ensures var doc := Document(a, states);
            doc["name"] == Text(BuildName(a)) && |BuildName(a)| == 13 &&
            doc["email"] == Text(BuildEmail(a)) && |BuildEmail(a)| == 17 && BuildEmail(a)[13..] == ".com"
  {
    TextLookups(a, states);
    assert |BuildName(a)| == 13 by {
      assert AllLowerHex(a[..12]);
      NameIsTwoWords(a);
    }
    assert |BuildEmail(a)| == 17 && BuildEmail(a)[13..] == ".com" by {
      assert AllLowerHex(a[12..24]);
      EmailShape(a);
    }
  }

  lemma TextLookups(a: string, states: seq<(string, string)>)
    requires |a| == 64
    requires |states| > 56
    ensures Document(a, states)["name"] == Text(BuildName(a))
    ensures Document(a, states)["email"] == Text(BuildEmail(a))
  {
  }
}
