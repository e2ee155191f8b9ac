/** The schema-driven workload as blurr runs it: the `N1QL` object,
    whose own DeletedItems counter shadows the one of the `Default` it
    embeds, and the two helpers that work step by step (`reverse` swaps in
    place, `build_achievements` accumulates). Each method is proved equal
    to the functions of N1QLGen. */
module N1QLWorkload {
  import opened Wrappers
  import opened GoLib
  import opened WorkloadTypes
  import opened N1QLGen
  import DefaultWorkload

  /** reverse: the characters of `s` copied into an array and swapped
      pairwise from both ends towards the middle. */
  method Reverse(s: string) returns (r: string)
    ensures r == Reversed(s)
  {
    var runes := new char[|s|](k requires 0 <= k < |s| => s[k]);
    var i, j := 0, |s| - 1;
    while i < j
      invariant 0 <= i <= j + 1 <= |s| && j == |s| - 1 - i
      invariant forall k :: 0 <= k < i ==> runes[k] == s[|s| - 1 - k]
      invariant forall k :: i <= k <= j ==> runes[k] == s[k]
      invariant forall k :: j < k < |s| ==> runes[k] == s[|s| - 1 - k]
    {
      runes[i], runes[j] := runes[j], runes[i];
      i, j := i + 1, j - 1;
    }
    r := runes[..];
    assert forall k :: 0 <= k < |s| ==> r[k] == s[|s| - 1 - k];
  }

  /** build_achievements: the accumulator starts at 256; each of the
      sixteen digits adds its value times its position, modulo 512, and
      every result below 256 is appended. */
  method BuildAchievements(alphabet: string) returns (achievements: seq<int>)
    requires 58 <= |alphabet|
    ensures achievements == Achievements(alphabet)
  {
    var digits := alphabet[42..58];
    var achievement := 256;
    achievements := [];
    var i := 0;
    while i < |digits|
      invariant 0 <= i <= |digits|
      invariant achievement == Running(digits, i)
      invariant achievements == Emitted(digits, i)
    {
      var id := ParseInt([digits[i]], 16);
      achievement := GoRem(achievement + id * i, 512);
      if achievement < 256 {
        achievements := achievements + [achievement];
      }
      i := i + 1;
    }
  }

  class N1QL {
    const config: Config
    var deletedItems: int
    /** The embedded Default, whose own `deletedItems` is a separate
        counter that the methods here never touch. */
    const embedded: DefaultWorkload.Default

    constructor (config: Config, deletedItems: int, embedded: DefaultWorkload.Default)
      ensures this.config == config && this.deletedItems == deletedItems && this.embedded == embedded
    {
      this.config := config;
      this.deletedItems := deletedItems;
      this.embedded := embedded;
    }

    /** Advances DeletedItems first, then formats the new value: removals
        target indices old + 1, old + 2, ... in order, the same indices as
        the Default variant's. The shadowed counter of the embedded
        Default stays where it was. */
    method GenerateKeyForRemoval() returns (key: string)
      modifies this
      ensures deletedItems == old(deletedItems) + 1
      ensures key == GenerateNewKey(old(deletedItems) + 1)
      ensures embedded.deletedItems == old(embedded.deletedItems)
    {
      deletedItems := deletedItems + 1;
      key := SprintfZeroPadded(deletedItems, 12);
    }

    /** Splits the live records into a cold and a hot part by
        HotDataPercentage, draws from the hot part when the access pick
        falls below HotSpotAccessPercentage and from the cold part
        otherwise, and formats 1 + DeletedItems + the offset. */
    method GenerateExistingKey(currentRecords: int, accessPick: int, recordDraw: nat) returns (r: Result<string, Panic>)
      requires 0 <= accessPick < 100
      ensures r == N1QLGen.GenerateExistingKey(deletedItems, currentRecords, config.hotDataPercentage,
                                               config.hotSpotAccessPercentage, accessPick, recordDraw)
    {
      var totalRecords := currentRecords - deletedItems;
      var hotRecords := GoDiv(totalRecords * config.hotDataPercentage, 100);
      var coldRecords := totalRecords - hotRecords;
      var randRecord: int;
      if accessPick < config.hotSpotAccessPercentage {
        if hotRecords <= 0 {
          return Failure(NonPositiveBound);
        }
        randRecord := 1 + deletedItems + coldRecords + recordDraw % hotRecords;
      } else {
        if coldRecords <= 0 {
          return Failure(NonPositiveBound);
        }
        randRecord := 1 + deletedItems + recordDraw % coldRecords;
      }
      r := Success(SprintfZeroPadded(randRecord, 12));
    }
  }
}
