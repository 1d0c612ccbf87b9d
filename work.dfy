/** The difficulty test of the proof-of-work search, `isHashValid`, which both
    programs define identically. */
module Work {
  import opened GoLib

  /** The hash starts with `difficulty` copies of "0". */
  predicate IsHashValid(hash: string, difficulty: nat)
  {
    HasPrefix(hash, Repeat("0", difficulty))
  }

  /** Exactly the hashes whose first `difficulty` characters are all '0' pass. */
  lemma IsHashValidIff(hash: string, difficulty: nat)
    ensures IsHashValid(hash, difficulty) <==>
              difficulty <= |hash| && forall k :: 0 <= k < difficulty ==> hash[k] == '0'
  {
    RepeatZeros(difficulty);
    var zeros := Repeat("0", difficulty);
    if difficulty <= |hash| && forall k :: 0 <= k < difficulty ==> hash[k] == '0' {
      assert hash[..difficulty] == zeros;
    }
    if IsHashValid(hash, difficulty) {
      forall k | 0 <= k < difficulty ensures hash[k] == '0' {
        assert hash[..difficulty][k] == zeros[k];
      }
    }
  }

  /** A hash that meets a difficulty meets every smaller one: a block sealed at
      difficulty d has at least d leading zeros. */
  lemma IsHashValidMonotone(hash: string, difficulty: nat, lower: nat)
    requires lower <= difficulty
    requires IsHashValid(hash, difficulty)
    ensures IsHashValid(hash, lower)
  {
    IsHashValidIff(hash, difficulty);
    IsHashValidIff(hash, lower);
  }
}
