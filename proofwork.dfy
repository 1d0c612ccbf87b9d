/** The proof-of-work chain: blocks carry one integer value instead of
    transactions, and are sealed at a higher difficulty. */
module ProofWork {
  import opened GoLib
  import opened Work

  /** Leading '0' characters a sealed block hash must have. */
  const Difficulty: nat := 6

  datatype Block = Block(timestamp: string, value: int, hash: string, prevHash: string, nonce: string)

  /** The zero value of Block, over which the genesis hash is computed. */
  const ZeroBlock := Block("", 0, "", "", "")

  /** The string `calculateHash` digests: Timestamp, the decimal Value, PrevHash and
      Nonce, concatenated in that order. */
  function Record(b: Block): string
  {
    b.timestamp + Itoa(b.value) + b.prevHash + b.nonce
  }

  /** `calculateHash`: hex SHA-256 of the record. */
  function CalculateHash(p: Primitives, b: Block): string
  {
    p.hexEncode(p.sum256(Record(b)))
  }

  /** The hash depends on the fields only through their concatenation: blocks
      with the same record share a hash, whatever their stored hash. */
  lemma HashOfRecord(p: Primitives, a: Block, b: Block)
    requires Record(a) == Record(b)
    ensures CalculateHash(p, a) == CalculateHash(p, b)
  {
  }

  /** Because the fields are joined without separators, distinct blocks can share
      a record: timestamp "1" with value 23 and timestamp "12" with value 3. */
  lemma RecordAmbiguous(p: Primitives)
    ensures Block("1", 23, "", "", "") != Block("12", 3, "", "", "")
    ensures CalculateHash(p, Block("1", 23, "", "", "")) == CalculateHash(p, Block("12", 3, "", "", ""))
  {
    assert Itoa(23) == "23" by {
      assert FormatUnsigned(2, 10) == "2";
    }
    assert Itoa(3) == "3";
    assert Record(Block("1", 23, "", "", "")) == "123";
    assert Record(Block("12", 3, "", "", "")) == "123";
  }

  /** `isBlockValid`: the block links to `oldBlock` and its stored hash recomputes;
      nothing else is checked. */
  predicate IsBlockValid(p: Primitives, newBlock: Block, oldBlock: Block)
  {
    oldBlock.hash == newBlock.prevHash && CalculateHash(p, newBlock) == newBlock.hash
  }

  lemma {:induction false} CancelSuffix(a: string, b: string, s: string)
    requires a + s == b + s
    ensures a == b
  {
    assert |a| == |b|;
    assert a == (a + s)[..|a|];
    assert b == (b + s)[..|b|];
  }

  /** Two records that differ only in the middle field have equal middles. */
  lemma CancelAround(pre: string, a: string, b: string, s1: string, s2: string)
    requires pre + a + s1 + s2 == pre + b + s1 + s2
    ensures a == b
  {
    assert a + (s1 + s2) == (pre + a + s1 + s2)[|pre|..];
    assert b + (s1 + s2) == (pre + b + s1 + s2)[|pre|..];
    CancelSuffix(a, b, s1 + s2);
  }

  /** Changing the value of a valid block makes it invalid, provided the hash
      primitives are collision free (an assumption, not a fact about SHA-256). */
  lemma TamperedValueInvalid(p: Primitives, b: Block, oldBlock: Block, value: int)
    requires CollisionFree(p)
    requires IsBlockValid(p, b, oldBlock)
    requires value != b.value
    ensures !IsBlockValid(p, b.(value := value), oldBlock)
  {
    var t := b.(value := value);
    assert Record(t) != Record(b) by {
      if Record(t) == Record(b) {
        CancelAround(b.timestamp, Itoa(value), Itoa(b.value), b.prevHash, b.nonce);
        ItoaRoundTrip(value);
        ItoaRoundTrip(b.value);
      }
    }
    assert p.sum256(Record(t)) != p.sum256(Record(b));
  }

  /** Every block after the first links to its predecessor and recomputes to its hash. */
  ghost predicate ChainValid(p: Primitives, blocks: seq<Block>)
  {
    forall i :: 0 < i < |blocks| ==> IsBlockValid(p, blocks[i], blocks[i - 1])
  }

  /** Appending a block that is valid against the tail keeps the chain invariant. */
  lemma AppendValidBlock(p: Primitives, blocks: seq<Block>, b: Block)
    requires |blocks| > 0 && ChainValid(p, blocks)
    requires IsBlockValid(p, b, blocks[|blocks| - 1])
    ensures ChainValid(p, blocks + [b])
  {
    var nb := blocks + [b];
    forall i | 0 < i < |nb| ensures IsBlockValid(p, nb[i], nb[i - 1]) {
      if i < |blocks| {
        assert nb[i] == blocks[i] && nb[i - 1] == blocks[i - 1];
      }
    }
  }

  /** Every block after the genesis block has a hash that meets the difficulty. */
  ghost predicate ChainSealed(blocks: seq<Block>)
  {
    forall i :: 0 < i < |blocks| ==> IsHashValid(blocks[i].hash, Difficulty)
  }

  /** Appending a block whose hash meets the difficulty keeps the chain sealed. */
  lemma AppendSealedBlock(blocks: seq<Block>, b: Block)
    requires ChainSealed(blocks)
    requires IsHashValid(b.hash, Difficulty)
    ensures ChainSealed(blocks + [b])
  {
    var nb := blocks + [b];
    forall i | 0 < i < |nb| ensures IsHashValid(nb[i].hash, Difficulty) {
      if i < |blocks| {
        assert nb[i] == blocks[i];
      }
    }
  }

  /** `NewGenesisBlock`: value 0, empty predecessor hash and nonce, and a hash
      computed over the zero block rather than over the genesis block's own fields. */
  function NewGenesisBlock(p: Primitives, timestamp: string): (b: Block)
    ensures b.timestamp == timestamp && b.value == 0
    ensures b.prevHash == "" && b.nonce == ""
    ensures b.hash == CalculateHash(p, ZeroBlock)
  {
    Block(timestamp, 0, CalculateHash(p, ZeroBlock), "", "")
  }

  /** So the genesis block does not recompute to its own hash whenever the clock
      string is not empty (given collision-free primitives). */
  lemma GenesisNotSelfValidating(p: Primitives, timestamp: string)
    requires CollisionFree(p)
    requires timestamp != ""
    ensures CalculateHash(p, NewGenesisBlock(p, timestamp)) != NewGenesisBlock(p, timestamp).hash
  {
    var g := NewGenesisBlock(p, timestamp);
    assert |Record(g)| > |Record(ZeroBlock)|;
    assert p.sum256(Record(g)) != p.sum256(Record(ZeroBlock));
  }

  /** Nonce counter i seals b: with the nonce FormatHex(i), the block hash meets the difficulty. */
  ghost predicate Solves(p: Primitives, b: Block, i: nat)
  {
    IsHashValid(CalculateHash(p, b.(nonce := FormatHex(i))), Difficulty)
  }

  /** No counter below `fuel` seals b. */
  ghost predicate Unsealable(p: Primitives, b: Block, fuel: nat)
  {
    forall k :: 0 <= k < fuel ==> !Solves(p, b, k)
  }

  /** i is the first counter that seals b. */
  ghost predicate FirstSolution(p: Primitives, b: Block, i: nat)
  {
    Solves(p, b, i) && forall k :: 0 <= k < i ==> !Solves(p, b, k)
  }

  /** The nonce search does not depend on the stored hash or nonce of the block it starts from. */
  lemma SameSearch(p: Primitives, a: Block, b: Block)
    requires a.timestamp == b.timestamp && a.value == b.value && a.prevHash == b.prevHash
    ensures forall k: nat :: Solves(p, a, k) <==> Solves(p, b, k)
  {
  }

  /** `generateBlock`: fills in the timestamp, the value and the predecessor hash,
      then tries the nonces "0", "1", ..., "a", ... until the block hash has
      Difficulty leading zeros. The search is bounded by `fuel`; None means no
      counter below `fuel` seals the block. */
  method GenerateBlock(p: Primitives, oldBlock: Block, value: int, timestamp: string, fuel: nat)
    returns (r: Option<Block>)
    ensures r.Some? ==> r.value.value == value && r.value.timestamp == timestamp
    ensures r.Some? ==> r.value.prevHash == oldBlock.hash
    ensures r.Some? ==> r.value.hash == CalculateHash(p, r.value) && IsHashValid(r.value.hash, Difficulty)
    ensures r.Some? ==> IsBlockValid(p, r.value, oldBlock)
    ensures r.Some? ==> exists i :: FirstSolution(p, r.value, i) && r.value.nonce == FormatHex(i)
    ensures r.None? ==> Unsealable(p, Block(timestamp, value, "", oldBlock.hash, ""), fuel)
  {
    var newBlock := Block(timestamp, value, "", oldBlock.hash, "");
    ghost var unsealed := newBlock;
    for i := 0 to fuel
      invariant newBlock.timestamp == timestamp && newBlock.value == value
      invariant newBlock.prevHash == oldBlock.hash
      invariant forall k :: 0 <= k < i ==> !Solves(p, unsealed, k)
    {
      newBlock := newBlock.(nonce := FormatHex(i));
      var newHash := CalculateHash(p, newBlock);
      if IsHashValid(newHash, Difficulty) {
        newBlock := newBlock.(hash := newHash);
        SameSearch(p, unsealed, newBlock);
        assert Solves(p, unsealed, i);
        assert FirstSolution(p, newBlock, i);
        return Some(newBlock);
      }
    }
    return None;
  }

  /** `Blockchain`: the ordered list of blocks, starting with the genesis block. */
  class Blockchain {
    const p: Primitives
    var blocks: seq<Block>

    /** The chain is never empty, every block after the genesis block is valid
        against its predecessor, and every such block is sealed. */
    ghost predicate Valid()
      reads this
    {
      |blocks| > 0 && ChainValid(p, blocks) && ChainSealed(blocks)
    }

    /** `NewBlockchain`: a chain holding only the genesis block. */
    constructor (p: Primitives, timestamp: string)
      ensures this.p == p
      ensures blocks == [NewGenesisBlock(p, timestamp)]
      ensures Valid()
    {
      this.p := p;
      blocks := [NewGenesisBlock(p, timestamp)];
    }

    /** `AddBlock`: appends without any check. */
    method AddBlock(newBlock: Block)
      modifies this
      ensures blocks == old(blocks) + [newBlock]
    {
      blocks := blocks + [newBlock];
    }

    /** The write handler's decision: generate a block on top of the newest one and
        append it only if it is valid against that block. */
    method WriteBlock(value: int, timestamp: string, fuel: nat) returns (r: Option<Block>)
      requires Valid()
      modifies this
      ensures Valid()
      ensures r.Some? ==> blocks == old(blocks) + [r.value]
      ensures r.Some? ==> r.value.value == value && r.value.timestamp == timestamp
      ensures r.Some? ==> r.value.prevHash == old(blocks[|blocks| - 1].hash)
      ensures r.Some? ==> IsHashValid(r.value.hash, Difficulty)
      ensures r.None? ==> blocks == old(blocks)
      ensures r.None? ==> Unsealable(p, Block(timestamp, value, "", old(blocks[|blocks| - 1].hash), ""), fuel)
    {
      var last := blocks[|blocks| - 1];
      r := GenerateBlock(p, last, value, timestamp, fuel);
      if r.Some? && IsBlockValid(p, r.value, last) {
        AppendValidBlock(p, blocks, r.value);
        AppendSealedBlock(blocks, r.value);
        AddBlock(r.value);
      }
    }
  }
}
