/** Blocks of the transaction ledger: their fingerprint, the validity test that
    admits a block after its predecessor, and the hash-chain invariant. */
module Chain {
  import opened GoLib
  import opened Work
  import opened Transactions

  /** Leading '0' characters a sealed block hash must have. */
  const Difficulty: nat := 1

  const GenesisCoinbaseData: string := "The Times 03/Jan/2009 Chancellor on brink of second bailout for banks"

  /** The address the genesis coinbase pays. */
  const GenesisRecipient: string := "Ivan"

  datatype Block = Block(
    timestamp: string,
    transactions: seq<Transaction>,
    hash: string,
    prevHash: string,
    nonce: string)

  /** The zero value of Block, over which the genesis hash is computed. */
  const ZeroBlock := Block("", [], "", "", "")

  /** The transaction identifiers of a block, concatenated in block order. */
  function JoinIds(txs: seq<Transaction>): string
  {
    if txs == [] then "" else JoinIds(txs[..|txs| - 1]) + txs[|txs| - 1].id
  }

  /** `HashTransactions`: the raw SHA-256 digest of the concatenated identifiers. */
  function HashTransactions(p: Primitives, b: Block): string
  {
    p.sum256(JoinIds(b.transactions))
  }

  /** `calculateHash`: hex SHA-256 of Timestamp, PrevHash and Nonce followed by
      the transaction digest. */
  function CalculateHash(p: Primitives, b: Block): string
  {
    p.hexEncode(p.sum256(b.timestamp + b.prevHash + b.nonce + HashTransactions(p, b)))
  }

  /** The fingerprint reads the timestamp, the predecessor hash, the nonce and the
      transaction identifiers, and nothing else (in particular not the stored hash). */
  lemma CalculateHashReads(p: Primitives, a: Block, b: Block)
    requires a.timestamp == b.timestamp && a.prevHash == b.prevHash && a.nonce == b.nonce
    requires JoinIds(a.transactions) == JoinIds(b.transactions)
    ensures CalculateHash(p, a) == CalculateHash(p, b)
  {
  }

  /** `isBlockValid`: the block links to `oldBlock` and its stored hash recomputes;
      nothing else is checked. */
  predicate IsBlockValid(p: Primitives, newBlock: Block, oldBlock: Block)
  {
    oldBlock.hash == newBlock.prevHash && CalculateHash(p, newBlock) == newBlock.hash
  }

  /** Every block after the first links to its predecessor and recomputes to its hash. */
  ghost predicate ChainValid(p: Primitives, blocks: seq<Block>)
  {
    forall i :: 0 < i < |blocks| ==> IsBlockValid(p, blocks[i], blocks[i - 1])
  }

  /** Appending a block that is valid against the tail keeps the chain invariant. */
  lemma AppendValidBlock(p: Primitives, blocks: seq<Block>, b: Block)
    requires |blocks| > 0 && ChainValid(p, blocks)
    requires IsBlockValid(p, b, blocks[|blocks| - 1])
    ensures ChainValid(p, blocks + [b])
  {
    var nb := blocks + [b];
    forall i | 0 < i < |nb| ensures IsBlockValid(p, nb[i], nb[i - 1]) {
      if i < |blocks| {
        assert nb[i] == blocks[i] && nb[i - 1] == blocks[i - 1];
      }
    }
  }

  /** Every block after the genesis block has a hash that meets the difficulty. */
  ghost predicate ChainSealed(blocks: seq<Block>)
  {
    forall i :: 0 < i < |blocks| ==> IsHashValid(blocks[i].hash, Difficulty)
  }

  /** Appending a block whose hash meets the difficulty keeps the chain sealed. */
  lemma AppendSealedBlock(blocks: seq<Block>, b: Block)
    requires ChainSealed(blocks)
    requires IsHashValid(b.hash, Difficulty)
    ensures ChainSealed(blocks + [b])
  {
    var nb := blocks + [b];
    forall i | 0 < i < |nb| ensures IsHashValid(nb[i].hash, Difficulty) {
      if i < |blocks| {
        assert nb[i] == blocks[i];
      }
    }
  }

  /** Changing the nonce of a valid block makes it invalid, provided the hash
      primitives are collision free (an assumption, not a fact about SHA-256). */
  lemma TamperedNonceInvalid(p: Primitives, b: Block, oldBlock: Block, nonce: string)
    requires CollisionFree(p)
    requires IsBlockValid(p, b, oldBlock)
    requires nonce != b.nonce
    ensures !IsBlockValid(p, b.(nonce := nonce), oldBlock)
  {
    var t := b.(nonce := nonce);
    var head, tail := b.timestamp + b.prevHash, HashTransactions(p, b);
    var r1, r2 := head + nonce + tail, head + b.nonce + tail;
    assert HashTransactions(p, t) == tail;
    assert r1 != r2 by {
      if |nonce| == |b.nonce| {
        assert r1[|head|..|head| + |nonce|] == nonce;
        assert r2[|head|..|head| + |b.nonce|] == b.nonce;
      } else {
        assert |r1| != |r2|;
      }
    }
    assert p.sum256(r1) != p.sum256(r2);
    assert CalculateHash(p, t) != CalculateHash(p, b);
  }

  /** `NewGenesisBlock`: one coinbase transaction paying the subsidy to the genesis
      recipient, an empty predecessor hash and nonce, and a hash computed over the
      zero block rather than over the genesis block's own fields. */
  function NewGenesisBlock(p: Primitives, gob: GobEncoder, timestamp: string): (b: Block)
    ensures b.prevHash == "" && b.nonce == "" && b.timestamp == timestamp
    ensures |b.transactions| == 1 && IsCoinbase(b.transactions[0])
    ensures b.transactions[0].vout == [TxOutput(Subsidy, GenesisRecipient)]
    ensures b.transactions[0].vin[0].scriptSig == GenesisCoinbaseData
    ensures b.hash == CalculateHash(p, ZeroBlock)
  {
    Block(timestamp, [NewCoinbaseTx(p, gob, GenesisRecipient, GenesisCoinbaseData)],
          CalculateHash(p, ZeroBlock), "", "")
  }

  /** The genesis block does not recompute to its own stored hash: the stored
      hash is taken over the zero block, whose record is shorter. */
  lemma GenesisNotSelfValidating(p: Primitives, gob: GobEncoder, timestamp: string)
    requires CollisionFree(p) && DigestLengthMonotone(p)
    requires timestamp != ""
    ensures CalculateHash(p, NewGenesisBlock(p, gob, timestamp)) != NewGenesisBlock(p, gob, timestamp).hash
  {
    var g := NewGenesisBlock(p, gob, timestamp);
    var record := g.timestamp + g.prevHash + g.nonce + HashTransactions(p, g);
    var zeroRecord := ZeroBlock.timestamp + ZeroBlock.prevHash + ZeroBlock.nonce + HashTransactions(p, ZeroBlock);
    assert |p.sum256(JoinIds(ZeroBlock.transactions))| <= |p.sum256(JoinIds(g.transactions))|;
    assert |record| > |zeroRecord|;
    assert p.sum256(record) != p.sum256(zeroRecord);
  }

}
