/** The transaction ledger's chain object and its operations: the backward
    UTXO scan, the balance query, the greedy selection of spendable outputs,
    building a transfer, mining a block for it, and the write handler's guarded
    append. The loops of the scans and of the selection are proved equal to their
    reference definitions in Utxo; the transfer builder is proved to return a
    transfer of the selected outputs (Utxo.IsTransfer), and the nonce search to
    return the block of the first counter that seals it. */
module Ledger {
  import opened GoLib
  import opened Work
  import opened Transactions
  import opened Chain
  import opened Utxo

  /** The error NewUTXOTransaction returns when the selection falls short. */
  const NotEnoughFunds: string := "ERROR: Not enough funds"

  /** Reported when the nonce search runs out of fuel (the source searches without bound). */
  const SearchExhausted: string := "nonce search exhausted"

  /** The outputs a spent map records: index v under identifier id. */
  ghost function SpentSet(m: map<string, seq<int>>): set<OutPoint>
  {
    set id, v | id in m && v in m[id] :: OutPoint(id, v)
  }

  lemma SpentSetMember(m: map<string, seq<int>>, id: string, v: int)
    ensures OutPoint(id, v) in SpentSet(m) <==> id in m && v in m[id]
  {
    if id in m && v in m[id] {
      assert OutPoint(id, v) in SpentSet(m);
    }
  }

  /** Go's `m[id] = append(m[id], v)`, where a missing key reads as the empty slice. */
  function AppendAt(m: map<string, seq<int>>, id: string, v: int): (r: map<string, seq<int>>)
    ensures r.Keys == m.Keys + {id}
    ensures forall k :: k in m && k != id ==> r[k] == m[k]
    ensures r[id] == (if id in m then m[id] else []) + [v]
  {
    m[id := (if id in m then m[id] else []) + [v]]
  }

  /** Appending index v under id records exactly one more output. */
  lemma SpentSetAppend(m: map<string, seq<int>>, id: string, v: int)
    ensures SpentSet(AppendAt(m, id, v)) == SpentSet(m) + {OutPoint(id, v)}
  {
    var r := AppendAt(m, id, v);
    forall op | op in SpentSet(r) ensures op in SpentSet(m) + {OutPoint(id, v)} {
      var id', v' :| id' in r && v' in r[id'] && op == OutPoint(id', v');
      if id' != id {
        SpentSetMember(m, id', v');
      } else if v' != v {
        assert v' in m[id];
        SpentSetMember(m, id', v');
      }
    }
    forall op | op in SpentSet(m) + {OutPoint(id, v)} ensures op in SpentSet(r) {
      SpentSetMember(r, op.txid, op.index);
      SpentSetMember(m, op.txid, op.index);
      if op.txid == id && op != OutPoint(id, v) {
        assert op.index in m[id];
        assert op.index in r[id];
      }
    }
  }

  /** The inner loop of FindUnspentTransactions over the inputs of a
      non-coinbase transaction: records every output an input made by `address`
      spends. */
  method RecordSpent(vin: seq<TxInput>, address: string, m: map<string, seq<int>>, ghost s: set<OutPoint>)
    returns (m': map<string, seq<int>>)
    requires SpentSet(m) == s
    ensures SpentSet(m') == s + Marks(vin, address)
  {
    m' := m;
    for j := 0 to |vin|
      invariant SpentSet(m') == s + Marks(vin[..j], address)
    {
      var input := vin[j];
      assert vin[..j + 1][..j] == vin[..j];
      if CanUnlockOutputWith(input, address) {
        SpentSetAppend(m', input.txid, input.vout);
        m' := AppendAt(m', input.txid, input.vout);
      }
    }
    assert vin[..|vin|] == vin;
  }

  /** The `Outputs:` loop of FindUnspentTransactions: one copy of tx per output
      that is locked to `address` and not recorded as spent. */
  method CollectUnspent(tx: Transaction, address: string, m: map<string, seq<int>>, ghost s: set<OutPoint>)
    returns (found: seq<Transaction>)
    requires SpentSet(m) == s
    ensures found == Copies(tx, LiveCount(tx, s, address, |tx.vout|))
  {
    found := [];
    var spentHere := if tx.id in m then m[tx.id] else [];
    label Outputs:
    for outIdx := 0 to |tx.vout|
      invariant found == Copies(tx, LiveCount(tx, s, address, outIdx))
    {
      SpentSetMember(m, tx.id, outIdx);
      for q := 0 to |spentHere|
        invariant forall q' :: 0 <= q' < q ==> spentHere[q'] != outIdx
      {
        if spentHere[q] == outIdx {
          assert OutPoint(tx.id, outIdx) in s;
          continue Outputs;
        }
      }
      assert outIdx !in spentHere;
      if CanBeUnlockedWith(tx.vout[outIdx], address) {
        found := found + [tx];
      }
    }
  }

  /** The body of FindUnspentTransactions' loop over the transactions of a block:
      record what tx spends (unless it is a coinbase), then list it once per live
      output. `visited` are the transactions scanned before tx. */
  method ScanTransaction(tx: Transaction, address: string, spentTXOs: map<string, seq<int>>,
                         ghost visited: seq<Transaction>)
    returns (spent': map<string, seq<int>>, found: seq<Transaction>)
    requires SpentSet(spentTXOs) == SpentThrough(visited, address)
    ensures SpentSet(spent') == SpentThrough(visited + [tx], address)
    ensures Listing(visited + [tx], address) == Listing(visited, address) + found
  {
    SpentThroughAppend(visited, tx, address);
    ListingAppend(visited, tx, address);
    spent' := spentTXOs;
    if !IsCoinbase(tx) {
      spent' := RecordSpent(tx.vin, address, spent', SpentThrough(visited, address));
    }
    found := CollectUnspent(tx, address, spent', SpentThrough(visited + [tx], address));
  }

  /** FindUnspentTransactions' loop over the transactions of one block. */
  method ScanBlock(txs: seq<Transaction>, address: string, spentTXOs: map<string, seq<int>>,
                   unspentTXs: seq<Transaction>, ghost visited: seq<Transaction>)
    returns (spent': map<string, seq<int>>, unspent': seq<Transaction>)
    requires SpentSet(spentTXOs) == SpentThrough(visited, address)
    requires unspentTXs == Listing(visited, address)
    ensures SpentSet(spent') == SpentThrough(visited + txs, address)
    ensures unspent' == Listing(visited + txs, address)
  {
    spent', unspent' := spentTXOs, unspentTXs;
    assert visited + txs[..0] == visited;
    for t := 0 to |txs|
      invariant SpentSet(spent') == SpentThrough(visited + txs[..t], address)
      invariant unspent' == Listing(visited + txs[..t], address)
    {
      assert visited + txs[..t + 1] == (visited + txs[..t]) + [txs[t]];
      var found;
      spent', found := ScanTransaction(txs[t], address, spent', visited + txs[..t]);
      unspent' := unspent' + found;
    }
    assert txs[..|txs|] == txs;
  }

  /** FindSpendableOutputs' loop over the outputs of one listed transaction.
      `reached` tells that the total reached `amount` here, where the source
      returns from FindSpendableOutputs; `taken` are the candidates selected so
      far, `after` the candidates of the transactions still to come, `cs` all of them. */
  method SelectOutputs(tx: Transaction, address: string, amount: int,
                       accumulated0: int, unspentOutputs0: map<string, seq<int>>,
                       ghost taken0: seq<Candidate>, ghost after: seq<Candidate>, ghost cs: seq<Candidate>)
    returns (accumulated: int, unspentOutputs: map<string, seq<int>>, reached: bool, ghost taken: seq<Candidate>)
    requires accumulated0 == SumValues(taken0) && unspentOutputs0 == Group(taken0)
    requires BelowUntil(taken0, amount)
    requires accumulated0 < amount ==> cs == taken0 + (CandidatesFrom(tx, address, 0) + after)
    requires accumulated0 >= amount ==> taken0 == [] && amount <= 0
    ensures accumulated == SumValues(taken) && unspentOutputs == Group(taken)
    ensures BelowUntil(taken, amount)
    ensures !reached && accumulated < amount ==> cs == taken + after
    ensures !reached && accumulated >= amount ==> taken == [] && amount <= 0
    ensures reached ==> StopPoint(cs, amount) == |taken| && cs[..|taken|] == taken
  {
    accumulated, unspentOutputs, reached, taken := accumulated0, unspentOutputs0, false, taken0;
    for idx := 0 to |tx.vout|
      invariant accumulated == SumValues(taken) && unspentOutputs == Group(taken)
      invariant BelowUntil(taken, amount)
      invariant accumulated < amount ==> cs == taken + (CandidatesFrom(tx, address, idx) + after)
      invariant accumulated >= amount ==> taken == [] && amount <= 0
    {
      var out := tx.vout[idx];
      if CanBeUnlockedWith(out, address) && accumulated < amount {
        var c := Candidate(tx.id, idx, out.value);
        ghost var rest := CandidatesFrom(tx, address, idx + 1) + after;
        TakeCandidate(tx, address, idx, after, cs, taken);
        TakeStep(taken, c, amount);
        accumulated := accumulated + out.value;
        unspentOutputs := AppendAt(unspentOutputs, tx.id, idx);
        taken := taken + [c];
        if accumulated >= amount {
          StopAt(cs, taken, rest, amount);
          reached := true;
          return;
        }
      } else if !CanBeUnlockedWith(out, address) {
        SkipCandidate(tx, address, idx);
      }
    }
  }

  /** One input made by `from` for each index in `outs`, in order. */
  function InputsFor(txid: string, outs: seq<int>, from: string): seq<TxInput>
  {
    if outs == [] then [] else InputsFor(txid, outs[..|outs| - 1], from) + [TxInput(txid, outs[|outs| - 1], from)]
  }

  lemma {:induction false} InputsForRefs(txid: string, outs: seq<int>, from: string)
    ensures Refs(InputsFor(txid, outs, from)) == RefsOf(txid, outs)
    ensures forall i :: 0 <= i < |InputsFor(txid, outs, from)| ==> CanUnlockOutputWith(InputsFor(txid, outs, from)[i], from)
  {
    if outs != [] {
      var init := outs[..|outs| - 1];
      InputsForRefs(txid, init, from);
      RefsStep(InputsFor(txid, init, from), TxInput(txid, outs[|outs| - 1], from));
    }
  }

  /** NewUTXOTransaction's inner loop: one input made by `from` per index in `outs`. */
  method SpendOutputs(txid: string, outs: seq<int>, from: string) returns (inputs: seq<TxInput>)
    ensures inputs == InputsFor(txid, outs, from)
  {
    inputs := [];
    for k := 0 to |outs|
      invariant inputs == InputsFor(txid, outs[..k], from)
    {
      assert outs[..k + 1][..k] == outs[..k];
      inputs := inputs + [TxInput(txid, outs[k], from)];
    }
    assert outs[..|outs|] == outs;
  }

  lemma {:induction false} RefsConcat(a: seq<TxInput>, b: seq<TxInput>)
    ensures Refs(a + b) == Refs(a) + Refs(b)
  {
    if b != [] {
      var init, last := b[..|b| - 1], b[|b| - 1];
      RefsConcat(a, init);
      assert b == init + [last];
      assert a + b == (a + init) + [last];
      RefsStep(a + init, last);
      RefsStep(init, last);
    } else {
      assert a + b == a;
    }
  }

  /** NewUTXOTransaction's loop over the selection map: one input made by `from`
      per selected output. Go visits the map's keys in an unspecified order; any
      order may be chosen here, and the contract holds for all of them. */
  method SpendAll(validOutputs: map<string, seq<int>>, from: string) returns (inputs: seq<TxInput>)
    ensures forall i :: 0 <= i < |inputs| ==> CanUnlockOutputWith(inputs[i], from)
    ensures Refs(inputs) == MapContents(validOutputs)
  {
    inputs := [];
    var keys := validOutputs.Keys;
    while keys != {}
      invariant keys <= validOutputs.Keys
      invariant forall i :: 0 <= i < |inputs| ==> CanUnlockOutputWith(inputs[i], from)
      invariant Refs(inputs) + PairsOf(validOutputs, keys) == MapContents(validOutputs)
      decreases keys
    {
      var txid :| txid in keys;
      var outs := validOutputs[txid];
      PairsOfRemove(validOutputs, keys, txid);
      var more := SpendOutputs(txid, outs, from);
      InputsForRefs(txid, outs, from);
      RefsConcat(inputs, more);
      inputs := inputs + more;
      keys := keys - {txid};
    }
  }

  lemma SpentThroughAppend(txs: seq<Transaction>, tx: Transaction, address: string)
    ensures SpentThrough(txs + [tx], address) == SpentThrough(txs, address) + SpentBy(tx, address)
  {
    assert (txs + [tx])[..|txs|] == txs;
  }

  lemma ListingAppend(txs: seq<Transaction>, tx: Transaction, address: string)
    ensures Listing(txs + [tx], address) ==
              Listing(txs, address) + Copies(tx, LiveCount(tx, SpentThrough(txs + [tx], address), address, |tx.vout|))
  {
    assert (txs + [tx])[..|txs|] == txs;
  }

  lemma LockedOutputsStep(vout: seq<TxOutput>, j: int, address: string)
    requires 0 <= j < |vout|
    ensures LockedOutputs(vout[..j + 1], address) ==
              LockedOutputs(vout[..j], address) + (if CanBeUnlockedWith(vout[j], address) then [vout[j]] else [])
  {
    assert vout[..j + 1][..j] == vout[..j];
  }

  lemma OutputsOfStep(txs: seq<Transaction>, t: int, address: string)
    requires 0 <= t < |txs|
    ensures OutputsOf(txs[..t + 1], address) ==
              OutputsOf(txs[..t], address) + LockedOutputs(txs[t].vout[..|txs[t].vout|], address)
  {
    assert txs[..t + 1][..t] == txs[..t];
    assert txs[t].vout[..|txs[t].vout|] == txs[t].vout;
  }

  lemma CandidatesStep(txs: seq<Transaction>, t: int, address: string)
    requires 0 <= t < |txs|
    ensures Candidates(txs[t..], address) == CandidatesFrom(txs[t], address, 0) + Candidates(txs[t + 1..], address)
  {
    assert txs[t..][1..] == txs[t + 1..];
  }

  /** Every proper prefix of `taken` sums to less than `amount`. */
  ghost predicate BelowUntil(taken: seq<Candidate>, amount: int)
  {
    taken == [] ||
      (BelowUntil(taken[..|taken| - 1], amount) && SumValues(taken[..|taken| - 1]) < amount)
  }

  /** BelowUntil says that every proper prefix of `taken` sums to less than `amount`. */
  lemma {:induction false} BelowUntilPrefix(taken: seq<Candidate>, amount: int, q: int)
    requires BelowUntil(taken, amount) && 0 <= q < |taken|
    ensures SumValues(taken[..q]) < amount
  {
    var init := taken[..|taken| - 1];
    if q < |init| {
      BelowUntilPrefix(init, amount, q);
      assert init[..q] == taken[..q];
    }
  }

  /** Taking one more candidate while the total is below the amount. */
  lemma TakeStep(taken: seq<Candidate>, c: Candidate, amount: int)
    requires BelowUntil(taken, amount) && SumValues(taken) < amount
    ensures BelowUntil(taken + [c], amount)
    ensures SumValues(taken + [c]) == SumValues(taken) + c.value
    ensures Group(taken + [c]) == AppendAt(Group(taken), c.txid, c.index)
  {
    assert (taken + [c])[..|taken|] == taken;
  }

  /** Taking the address-locked output at `idx` moves it from the candidates
      still to come to the end of those taken. */
  lemma TakeCandidate(tx: Transaction, address: string, idx: nat, after: seq<Candidate>,
                      cs: seq<Candidate>, taken: seq<Candidate>)
    requires idx < |tx.vout| && CanBeUnlockedWith(tx.vout[idx], address)
    requires cs == taken + (CandidatesFrom(tx, address, idx) + after)
    ensures cs == (taken + [Candidate(tx.id, idx, tx.vout[idx].value)]) + (CandidatesFrom(tx, address, idx + 1) + after)
  {
    var c := Candidate(tx.id, idx, tx.vout[idx].value);
    assert CandidatesFrom(tx, address, idx) == [c] + CandidatesFrom(tx, address, idx + 1);
  }

  /** An output not locked to the address is no candidate. */
  lemma SkipCandidate(tx: Transaction, address: string, idx: nat)
    requires idx < |tx.vout| && !CanBeUnlockedWith(tx.vout[idx], address)
    ensures CandidatesFrom(tx, address, idx) == CandidatesFrom(tx, address, idx + 1)
  {
    assert CandidatesFrom(tx, address, idx) == [] + CandidatesFrom(tx, address, idx + 1);
  }

  /** Where the selection loop stops is the StopPoint of the candidates. */
  lemma StopAt(cs: seq<Candidate>, taken: seq<Candidate>, rest: seq<Candidate>, amount: int)
    requires cs == taken + rest
    requires BelowUntil(taken, amount)
    requires rest != [] ==> SumValues(taken) >= amount
    ensures StopPoint(cs, amount) == |taken|
    ensures cs[..StopPoint(cs, amount)] == taken
  {
    assert cs[..|taken|] == taken;
    forall q | 0 <= q < |taken| ensures SumValues(cs[..q]) < amount {
      BelowUntilPrefix(taken, amount, q);
      assert cs[..q] == taken[..q];
    }
    StopPointUnique(cs, amount, |taken|);
  }

  lemma RefsStep(inputs: seq<TxInput>, input: TxInput)
    ensures Refs(inputs + [input]) == Refs(inputs) + multiset{OutPoint(input.txid, input.vout)}
  {
    assert (inputs + [input])[..|inputs|] == inputs;
  }

  /** The nonce search does not depend on the stored hash or nonce of the block it starts from. */
  lemma SameSearch(p: Primitives, a: Block, b: Block)
    requires a.timestamp == b.timestamp && a.prevHash == b.prevHash && a.transactions == b.transactions
    ensures forall k: nat :: Solves(p, a, k) <==> Solves(p, b, k)
  {
    forall k: nat ensures Solves(p, a, k) <==> Solves(p, b, k) {
      CalculateHashReads(p, a.(nonce := FormatHex(k)), b.(nonce := FormatHex(k)));
    }
  }

  /** `Blockchain`: the ordered list of blocks, starting with the genesis block.
      The hash primitives and the gob encoder are fixed when the chain is made. */
  class Blockchain {
    const p: Primitives
    const gob: GobEncoder
    var blocks: seq<Block>

    /** The chain is never empty, every block after the genesis block is valid
        against its predecessor, and every such block is sealed. */
    ghost predicate Valid()
      reads this
    {
      |blocks| > 0 && ChainValid(p, blocks) && ChainSealed(blocks)
    }

    /** `NewBlockchain`: a chain holding only the genesis block. */
    constructor (p: Primitives, gob: GobEncoder, timestamp: string)
      ensures this.p == p && this.gob == gob
      ensures blocks == [NewGenesisBlock(p, gob, timestamp)]
      ensures Valid()
    {
      this.p := p;
      this.gob := gob;
      blocks := [NewGenesisBlock(p, gob, timestamp)];
    }

    /** `AddBlock`: appends without any check. */
    method AddBlock(newBlock: Block)
      modifies this
      ensures blocks == old(blocks) + [newBlock]
    {
      blocks := blocks + [newBlock];
    }

    /** `FindUnspentTransactions`: scans blocks newest first, stopping at the first
        block with no transaction, recording spent outputs as it goes. */
    method FindUnspentTransactions(address: string) returns (unspentTXs: seq<Transaction>)
      ensures unspentTXs == UnspentTransactions(blocks, address)
    {
      unspentTXs := [];
      var spentTXOs: map<string, seq<int>> := map[];
      ghost var visited: seq<Transaction> := [];
      var i := |blocks| - 1;
      while i >= 0
        invariant -1 <= i < |blocks|
        invariant visited == Scanned(blocks, i + 1)
        invariant ScanStart(blocks) <= i + 1
        invariant SpentSet(spentTXOs) == SpentThrough(visited, address)
        invariant unspentTXs == Listing(visited, address)
        decreases i + 1
      {
        if |blocks[i].transactions| == 0 {
          assert ScanStart(blocks) == i + 1 by {
            if ScanStart(blocks) <= i {
              ScanStartNonEmpty(blocks, i);
            }
          }
          assert visited == ScanOrder(blocks);
          return;
        }
        assert ScanStart(blocks) <= i;
        var txs := blocks[i].transactions;
        spentTXOs, unspentTXs := ScanBlock(txs, address, spentTXOs, unspentTXs, visited);
        visited := visited + txs;
        i := i - 1;
      }
      assert visited == ScanOrder(blocks);
    }

    /** `FindUTXO`: the address-locked outputs of the listed transactions. */
    method FindUTXO(address: string) returns (utxos: seq<TxOutput>)
      ensures utxos == Utxos(blocks, address)
    {
      utxos := [];
      var unspentTransactions := FindUnspentTransactions(address);
      for t := 0 to |unspentTransactions|
        invariant utxos == OutputsOf(unspentTransactions[..t], address)
      {
        var tx := unspentTransactions[t];
        ghost var before := utxos;
        for j := 0 to |tx.vout|
          invariant utxos == before + LockedOutputs(tx.vout[..j], address)
        {
          LockedOutputsStep(tx.vout, j, address);
          if CanBeUnlockedWith(tx.vout[j], address) {
            utxos := utxos + [tx.vout[j]];
          }
        }
        OutputsOfStep(unspentTransactions, t, address);
      }
      assert unspentTransactions[..|unspentTransactions|] == unspentTransactions;
    }

    /** The balance the balance handler reports: the sum of FindUTXO's values. */
    method Balance(address: string) returns (balance: int)
      ensures balance == BalanceOf(blocks, address)
    {
      balance := 0;
      var utxos := FindUTXO(address);
      for k := 0 to |utxos|
        invariant balance == SumOutputValues(utxos[..k])
      {
        assert utxos[..k + 1][..k] == utxos[..k];
        balance := balance + utxos[k].value;
      }
      assert utxos[..|utxos|] == utxos;
    }

    /** `FindSpendableOutputs`: walks the listed transactions' address-locked
        outputs, taking each while the total is below `amount`, and returns as soon
        as the total reaches it. */
    method FindSpendableOutputs(address: string, amount: int)
      returns (accumulated: int, unspentOutputs: map<string, seq<int>>)
      ensures accumulated == Accumulated(blocks, address, amount)
      ensures unspentOutputs == Group(Selection(blocks, address, amount))
    {
      unspentOutputs := map[];
      var unspentTXs := FindUnspentTransactions(address);
      accumulated := 0;
      ghost var cs := Candidates(unspentTXs, address);
      ghost var taken: seq<Candidate> := [];
      for t := 0 to |unspentTXs|
        invariant accumulated == SumValues(taken) && unspentOutputs == Group(taken)
        invariant BelowUntil(taken, amount)
        invariant accumulated < amount ==> cs == taken + Candidates(unspentTXs[t..], address)
        invariant accumulated >= amount ==> taken == [] && amount <= 0
      {
        CandidatesStep(unspentTXs, t, address);
        var reached;
        accumulated, unspentOutputs, reached, taken :=
          SelectOutputs(unspentTXs[t], address, amount, accumulated, unspentOutputs,
                        taken, Candidates(unspentTXs[t + 1..], address), cs);
        if reached {
          return;
        }
      }
      if accumulated < amount {
        assert unspentTXs[|unspentTXs|..] == [];
        StopAt(cs, taken, [], amount);
      } else {
        StopAt(cs, [], cs, amount);
      }
    }

    /** `NewUTXOTransaction`: fails when the selection falls short of `amount`;
        otherwise spends every selected output (in whatever order the map is
        visited), pays `to`, returns any change to `from`, and seals the identifier. */
    method NewUTXOTransaction(from: string, to: string, amount: int) returns (r: Result<Transaction>)
      ensures r.Err? <==> Accumulated(blocks, from, amount) < amount
      ensures r.Err? ==> r.error == NotEnoughFunds
      ensures r.Ok? ==> IsTransfer(p, gob, r.value, Selection(blocks, from, amount), from, to, amount)
    {
      var inputs: seq<TxInput> := [];
      var outputs: seq<TxOutput> := [];
      var acc, validOutputs := FindSpendableOutputs(from, amount);
      if acc < amount {
        return Err(NotEnoughFunds);
      }
      inputs := SpendAll(validOutputs, from);
      GroupRefs(Selection(blocks, from, amount));
      outputs := outputs + [TxOutput(amount, to)];
      if acc > amount {
        outputs := outputs + [TxOutput(acc - amount, from)];
      }
      var tx := SetId(p, gob, Transaction("", inputs, outputs));
      return Ok(tx);
    }

    /** `generateBlock`: builds the transfer, then tries the nonces "0", "1", ...,
        "a", ... (the counter in lower-case hexadecimal) until the block hash has
        Difficulty leading zeros. The search is bounded by `fuel`. */
    method GenerateBlock(oldBlock: Block, from: string, to: string, value: int, timestamp: string, fuel: nat)
      returns (r: Result<Block>)
      ensures r.Ok? ==> r.value.prevHash == oldBlock.hash && r.value.timestamp == timestamp
      ensures r.Ok? ==> |r.value.transactions| == 1 &&
                        IsTransfer(p, gob, r.value.transactions[0], Selection(blocks, from, value), from, to, value)
      ensures r.Ok? ==> IsBlockValid(p, r.value, oldBlock) && IsHashValid(r.value.hash, Difficulty)
      ensures r.Ok? ==> exists i :: FirstSolution(p, r.value, i) && r.value.nonce == FormatHex(i)
      ensures r.Err? ==> (r.error == NotEnoughFunds <==> Accumulated(blocks, from, value) < value)
      ensures r.Err? ==> r.error == NotEnoughFunds || r.error == SearchExhausted
      ensures r.Err? && r.error == SearchExhausted ==>
                exists tx :: IsTransfer(p, gob, tx, Selection(blocks, from, value), from, to, value) &&
                  Unsealable(p, Block(timestamp, [tx], "", oldBlock.hash, ""), fuel)
    {
      var txr := NewUTXOTransaction(from, to, value);
      if txr.Err? {
        return Err(txr.error);
      }
      var newBlock := Block(timestamp, [txr.value], "", oldBlock.hash, "");
      ghost var unsealed := newBlock;
      for i := 0 to fuel
        invariant newBlock.timestamp == timestamp && newBlock.transactions == [txr.value]
        invariant newBlock.prevHash == oldBlock.hash
        invariant forall k :: 0 <= k < i ==> !Solves(p, unsealed, k)
      {
        newBlock := newBlock.(nonce := FormatHex(i));
        var newHash := CalculateHash(p, newBlock);
        if IsHashValid(newHash, Difficulty) {
          newBlock := newBlock.(hash := newHash);
          SameSearch(p, unsealed, newBlock);
          assert Solves(p, unsealed, i);
          assert FirstSolution(p, newBlock, i);
          return Ok(newBlock);
        }
      }
      assert unsealed == Block(timestamp, [txr.value], "", oldBlock.hash, "");
      return Err(SearchExhausted);
    }

    /** The write handler's decision: generate a block on top of the newest one
        and append it if it is valid against that block; on an error nothing
        changes. */
    method WriteBlock(from: string, to: string, value: int, timestamp: string, fuel: nat)
      returns (r: Result<Block>)
      requires Valid()
      modifies this
      ensures Valid()
      ensures r.Ok? ==> blocks == old(blocks) + [r.value]
      ensures r.Ok? ==> r.value.prevHash == old(blocks[|blocks| - 1].hash) && r.value.timestamp == timestamp
      ensures r.Ok? ==> |r.value.transactions| == 1 &&
                        IsTransfer(p, gob, r.value.transactions[0], old(Selection(blocks, from, value)), from, to, value)
      ensures r.Ok? ==> IsHashValid(r.value.hash, Difficulty)
      ensures r.Err? ==> blocks == old(blocks)
      ensures r.Err? ==> (r.error == NotEnoughFunds <==> old(Accumulated(blocks, from, value)) < value)
      ensures r.Err? ==> r.error == NotEnoughFunds || r.error == SearchExhausted
      ensures r.Err? && r.error == SearchExhausted ==>
                exists tx :: IsTransfer(p, gob, tx, old(Selection(blocks, from, value)), from, to, value) &&
                  Unsealable(p, Block(timestamp, [tx], "", old(blocks[|blocks| - 1].hash), ""), fuel)
    {
      var last := blocks[|blocks| - 1];
      r := GenerateBlock(last, from, to, value, timestamp, fuel);
      if r.Err? {
        return;
      }
      if IsBlockValid(p, r.value, last) {
        AppendValidBlock(p, blocks, r.value);
        AppendSealedBlock(blocks, r.value);
        AddBlock(r.value);
      }
    }
  }

  /** Nonce counter i seals b: with the nonce FormatHex(i), the block hash meets the difficulty. */
  ghost predicate Solves(p: Primitives, b: Block, i: nat)
  {
    IsHashValid(CalculateHash(p, b.(nonce := FormatHex(i))), Difficulty)
  }

  /** No counter below `fuel` seals b. */
  ghost predicate Unsealable(p: Primitives, b: Block, fuel: nat)
  {
    forall k :: 0 <= k < fuel ==> !Solves(p, b, k)
  }

  /** i is the first counter that seals b. */
  ghost predicate FirstSolution(p: Primitives, b: Block, i: nat)
  {
    Solves(p, b, i) && forall k :: 0 <= k < i ==> !Solves(p, b, k)
  }
}
