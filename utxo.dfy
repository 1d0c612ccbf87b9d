/** Reference definitions of the UTXO queries of the transaction ledger, stated
    over the sequence of blocks, and what is proved about them. The imperative
    scans of the Ledger module are proved equal to these definitions. */
module Utxo {
  import opened GoLib
  import opened Transactions
  import opened Chain

  /** An output, named by its transaction identifier and its index in that transaction. */
  datatype OutPoint = OutPoint(txid: string, index: int)

  // ----- Which transactions the backward scan visits, and in what order -----

  /** The scan visits blocks[ScanStart(blocks)..], newest first: it stops at the
      newest block that holds no transaction. */
  function ScanStart(blocks: seq<Block>): (s: nat)
    ensures s <= |blocks|
    ensures s > 0 ==> |blocks[s - 1].transactions| == 0
  {
    if |blocks| == 0 then 0
    else if |blocks[|blocks| - 1].transactions| == 0 then |blocks|
    else ScanStart(blocks[..|blocks| - 1])
  }

  /** Every block from ScanStart on holds a transaction. */
  lemma {:induction false} ScanStartNonEmpty(blocks: seq<Block>, k: int)
    requires ScanStart(blocks) <= k < |blocks|
    ensures |blocks[k].transactions| > 0
  {
    var init := blocks[..|blocks| - 1];
    if k < |blocks| - 1 {
      ScanStartNonEmpty(init, k);
      assert init[k] == blocks[k];
    }
  }

  /** ScanStart is the index after the newest block with no transaction, or 0. */
  lemma ScanStartUnique(blocks: seq<Block>, s: nat)
    requires s <= |blocks|
    requires forall k :: s <= k < |blocks| ==> |blocks[k].transactions| > 0
    requires s > 0 ==> |blocks[s - 1].transactions| == 0
    ensures ScanStart(blocks) == s
  {
    var t := ScanStart(blocks);
    if t < s {
      ScanStartNonEmpty(blocks, s - 1);
    }
  }

  /** The transactions of blocks[from..]: newest block first, and within a block
      in stored order. */
  function Scanned(blocks: seq<Block>, from: nat): seq<Transaction>
    decreases |blocks| - from
  {
    if from >= |blocks| then [] else Scanned(blocks, from + 1) + blocks[from].transactions
  }

  /** The transactions the scan visits, in the order it visits them. */
  function ScanOrder(blocks: seq<Block>): seq<Transaction>
  {
    Scanned(blocks, ScanStart(blocks))
  }

  lemma {:induction false} ScannedShift(older: seq<Block>, blocks: seq<Block>, from: nat)
    requires from <= |blocks|
    ensures Scanned(older + blocks, |older| + from) == Scanned(blocks, from)
    decreases |blocks| - from
  {
    if from < |blocks| {
      ScannedShift(older, blocks, from + 1);
      assert (older + blocks)[|older| + from] == blocks[from];
    }
  }

  /** History older than a block with no transactions is never looked at. */
  lemma OlderBlocksIgnored(older: seq<Block>, blocks: seq<Block>)
    requires |blocks| > 0 && |blocks[0].transactions| == 0
    ensures ScanOrder(older + blocks) == ScanOrder(blocks)
  {
    var s := ScanStart(blocks);
    var all := older + blocks;
    if s == 0 {
      ScanStartNonEmpty(blocks, 0);
    }
    forall k | |older| + s <= k < |all| ensures |all[k].transactions| > 0 {
      assert all[k] == blocks[k - |older|];
      ScanStartNonEmpty(blocks, k - |older|);
    }
    assert all[|older| + s - 1] == blocks[s - 1];
    ScanStartUnique(all, |older| + s);
    ScannedShift(older, blocks, s);
  }

  // ----- Outputs marked as spent -----

  /** The outputs that inputs made by `address` mark as spent. */
  function Marks(vin: seq<TxInput>, address: string): set<OutPoint>
  {
    if vin == [] then {}
    else
      var input := vin[|vin| - 1];
      Marks(vin[..|vin| - 1], address) +
        (if CanUnlockOutputWith(input, address) then {OutPoint(input.txid, input.vout)} else {})
  }

  /** A coinbase transaction marks nothing. */
  function SpentBy(tx: Transaction, address: string): set<OutPoint>
  {
    if IsCoinbase(tx) then {} else Marks(tx.vin, address)
  }

  /** Everything the transactions of `txs` mark as spent for `address`. */
  function SpentThrough(txs: seq<Transaction>, address: string): set<OutPoint>
  {
    if txs == [] then {} else SpentThrough(txs[..|txs| - 1], address) + SpentBy(txs[|txs| - 1], address)
  }

  lemma {:induction false} MarksIff(vin: seq<TxInput>, address: string, op: OutPoint)
    ensures op in Marks(vin, address) <==>
              exists i :: 0 <= i < |vin| && CanUnlockOutputWith(vin[i], address) &&
                          op == OutPoint(vin[i].txid, vin[i].vout)
  {
    if vin != [] {
      var init := vin[..|vin| - 1];
      MarksIff(init, address, op);
      if exists i :: 0 <= i < |init| && CanUnlockOutputWith(init[i], address) &&
                     op == OutPoint(init[i].txid, init[i].vout) {
        var i :| 0 <= i < |init| && CanUnlockOutputWith(init[i], address) &&
                 op == OutPoint(init[i].txid, init[i].vout);
        assert vin[i] == init[i];
      }
      if exists i :: 0 <= i < |vin| && CanUnlockOutputWith(vin[i], address) &&
                     op == OutPoint(vin[i].txid, vin[i].vout) {
        var i :| 0 <= i < |vin| && CanUnlockOutputWith(vin[i], address) &&
                 op == OutPoint(vin[i].txid, vin[i].vout);
        if i < |init| {
          assert init[i] == vin[i];
        }
      }
    }
  }

  /** An output is marked as spent exactly when some non-coinbase transaction of
      `txs` has an input made by `address` that references it. */
  lemma {:induction false} SpentThroughIff(txs: seq<Transaction>, address: string, op: OutPoint)
    ensures op in SpentThrough(txs, address) <==>
              exists k, i :: 0 <= k < |txs| && !IsCoinbase(txs[k]) && 0 <= i < |txs[k].vin| &&
                             CanUnlockOutputWith(txs[k].vin[i], address) &&
                             op == OutPoint(txs[k].vin[i].txid, txs[k].vin[i].vout)
  {
    if txs != [] {
      var init, last := txs[..|txs| - 1], txs[|txs| - 1];
      SpentThroughIff(init, address, op);
      MarksIff(last.vin, address, op);
      if op in SpentThrough(txs, address) {
        if op in SpentThrough(init, address) {
          var k, i :| 0 <= k < |init| && !IsCoinbase(init[k]) && 0 <= i < |init[k].vin| &&
                      CanUnlockOutputWith(init[k].vin[i], address) &&
                      op == OutPoint(init[k].vin[i].txid, init[k].vin[i].vout);
          assert txs[k] == init[k];
        } else {
          var i :| 0 <= i < |last.vin| && CanUnlockOutputWith(last.vin[i], address) &&
                   op == OutPoint(last.vin[i].txid, last.vin[i].vout);
          assert txs[|txs| - 1].vin[i] == last.vin[i];
        }
      }
      if exists k, i :: 0 <= k < |txs| && !IsCoinbase(txs[k]) && 0 <= i < |txs[k].vin| &&
                        CanUnlockOutputWith(txs[k].vin[i], address) &&
                        op == OutPoint(txs[k].vin[i].txid, txs[k].vin[i].vout) {
        var k, i :| 0 <= k < |txs| && !IsCoinbase(txs[k]) && 0 <= i < |txs[k].vin| &&
                    CanUnlockOutputWith(txs[k].vin[i], address) &&
                    op == OutPoint(txs[k].vin[i].txid, txs[k].vin[i].vout);
        if k < |init| {
          assert init[k] == txs[k];
        }
      }
    }
  }

  // ----- FindUnspentTransactions -----

  /** How many of the first n outputs of tx are locked to `address` and not in `spent`. */
  function LiveCount(tx: Transaction, spent: set<OutPoint>, address: string, n: nat): nat
    requires n <= |tx.vout|
  {
    if n == 0 then 0
    else LiveCount(tx, spent, address, n - 1) +
           (if CanBeUnlockedWith(tx.vout[n - 1], address) && OutPoint(tx.id, n - 1) !in spent then 1 else 0)
  }

  /** LiveCount counts exactly the live output indices below n. */
  lemma {:induction false} LiveCountIsCardinality(tx: Transaction, spent: set<OutPoint>, address: string, n: nat)
    requires n <= |tx.vout|
    ensures LiveCount(tx, spent, address, n) ==
              |set j | 0 <= j < n && CanBeUnlockedWith(tx.vout[j], address) && OutPoint(tx.id, j) !in spent|
  {
    if n > 0 {
      LiveCountIsCardinality(tx, spent, address, n - 1);
      var before := set j | 0 <= j < n - 1 && CanBeUnlockedWith(tx.vout[j], address) && OutPoint(tx.id, j) !in spent;
      var after := set j | 0 <= j < n && CanBeUnlockedWith(tx.vout[j], address) && OutPoint(tx.id, j) !in spent;
      if CanBeUnlockedWith(tx.vout[n - 1], address) && OutPoint(tx.id, n - 1) !in spent {
        assert after == before + {n - 1};
      } else {
        assert after == before;
      }
    }
  }

  /** n copies of x. */
  function Copies<T>(x: T, n: nat): seq<T>
  {
    if n == 0 then [] else Copies(x, n - 1) + [x]
  }

  lemma {:induction false} CopiesMembers<T>(x: T, n: nat, y: T)
    ensures y in Copies(x, n) <==> n > 0 && y == x
  {
    if n > 0 {
      CopiesMembers(x, n - 1, y);
    }
  }

  /** What the scan lists for `txs` (given in scan order): each transaction once
      per output that is locked to `address` and not marked as spent by any
      transaction visited up to and including itself. */
  function Listing(txs: seq<Transaction>, address: string): seq<Transaction>
  {
    if txs == [] then []
    else
      var last := txs[|txs| - 1];
      Listing(txs[..|txs| - 1], address) + Copies(last, LiveCount(last, SpentThrough(txs, address), address, |last.vout|))
  }

  /** `FindUnspentTransactions(address)`. */
  function UnspentTransactions(blocks: seq<Block>, address: string): seq<Transaction>
  {
    Listing(ScanOrder(blocks), address)
  }

  /** Output j of the k-th visited transaction is locked to `address` and no
      transaction visited up to and including that one spends it. */
  ghost predicate Live(txs: seq<Transaction>, k: int, j: int, address: string)
  {
    && 0 <= k < |txs|
    && 0 <= j < |txs[k].vout|
    && CanBeUnlockedWith(txs[k].vout[j], address)
    && OutPoint(txs[k].id, j) !in SpentThrough(txs[..k + 1], address)
  }

  lemma {:induction false} LiveCountPositive(tx: Transaction, spent: set<OutPoint>, address: string, n: nat)
    requires n <= |tx.vout|
    ensures LiveCount(tx, spent, address, n) > 0 <==>
              exists j :: 0 <= j < n && CanBeUnlockedWith(tx.vout[j], address) && OutPoint(tx.id, j) !in spent
  {
    if n > 0 {
      LiveCountPositive(tx, spent, address, n - 1);
    }
  }

  /** Every listed transaction was visited and has a live output. */
  lemma {:induction false} ListingSound(txs: seq<Transaction>, address: string, x: Transaction)
    requires x in Listing(txs, address)
    ensures exists k, j :: Live(txs, k, j, address) && txs[k] == x
  {
    var init, last := txs[..|txs| - 1], txs[|txs| - 1];
    var n := LiveCount(last, SpentThrough(txs, address), address, |last.vout|);
    if x in Listing(init, address) {
      ListingSound(init, address, x);
      var k, j :| Live(init, k, j, address) && init[k] == x;
      assert init[..k + 1] == txs[..k + 1];
      assert Live(txs, k, j, address) && txs[k] == x;
    } else {
      CopiesMembers(last, n, x);
      LiveCountPositive(last, SpentThrough(txs, address), address, |last.vout|);
      var j :| 0 <= j < |last.vout| && CanBeUnlockedWith(last.vout[j], address) &&
               OutPoint(last.id, j) !in SpentThrough(txs, address);
      assert txs[..|txs|] == txs;
      assert Live(txs, |txs| - 1, j, address);
    }
  }

  /** Every visited transaction with a live output is listed. */
  lemma {:induction false} ListingComplete(txs: seq<Transaction>, address: string, k: int, j: int)
    requires Live(txs, k, j, address)
    ensures txs[k] in Listing(txs, address)
  {
    var init, last := txs[..|txs| - 1], txs[|txs| - 1];
    if k < |txs| - 1 {
      assert init[..k + 1] == txs[..k + 1];
      assert Live(init, k, j, address);
      ListingComplete(init, address, k, j);
    } else {
      assert txs[..k + 1] == txs;
      LiveCountPositive(last, SpentThrough(txs, address), address, |last.vout|);
      CopiesMembers(last, LiveCount(last, SpentThrough(txs, address), address, |last.vout|), last);
    }
  }

  /** An output that an input made by `address` in a transaction visited no later
      (a newer block, or earlier in the same block, or the transaction itself)
      spends never makes its transaction listed. */
  lemma SpentOutputNotLive(txs: seq<Transaction>, address: string, k: int, j: int, k': int, i: int)
    requires 0 <= k' <= k < |txs| && 0 <= j < |txs[k].vout|
    requires !IsCoinbase(txs[k']) && 0 <= i < |txs[k'].vin|
    requires CanUnlockOutputWith(txs[k'].vin[i], address)
    requires txs[k'].vin[i].txid == txs[k].id && txs[k'].vin[i].vout == j
    ensures !Live(txs, k, j, address)
  {
    var prefix := txs[..k + 1];
    assert prefix[k'] == txs[k'];
    SpentThroughIff(prefix, address, OutPoint(txs[k].id, j));
  }

  // ----- FindUTXO and the balance -----

  /** The outputs of vout locked to `address`, in order. */
  function LockedOutputs(vout: seq<TxOutput>, address: string): seq<TxOutput>
  {
    if vout == [] then []
    else
      var last := vout[|vout| - 1];
      LockedOutputs(vout[..|vout| - 1], address) + (if CanBeUnlockedWith(last, address) then [last] else [])
  }

  /** LockedOutputs keeps exactly the outputs locked to the address, each as
      often as it occurs. */
  lemma {:induction false} LockedOutputsFilter(vout: seq<TxOutput>, address: string)
    ensures forall o :: o in LockedOutputs(vout, address) ==> CanBeUnlockedWith(o, address)
    ensures forall o :: CanBeUnlockedWith(o, address) ==>
              multiset(LockedOutputs(vout, address))[o] == multiset(vout)[o]
  {
    if vout != [] {
      var init, last := vout[..|vout| - 1], vout[|vout| - 1];
      LockedOutputsFilter(init, address);
      assert vout == init + [last];
    }
  }

  /** The address-locked outputs of every listed transaction, in listing order. */
  function OutputsOf(txs: seq<Transaction>, address: string): seq<TxOutput>
  {
    if txs == [] then [] else OutputsOf(txs[..|txs| - 1], address) + LockedOutputs(txs[|txs| - 1].vout, address)
  }

  /** `FindUTXO(address)`. */
  function Utxos(blocks: seq<Block>, address: string): seq<TxOutput>
  {
    OutputsOf(UnspentTransactions(blocks, address), address)
  }

  /** The balance the handler reports: the sum of the values FindUTXO returns. */
  function BalanceOf(blocks: seq<Block>, address: string): int
  {
    SumOutputValues(Utxos(blocks, address))
  }

  lemma {:induction false} OutputsOfLocked(txs: seq<Transaction>, address: string)
    ensures forall o :: o in OutputsOf(txs, address) ==> CanBeUnlockedWith(o, address)
  {
    if txs != [] {
      OutputsOfLocked(txs[..|txs| - 1], address);
      LockedOutputsFilter(txs[|txs| - 1].vout, address);
    }
  }

  /** FindUTXO returns only outputs locked to the address. */
  lemma UtxosLocked(blocks: seq<Block>, address: string)
    ensures forall o :: o in Utxos(blocks, address) ==> CanBeUnlockedWith(o, address)
  {
    OutputsOfLocked(UnspentTransactions(blocks, address), address);
  }

  // ----- FindSpendableOutputs -----

  /** An output considered by the greedy selection. */
  datatype Candidate = Candidate(txid: string, index: int, value: int)

  ghost predicate IsCandidateOf(c: Candidate, tx: Transaction, address: string)
  {
    && c.txid == tx.id
    && 0 <= c.index < |tx.vout|
    && CanBeUnlockedWith(tx.vout[c.index], address)
    && c.value == tx.vout[c.index].value
  }

  /** The address-locked outputs of tx from index k on, in index order. */
  function CandidatesFrom(tx: Transaction, address: string, k: nat): seq<Candidate>
    decreases |tx.vout| - k
  {
    if k >= |tx.vout| then []
    else
      (if CanBeUnlockedWith(tx.vout[k], address) then [Candidate(tx.id, k, tx.vout[k].value)] else []) +
        CandidatesFrom(tx, address, k + 1)
  }

  /** The address-locked outputs of every listed transaction, in the order the
      selection walks them (duplicates of a listed transaction included). */
  function Candidates(txs: seq<Transaction>, address: string): seq<Candidate>
  {
    if txs == [] then [] else CandidatesFrom(txs[0], address, 0) + Candidates(txs[1..], address)
  }

  lemma {:induction false} CandidatesFromSound(tx: Transaction, address: string, k: nat)
    ensures forall c :: c in CandidatesFrom(tx, address, k) ==> IsCandidateOf(c, tx, address) && c.index >= k
    decreases |tx.vout| - k
  {
    if k < |tx.vout| {
      CandidatesFromSound(tx, address, k + 1);
    }
  }

  /** Every candidate is an address-locked output of one of the transactions, with its value. */
  lemma {:induction false} CandidatesSound(txs: seq<Transaction>, address: string)
    ensures forall c :: c in Candidates(txs, address) ==> exists tx :: tx in txs && IsCandidateOf(c, tx, address)
  {
    if txs != [] {
      CandidatesFromSound(txs[0], address, 0);
      CandidatesSound(txs[1..], address);
      assert forall tx :: tx in txs[1..] ==> tx in txs;
    }
  }

  function SumValues(cs: seq<Candidate>): int
  {
    if cs == [] then 0 else SumValues(cs[..|cs| - 1]) + cs[|cs| - 1].value
  }

  /** How many candidates the selection takes: the shortest prefix whose values
      reach `amount`, or all of them when none does. */
  function StopPoint(cs: seq<Candidate>, amount: int): (n: nat)
    ensures n <= |cs|
    ensures forall q :: 0 <= q < n ==> SumValues(cs[..q]) < amount
    ensures n < |cs| ==> SumValues(cs[..n]) >= amount
  {
    StopFrom(cs, amount, 0)
  }

  function StopFrom(cs: seq<Candidate>, amount: int, q: nat): (n: nat)
    requires q <= |cs|
    requires forall q' :: 0 <= q' < q ==> SumValues(cs[..q']) < amount
    ensures q <= n <= |cs|
    ensures forall q' :: 0 <= q' < n ==> SumValues(cs[..q']) < amount
    ensures n < |cs| ==> SumValues(cs[..n]) >= amount
    decreases |cs| - q
  {
    if q == |cs| || SumValues(cs[..q]) >= amount then q else StopFrom(cs, amount, q + 1)
  }

  /** The three facts in StopPoint's contract determine it. */
  lemma StopPointUnique(cs: seq<Candidate>, amount: int, n: nat)
    requires n <= |cs|
    requires forall q :: 0 <= q < n ==> SumValues(cs[..q]) < amount
    requires n < |cs| ==> SumValues(cs[..n]) >= amount
    ensures StopPoint(cs, amount) == n
  {
    var m := StopPoint(cs, amount);
    assert m < |cs| ==> SumValues(cs[..m]) >= amount;
    assert n < |cs| ==> SumValues(cs[..n]) >= amount;
  }

  /** The candidates `FindSpendableOutputs(address, amount)` selects, in order. */
  function Selection(blocks: seq<Block>, address: string, amount: int): seq<Candidate>
  {
    var cs := Candidates(UnspentTransactions(blocks, address), address);
    cs[..StopPoint(cs, amount)]
  }

  /** The total `FindSpendableOutputs(address, amount)` returns. */
  function Accumulated(blocks: seq<Block>, address: string, amount: int): int
  {
    SumValues(Selection(blocks, address, amount))
  }

  /** The selection as a map from transaction identifier to the selected output
      indices of that transaction, in selection order. */
  function Group(cs: seq<Candidate>): map<string, seq<int>>
  {
    if cs == [] then map[]
    else
      var g, c := Group(cs[..|cs| - 1]), cs[|cs| - 1];
      g[c.txid := (if c.txid in g then g[c.txid] else []) + [c.index]]
  }

  /** Every selected output is an address-locked output of a listed transaction,
      with its value. */
  lemma SelectionSpendable(blocks: seq<Block>, address: string, amount: int)
    ensures forall c :: c in Selection(blocks, address, amount) ==>
              exists tx :: tx in UnspentTransactions(blocks, address) && IsCandidateOf(c, tx, address)
  {
    var cs := Candidates(UnspentTransactions(blocks, address), address);
    CandidatesSound(UnspentTransactions(blocks, address), address);
    assert forall c :: c in cs[..StopPoint(cs, amount)] ==> c in cs;
  }

  /** A short total means every spendable candidate was taken. */
  lemma ShortfallTakesAll(blocks: seq<Block>, address: string, amount: int)
    requires Accumulated(blocks, address, amount) < amount
    ensures Selection(blocks, address, amount) == Candidates(UnspentTransactions(blocks, address), address)
  {
    var cs := Candidates(UnspentTransactions(blocks, address), address);
    assert cs[..|cs|] == cs;
  }

  /** Stopping before the last candidate (the early return) means the amount was reached. */
  lemma EarlyStopReachesAmount(blocks: seq<Block>, address: string, amount: int)
    requires |Selection(blocks, address, amount)| < |Candidates(UnspentTransactions(blocks, address), address)|
    ensures Accumulated(blocks, address, amount) >= amount
  {
  }

  /** A non-positive amount selects nothing. */
  lemma NonPositiveAmountSelectsNothing(blocks: seq<Block>, address: string, amount: int)
    requires amount <= 0
    ensures Selection(blocks, address, amount) == []
    ensures Accumulated(blocks, address, amount) == 0
    ensures Group(Selection(blocks, address, amount)) == map[]
  {
    var cs := Candidates(UnspentTransactions(blocks, address), address);
    assert cs[..0] == [];
    StopPointUnique(cs, amount, 0);
  }

  /** The map holds an index under an identifier exactly when a selected
      candidate names that output. */
  lemma {:induction false} GroupIff(cs: seq<Candidate>, id: string, index: int)
    ensures (id in Group(cs) && index in Group(cs)[id]) <==>
              exists c :: c in cs && c.txid == id && c.index == index
  {
    if cs != [] {
      var init, c := cs[..|cs| - 1], cs[|cs| - 1];
      GroupIff(init, id, index);
      assert forall d :: d in init ==> d in cs;
      if exists d :: d in cs && d.txid == id && d.index == index {
        var d :| d in cs && d.txid == id && d.index == index;
        if d != c {
          assert d in init;
        }
      }
    }
  }

  /** Every (identifier, index) the returned map holds is an address-locked output
      of a listed transaction. */
  lemma SelectedMapSpendable(blocks: seq<Block>, address: string, amount: int, id: string, index: int)
    requires id in Group(Selection(blocks, address, amount))
    requires index in Group(Selection(blocks, address, amount))[id]
    ensures exists tx :: tx in UnspentTransactions(blocks, address) && tx.id == id &&
                         0 <= index < |tx.vout| && CanBeUnlockedWith(tx.vout[index], address)
  {
    var sel := Selection(blocks, address, amount);
    GroupIff(sel, id, index);
    var c :| c in sel && c.txid == id && c.index == index;
    SelectionSpendable(blocks, address, amount);
    var tx :| tx in UnspentTransactions(blocks, address) && IsCandidateOf(c, tx, address);
  }

  // ----- The multiset of outputs a selection map names -----

  /** The outputs `txid` paired with each of `indices`. */
  function RefsOf(txid: string, indices: seq<int>): multiset<OutPoint>
  {
    if indices == [] then multiset{}
    else RefsOf(txid, indices[..|indices| - 1]) + multiset{OutPoint(txid, indices[|indices| - 1])}
  }

  /** The outputs the entries of m under `keys` name, whatever order the keys are visited in. */
  ghost function PairsOf(m: map<string, seq<int>>, keys: set<string>): multiset<OutPoint>
    requires keys <= m.Keys
    decreases keys
  {
    if keys == {} then multiset{}
    else
      var k :| k in keys;
      RefsOf(k, m[k]) + PairsOf(m, keys - {k})
  }

  /** Every output a selection map names, with multiplicity. */
  ghost function MapContents(m: map<string, seq<int>>): multiset<OutPoint>
  {
    PairsOf(m, m.Keys)
  }

  /** Any key may be visited first. */
  lemma {:induction false} PairsOfRemove(m: map<string, seq<int>>, keys: set<string>, k: string)
    requires keys <= m.Keys && k in keys
    ensures PairsOf(m, keys) == RefsOf(k, m[k]) + PairsOf(m, keys - {k})
    decreases keys
  {
    var j :| j in keys && PairsOf(m, keys) == RefsOf(j, m[j]) + PairsOf(m, keys - {j});
    if j != k {
      PairsOfRemove(m, keys - {j}, k);
      PairsOfRemove(m, keys - {k}, j);
      assert keys - {j} - {k} == keys - {k} - {j};
    }
  }

  lemma {:induction false} PairsOfAgree(m1: map<string, seq<int>>, m2: map<string, seq<int>>, keys: set<string>)
    requires keys <= m1.Keys && keys <= m2.Keys
    requires forall k :: k in keys ==> m1[k] == m2[k]
    ensures PairsOf(m1, keys) == PairsOf(m2, keys)
    decreases keys
  {
    if keys != {} {
      var k :| k in keys;
      PairsOfRemove(m1, keys, k);
      PairsOfRemove(m2, keys, k);
      PairsOfAgree(m1, m2, keys - {k});
    }
  }

  /** The outputs named by a sequence of candidates. */
  function CandidateRefs(cs: seq<Candidate>): multiset<OutPoint>
  {
    if cs == [] then multiset{}
    else CandidateRefs(cs[..|cs| - 1]) + multiset{OutPoint(cs[|cs| - 1].txid, cs[|cs| - 1].index)}
  }

  lemma RefsOfSnoc(id: string, indices: seq<int>, index: int)
    ensures RefsOf(id, indices + [index]) == RefsOf(id, indices) + multiset{OutPoint(id, index)}
  {
    assert (indices + [index])[..|indices|] == indices;
  }

  /** What g names, split into the entry under `id` (empty when absent) and the rest. */
  lemma PairsOfSplit(g: map<string, seq<int>>, id: string)
    ensures MapContents(g) == RefsOf(id, if id in g then g[id] else []) + PairsOf(g, g.Keys - {id})
  {
    if id in g {
      PairsOfRemove(g, g.Keys, id);
    } else {
      assert g.Keys - {id} == g.Keys;
    }
  }

  /** Appending one index under `id` adds exactly that output to what the map names. */
  lemma GroupStep(g: map<string, seq<int>>, id: string, index: int)
    ensures MapContents(g[id := (if id in g then g[id] else []) + [index]]) ==
              MapContents(g) + multiset{OutPoint(id, index)}
  {
    var prev := if id in g then g[id] else [];
    var g' := g[id := prev + [index]];
    var rest := g.Keys - {id};
    assert MapContents(g') == RefsOf(id, prev + [index]) + PairsOf(g', rest) by {
      PairsOfRemove(g', g'.Keys, id);
      assert g'.Keys - {id} == rest;
    }
    assert RefsOf(id, prev + [index]) == RefsOf(id, prev) + multiset{OutPoint(id, index)} by {
      RefsOfSnoc(id, prev, index);
    }
    assert PairsOf(g', rest) == PairsOf(g, rest) by {
      PairsOfAgree(g, g', rest);
    }
    assert MapContents(g) == RefsOf(id, prev) + PairsOf(g, rest) by {
      PairsOfSplit(g, id);
    }
  }

  /** The selection map names exactly the selected outputs, with multiplicity. */
  lemma {:induction false} GroupRefs(cs: seq<Candidate>)
    ensures MapContents(Group(cs)) == CandidateRefs(cs)
  {
    if cs != [] {
      var init, c := cs[..|cs| - 1], cs[|cs| - 1];
      GroupRefs(init);
      GroupStep(Group(init), c.txid, c.index);
    }
  }

  lemma {:induction false} CandidateRefsMembers(cs: seq<Candidate>, op: OutPoint)
    requires op in CandidateRefs(cs)
    ensures exists c :: c in cs && op == OutPoint(c.txid, c.index)
  {
    var init := cs[..|cs| - 1];
    if op in CandidateRefs(init) {
      CandidateRefsMembers(init, op);
      var c :| c in init && op == OutPoint(c.txid, c.index);
      assert c in cs;
    }
  }

  // ----- NewUTXOTransaction -----

  /** The outputs the inputs of a transaction reference, with multiplicity. */
  function Refs(vin: seq<TxInput>): multiset<OutPoint>
  {
    if vin == [] then multiset{}
    else Refs(vin[..|vin| - 1]) + multiset{OutPoint(vin[|vin| - 1].txid, vin[|vin| - 1].vout)}
  }

  /** What a successful `NewUTXOTransaction(from, to, amount)` builds from the
      selection `sel`: one input made by `from` per selected output, a payment
      output, a change output exactly when the selection exceeds the amount, and a
      sealed identifier. */
  ghost predicate IsTransfer(p: Primitives, gob: GobEncoder, tx: Transaction, sel: seq<Candidate>,
                             from: string, to: string, amount: int)
  {
    var acc := SumValues(sel);
    && acc >= amount
    && |tx.vout| == (if acc > amount then 2 else 1)
    && tx.vout[0] == TxOutput(amount, to)
    && (acc > amount ==> tx.vout[1] == TxOutput(acc - amount, from))
    && (forall i :: 0 <= i < |tx.vin| ==> CanUnlockOutputWith(tx.vin[i], from))
    && Refs(tx.vin) == CandidateRefs(sel)
    && IdSealed(p, gob, tx)
  }

  /** A transfer's outputs add up to the selected total: value is conserved. */
  lemma TransferConservesValue(p: Primitives, gob: GobEncoder, tx: Transaction, sel: seq<Candidate>,
                               from: string, to: string, amount: int)
    requires IsTransfer(p, gob, tx, sel, from, to, amount)
    ensures SumOutputValues(tx.vout) == SumValues(sel)
  {
    assert tx.vout[..0] == [];
    var acc := SumValues(sel);
    if acc > amount {
      var first := tx.vout[..1];
      assert first[..0] == [];
      assert SumOutputValues(first) == amount;
      assert SumOutputValues(tx.vout) == SumOutputValues(first) + (acc - amount);
    }
  }

  lemma {:induction false} RefsMembers(vin: seq<TxInput>, i: int)
    requires 0 <= i < |vin|
    ensures OutPoint(vin[i].txid, vin[i].vout) in Refs(vin)
  {
    if i < |vin| - 1 {
      RefsMembers(vin[..|vin| - 1], i);
    }
  }

  /** A transfer that spends real outputs (indices from zero up) is never mistaken
      for a coinbase transaction. */
  lemma TransferNotCoinbase(p: Primitives, gob: GobEncoder, tx: Transaction, sel: seq<Candidate>,
                            from: string, to: string, amount: int)
    requires IsTransfer(p, gob, tx, sel, from, to, amount)
    requires forall c :: c in sel ==> c.index >= 0
    ensures !IsCoinbase(tx)
  {
    if IsCoinbase(tx) {
      RefsMembers(tx.vin, 0);
      CandidateRefsMembers(sel, OutPoint(tx.vin[0].txid, tx.vin[0].vout));
    }
  }

  // ----- The funds check against the reported balance -----

  lemma {:induction false} SumValuesConcat(a: seq<Candidate>, b: seq<Candidate>)
    ensures SumValues(a + b) == SumValues(a) + SumValues(b)
  {
    if b == [] {
      assert a + b == a;
    } else {
      SumValuesConcat(a, b[..|b| - 1]);
      assert (a + b)[..|a + b| - 1] == a + b[..|b| - 1];
    }
  }

  lemma {:induction false} OutputsOfConcat(a: seq<Transaction>, b: seq<Transaction>, address: string)
    ensures OutputsOf(a + b, address) == OutputsOf(a, address) + OutputsOf(b, address)
  {
    if b == [] {
      assert a + b == a;
    } else {
      OutputsOfConcat(a, b[..|b| - 1], address);
      assert (a + b)[..|a + b| - 1] == a + b[..|b| - 1];
    }
  }

  /** One step of CandidatesFrom, by value. */
  lemma CandidatesFromStep(tx: Transaction, address: string, k: nat)
    requires k < |tx.vout|
    ensures SumValues(CandidatesFrom(tx, address, k)) ==
              (if CanBeUnlockedWith(tx.vout[k], address) then tx.vout[k].value else 0) +
              SumValues(CandidatesFrom(tx, address, k + 1))
  {
    var out := tx.vout[k];
    var head := if CanBeUnlockedWith(out, address) then [Candidate(tx.id, k, out.value)] else [];
    assert head[..0] == [];
    SumValuesConcat(head, CandidatesFrom(tx, address, k + 1));
  }

  /** One step of LockedOutputs over a growing prefix, by value. */
  lemma LockedValuesStep(vout: seq<TxOutput>, address: string, k: nat)
    requires k < |vout|
    ensures SumOutputValues(LockedOutputs(vout[..k + 1], address)) ==
              SumOutputValues(LockedOutputs(vout[..k], address)) +
              (if CanBeUnlockedWith(vout[k], address) then vout[k].value else 0)
  {
    var kept := if CanBeUnlockedWith(vout[k], address) then [vout[k]] else [];
    assert kept[..0] == [];
    assert vout[..k + 1][..k] == vout[..k];
    SumOutputValuesConcat(LockedOutputs(vout[..k], address), kept);
  }

  /** The candidates of tx from index k on carry the values of its locked
      outputs from k on. */
  lemma {:induction false} CandidatesFromValues(tx: Transaction, address: string, k: nat)
    requires k <= |tx.vout|
    ensures SumValues(CandidatesFrom(tx, address, k)) + SumOutputValues(LockedOutputs(tx.vout[..k], address))
              == SumOutputValues(LockedOutputs(tx.vout, address))
    decreases |tx.vout| - k
  {
    if k == |tx.vout| {
      assert tx.vout[..k] == tx.vout;
    } else {
      CandidatesFromValues(tx, address, k + 1);
      CandidatesFromStep(tx, address, k);
      LockedValuesStep(tx.vout, address, k);
    }
  }

  /** The candidates of a listing carry exactly the values FindUTXO returns for it. */
  lemma {:induction false} CandidatesValues(txs: seq<Transaction>, address: string)
    ensures SumValues(Candidates(txs, address)) == SumOutputValues(OutputsOf(txs, address))
  {
    if txs != [] {
      var tx, rest := txs[0], txs[1..];
      CandidatesValues(rest, address);
      CandidatesFromValues(tx, address, 0);
      assert tx.vout[..0] == [];
      SumValuesConcat(CandidatesFrom(tx, address, 0), Candidates(rest, address));
      assert txs == [tx] + rest;
      OutputsOfConcat([tx], rest, address);
      OutputsOfSingle(tx, address);
      SumOutputValuesConcat(LockedOutputs(tx.vout, address), OutputsOf(rest, address));
    }
  }

  /** The balance the handler reports is the total of every candidate the selection may take. */
  lemma BalanceIsCandidateTotal(blocks: seq<Block>, address: string)
    ensures BalanceOf(blocks, address) == SumValues(Candidates(UnspentTransactions(blocks, address), address))
  {
    CandidatesValues(UnspentTransactions(blocks, address), address);
  }

  /** With no negative values, a prefix never sums to more than the whole. */
  lemma {:induction false} PrefixSumBounded(cs: seq<Candidate>, n: nat)
    requires n <= |cs|
    requires forall c :: c in cs ==> c.value >= 0
    ensures SumValues(cs[..n]) <= SumValues(cs)
  {
    if n == |cs| {
      assert cs[..n] == cs;
    } else {
      var init := cs[..|cs| - 1];
      assert forall c :: c in init ==> c in cs;
      PrefixSumBounded(init, n);
      assert init[..n] == cs[..n];
      assert cs[|cs| - 1] in cs;
    }
  }

  /** Whatever the values, a funds error means the reported balance is below the amount. */
  lemma NotEnoughFundsBelowBalance(blocks: seq<Block>, address: string, amount: int)
    ensures Accumulated(blocks, address, amount) < amount ==> BalanceOf(blocks, address) < amount
  {
    var cs := Candidates(UnspentTransactions(blocks, address), address);
    BalanceIsCandidateTotal(blocks, address);
    if StopPoint(cs, amount) == |cs| {
      assert cs[..|cs|] == cs;
    }
  }

  /** When no candidate has a negative value, NewUTXOTransaction reports "Not
      enough funds" exactly when the amount exceeds the balance the handler reports. */
  lemma NotEnoughFundsIffBalance(blocks: seq<Block>, address: string, amount: int)
    requires forall c :: c in Candidates(UnspentTransactions(blocks, address), address) ==> c.value >= 0
    ensures Accumulated(blocks, address, amount) < amount <==> BalanceOf(blocks, address) < amount
  {
    var cs := Candidates(UnspentTransactions(blocks, address), address);
    NotEnoughFundsBelowBalance(blocks, address, amount);
    BalanceIsCandidateTotal(blocks, address);
    PrefixSumBounded(cs, StopPoint(cs, amount));
  }

  // ----- Scenarios -----

  /** The genesis chain lists its coinbase once for the recipient and not at all for anyone else. */
  lemma GenesisListing(p: Primitives, gob: GobEncoder, timestamp: string, address: string)
    ensures UnspentTransactions([NewGenesisBlock(p, gob, timestamp)], address) ==
              if address == GenesisRecipient then [NewGenesisBlock(p, gob, timestamp).transactions[0]] else []
  {
    var g := NewGenesisBlock(p, gob, timestamp);
    var cb := g.transactions[0];
    ScanStartUnique([g], 0);
    assert Scanned([g], 1) == [];
    assert Scanned([g], 0) == [cb];
    assert [cb][..0] == [];
    assert SpentThrough([cb], address) == {};
    assert cb.vout[0] == TxOutput(Subsidy, GenesisRecipient);
    assert LiveCount(cb, {}, address, 0) == 0;
    assert ScanOrder([g]) == [cb];
    assert Listing([cb], address) == [] + Copies(cb, LiveCount(cb, {}, address, 1));
    if address == GenesisRecipient {
      assert LiveCount(cb, {}, address, 1) == 1;
      assert Copies(cb, 1) == [cb];
    } else {
      assert LiveCount(cb, {}, address, 1) == 0;
    }
  }

  /** After NewBlockchain the genesis recipient holds the subsidy and nobody else holds anything. */
  lemma GenesisBalance(p: Primitives, gob: GobEncoder, timestamp: string, address: string)
    ensures BalanceOf([NewGenesisBlock(p, gob, timestamp)], address) ==
              if address == GenesisRecipient then Subsidy else 0
  {
    var g := NewGenesisBlock(p, gob, timestamp);
    var cb := g.transactions[0];
    GenesisListing(p, gob, timestamp, address);
    if address == GenesisRecipient {
      var paid := [TxOutput(Subsidy, GenesisRecipient)];
      assert cb.vout[..0] == [] && [cb][..0] == [];
      assert LockedOutputs(cb.vout, address) == paid;
      assert OutputsOf([cb], address) == [] + paid;
      assert Utxos([g], address) == paid;
      assert paid[..0] == [];
      assert SumOutputValues(paid) == Subsidy;
    }
  }

  /** A coinbase paying "Ivan" 10, then a block in which "Ivan" spends it and pays
      4 to himself with 6 in change. */
  const Minted := Transaction("c", [TxInput("", -1, "memo")], [TxOutput(10, "Ivan")])
  const SelfPay := Transaction("t", [TxInput("c", 0, "Ivan")], [TxOutput(4, "Ivan"), TxOutput(6, "Ivan")])
  const SelfPayChain := [Block("t0", [Minted], "h0", "", ""), Block("t1", [SelfPay], "h1", "h0", "0")]

  lemma SelfPaySpent()
    ensures SpentThrough([SelfPay], "Ivan") == {OutPoint("c", 0)}
    ensures SpentThrough([SelfPay, Minted], "Ivan") == {OutPoint("c", 0)}
  {
    assert [SelfPay][..0] == [];
    assert SelfPay.vin[..0] == [];
    assert Marks(SelfPay.vin, "Ivan") == {OutPoint("c", 0)};
    assert [SelfPay, Minted][..1] == [SelfPay];
  }

  /** SelfPay has two live outputs, so the scan lists it twice; the coinbase
      output it spends keeps the coinbase off the list. */
  lemma SelfPayListing()
    ensures UnspentTransactions(SelfPayChain, "Ivan") == [SelfPay, SelfPay]
  {
    var blocks := SelfPayChain;
    ScanStartUnique(blocks, 0);
    assert Scanned(blocks, 2) == [];
    assert Scanned(blocks, 1) == [SelfPay];
    assert Scanned(blocks, 0) == [SelfPay, Minted];
    SelfPaySpent();
    var txs := [SelfPay, Minted];
    assert txs[..1] == [SelfPay] && [SelfPay][..0] == [];
    assert LiveCount(SelfPay, {OutPoint("c", 0)}, "Ivan", 2) == 2;
    assert LiveCount(Minted, {OutPoint("c", 0)}, "Ivan", 1) == 0;
    assert Listing([SelfPay], "Ivan") == [SelfPay, SelfPay];
  }

  lemma {:induction false} SumOutputValuesConcat(a: seq<TxOutput>, b: seq<TxOutput>)
    ensures SumOutputValues(a + b) == SumOutputValues(a) + SumOutputValues(b)
  {
    if b == [] {
      assert a + b == a;
    } else {
      SumOutputValuesConcat(a, b[..|b| - 1]);
      assert (a + b)[..|a + b| - 1] == a + b[..|b| - 1];
    }
  }

  /** When every output is locked to the address, nothing is filtered out. */
  lemma {:induction false} AllLocked(vout: seq<TxOutput>, address: string)
    requires forall i :: 0 <= i < |vout| ==> CanBeUnlockedWith(vout[i], address)
    ensures LockedOutputs(vout, address) == vout
  {
    if vout != [] {
      AllLocked(vout[..|vout| - 1], address);
    }
  }

  lemma SelfPayOutputs()
    ensures OutputsOf([SelfPay, SelfPay], "Ivan") == SelfPay.vout + SelfPay.vout
  {
    AllLocked(SelfPay.vout, "Ivan");
    assert [SelfPay, SelfPay][..1] == [SelfPay] && [SelfPay][..0] == [];
    assert OutputsOf([SelfPay], "Ivan") == [] + SelfPay.vout;
    assert OutputsOf([SelfPay, SelfPay], "Ivan") == OutputsOf([SelfPay], "Ivan") + SelfPay.vout;
  }

  /** The balance is not the value held: each listing of SelfPay contributes both
      of its outputs, so 20 is reported where 10 exists. */
  lemma SelfPayDoubleCounted()
    ensures BalanceOf(SelfPayChain, "Ivan") == 20
  {
    SelfPayListing();
    SelfPayOutputs();
    SumOutputValuesConcat(SelfPay.vout, SelfPay.vout);
    assert SelfPay.vout[..1][..0] == [];
  }

  // ----- Scenario: a payment out of the genesis coinbase -----

  /** A sequence of inputs references one output per input. */
  lemma {:induction false} RefsSize(vin: seq<TxInput>)
    ensures |Refs(vin)| == |vin|
  {
    if vin != [] {
      RefsSize(vin[..|vin| - 1]);
    }
  }

  /** On a fresh chain, selecting any amount in (0, Subsidy] for the genesis
      recipient takes exactly the coinbase output. */
  lemma GenesisSelection(p: Primitives, gob: GobEncoder, timestamp: string, amount: int)
    requires 0 < amount <= Subsidy
    ensures Selection([NewGenesisBlock(p, gob, timestamp)], GenesisRecipient, amount) ==
              [Candidate(NewGenesisBlock(p, gob, timestamp).transactions[0].id, 0, Subsidy)]
  {
    var g := NewGenesisBlock(p, gob, timestamp);
    var cb := g.transactions[0];
    var c := Candidate(cb.id, 0, Subsidy);
    GenesisListing(p, gob, timestamp, GenesisRecipient);
    assert CandidatesFrom(cb, GenesisRecipient, 1) == [];
    assert CandidatesFrom(cb, GenesisRecipient, 0) == [c];
    assert [cb][1..] == [];
    assert Candidates([cb][1..], GenesisRecipient) == [];
    var cs := Candidates([cb], GenesisRecipient);
    assert cs == [c] + [];
    assert cs[..0] == [] && cs[..1] == cs;
    StopPointUnique(cs, amount, 1);
  }

  /** A transfer from the genesis recipient on a fresh chain spends the coinbase
      output through its only input and pays `to`, with change when the amount
      is below the subsidy. */
  lemma GenesisTransferShape(p: Primitives, gob: GobEncoder, timestamp: string, tx: Transaction,
                             to: string, amount: int)
    requires 0 < amount <= Subsidy
    requires IsTransfer(p, gob, tx, Selection([NewGenesisBlock(p, gob, timestamp)], GenesisRecipient, amount),
                        GenesisRecipient, to, amount)
    ensures tx.vin == [TxInput(NewGenesisBlock(p, gob, timestamp).transactions[0].id, 0, GenesisRecipient)]
    ensures !IsCoinbase(tx)
    ensures tx.vout == [TxOutput(amount, to)] +
                       (if amount < Subsidy then [TxOutput(Subsidy - amount, GenesisRecipient)] else [])
  {
    var cb := NewGenesisBlock(p, gob, timestamp).transactions[0];
    var c := Candidate(cb.id, 0, Subsidy);
    GenesisSelection(p, gob, timestamp, amount);
    assert [c][..0] == [];
    assert SumValues([c]) == Subsidy;
    assert CandidateRefs([c]) == multiset{OutPoint(cb.id, 0)};
    RefsSize(tx.vin);
    assert tx.vin[..0] == [];
    assert Refs(tx.vin) == multiset{OutPoint(tx.vin[0].txid, tx.vin[0].vout)};
    assert OutPoint(tx.vin[0].txid, tx.vin[0].vout) in multiset{OutPoint(cb.id, 0)};
    assert tx.vin == [TxInput(cb.id, 0, GenesisRecipient)];
    if amount < Subsidy {
      assert tx.vout == [tx.vout[0], tx.vout[1]];
    } else {
      assert tx.vout == [tx.vout[0]];
    }
  }

  /** The listing of two visited transactions, one after the other. */
  lemma ListingPair(x: Transaction, y: Transaction, address: string)
    ensures Listing([x, y], address) ==
              Copies(x, LiveCount(x, SpentThrough([x], address), address, |x.vout|)) +
              Copies(y, LiveCount(y, SpentThrough([x, y], address), address, |y.vout|))
  {
    assert [x, y][..1] == [x] && [x][..0] == [];
    assert Listing([x], address) ==
             [] + Copies(x, LiveCount(x, SpentThrough([x], address), address, |x.vout|));
  }

  /** The outputs of a single listed transaction that FindUTXO returns. */
  lemma OutputsOfSingle(tx: Transaction, address: string)
    ensures OutputsOf([tx], address) == LockedOutputs(tx.vout, address)
  {
    assert [tx][..0] == [];
  }

  /** On a fresh chain followed by a one-transaction block, the scan visits that
      transaction and then the coinbase. */
  lemma PaymentScanOrder(p: Primitives, gob: GobEncoder, timestamp: string, b1: Block, tx: Transaction)
    requires b1.transactions == [tx]
    ensures ScanOrder([NewGenesisBlock(p, gob, timestamp), b1]) ==
              [tx, NewGenesisBlock(p, gob, timestamp).transactions[0]]
  {
    var g := NewGenesisBlock(p, gob, timestamp);
    var blocks := [g, b1];
    ScanStartUnique(blocks, 0);
    assert Scanned(blocks, 2) == [];
    assert Scanned(blocks, 1) == [tx];
    assert Scanned(blocks, 0) == [tx] + [g.transactions[0]];
  }

  /** The transfer marks the coinbase output as spent for the genesis recipient,
      and nothing for "Bob". */
  lemma PaymentSpent(p: Primitives, gob: GobEncoder, timestamp: string, tx: Transaction, amount: int)
    requires 0 < amount <= Subsidy
    requires IsTransfer(p, gob, tx, Selection([NewGenesisBlock(p, gob, timestamp)], GenesisRecipient, amount),
                        GenesisRecipient, "Bob", amount)
    ensures SpentThrough([tx], "Bob") == {}
    ensures SpentThrough([tx, NewGenesisBlock(p, gob, timestamp).transactions[0]], "Bob") == {}
    ensures SpentThrough([tx], GenesisRecipient) == {OutPoint(NewGenesisBlock(p, gob, timestamp).transactions[0].id, 0)}
    ensures SpentThrough([tx, NewGenesisBlock(p, gob, timestamp).transactions[0]], GenesisRecipient) ==
              {OutPoint(NewGenesisBlock(p, gob, timestamp).transactions[0].id, 0)}
  {
    var cb := NewGenesisBlock(p, gob, timestamp).transactions[0];
    GenesisTransferShape(p, gob, timestamp, tx, "Bob", amount);
    assert [tx, cb][..1] == [tx] && [tx][..0] == [];
    assert tx.vin[..0] == [];
    assert Marks(tx.vin, "Bob") == {};
    assert Marks(tx.vin, GenesisRecipient) == {OutPoint(cb.id, 0)};
  }

  /** After the genesis recipient pays `amount` to "Bob" in the block after
      genesis, the scan lists the payment once for "Bob", and once for the
      genesis recipient exactly when there is change; the spent coinbase is
      listed for nobody. */
  lemma PaymentListing(p: Primitives, gob: GobEncoder, timestamp: string, b1: Block, tx: Transaction, amount: int)
    requires 0 < amount <= Subsidy
    requires IsTransfer(p, gob, tx, Selection([NewGenesisBlock(p, gob, timestamp)], GenesisRecipient, amount),
                        GenesisRecipient, "Bob", amount)
    requires b1.transactions == [tx]
    ensures UnspentTransactions([NewGenesisBlock(p, gob, timestamp), b1], "Bob") == [tx]
    ensures UnspentTransactions([NewGenesisBlock(p, gob, timestamp), b1], GenesisRecipient) ==
              if amount < Subsidy then [tx] else []
  {
    var cb := NewGenesisBlock(p, gob, timestamp).transactions[0];
    var spent := {OutPoint(cb.id, 0)};
    GenesisTransferShape(p, gob, timestamp, tx, "Bob", amount);
    PaymentScanOrder(p, gob, timestamp, b1, tx);
    PaymentSpent(p, gob, timestamp, tx, amount);
    ListingPair(tx, cb, "Bob");
    ListingPair(tx, cb, GenesisRecipient);
    assert LiveCount(cb, {}, "Bob", 1) == 0;
    assert LiveCount(cb, spent, GenesisRecipient, 1) == 0;
    assert LiveCount(tx, {}, "Bob", 1) == 1;
    assert LiveCount(tx, spent, GenesisRecipient, 1) == 0;
    assert Copies(tx, 1) == [tx];
    if amount < Subsidy {
      assert LiveCount(tx, {}, "Bob", 2) == 1;
      assert LiveCount(tx, spent, GenesisRecipient, 2) == 1;
    }
  }

  /** The outputs of the payment locked to each party. */
  lemma PaymentOutputs(tx: Transaction, amount: int)
    requires tx.vout == [TxOutput(amount, "Bob")] +
                        (if amount < Subsidy then [TxOutput(Subsidy - amount, GenesisRecipient)] else [])
    ensures LockedOutputs(tx.vout, "Bob") == [TxOutput(amount, "Bob")]
    ensures LockedOutputs(tx.vout, GenesisRecipient) ==
              if amount < Subsidy then [TxOutput(Subsidy - amount, GenesisRecipient)] else []
  {
    var o1 := TxOutput(amount, "Bob");
    assert [o1][..0] == [];
    assert LockedOutputs([o1], "Bob") == [o1];
    assert LockedOutputs([o1], GenesisRecipient) == [];
    if amount < Subsidy {
      var o2 := TxOutput(Subsidy - amount, GenesisRecipient);
      assert tx.vout == [o1, o2];
      assert tx.vout[..1] == [o1];
    } else {
      assert tx.vout == [o1];
    }
  }

  /** What FindUTXO returns for each party after the payment. */
  lemma PaymentUtxos(p: Primitives, gob: GobEncoder, timestamp: string, b1: Block, tx: Transaction, amount: int)
    requires 0 < amount <= Subsidy
    requires IsTransfer(p, gob, tx, Selection([NewGenesisBlock(p, gob, timestamp)], GenesisRecipient, amount),
                        GenesisRecipient, "Bob", amount)
    requires b1.transactions == [tx]
    ensures Utxos([NewGenesisBlock(p, gob, timestamp), b1], "Bob") == [TxOutput(amount, "Bob")]
    ensures Utxos([NewGenesisBlock(p, gob, timestamp), b1], GenesisRecipient) ==
              if amount < Subsidy then [TxOutput(Subsidy - amount, GenesisRecipient)] else []
  {
    PaymentListing(p, gob, timestamp, b1, tx, amount);
    assert tx.vout == [TxOutput(amount, "Bob")] +
                      (if amount < Subsidy then [TxOutput(Subsidy - amount, GenesisRecipient)] else []) by {
      GenesisTransferShape(p, gob, timestamp, tx, "Bob", amount);
    }
    PaymentOutputs(tx, amount);
    OutputsOfSingle(tx, "Bob");
    OutputsOfSingle(tx, GenesisRecipient);
  }

  /** Scenario of a payment: afterwards "Bob" holds the amount and the genesis
      recipient the rest of the subsidy. */
  lemma PaymentBalances(p: Primitives, gob: GobEncoder, timestamp: string, b1: Block, tx: Transaction, amount: int)
    requires 0 < amount <= Subsidy
    requires IsTransfer(p, gob, tx, Selection([NewGenesisBlock(p, gob, timestamp)], GenesisRecipient, amount),
                        GenesisRecipient, "Bob", amount)
    requires b1.transactions == [tx]
    ensures BalanceOf([NewGenesisBlock(p, gob, timestamp), b1], "Bob") == amount
    ensures BalanceOf([NewGenesisBlock(p, gob, timestamp), b1], GenesisRecipient) == Subsidy - amount
  {
    var blocks := [NewGenesisBlock(p, gob, timestamp), b1];
    PaymentUtxos(p, gob, timestamp, b1, tx, amount);
    var paid := [TxOutput(amount, "Bob")];
    var change := [TxOutput(Subsidy - amount, GenesisRecipient)];
    assert paid[..0] == [] && change[..0] == [];
    assert SumOutputValues(paid) == amount;
    assert SumOutputValues(change) == Subsidy - amount;
    assert BalanceOf(blocks, "Bob") == SumOutputValues(paid);
    if amount < Subsidy {
      assert BalanceOf(blocks, GenesisRecipient) == SumOutputValues(change);
    } else {
      assert BalanceOf(blocks, GenesisRecipient) == SumOutputValues([]);
    }
  }
}
