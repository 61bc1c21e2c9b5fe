/** core/blockchain.go: the fields of stored receipts that follow from the block. */
module Receipts {
  import Gas

  const UINT64: nat := 0x1_0000_0000_0000_0000

  type Uint64 = x: nat | x < UINT64 witness 0

  datatype Log = Log(payload: nat, blockNumber: nat, blockHash: nat, txHash: nat, txIndex: nat, index: nat)

  datatype Receipt = Receipt(cumulativeGasUsed: Uint64, gasUsed: Uint64, txHash: nat, contractAddress: nat,
                             logs: seq<Log>)

  /** A transaction's hash, and the address of the contract it creates, if any. */
  datatype Tx = Tx(hash: nat, creates: bool, address: nat)

  /** The number of logs of the first j receipts. */
  ghost function LogsBefore(rs: seq<Receipt>, j: nat): nat
    requires j <= |rs|
    decreases j
  {
    if j == 0 then 0 else LogsBefore(rs, j - 1) + |rs[j - 1].logs|
  }

  function Placed(log: Log, number: nat, block: nat, tx: nat, j: nat, index: nat): Log {
    Log(log.payload, number, block, tx, j, index)
  }

  /** Receipt j with its derived fields, the others untouched. */
  ghost predicate DerivedAt(before: seq<Receipt>, after: Receipt, txs: seq<Tx>, number: nat, block: nat, j: nat)
    requires j < |before| == |txs|
  {
    var r := before[j];
    && after.cumulativeGasUsed == r.cumulativeGasUsed
    && after.gasUsed == (r.cumulativeGasUsed - if j == 0 then 0 else before[j - 1].cumulativeGasUsed) % UINT64
    && after.txHash == txs[j].hash
    && after.contractAddress == (if txs[j].creates then txs[j].address else r.contractAddress)
    && PlacedAll(r.logs, after.logs, number, block, txs[j].hash, j, LogsBefore(before, j))
  }

  /** The logs of a receipt with their block and transaction, numbered from the given index. */
  ghost predicate PlacedAll(before: seq<Log>, after: seq<Log>, number: nat, block: nat, tx: nat, j: nat, first: nat) {
    && |after| == |before|
    && forall k :: 0 <= k < |before| ==> after[k] == Log(before[k].payload, number, block, tx, j, first + k)
  }

  /** The inner loop: sets the fields of one receipt's logs. */
  method PlaceLogs(before: seq<Log>, number: nat, block: nat, tx: nat, j: nat, first: nat)
    returns (logs: seq<Log>, next: nat)
    ensures PlacedAll(before, logs, number, block, tx, j, first) && next == first + |before|
  {
    logs, next := before, first;
    var k := 0;
    while k < |logs|
      invariant 0 <= k <= |logs| == |before| && next == first + k
      invariant forall i :: 0 <= i < k ==> logs[i] == Placed(before[i], number, block, tx, j, first + i)
      invariant forall i :: k <= i < |logs| ==> logs[i] == before[i]
    {
      logs := logs[k := Placed(logs[k], number, block, tx, j, next)];
      next := next + 1;
      k := k + 1;
    }
  }

  /** SetReceiptsData works on the receipts in place; it fails, changing nothing, just if their
      number is not the transactions'. */
  method SetReceiptsData(number: nat, block: nat, txs: seq<Tx>, receipts: array<Receipt>) returns (ok: bool)
    modifies receipts
    ensures ok <==> |txs| == receipts.Length
    ensures !ok ==> receipts[..] == old(receipts[..])
    ensures ok ==>
      forall j :: 0 <= j < receipts.Length ==> DerivedAt(old(receipts[..]), receipts[j], txs, number, block, j)
  {
    ok := |txs| == receipts.Length;
    if !ok {
      return;
    }
    hide PlacedAll;
    ghost var before := receipts[..];
    var logIndex := 0;
    var j := 0;
    while j < receipts.Length
      invariant 0 <= j <= receipts.Length && logIndex == LogsBefore(before, j)
      invariant forall i :: 0 <= i < j ==> DerivedAt(before, receipts[i], txs, number, block, i)
      invariant forall i :: j <= i < receipts.Length ==> receipts[i] == before[i]
    {
      var used := receipts[j].cumulativeGasUsed;
      if j > 0 {
        assert DerivedAt(before, receipts[j - 1], txs, number, block, j - 1);
        used := (receipts[j].cumulativeGasUsed - receipts[j - 1].cumulativeGasUsed) % UINT64;
      }
      var contract := if txs[j].creates then txs[j].address else receipts[j].contractAddress;
      var logs;
      logs, logIndex := PlaceLogs(receipts[j].logs, number, block, txs[j].hash, j, logIndex);
      receipts[j] := Receipt(receipts[j].cumulativeGasUsed, used, txs[j].hash, contract, logs);
      assert DerivedAt(before, receipts[j], txs, number, block, j);
      j := j + 1;
    }
  }

  /** Of receipts that the processing of a block made, the gas used comes back as it was. */
  lemma GasRecovered(made: seq<Gas.Receipt>, before: seq<Receipt>, after: Receipt, txs: seq<Tx>, number: nat,
                     block: nat, j: nat)
    requires Gas.Cumulative(made) && |made| == |before| == |txs| && j < |made|
    requires forall i :: 0 <= i < |made| ==> before[i].cumulativeGasUsed == made[i].cumulativeGasUsed
    requires DerivedAt(before, after, txs, number, block, j)
    ensures after.gasUsed == made[j].gasUsed
  {
    Gas.UsedIsDifference(made, j);
  }

  ghost function AllLogs(rs: seq<Receipt>): seq<Log>
    decreases |rs|
  {
    if rs == [] then [] else AllLogs(rs[..|rs| - 1]) + rs[|rs| - 1].logs
  }

  /** The logs of the whole block are numbered consecutively from zero, across its receipts. */
  lemma {:induction false} LogsNumbered(before: seq<Receipt>, after: seq<Receipt>, txs: seq<Tx>, number: nat,
                                        block: nat, n: nat)
    requires |before| == |after| == |txs| && n <= |after|
    requires forall j :: 0 <= j < |after| ==> DerivedAt(before, after[j], txs, number, block, j)
    ensures |AllLogs(after[..n])| == LogsBefore(before, n)
    ensures forall p :: 0 <= p < |AllLogs(after[..n])| ==> AllLogs(after[..n])[p].index == p
    decreases n
  {
    if n > 0 {
      LogsNumbered(before, after, txs, number, block, n - 1);
      assert after[..n][..n - 1] == after[..n - 1];
      assert DerivedAt(before, after[n - 1], txs, number, block, n - 1);
    }
  }
}
