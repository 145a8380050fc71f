/** blockchain/contracts/MessageFidelity.sol: the write-once record store and its Merkle check, and why that
    check agrees with the one in blockchain/src/merkle.ts although it orders siblings as numbers. */
module FidelityContract {
  import opened Hexadecimal
  import opened Merkle
  import opened Wrappers

  datatype FidelityRecord = FidelityRecord(contentHash: Node, anchoredAt: nat)

  datatype ContractError = UnauthorizedWriter | RecordAlreadyAnchored | RecordNotFound

  type Records = map<Node, FidelityRecord>

  /** A record exists when its timestamp is not zero. */
  predicate HasRecord(records: Records, id: Node) { id in records && records[id].anchoredAt != 0 }

  datatype StoreCall = StoreCall(sender: string, recordId: Node, contentHash: Node, timestamp: nat)

  function Stored(records: Records, owner: string, c: StoreCall): Result<Records, ContractError> {
    if c.sender != owner then Err(UnauthorizedWriter)
    else if HasRecord(records, c.recordId) then Err(RecordAlreadyAnchored)
    else Ok(records[c.recordId := FidelityRecord(c.contentHash, c.timestamp)])
  }

  class MessageFidelity {
    const owner: string
    var records: Records

    constructor (deployer: string)
      ensures owner == deployer && records == map[]
    {
      owner := deployer;
      records := map[];
    }

    /** A reverting call leaves the records alone. */
    method StoreHash(c: StoreCall) returns (r: Result<(), ContractError>)
      modifies this
      ensures match Stored(old(records), owner, c)
              case Ok(next) => r.Ok? && records == next
              case Err(reason) => r == Err(reason) && records == old(records)
      ensures r.Ok? <==> c.sender == owner && !(c.recordId in old(records) && old(records)[c.recordId].anchoredAt != 0)
      ensures r.Ok? ==> records == old(records)[c.recordId := FidelityRecord(c.contentHash, c.timestamp)]
      ensures r.Err? ==> records == old(records)
                         && r.error == if c.sender != owner then UnauthorizedWriter else RecordAlreadyAnchored
    {
      if c.sender != owner {
        return Err(UnauthorizedWriter);
      }
      if HasRecord(records, c.recordId) {
        return Err(RecordAlreadyAnchored);
      }
      var now := c.timestamp;
      records := records[c.recordId := FidelityRecord(c.contentHash, now)];
      r := Ok(());
    }

    method GetHash(recordId: Node) returns (r: Result<FidelityRecord, ContractError>)
      ensures r.Ok? <==> HasRecord(records, recordId)
      ensures r.Ok? ==> r.value == records[recordId]
      ensures r.Err? ==> r.error == RecordNotFound
    {
      if !HasRecord(records, recordId) {
        return Err(RecordNotFound);
      }
      r := Ok(records[recordId]);
    }

    method VerifyMessageInHistory(h: Hash, recordId: Node, leaf: Node, proof: seq<Node>)
      returns (r: Result<bool, ContractError>)
      ensures r.Ok? <==> HasRecord(records, recordId)
      ensures r.Ok? ==> r.value == Verifies(h, records[recordId].contentHash, leaf, proof)
    {
      var record := GetHash(recordId);
      if record.Err? {
        return Err(record.error);
      }
      var ok := VerifyOnChain(h, leaf, record.value.contentHash, proof);
      r := Ok(ok);
    }
  }

  // ---- write once ----

  function AfterCalls(records: Records, owner: string, calls: seq<StoreCall>): Records
    decreases |calls|
  {
    if calls == [] then records
    else
      var next := match Stored(records, owner, calls[0]) case Ok(s) => s case Err(_) => records;
      AfterCalls(next, owner, calls[1..])
  }

  /** Whoever calls what, an existing record keeps its hash and its timestamp for ever. */
  lemma {:induction false} RecordsAreWriteOnce(records: Records, owner: string, calls: seq<StoreCall>, id: Node)
    requires HasRecord(records, id)
    ensures HasRecord(AfterCalls(records, owner, calls), id)
    ensures AfterCalls(records, owner, calls)[id] == records[id]
    decreases |calls|
  {
    if calls != [] {
      var next := match Stored(records, owner, calls[0]) case Ok(s) => s case Err(_) => records;
      RecordsAreWriteOnce(next, owner, calls[1..], id);
    }
  }

  predicate KeptBy(records: Records, owner: string, calls: seq<StoreCall>, id: Node, record: FidelityRecord) {
    var after := AfterCalls(records, owner, calls);
    id in after && after[id] == record
  }

  /** A successful store is permanent exactly when its block carries a non-zero timestamp. */
  lemma StoreIsPermanent(records: Records, owner: string, c: StoreCall)
    requires Stored(records, owner, c).Ok?
    ensures var next, record := Stored(records, owner, c).value, FidelityRecord(c.contentHash, c.timestamp);
      c.timestamp != 0 <==> forall calls :: KeptBy(next, owner, calls, c.recordId, record)
  {
    var next, record := Stored(records, owner, c).value, FidelityRecord(c.contentHash, c.timestamp);
    if c.timestamp != 0 {
      forall calls ensures KeptBy(next, owner, calls, c.recordId, record) {
        RecordsAreWriteOnce(next, owner, calls, c.recordId);
      }
    } else {
      var again := StoreCall(owner, c.recordId, c.contentHash, 1);
      var after := next[c.recordId := FidelityRecord(c.contentHash, 1)];
      assert Stored(next, owner, again) == Ok(after);
      assert AfterCalls(next, owner, [again]) == after;
      assert !KeptBy(next, owner, [again], c.recordId, record);
    }
  }

  // ---- the order of siblings ----

  /** bytes32 compared as the EVM compares it. */
  predicate NumericLe(a: Node, b: Node) { Number(a[2..]) <= Number(b[2..]) }

  lemma NodeOrder(a: Node, b: Node)
    ensures LexLe(a, b) <==> NumericLe(a, b)
  {
    NodeLexIsNumeric(a, b);
  }

  /** verifyMerkleProof of the contract decides what the TypeScript verifier decides. */
  method VerifyOnChain(h: Hash, leaf: Node, merkleRoot: Node, proof: seq<Node>) returns (ok: bool)
    ensures ok == Verifies(h, merkleRoot, leaf, proof)
  {
    hide LexLe, NumericLe, Pack;
    var computed := leaf;
    assert proof[0..] == proof;
    assert LowerNode(leaf) == leaf && Lower(merkleRoot) == merkleRoot;
    for i := 0 to |proof|
      invariant Fold(h, computed, proof[i..]) == Fold(h, leaf, proof)
    {
      var proofElement := proof[i];
      NodeOrder(computed, proofElement);
      assert proof[i..][1..] == proof[i + 1..];
      if NumericLe(computed, proofElement) {
        computed := h(Pack(computed, proofElement));
      } else {
        computed := h(Pack(proofElement, computed));
      }
    }
    ok := computed == merkleRoot;
  }
}
