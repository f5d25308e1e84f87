/** The base of the intermediate-results post-processors: the per-block map of
    intermediate results (hash to result and shard pair), the miniblock created
    for this shard, and the operations that save, marshal, filter and verify
    them. The marshaller, the hasher and the storer are parameters. */
module PostProcess {
  import opened Common

  /** The hashes `CreateMarshalizedData` marshals: those with an entry that
      holds a result, in the given order. */
  function Kept(txHashes: seq<Bytes>, info: map<Bytes, TxInfo>): (r: seq<Bytes>)
    ensures forall i :: 0 <= i < |r| ==> r[i] in info && info[r[i]].tx.Some?
    ensures |r| <= |txHashes|
    decreases |txHashes|
  {
    if txHashes == [] then []
    else
      var last := txHashes[|txHashes| - 1];
      Kept(txHashes[..|txHashes| - 1], info) + (if last in info && info[last].tx.Some? then [last] else [])
  }

  /** `CreateMarshalizedData`: the marshalled results of the kept hashes, in
      order; any marshalling failure is reported as `ErrMarshalWithoutSuccess`. */
  function MarshalizedData(txHashes: seq<Bytes>, info: map<Bytes, TxInfo>, marshal: Transaction -> Result<Bytes, Error>)
    : (r: Result<seq<Bytes>, Error>)
    ensures r.Err? ==> r.error == ErrMarshalWithoutSuccess
    ensures r.Ok? ==> |r.value| == |Kept(txHashes, info)| <= |txHashes|
    decreases |txHashes|
  {
    if txHashes == [] then Ok([])
    else
      var init := txHashes[..|txHashes| - 1];
      var last := txHashes[|txHashes| - 1];
      var prefix := MarshalizedData(init, info, marshal);
      if prefix.Err? then prefix
      else if last !in info || info[last].tx.None? then prefix
      else match marshal(info[last].tx.value)
        case Err(_) => Err(ErrMarshalWithoutSuccess)
        case Ok(buff) => Ok(prefix.value + [buff])
  }

  /** A hash is kept exactly when it is listed and its entry holds a result. */
  lemma {:induction false} KeptMembers(txHashes: seq<Bytes>, info: map<Bytes, TxInfo>)
    ensures forall h :: h in Kept(txHashes, info) <==> h in txHashes && h in info && info[h].tx.Some?
    decreases |txHashes|
  {
    if txHashes != [] {
      KeptMembers(txHashes[..|txHashes| - 1], info);
      assert txHashes == txHashes[..|txHashes| - 1] + [txHashes[|txHashes| - 1]];
    }
  }

  /** On success, buffer i is the marshalled result of the i-th kept hash. */
  lemma {:induction false} MarshalizedDataValues(txHashes: seq<Bytes>, info: map<Bytes, TxInfo>,
                                                 marshal: Transaction -> Result<Bytes, Error>)
    ensures var r := MarshalizedData(txHashes, info, marshal);
      r.Ok? ==> forall i :: 0 <= i < |r.value| ==> Ok(r.value[i]) == marshal(info[Kept(txHashes, info)[i]].tx.value)
    decreases |txHashes|
  {
    if txHashes != [] {
      MarshalizedDataValues(txHashes[..|txHashes| - 1], info, marshal);
    }
  }

  /** Marshalling succeeds exactly when every kept result marshals. */
  lemma {:induction false} MarshalizedDataOk(txHashes: seq<Bytes>, info: map<Bytes, TxInfo>,
                                             marshal: Transaction -> Result<Bytes, Error>)
    ensures MarshalizedData(txHashes, info, marshal).Ok? <==>
      forall h :: h in Kept(txHashes, info) ==> marshal(info[h].tx.value).Ok?
    decreases |txHashes|
  {
    if txHashes != [] {
      MarshalizedDataOk(txHashes[..|txHashes| - 1], info, marshal);
    }
  }

  /** `verifyMiniBlock`: the miniblock created for the received miniblock's
      receiver shard must exist and hash the same as the received one. */
  function VerifyMiniBlock(createdMbs: map<ShardId, MiniBlock>, mb: MiniBlock,
                           calculateHash: MiniBlock -> Result<Bytes, Error>): (r: Option<Error>)
    ensures mb.receiverShardId !in createdMbs ==> r == Some(ErrNilMiniBlocks)
    ensures mb.receiverShardId in createdMbs && calculateHash(createdMbs[mb.receiverShardId]).Err? ==>
      r == Some(calculateHash(createdMbs[mb.receiverShardId]).error)
    ensures mb.receiverShardId in createdMbs && calculateHash(createdMbs[mb.receiverShardId]).Ok? &&
            calculateHash(mb).Err? ==>
      r == Some(calculateHash(mb).error)
    ensures (mb.receiverShardId in createdMbs && calculateHash(createdMbs[mb.receiverShardId]).Ok? &&
             calculateHash(mb).Ok?) ==>
      (r == Some(ErrMiniBlockHashMismatch) <==> calculateHash(createdMbs[mb.receiverShardId]) != calculateHash(mb)) &&
      (r.None? <==> calculateHash(createdMbs[mb.receiverShardId]) == calculateHash(mb))
  {
    if mb.receiverShardId !in createdMbs then Some(ErrNilMiniBlocks)
    else
      var createdHash := calculateHash(createdMbs[mb.receiverShardId]);
      if createdHash.Err? then Some(createdHash.error)
      else
        var receivedHash := calculateHash(mb);
        if receivedHash.Err? then Some(receivedHash.error)
        else if createdHash.value != receivedHash.value then Some(ErrMiniBlockHashMismatch)
        else None
  }

  /** A miniblock verifies against the one this shard created for the same
      receiver exactly when it is that one, provided hashing succeeds and
      tells miniblocks apart. */
  lemma VerifyMiniBlockIdentical(createdMbs: map<ShardId, MiniBlock>, mb: MiniBlock,
                                 calculateHash: MiniBlock -> Result<Bytes, Error>)
    requires mb.receiverShardId in createdMbs
    requires calculateHash(mb).Ok? && calculateHash(createdMbs[mb.receiverShardId]).Ok?
    requires forall a, b :: calculateHash(a).Ok? && calculateHash(a) == calculateHash(b) ==> a == b
    ensures VerifyMiniBlock(createdMbs, mb, calculateHash).None? <==> createdMbs[mb.receiverShardId] == mb
  {
  }

  /** One result of the map as the saver sees it: marshalled, or the reason it
      cannot be. */
  function Marshalled(v: TxInfo, marshal: Transaction -> Result<Bytes, Error>): Result<Bytes, Error> {
    if v.tx.None? then Err(ErrMissingTransaction) else marshal(v.tx.value)
  }

  /** A result produced and consumed within this shard. */
  predicate FinishedHere(v: TxInfo, selfId: ShardId) {
    v.senderShardId == selfId && v.receiverShardId == selfId
  }

  /** A write to the storage unit: key (the hash of the buffer) and buffer. */
  datatype Put = Put(key: Bytes, buff: Bytes)

  class BasePostProcessor {
    const selfId: ShardId
    var interResultsForBlock: map<Bytes, TxInfo>
    var intraShardMiniBlock: Option<MiniBlock>

    constructor(selfId: ShardId)
      ensures this.selfId == selfId && interResultsForBlock == map[] && intraShardMiniBlock.None?
    {
      this.selfId := selfId;
      interResultsForBlock := map[];
      intraShardMiniBlock := None;
    }

    /** `CreateBlockStarted`: no intermediate results and no created
        miniblock at the start of a block. */
    method CreateBlockStarted()
      modifies this
      ensures interResultsForBlock == map[] && intraShardMiniBlock.None?
    {
      interResultsForBlock := map[];
      intraShardMiniBlock := None;
    }

    /** `SaveCurrentIntermediateTxToStorage`: marshals every result of the map
        (in the map's unspecified order) and puts it under its hash; a missing
        result or a marshalling error stops it, a failed put does not. */
    method SaveCurrentIntermediateTxToStorage(marshal: Transaction -> Result<Bytes, Error>, hash: Bytes -> Bytes,
                                              store: Put -> Option<Error>)
      returns (err: Option<Error>, puts: seq<Put>)
      ensures err.None? <==> forall k :: k in interResultsForBlock ==> Marshalled(interResultsForBlock[k], marshal).Ok?
      ensures err.Some? ==> exists k :: k in interResultsForBlock && Marshalled(interResultsForBlock[k], marshal) == Err(err.value)
      ensures err.None? ==> forall k :: k in interResultsForBlock ==>
        var buff := Marshalled(interResultsForBlock[k], marshal).value;
        Put(hash(buff), buff) in puts
      ensures forall p :: p in puts ==> exists k :: (k in interResultsForBlock &&
        Marshalled(interResultsForBlock[k], marshal) == Ok(p.buff) && p.key == hash(p.buff))
    {
      puts := [];
      var remaining := interResultsForBlock.Keys;
      while remaining != {}
        invariant remaining <= interResultsForBlock.Keys
        invariant forall k :: k in interResultsForBlock && k !in remaining ==>
          Marshalled(interResultsForBlock[k], marshal).Ok? &&
          Put(hash(Marshalled(interResultsForBlock[k], marshal).value), Marshalled(interResultsForBlock[k], marshal).value) in puts
        invariant forall p :: p in puts ==> exists k :: (k in interResultsForBlock &&
          Marshalled(interResultsForBlock[k], marshal) == Ok(p.buff) && p.key == hash(p.buff))
        decreases remaining
      {
        var k :| k in remaining;
        var v := interResultsForBlock[k];
        if v.tx.None? {
          return Some(ErrMissingTransaction), puts;
        }
        var buff := marshal(v.tx.value);
        if buff.Err? {
          return Some(buff.error), puts;
        }
        var p := Put(hash(buff.value), buff.value);
        var errNotCritical := store(p);
        puts := puts + [p];
        remaining := remaining - {k};
      }
      return None, puts;
    }

    /** `CreateMarshalizedData`. */
    method CreateMarshalizedData(txHashes: seq<Bytes>, marshal: Transaction -> Result<Bytes, Error>)
      returns (r: Result<seq<Bytes>, Error>)
      ensures r == MarshalizedData(txHashes, interResultsForBlock, marshal)
    {
      var mrsTxs := [];
      var i := 0;
      while i < |txHashes|
        invariant 0 <= i <= |txHashes|
        invariant MarshalizedData(txHashes[..i], interResultsForBlock, marshal) == Ok(mrsTxs)
      {
        assert txHashes[..i + 1][..i] == txHashes[..i];
        var txHash := txHashes[i];
        if txHash in interResultsForBlock && interResultsForBlock[txHash].tx.Some? {
          var txMrs := marshal(interResultsForBlock[txHash].tx.value);
          if txMrs.Err? {
            MarshalizedDataPrefix(txHashes, i + 1, interResultsForBlock, marshal);
            return Err(ErrMarshalWithoutSuccess);
          }
          mrsTxs := mrsTxs + [txMrs.value];
        }
        i := i + 1;
      }
      assert txHashes[..i] == txHashes;
      return Ok(mrsTxs);
    }

    /** `GetAllCurrentFinishedTxs`: the results sent from this shard to
        itself. */
    method GetAllCurrentFinishedTxs() returns (scrPool: map<Bytes, Option<Transaction>>)
      ensures forall h :: h in scrPool <==> h in interResultsForBlock && FinishedHere(interResultsForBlock[h], selfId)
      ensures forall h :: h in scrPool ==> scrPool[h] == interResultsForBlock[h].tx
    {
      scrPool := map[];
      var remaining := interResultsForBlock.Keys;
      while remaining != {}
        invariant remaining <= interResultsForBlock.Keys
        invariant forall h :: h in scrPool <==>
          h in interResultsForBlock && h !in remaining && FinishedHere(interResultsForBlock[h], selfId)
        invariant forall h :: h in scrPool ==> scrPool[h] == interResultsForBlock[h].tx
        decreases remaining
      {
        var h :| h in remaining;
        var v := interResultsForBlock[h];
        if v.receiverShardId == selfId && v.senderShardId == selfId {
          scrPool := scrPool[h := v.tx];
        }
        remaining := remaining - {h};
      }
    }

    /** `GetCreatedInShardMiniBlock`: nothing when no miniblock was created,
        otherwise a copy of it. */
    method GetCreatedInShardMiniBlock() returns (mb: Option<MiniBlock>)
      ensures intraShardMiniBlock.None? ==> mb.None?
      ensures intraShardMiniBlock.Some? ==> mb == intraShardMiniBlock
    {
      if intraShardMiniBlock.None? {
        return None;
      }
      var created := intraShardMiniBlock.value;
      return Some(MiniBlock(created.txHashes, created.receiverShardId, created.senderShardId, created.mbType));
    }
  }

  /** Once marshalling a prefix fails, marshalling every longer prefix fails. */
  lemma {:induction false} MarshalizedDataPrefix(txHashes: seq<Bytes>, n: nat, info: map<Bytes, TxInfo>,
                                                 marshal: Transaction -> Result<Bytes, Error>)
    requires n <= |txHashes|
    ensures MarshalizedData(txHashes, info, marshal).Ok? ==> MarshalizedData(txHashes[..n], info, marshal).Ok?
    decreases |txHashes| - n
  {
    if n < |txHashes| {
      MarshalizedDataPrefix(txHashes, n + 1, info, marshal);
      assert txHashes[..n + 1][..n] == txHashes[..n];
    } else {
      assert txHashes[..n] == txHashes;
    }
  }
}
