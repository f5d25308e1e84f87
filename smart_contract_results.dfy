/** The smart-contract-result preprocessor of the block processing package: the
    per-block bookkeeping map from result hash to (result, shard pair), which
    miniblocks of a block body it acts on, how it records missing results,
    processes miniblocks and counts what it restores or requests.

    The pools, the storer, the marshaller, the hasher, the result processor,
    the gas handler and the shared base-preprocessor helpers are collaborators
    outside this model; each enters as a function-valued parameter. `haveTime`
    is a function of how many times it has been consulted in the call. */
module SmartContractResults {
  import opened Common

  /** Hashes of one miniblock that are still missing, with the miniblock's
      receiver shard, as the shared missing-transaction computation groups
      them by sender shard. */
  datatype TxsHashesInfo = TxsHashesInfo(txHashes: seq<Bytes>, receiverShardId: ShardId)

  /** What the shared `computeExistingAndMissing` helper leaves behind: the
      missing hashes by sender shard, the updated bookkeeping map and the
      updated count of missing results. */
  datatype MissingReport = MissingReport(
    missing: map<ShardId, seq<TxsHashesInfo>>,
    txHashAndInfo: map<Bytes, TxInfo>,
    missingTxs: int)

  /** One call of the request callback: the shard asked and the hashes asked for. */
  datatype Request = Request(shardId: ShardId, txHashes: seq<Bytes>)

  /** The state threaded through block processing: the error that stopped it
      (if any), the bookkeeping map and the number of `haveTime` calls so far. */
  datatype Progress = Progress(err: Option<Error>, info: map<Bytes, TxInfo>, calls: nat)

  predicate IsScrBlock(mb: MiniBlock) {
    mb.mbType == SmartContractResultBlock
  }

  /** Results are processed and stored only at their destination, and only
      when they come from another shard. */
  predicate ProcessedHere(mb: MiniBlock, selfId: ShardId) {
    IsScrBlock(mb) && mb.receiverShardId == selfId && mb.senderShardId != selfId
  }

  /** Results are looked for (and requested) whenever another shard sent
      them, whatever their receiver. */
  predicate FromOtherShard(mb: MiniBlock, selfId: ShardId) {
    IsScrBlock(mb) && mb.senderShardId != selfId
  }

  // ---------------------------------------------------------------------
  // Relevance filters

  /** The miniblocks `ProcessBlockTransactions` and `SaveTxBlockToStorage` act on. */
  function ProcessedHereBlocks(body: Body, selfId: ShardId): (r: Body)
    ensures |r| <= |body|
  {
    if body == [] then []
    else ((if ProcessedHere(body[0], selfId) then [body[0]] else []) + ProcessedHereBlocks(body[1..], selfId))
  }

  /** A miniblock is processed exactly when it is in the body and meant to be
      processed here. */
  lemma {:induction false} ProcessedHereBlocksMembers(body: Body, selfId: ShardId)
    ensures forall mb :: mb in ProcessedHereBlocks(body, selfId) <==> mb in body && ProcessedHere(mb, selfId)
    decreases |body|
  {
    if body != [] {
      ProcessedHereBlocksMembers(body[1..], selfId);
      assert body == [body[0]] + body[1..];
    }
  }

  /** The miniblocks `computeMissingAndExistingSCResultsForShards` keeps. */
  function ScrBlocksFromOtherShards(body: Body, selfId: ShardId): (r: Body)
    ensures |r| <= |body|
  {
    if body == [] then []
    else (ScrBlocksFromOtherShards(body[..|body| - 1], selfId)
      + (if FromOtherShard(body[|body| - 1], selfId) then [body[|body| - 1]] else []))
  }

  /** A miniblock is checked for missing results exactly when it is in the
      body and comes from another shard. */
  lemma {:induction false} ScrBlocksFromOtherShardsMembers(body: Body, selfId: ShardId)
    ensures forall mb :: mb in ScrBlocksFromOtherShards(body, selfId) <==> mb in body && FromOtherShard(mb, selfId)
    decreases |body|
  {
    if body != [] {
      ScrBlocksFromOtherShardsMembers(body[..|body| - 1], selfId);
      assert body == body[..|body| - 1] + [body[|body| - 1]];
    }
  }

  /** The filter keeps the body's order: filtering a concatenation filters
      each part. */
  lemma {:induction false} ScrBlocksFromOtherShardsAppend(a: Body, b: Body, selfId: ShardId)
    ensures ScrBlocksFromOtherShards(a + b, selfId)
      == ScrBlocksFromOtherShards(a, selfId) + ScrBlocksFromOtherShards(b, selfId)
    decreases |b|
  {
    if b == [] {
      assert a + b == a;
    } else {
      var b' := b[..|b| - 1];
      assert (a + b)[..|a + b| - 1] == a + b';
      ScrBlocksFromOtherShardsAppend(a, b', selfId);
    }
  }

  /** Every miniblock processed here is one the request path looks at too:
      applying the processing filter after the request filter loses nothing. */
  lemma {:induction false} ProcessedHereWithinFromOtherShards(body: Body, selfId: ShardId)
    ensures ProcessedHereBlocks(ScrBlocksFromOtherShards(body, selfId), selfId) == ProcessedHereBlocks(body, selfId)
    decreases |body|
  {
    if body != [] {
      var init := body[..|body| - 1];
      var last := body[|body| - 1];
      assert body == init + [last];
      ProcessedHereWithinFromOtherShards(init, selfId);
      ProcessedHereBlocksAppend(init, [last], selfId);
      ProcessedHereBlocksAppend(ScrBlocksFromOtherShards(init, selfId),
        if FromOtherShard(last, selfId) then [last] else [], selfId);
    }
  }

  lemma {:induction false} ProcessedHereBlocksAppend(a: Body, b: Body, selfId: ShardId)
    ensures ProcessedHereBlocks(a + b, selfId) == ProcessedHereBlocks(a, selfId) + ProcessedHereBlocks(b, selfId)
    decreases |a|
  {
    if a == [] {
      assert a + b == b;
    } else {
      var ab := a + b;
      assert ab[0] == a[0];
      assert ab[1..] == a[1..] + b;
      ProcessedHereBlocksAppend(a[1..], b, selfId);
      var head := if ProcessedHere(a[0], selfId) then [a[0]] else [];
      assert ProcessedHereBlocks(ab, selfId) == head + ProcessedHereBlocks(a[1..] + b, selfId);
      assert ProcessedHereBlocks(a, selfId) == head + ProcessedHereBlocks(a[1..], selfId);
    }
  }

  // ---------------------------------------------------------------------
  // ProcessBlockTransactions

  /** The bookkeeping map has the same keys and the same results as before;
      only shard pairs may differ. */
  predicate SameResults(before: map<Bytes, TxInfo>, after: map<Bytes, TxInfo>) {
    before.Keys == after.Keys && forall k :: k in before ==> after[k].tx == before[k].tx
  }

  /** Every hash has an entry holding a result. */
  predicate AllScrsPresent(hashes: seq<Bytes>, info: map<Bytes, TxInfo>) {
    forall h :: h in hashes ==> h in info && info[h].tx.Some?
  }

  /** Every result the map holds is a smart contract result. */
  predicate PresentAreScrs(info: map<Bytes, TxInfo>) {
    forall k :: k in info && info[k].tx.Some? ==> info[k].tx.value.SmartContractResult?
  }

  /** The inner loop of `ProcessBlockTransactions` over one relevant
      miniblock's hashes, including `processSmartContractResult`. */
  function ProcessHashes(hashes: seq<Bytes>, mb: MiniBlock, info: map<Bytes, TxInfo>,
                         haveTime: nat -> bool, calls: nat, processScr: Transaction -> Option<Error>): (r: Progress)
    ensures SameResults(info, r.info)
    ensures r.err.None? ==> forall h :: h in hashes ==>
      h in info && info[h].tx.Some? && info[h].tx.value.SmartContractResult?
    ensures r.err.None? ==> forall h :: h in hashes ==> r.info[h] == TxInfo(info[h].tx, mb.senderShardId, mb.receiverShardId)
    ensures forall k :: k in info && k !in hashes ==> r.info[k] == info[k]
    decreases |hashes|
  {
    if hashes == [] then Progress(None, info, calls)
    else if !haveTime(calls) then Progress(Some(ErrTimeIsOut), info, calls + 1)
    else
      var h := hashes[0];
      if h !in info || info[h].tx.None? then Progress(Some(ErrMissingTransaction), info, calls + 1)
      else if !info[h].tx.value.SmartContractResult? then Progress(Some(ErrWrongTypeAssertion), info, calls + 1)
      else match processScr(info[h].tx.value)
        case Some(e) => Progress(Some(e), info, calls + 1)
        case None =>
          ProcessHashes(hashes[1..], mb, info[h := TxInfo(info[h].tx, mb.senderShardId, mb.receiverShardId)],
            haveTime, calls + 1, processScr)
  }

  /** `ProcessBlockTransactions` over a whole body: the relevant miniblocks in
      order, stopping at the first error. */
  function ProcessBody(body: Body, selfId: ShardId, info: map<Bytes, TxInfo>,
                       haveTime: nat -> bool, calls: nat, processScr: Transaction -> Option<Error>): (r: Progress)
    ensures SameResults(info, r.info)
    ensures r.err.None? ==> forall mb :: mb in body && ProcessedHere(mb, selfId) ==> AllScrsPresent(mb.txHashes, info)
    decreases |body|
  {
    if body == [] then Progress(None, info, calls)
    else if !ProcessedHere(body[0], selfId) then ProcessBody(body[1..], selfId, info, haveTime, calls, processScr)
    else
      var p := ProcessHashes(body[0].txHashes, body[0], info, haveTime, calls, processScr);
      if p.err.Some? then p
      else ProcessBody(body[1..], selfId, p.info, haveTime, p.calls, processScr)
  }

  /** What `ProcessBlockTransactions` finds wrong with hash `h` at the `k`-th
      time check: no time left, no result, a result of another type, or the
      processor's error; nothing when the hash processes. */
  function HashStepError(h: Bytes, info: map<Bytes, TxInfo>, haveTime: nat -> bool, k: nat,
                         processScr: Transaction -> Option<Error>): Option<Error>
  {
    if !haveTime(k) then Some(ErrTimeIsOut)
    else if h !in info || info[h].tx.None? then Some(ErrMissingTransaction)
    else if !info[h].tx.value.SmartContractResult? then Some(ErrWrongTypeAssertion)
    else processScr(info[h].tx.value)
  }

  /** What the loop over one miniblock's hashes reports, read from the map it
      starts from: the first failing check and the number of time checks made
      up to and including it, or no error after one check per hash. */
  function HashesOutcome(hashes: seq<Bytes>, info: map<Bytes, TxInfo>, haveTime: nat -> bool, calls: nat,
                         processScr: Transaction -> Option<Error>): (Option<Error>, nat)
    decreases |hashes|
  {
    if hashes == [] then (None, calls)
    else
      var e := HashStepError(hashes[0], info, haveTime, calls, processScr);
      if e.Some? then (e, calls + 1) else HashesOutcome(hashes[1..], info, haveTime, calls + 1, processScr)
  }

  /** Re-tagging shards as the loop goes changes nothing it reports: its error
      and its time checks are those of `HashesOutcome` on the map it started from. */
  lemma {:induction false} ProcessHashesOutcome(hashes: seq<Bytes>, mb: MiniBlock, info0: map<Bytes, TxInfo>,
                                                info: map<Bytes, TxInfo>, haveTime: nat -> bool, calls: nat,
                                                processScr: Transaction -> Option<Error>)
    requires SameResults(info0, info)
    ensures var r := ProcessHashes(hashes, mb, info, haveTime, calls, processScr);
      (r.err, r.calls) == HashesOutcome(hashes, info0, haveTime, calls, processScr)
    decreases |hashes|
  {
    if hashes != [] {
      var h := hashes[0];
      assert (h in info <==> h in info0) && (h in info ==> info[h].tx == info0[h].tx);
      assert HashStepError(h, info, haveTime, calls, processScr) == HashStepError(h, info0, haveTime, calls, processScr);
      if HashStepError(h, info0, haveTime, calls, processScr).None? {
        var info' := info[h := TxInfo(info[h].tx, mb.senderShardId, mb.receiverShardId)];
        assert SameResults(info0, info');
        ProcessHashesOutcome(hashes[1..], mb, info0, info', haveTime, calls + 1, processScr);
      }
    }
  }

  /** Where the loop over one miniblock's hashes stops: the first hash whose
      check fails, or the end when every check passes. */
  function ProcessHashesStopAt(hashes: seq<Bytes>, info: map<Bytes, TxInfo>, haveTime: nat -> bool, calls: nat,
                               processScr: Transaction -> Option<Error>): (k: nat)
    ensures k <= |hashes|
    ensures forall j :: 0 <= j < k ==> HashStepError(hashes[j], info, haveTime, calls + j, processScr).None?
    ensures k < |hashes| ==> HashStepError(hashes[k], info, haveTime, calls + k, processScr).Some?
    decreases |hashes|
  {
    if hashes == [] || HashStepError(hashes[0], info, haveTime, calls, processScr).Some? then 0
    else 1 + ProcessHashesStopAt(hashes[1..], info, haveTime, calls + 1, processScr)
  }

  /** The outcome is decided at the stop: that hash's failure after one time
      check per hash up to and including it, or no error after one check per
      hash when there is no stop. */
  lemma {:induction false} HashesOutcomeAtStop(hashes: seq<Bytes>, info: map<Bytes, TxInfo>, haveTime: nat -> bool,
                                               calls: nat, processScr: Transaction -> Option<Error>)
    ensures var k := ProcessHashesStopAt(hashes, info, haveTime, calls, processScr);
      HashesOutcome(hashes, info, haveTime, calls, processScr)
        == if k == |hashes| then (None, calls + k)
           else (HashStepError(hashes[k], info, haveTime, calls + k, processScr), calls + k + 1)
    decreases |hashes|
  {
    if hashes != [] && HashStepError(hashes[0], info, haveTime, calls, processScr).None? {
      var tail := hashes[1..];
      HashesOutcomeAtStop(tail, info, haveTime, calls + 1, processScr);
      var k' := ProcessHashesStopAt(tail, info, haveTime, calls + 1, processScr);
      if k' < |tail| {
        assert tail[k'] == hashes[k' + 1];
      }
    }
  }

  /** The loop over one miniblock's hashes fails exactly at the stop, with
      that hash's failure, after one time check per hash up to and
      including it; it succeeds after one check per hash when there is no
      stop. The checks read the map the loop started from. */
  lemma ProcessHashesStops(hashes: seq<Bytes>, mb: MiniBlock, info: map<Bytes, TxInfo>, haveTime: nat -> bool,
                           calls: nat, processScr: Transaction -> Option<Error>)
    ensures var k := ProcessHashesStopAt(hashes, info, haveTime, calls, processScr);
      var r := ProcessHashes(hashes, mb, info, haveTime, calls, processScr);
      && r.err == (if k == |hashes| then None else HashStepError(hashes[k], info, haveTime, calls + k, processScr))
      && r.calls == calls + (if k == |hashes| then k else k + 1)
  {
    ProcessHashesOutcome(hashes, mb, info, info, haveTime, calls, processScr);
    HashesOutcomeAtStop(hashes, info, haveTime, calls, processScr);
  }

  /** The first time check decides a non-empty loop when there is no time
      left; a clean loop made one check per hash, each of which found time. */
  lemma ProcessHashesTimeChecks(hashes: seq<Bytes>, mb: MiniBlock, info: map<Bytes, TxInfo>, haveTime: nat -> bool,
                                calls: nat, processScr: Transaction -> Option<Error>)
    ensures var r := ProcessHashes(hashes, mb, info, haveTime, calls, processScr);
      && (hashes != [] && !haveTime(calls) ==> r.err == Some(ErrTimeIsOut))
      && (r.err.None? ==> r.calls == calls + |hashes| && forall k :: calls <= k < r.calls ==> haveTime(k))
  {
    ProcessHashesStops(hashes, mb, info, haveTime, calls, processScr);
    var k := ProcessHashesStopAt(hashes, info, haveTime, calls, processScr);
    if hashes != [] && !haveTime(calls) {
      assert k == 0;
    }
    if ProcessHashes(hashes, mb, info, haveTime, calls, processScr).err.None? {
      forall t | calls <= t < calls + |hashes| ensures haveTime(t) {
        assert HashStepError(hashes[t - calls], info, haveTime, calls + (t - calls), processScr).None?;
      }
    }
  }

  /** A relevant miniblock with at least one hash to process. */
  predicate HasWork(body: Body, selfId: ShardId) {
    exists mb :: mb in body && ProcessedHere(mb, selfId) && mb.txHashes != []
  }

  /** Processing a concatenation processes the first part, then, if that
      succeeded, the second from where the first left off. */
  lemma {:induction false} ProcessBodyAppend(a: Body, b: Body, selfId: ShardId, info: map<Bytes, TxInfo>,
                                             haveTime: nat -> bool, calls: nat, processScr: Transaction -> Option<Error>)
    ensures var p := ProcessBody(a, selfId, info, haveTime, calls, processScr);
      ProcessBody(a + b, selfId, info, haveTime, calls, processScr)
        == if p.err.Some? then p else ProcessBody(b, selfId, p.info, haveTime, p.calls, processScr)
    decreases |a|
  {
    if a != [] {
      assert (a + b)[0] == a[0] && (a + b)[1..] == a[1..] + b;
      if ProcessedHere(a[0], selfId) {
        var p := ProcessHashes(a[0].txHashes, a[0], info, haveTime, calls, processScr);
        if p.err.None? {
          ProcessBodyAppend(a[1..], b, selfId, p.info, haveTime, p.calls, processScr);
        }
      } else {
        ProcessBodyAppend(a[1..], b, selfId, info, haveTime, calls, processScr);
      }
    } else {
      assert a + b == b;
    }
  }

  /** A body with nothing to process succeeds without consulting the clock
      or changing the map. */
  lemma {:induction false} ProcessBodyIdle(body: Body, selfId: ShardId, info: map<Bytes, TxInfo>,
                                           haveTime: nat -> bool, calls: nat, processScr: Transaction -> Option<Error>)
    requires !HasWork(body, selfId)
    ensures ProcessBody(body, selfId, info, haveTime, calls, processScr) == Progress(None, info, calls)
    decreases |body|
  {
    if body != [] {
      assert body[0] in body;
      assert forall mb :: mb in body[1..] ==> mb in body;
      ProcessBodyIdle(body[1..], selfId, info, haveTime, calls, processScr);
    }
  }

  /** With no time left from the start, processing a body fails with
      `ErrTimeIsOut` exactly when it has a hash to process, and succeeds
      otherwise; the map is unchanged either way. */
  lemma {:induction false} ProcessBodyOutOfTime(body: Body, selfId: ShardId, info: map<Bytes, TxInfo>,
                                                haveTime: nat -> bool, calls: nat, processScr: Transaction -> Option<Error>)
    requires forall k :: calls <= k ==> !haveTime(k)
    ensures ProcessBody(body, selfId, info, haveTime, calls, processScr).err
      == if HasWork(body, selfId) then Some(ErrTimeIsOut) else None
    ensures ProcessBody(body, selfId, info, haveTime, calls, processScr).info == info
    decreases |body|
  {
    if body != [] {
      assert forall mb :: mb in body <==> mb == body[0] || mb in body[1..];
      if !ProcessedHere(body[0], selfId) || body[0].txHashes == [] {
        ProcessBodyOutOfTime(body[1..], selfId, info, haveTime, calls, processScr);
      } else {
        assert body[0] in body;
      }
    }
  }

  /** The time-out of `ProcessBlockTransactions`: when the first miniblock
      with a hash to process is reached with no time left, the body fails
      with `ErrTimeIsOut`. */
  lemma ProcessBodyTimeOutAtFirstWork(a: Body, mb: MiniBlock, b: Body, selfId: ShardId, info: map<Bytes, TxInfo>,
                                      haveTime: nat -> bool, calls: nat, processScr: Transaction -> Option<Error>)
    requires !HasWork(a, selfId) && ProcessedHere(mb, selfId) && mb.txHashes != [] && !haveTime(calls)
    ensures ProcessBody(a + [mb] + b, selfId, info, haveTime, calls, processScr).err == Some(ErrTimeIsOut)
  {
    ProcessBodyIdle(a, selfId, info, haveTime, calls, processScr);
    ProcessBodyAppend(a, [mb] + b, selfId, info, haveTime, calls, processScr);
    assert a + [mb] + b == a + ([mb] + b);
    assert ([mb] + b)[0] == mb && ([mb] + b)[1..] == b;
  }

  /** Only miniblocks of results sent from another shard to this one matter:
      processing the body is processing its relevant miniblocks. */
  lemma {:induction false} ProcessBodyOnlyRelevant(body: Body, selfId: ShardId, info: map<Bytes, TxInfo>,
                                                   haveTime: nat -> bool, calls: nat, processScr: Transaction -> Option<Error>)
    ensures ProcessBody(body, selfId, info, haveTime, calls, processScr)
      == ProcessBody(ProcessedHereBlocks(body, selfId), selfId, info, haveTime, calls, processScr)
    decreases |body|
  {
    if body != [] {
      var rest := ProcessedHereBlocks(body[1..], selfId);
      if ProcessedHere(body[0], selfId) {
        assert ProcessedHereBlocks(body, selfId) == [body[0]] + rest;
        assert ([body[0]] + rest)[1..] == rest;
        var p := ProcessHashes(body[0].txHashes, body[0], info, haveTime, calls, processScr);
        ProcessBodyOnlyRelevant(body[1..], selfId, p.info, haveTime, p.calls, processScr);
      } else {
        assert ProcessedHereBlocks(body, selfId) == rest;
        ProcessBodyOnlyRelevant(body[1..], selfId, info, haveTime, calls, processScr);
      }
    }
  }

  /** With time to spare, a result processor that never fails and a map
      holding only smart contract results, a miniblock's hashes process
      cleanly exactly when all of them have a result, and otherwise fail
      with `ErrMissingTransaction`. */
  lemma {:induction false} ProcessHashesMissing(hashes: seq<Bytes>, mb: MiniBlock, info: map<Bytes, TxInfo>,
                                                haveTime: nat -> bool, calls: nat, processScr: Transaction -> Option<Error>)
    requires forall k :: haveTime(k)
    requires forall t :: processScr(t).None?
    requires PresentAreScrs(info)
    ensures ProcessHashes(hashes, mb, info, haveTime, calls, processScr).err
      == if AllScrsPresent(hashes, info) then None else Some(ErrMissingTransaction)
    decreases |hashes|
  {
    if hashes != [] {
      var h := hashes[0];
      if h in info && info[h].tx.Some? {
        var info' := info[h := TxInfo(info[h].tx, mb.senderShardId, mb.receiverShardId)];
        ProcessHashesMissing(hashes[1..], mb, info', haveTime, calls + 1, processScr);
        assert AllScrsPresent(hashes, info) <==> AllScrsPresent(hashes[1..], info') by {
          assert forall x :: x in hashes <==> x == h || x in hashes[1..];
        }
      }
    }
  }

  /** Every relevant miniblock of the body has all its results. */
  predicate BodyScrsPresent(body: Body, selfId: ShardId, info: map<Bytes, TxInfo>) {
    forall mb :: mb in body && ProcessedHere(mb, selfId) ==> AllScrsPresent(mb.txHashes, info)
  }

  lemma BodyScrsPresentCons(body: Body, selfId: ShardId, info: map<Bytes, TxInfo>)
    requires body != []
    ensures BodyScrsPresent(body, selfId, info) <==>
      (ProcessedHere(body[0], selfId) ==> AllScrsPresent(body[0].txHashes, info)) &&
      BodyScrsPresent(body[1..], selfId, info)
  {
    assert forall mb :: mb in body <==> mb == body[0] || mb in body[1..];
  }

  /** Presence of results depends only on the keys and results of the map. */
  lemma BodyScrsPresentSameResults(body: Body, selfId: ShardId, info: map<Bytes, TxInfo>, info': map<Bytes, TxInfo>)
    requires SameResults(info, info')
    ensures BodyScrsPresent(body, selfId, info) == BodyScrsPresent(body, selfId, info')
  {
    assert forall hs :: AllScrsPresent(hs, info) == AllScrsPresent(hs, info');
  }

  /** The same over a body: it processes cleanly exactly when every relevant
      miniblock has all its results, and otherwise fails with
      `ErrMissingTransaction`. */
  lemma {:induction false} ProcessBodyMissing(body: Body, selfId: ShardId, info: map<Bytes, TxInfo>,
                                              haveTime: nat -> bool, calls: nat, processScr: Transaction -> Option<Error>)
    requires forall k :: haveTime(k)
    requires forall t :: processScr(t).None?
    requires PresentAreScrs(info)
    ensures ProcessBody(body, selfId, info, haveTime, calls, processScr).err
      == if BodyScrsPresent(body, selfId, info) then None else Some(ErrMissingTransaction)
    decreases |body|
  {
    if body != [] {
      BodyScrsPresentCons(body, selfId, info);
      if !ProcessedHere(body[0], selfId) {
        ProcessBodyMissing(body[1..], selfId, info, haveTime, calls, processScr);
      } else {
        ProcessHashesMissing(body[0].txHashes, body[0], info, haveTime, calls, processScr);
        var p := ProcessHashes(body[0].txHashes, body[0], info, haveTime, calls, processScr);
        if p.err.None? {
          ProcessBodyMissing(body[1..], selfId, p.info, haveTime, p.calls, processScr);
          BodyScrsPresentSameResults(body[1..], selfId, info, p.info);
        }
      }
    }
  }

  // ---------------------------------------------------------------------
  // SaveTxBlockToStorage

  /** `SaveTxBlockToStorage`: the shared save helper runs on every relevant
      miniblock in order; the first error stops it. */
  function SaveBody(body: Body, selfId: ShardId, saveTxs: seq<Bytes> -> Option<Error>): (r: Option<Error>)
    ensures r.None? <==> forall mb :: mb in body && ProcessedHere(mb, selfId) ==> saveTxs(mb.txHashes).None?
    ensures r.Some? ==> exists mb :: mb in body && ProcessedHere(mb, selfId) && saveTxs(mb.txHashes) == r
    decreases |body|
  {
    if body == [] then None
    else if ProcessedHere(body[0], selfId) && saveTxs(body[0].txHashes).Some? then saveTxs(body[0].txHashes)
    else SaveBody(body[1..], selfId, saveTxs)
  }

  /** Saving a body saves its relevant miniblocks and nothing else. */
  lemma {:induction false} SaveBodyOnlyRelevant(body: Body, selfId: ShardId, saveTxs: seq<Bytes> -> Option<Error>)
    ensures SaveBody(body, selfId, saveTxs) == SaveBody(ProcessedHereBlocks(body, selfId), selfId, saveTxs)
    decreases |body|
  {
    if body != [] {
      var rest := ProcessedHereBlocks(body[1..], selfId);
      SaveBodyOnlyRelevant(body[1..], selfId, saveTxs);
      if ProcessedHere(body[0], selfId) {
        var filtered := [body[0]] + rest;
        assert ProcessedHereBlocks(body, selfId) == filtered;
        assert filtered[0] == body[0] && filtered[1..] == rest;
        assert SaveBody(filtered, selfId, saveTxs) == if saveTxs(body[0].txHashes).Some? then saveTxs(body[0].txHashes) else SaveBody(rest, selfId, saveTxs);
      } else {
        assert ProcessedHereBlocks(body, selfId) == rest;
      }
    }
  }

  // ---------------------------------------------------------------------
  // getAllScrsFromMiniBlock and ProcessMiniBlock

  /** The `haveTime` answer at the `k`-th check of a loop whose checks start
      after `calls` earlier ones. */
  predicate TimeAt(haveTime: nat -> bool, calls: nat, k: nat) {
    haveTime(calls + k)
  }

  function Prepend(prefix: seq<Transaction>, r: Result<seq<Transaction>, Error>): Result<seq<Transaction>, Error> {
    match r
    case Ok(v) => Ok(prefix + v)
    case Err(e) => Err(e)
  }

  /** The loop of `getAllScrsFromMiniBlock`: every hash must be in the shard
      store and hold a smart contract result, with time left before each. */
  function ScrsFrom(hashes: seq<Bytes>, cache: map<Bytes, Transaction>, haveTime: nat -> bool, calls: nat)
    : (r: Result<seq<Transaction>, Error>)
    ensures r.Ok? ==> |r.value| == |hashes| && forall i :: 0 <= i < |hashes| ==> hashes[i] in cache && r.value[i] == cache[hashes[i]]
    ensures r.Err? ==> r.error == ErrTimeIsOut || r.error == ErrNilSmartContractResult || r.error == ErrWrongTypeAssertion
    decreases |hashes|
  {
    if hashes == [] then Ok([])
    else if !haveTime(calls) then Err(ErrTimeIsOut)
    else if hashes[0] !in cache then Err(ErrNilSmartContractResult)
    else if !cache[hashes[0]].SmartContractResult? then Err(ErrWrongTypeAssertion)
    else
      Prepend([cache[hashes[0]]], ScrsFrom(hashes[1..], cache, haveTime, calls + 1))
  }

  /** For every hash in turn there is time left and the store holds a smart
      contract result for it. */
  predicate AllFetchable(hashes: seq<Bytes>, cache: map<Bytes, Transaction>, haveTime: nat -> bool, calls: nat) {
    forall i :: 0 <= i < |hashes| ==>
      TimeAt(haveTime, calls, i) && hashes[i] in cache && cache[hashes[i]].SmartContractResult?
  }

  /** When every hash is fetchable, so are all but the first, one check
      later. */
  lemma AllFetchableTail(hashes: seq<Bytes>, cache: map<Bytes, Transaction>, haveTime: nat -> bool, calls: nat)
    requires hashes != [] && AllFetchable(hashes, cache, haveTime, calls)
    ensures AllFetchable(hashes[1..], cache, haveTime, calls + 1)
  {
    var tail := hashes[1..];
    var c := calls + 1;
    forall i | 0 <= i < |tail|
      ensures TimeAt(haveTime, c, i) && tail[i] in cache && cache[tail[i]].SmartContractResult?
    {
      assert tail[i] == hashes[i + 1];
      assert TimeAt(haveTime, calls, i + 1);
      assert TimeAt(haveTime, c, i) == TimeAt(haveTime, calls, i + 1);
    }
    assert AllFetchable(tail, cache, haveTime, c);
  }

  /** A fetchable first hash followed by fetchable rest is all fetchable. */
  lemma AllFetchableFromTail(hashes: seq<Bytes>, cache: map<Bytes, Transaction>, haveTime: nat -> bool, calls: nat)
    requires hashes != []
    requires TimeAt(haveTime, calls, 0) && hashes[0] in cache && cache[hashes[0]].SmartContractResult?
    requires AllFetchable(hashes[1..], cache, haveTime, calls + 1)
    ensures AllFetchable(hashes, cache, haveTime, calls)
  {
    var tail := hashes[1..];
    forall i: int | 0 < i < |hashes|
      ensures TimeAt(haveTime, calls, i) && hashes[i] in cache && cache[hashes[i]].SmartContractResult?
    {
      assert hashes[i] == tail[i - 1];
      assert TimeAt(haveTime, calls + 1, i - 1);
      assert TimeAt(haveTime, calls + 1, i - 1) == haveTime(calls + i);
    }
  }

  /** The fetch succeeds exactly when every hash is fetchable. */
  lemma {:induction false} ScrsFromOk(hashes: seq<Bytes>, cache: map<Bytes, Transaction>, haveTime: nat -> bool, calls: nat)
    ensures ScrsFrom(hashes, cache, haveTime, calls).Ok? <==> AllFetchable(hashes, cache, haveTime, calls)
    decreases |hashes|
  {
    if hashes != [] {
      ScrsFromOk(hashes[1..], cache, haveTime, calls + 1);
      assert TimeAt(haveTime, calls, 0) == haveTime(calls);
      if AllFetchable(hashes, cache, haveTime, calls) {
        AllFetchableTail(hashes, cache, haveTime, calls);
      } else if haveTime(calls) && hashes[0] in cache && cache[hashes[0]].SmartContractResult? &&
                AllFetchable(hashes[1..], cache, haveTime, calls + 1) {
        AllFetchableFromTail(hashes, cache, haveTime, calls);
      }
    }
  }

  /** The gas loop of `ProcessMiniBlock` from `index` on. */
  function GasFrom(index: nat, scrs: seq<Transaction>, hashes: seq<Bytes>, haveTime: nat -> bool, calls: nat,
                   gasErr: (Transaction, Bytes) -> Option<Error>): (r: Option<Error>)
    requires |scrs| == |hashes| && index <= |scrs|
    ensures r.None? <==> forall k :: index <= k < |scrs| ==> TimeAt(haveTime, calls, k) && gasErr(scrs[k], hashes[k]).None?
    decreases |scrs| - index
  {
    if index == |scrs| then None
    else if !TimeAt(haveTime, calls, index) then Some(ErrTimeIsOut)
    else if gasErr(scrs[index], hashes[index]).Some? then gasErr(scrs[index], hashes[index])
    else GasFrom(index + 1, scrs, hashes, haveTime, calls, gasErr)
  }

  /** The processing loop of `ProcessMiniBlock` from `index` on. */
  function ProcessFrom(index: nat, scrs: seq<Transaction>, haveTime: nat -> bool, calls: nat,
                       processScr: Transaction -> Option<Error>): (r: Option<Error>)
    requires index <= |scrs|
    ensures r.None? <==> forall k :: index <= k < |scrs| ==> TimeAt(haveTime, calls, k) && processScr(scrs[k]).None?
    decreases |scrs| - index
  {
    if index == |scrs| then None
    else if !TimeAt(haveTime, calls, index) then Some(ErrTimeIsOut)
    else if processScr(scrs[index]).Some? then processScr(scrs[index])
    else ProcessFrom(index + 1, scrs, haveTime, calls, processScr)
  }

  /** The error `ProcessMiniBlock` returns: wrong type, then a missing shard
      store, then the fetch loop, the gas loop and the processing loop, which
      consult `haveTime` n times each. */
  function MiniBlockError(mb: MiniBlock, txCache: Option<map<Bytes, Transaction>>, haveTime: nat -> bool,
                          gasErr: (Transaction, Bytes) -> Option<Error>,
                          processScr: Transaction -> Option<Error>): Option<Error>
  {
    if !IsScrBlock(mb) then Some(ErrWrongTypeInMiniBlock)
    else if txCache.None? then Some(ErrNilUTxDataPool)
    else match ScrsFrom(mb.txHashes, txCache.value, haveTime, 0)
      case Err(e) => Some(e)
      case Ok(scrs) =>
        var n := |scrs|;
        var g := GasFrom(0, scrs, mb.txHashes, haveTime, n, gasErr);
        if g.Some? then g else ProcessFrom(0, scrs, haveTime, 2 * n, processScr)
  }

  /** What a processed miniblock leaves in the bookkeeping map: each of its
      hashes with its result and the miniblock's shard pair, and every other
      entry as it was. */
  ghost predicate Recorded(before: map<Bytes, TxInfo>, after: map<Bytes, TxInfo>, mb: MiniBlock,
                     cache: map<Bytes, Transaction>) {
    (forall h :: h in after <==> h in before || h in mb.txHashes) &&
    (forall h :: h in mb.txHashes ==> h in cache && after[h] == TxInfo(Some(cache[h]), mb.senderShardId, mb.receiverShardId)) &&
    (forall h :: h in before && h !in mb.txHashes ==> after[h] == before[h])
  }

  /** `ProcessMiniBlock` succeeds exactly when the miniblock holds smart
      contract results, the shard store exists and holds a result for every
      hash, there is time for all 3n checks, and neither the gas computation
      nor the result processor fails on any of them. */
  lemma MiniBlockErrorNone(mb: MiniBlock, txCache: Option<map<Bytes, Transaction>>, haveTime: nat -> bool,
                           gasErr: (Transaction, Bytes) -> Option<Error>, processScr: Transaction -> Option<Error>)
    ensures MiniBlockError(mb, txCache, haveTime, gasErr, processScr).None? <==>
      IsScrBlock(mb) && txCache.Some? &&
      (forall k :: 0 <= k < 3 * |mb.txHashes| ==> haveTime(k)) &&
      (forall i :: 0 <= i < |mb.txHashes| ==>
        var h := mb.txHashes[i];
        h in txCache.value && txCache.value[h].SmartContractResult? &&
        gasErr(txCache.value[h], h).None? && processScr(txCache.value[h]).None?)
  {
    if IsScrBlock(mb) && txCache.Some? {
      var hashes := mb.txHashes;
      var n := |hashes|;
      var cache := txCache.value;
      ScrsFromOk(hashes, cache, haveTime, 0);
      var r := ScrsFrom(hashes, cache, haveTime, 0);
      assert r.Ok? <==> AllFetchable(hashes, cache, haveTime, 0);
      if r.Ok? {
        forall k | 0 <= k < n ensures haveTime(k) == TimeAt(haveTime, 0, k) { }
        forall k | n <= k < 2 * n ensures haveTime(k) == TimeAt(haveTime, n, k - n) { }
        forall k | 2 * n <= k < 3 * n ensures haveTime(k) == TimeAt(haveTime, 2 * n, k - 2 * n) { }
      }
    }
  }

  /** Where the gas loop of `ProcessMiniBlock` stops when started at
      `index`: the first step without time or with a gas error, or the end.
      The hashes before it are the ones whose gas was counted. */
  function GasStopAt(index: nat, scrs: seq<Transaction>, hashes: seq<Bytes>, haveTime: nat -> bool, calls: nat,
                     gasErr: (Transaction, Bytes) -> Option<Error>): (k: nat)
    requires |scrs| == |hashes| && index <= |scrs|
    ensures index <= k <= |scrs|
    ensures k == |scrs| <==> GasFrom(index, scrs, hashes, haveTime, calls, gasErr).None?
    ensures forall j :: index <= j < k ==> TimeAt(haveTime, calls, j) && gasErr(scrs[j], hashes[j]).None?
    ensures k < |scrs| && !TimeAt(haveTime, calls, k) ==> GasFrom(index, scrs, hashes, haveTime, calls, gasErr) == Some(ErrTimeIsOut)
    ensures k < |scrs| && TimeAt(haveTime, calls, k) ==>
      gasErr(scrs[k], hashes[k]).Some? && GasFrom(index, scrs, hashes, haveTime, calls, gasErr) == gasErr(scrs[k], hashes[k])
    decreases |scrs| - index
  {
    if index == |scrs| || !TimeAt(haveTime, calls, index) || gasErr(scrs[index], hashes[index]).Some? then index
    else GasStopAt(index + 1, scrs, hashes, haveTime, calls, gasErr)
  }

  /** Where the processing loop of `ProcessMiniBlock` stops when started at
      `index`: the first step without time or with a processing error, or
      the end. */
  function ProcessStopAt(index: nat, scrs: seq<Transaction>, haveTime: nat -> bool, calls: nat,
                         processScr: Transaction -> Option<Error>): (k: nat)
    requires index <= |scrs|
    ensures index <= k <= |scrs|
    ensures k == |scrs| <==> ProcessFrom(index, scrs, haveTime, calls, processScr).None?
    ensures forall j :: index <= j < k ==> TimeAt(haveTime, calls, j) && processScr(scrs[j]).None?
    ensures k < |scrs| && !TimeAt(haveTime, calls, k) ==> ProcessFrom(index, scrs, haveTime, calls, processScr) == Some(ErrTimeIsOut)
    ensures k < |scrs| && TimeAt(haveTime, calls, k) ==>
      processScr(scrs[k]).Some? && ProcessFrom(index, scrs, haveTime, calls, processScr) == processScr(scrs[k])
    decreases |scrs| - index
  {
    if index == |scrs| || !TimeAt(haveTime, calls, index) || processScr(scrs[index]).Some? then index
    else ProcessStopAt(index + 1, scrs, haveTime, calls, processScr)
  }

  /** The hashes whose gas `ProcessMiniBlock` has counted by the time it
      returns: those before the gas loop's stop, none when the results could
      not be fetched. */
  function GasCharged(mb: MiniBlock, txCache: Option<map<Bytes, Transaction>>, haveTime: nat -> bool,
                      gasErr: (Transaction, Bytes) -> Option<Error>): (r: seq<Bytes>)
    ensures |r| <= |mb.txHashes| && r == mb.txHashes[..|r|]
  {
    if !IsScrBlock(mb) || txCache.None? then []
    else match ScrsFrom(mb.txHashes, txCache.value, haveTime, 0)
      case Err(_) => []
      case Ok(scrs) => mb.txHashes[..GasStopAt(0, scrs, mb.txHashes, haveTime, |scrs|, gasErr)]
  }

  /** The hashes `ProcessMiniBlock` AS WRITTEN hands to the gas handler's
      `RemoveGasConsumed` and `RemoveGasRefunded` (None: no call). The
      deferred rollback tests the function's local `err`, which a time-out
      return leaves nil, so a time-out rolls nothing back. */
  function GasRollbackAsWritten(mb: MiniBlock, txCache: Option<map<Bytes, Transaction>>, haveTime: nat -> bool,
                                gasErr: (Transaction, Bytes) -> Option<Error>,
                                processScr: Transaction -> Option<Error>): (r: Option<seq<Bytes>>)
    ensures r.Some? ==> MiniBlockError(mb, txCache, haveTime, gasErr, processScr).Some?
  {
    if !IsScrBlock(mb) || txCache.None? then None
    else match ScrsFrom(mb.txHashes, txCache.value, haveTime, 0)
      case Err(_) => None
      case Ok(scrs) =>
        var n := |scrs|;
        var k := GasStopAt(0, scrs, mb.txHashes, haveTime, n, gasErr);
        if k < n then
          (if TimeAt(haveTime, n, k) then Some(mb.txHashes[..k]) else None)
        else
          var p := ProcessStopAt(0, scrs, haveTime, 2 * n, processScr);
          if p < n && TimeAt(haveTime, 2 * n, p) then Some(mb.txHashes) else None
  }

  /** The rollback as evidently intended, which `ProcessMiniBlock` in this
      model performs: every failure after the gas loop has started rolls
      back the hashes whose gas was counted, time-outs included. */
  function GasRollback(mb: MiniBlock, txCache: Option<map<Bytes, Transaction>>, haveTime: nat -> bool,
                       gasErr: (Transaction, Bytes) -> Option<Error>,
                       processScr: Transaction -> Option<Error>): Option<seq<Bytes>>
  {
    if !IsScrBlock(mb) || txCache.None? then None
    else match ScrsFrom(mb.txHashes, txCache.value, haveTime, 0)
      case Err(_) => None
      case Ok(scrs) =>
        var n := |scrs|;
        var k := GasStopAt(0, scrs, mb.txHashes, haveTime, n, gasErr);
        if k < n then Some(mb.txHashes[..k])
        else if ProcessStopAt(0, scrs, haveTime, 2 * n, processScr) < n then Some(mb.txHashes)
        else None
  }

  /** No gas stays counted for a miniblock that fails: when it fails, either
      no gas was counted or exactly the counted hashes are rolled back; when
      it succeeds nothing is rolled back. */
  lemma GasRollbackComplete(mb: MiniBlock, txCache: Option<map<Bytes, Transaction>>, haveTime: nat -> bool,
                            gasErr: (Transaction, Bytes) -> Option<Error>, processScr: Transaction -> Option<Error>)
    ensures MiniBlockError(mb, txCache, haveTime, gasErr, processScr).None? ==>
      GasRollback(mb, txCache, haveTime, gasErr, processScr).None?
    ensures MiniBlockError(mb, txCache, haveTime, gasErr, processScr).Some? ==>
      GasCharged(mb, txCache, haveTime, gasErr) == [] ||
      GasRollback(mb, txCache, haveTime, gasErr, processScr) == Some(GasCharged(mb, txCache, haveTime, gasErr))
  {
    if IsScrBlock(mb) && txCache.Some? && ScrsFrom(mb.txHashes, txCache.value, haveTime, 0).Ok? {
      var scrs := ScrsFrom(mb.txHashes, txCache.value, haveTime, 0).value;
      assert mb.txHashes[..|scrs|] == mb.txHashes;
    }
  }

  /** The code as written and the intended rollback differ only when the
      miniblock times out. */
  lemma GasRollbackAsWrittenDiffersOnTimeOut(mb: MiniBlock, txCache: Option<map<Bytes, Transaction>>,
                                             haveTime: nat -> bool, gasErr: (Transaction, Bytes) -> Option<Error>,
                                             processScr: Transaction -> Option<Error>)
    requires GasRollbackAsWritten(mb, txCache, haveTime, gasErr, processScr) != GasRollback(mb, txCache, haveTime, gasErr, processScr)
    ensures MiniBlockError(mb, txCache, haveTime, gasErr, processScr) == Some(ErrTimeIsOut)
    ensures GasRollbackAsWritten(mb, txCache, haveTime, gasErr, processScr).None?
  {
  }

  /** A one-result miniblock whose time runs out after its gas was counted:
      it fails with `ErrTimeIsOut`, its hash's gas stays counted, and the code
      as written rolls nothing back. */
  lemma GasRollbackAsWrittenMissesTimeOut()
    ensures var mb := MiniBlock([[1]], 0, 1, SmartContractResultBlock);
      var txCache := Some(map[[1] := SmartContractResult([])]);
      var haveTime := (k: nat) => k < 2;
      var gasErr := (t: Transaction, h: Bytes) => None;
      var processScr := (t: Transaction) => None;
      && MiniBlockError(mb, txCache, haveTime, gasErr, processScr) == Some(ErrTimeIsOut)
      && GasCharged(mb, txCache, haveTime, gasErr) == [[1]]
      && GasRollbackAsWritten(mb, txCache, haveTime, gasErr, processScr).None?
      && GasRollback(mb, txCache, haveTime, gasErr, processScr) == Some([[1]])
  {
    var mb := MiniBlock([[1]], 0, 1, SmartContractResultBlock);
    var cache := map[[1] := SmartContractResult([])];
    var haveTime := (k: nat) => k < 2;
    var gasErr := (t: Transaction, h: Bytes) => None;
    var processScr := (t: Transaction) => None;
    var scrs := [SmartContractResult([])];
    var h: Bytes := [1];
    assert mb.txHashes == [h] && mb.txHashes[1..] == [];
    assert haveTime(0) && h in cache && cache[h] == scrs[0];
    assert ScrsFrom(mb.txHashes[1..], cache, haveTime, 1) == Ok([]);
    assert ScrsFrom(mb.txHashes, cache, haveTime, 0) == Prepend([cache[h]], Ok([]));
    assert GasStopAt(1, scrs, mb.txHashes, haveTime, 1, gasErr) == 1;
    assert GasStopAt(0, scrs, mb.txHashes, haveTime, 1, gasErr) == 1;
    assert !TimeAt(haveTime, 2, 0);
    assert ProcessStopAt(0, scrs, haveTime, 2, processScr) == 0;
    assert mb.txHashes[..1] == [[1]];
  }

  // ---------------------------------------------------------------------
  // RestoreTxBlockIntoPools

  /** Number of hashes in the smart-contract-result miniblocks of a body. */
  function ScrHashCount(body: Body): nat
    decreases |body|
  {
    if body == [] then 0
    else
      var last := body[|body| - 1];
      ScrHashCount(body[..|body| - 1]) + (if IsScrBlock(last) then |last.txHashes| else 0)
  }

  lemma {:induction false} ScrHashCountAppend(a: Body, b: Body)
    ensures ScrHashCount(a + b) == ScrHashCount(a) + ScrHashCount(b)
    decreases |b|
  {
    if b == [] {
      assert a + b == a;
    } else {
      assert (a + b)[..|a + b| - 1] == a + b[..|b| - 1];
      ScrHashCountAppend(a, b[..|b| - 1]);
    }
  }

  /** Restoring counts exactly the hashes of smart-contract-result miniblocks:
      other miniblocks add nothing, whatever their size. */
  lemma ScrHashCountOtherTypes(body: Body)
    requires forall mb :: mb in body ==> !IsScrBlock(mb)
    ensures ScrHashCount(body) == 0
    decreases |body|
  {
    if body != [] {
      assert body[|body| - 1] in body;
      ScrHashCountOtherTypes(body[..|body| - 1]);
    }
  }

  /** A miniblock whose results can be put back: the storer returns them all,
      each unmarshals, and the miniblock hashes. */
  predicate Restorable(mb: MiniBlock, getAll: seq<Bytes> -> Result<map<Bytes, Bytes>, Error>,
                       unmarshal: Bytes -> Option<Error>, calculateHash: MiniBlock -> Result<Bytes, Error>) {
    getAll(mb.txHashes).Ok? &&
    (forall k :: k in getAll(mb.txHashes).value ==> unmarshal(getAll(mb.txHashes).value[k]).None?) &&
    calculateHash(mb).Ok?
  }

  /** The errors restoring one miniblock can end with. */
  predicate FailsWith(mb: MiniBlock, e: Error, getAll: seq<Bytes> -> Result<map<Bytes, Bytes>, Error>,
                      unmarshal: Bytes -> Option<Error>, calculateHash: MiniBlock -> Result<Bytes, Error>) {
    match getAll(mb.txHashes)
    case Err(e') => e == e'
    case Ok(buffs) =>
      (exists k :: k in buffs && unmarshal(buffs[k]) == Some(e)) ||
      ((forall k :: k in buffs ==> unmarshal(buffs[k]).None?) && calculateHash(mb) == Err(e))
  }

  /** The inner loop of `RestoreTxBlockIntoPools` over the stored buffers, in
      the map's unspecified order: it stops at the first one that does not
      unmarshal. */
  method UnmarshalAll(buffs: map<Bytes, Bytes>, unmarshal: Bytes -> Option<Error>) returns (err: Option<Error>)
    ensures err.None? <==> forall k :: k in buffs ==> unmarshal(buffs[k]).None?
    ensures err.Some? ==> exists k :: k in buffs && unmarshal(buffs[k]) == err
  {
    var remaining := buffs.Keys;
    while remaining != {}
      invariant remaining <= buffs.Keys
      invariant forall k :: k in buffs && k !in remaining ==> unmarshal(buffs[k]).None?
      decreases remaining
    {
      var k :| k in remaining;
      var e := unmarshal(buffs[k]);
      if e.Some? {
        return e;
      }
      remaining := remaining - {k};
    }
    return None;
  }

  // ---------------------------------------------------------------------
  // computeMissingScrsForMiniBlock

  /** The hashes the pool does not hold, in order. */
  function NotInPool(hashes: seq<Bytes>, inPool: Bytes -> bool): (r: seq<Bytes>)
    ensures |r| <= |hashes|
    decreases |hashes|
  {
    if hashes == [] then []
    else
      var last := hashes[|hashes| - 1];
      NotInPool(hashes[..|hashes| - 1], inPool) + (if inPool(last) then [] else [last])
  }

  /** Exactly the hashes the pool does not hold are kept. */
  lemma {:induction false} NotInPoolMembers(hashes: seq<Bytes>, inPool: Bytes -> bool)
    ensures forall h :: h in NotInPool(hashes, inPool) <==> h in hashes && !inPool(h)
    decreases |hashes|
  {
    if hashes != [] {
      NotInPoolMembers(hashes[..|hashes| - 1], inPool);
      assert hashes == hashes[..|hashes| - 1] + [hashes[|hashes| - 1]];
    }
  }

  /** `computeMissingScrsForMiniBlock`: nothing for a miniblock of another
      type, otherwise the hashes the pool does not hold. */
  function MissingScrs(mb: MiniBlock, inPool: Bytes -> bool): (r: seq<Bytes>)
    ensures !IsScrBlock(mb) ==> r == []
    ensures |r| <= |mb.txHashes|
  {
    if !IsScrBlock(mb) then [] else NotInPool(mb.txHashes, inPool)
  }

  /** A hash is missing exactly when the miniblock holds results, lists it,
      and the pool does not hold it. */
  lemma MissingScrsMembers(mb: MiniBlock, inPool: Bytes -> bool)
    ensures forall h :: h in MissingScrs(mb, inPool) <==> IsScrBlock(mb) && h in mb.txHashes && !inPool(h)
  {
    NotInPoolMembers(mb.txHashes, inPool);
  }

  // ---------------------------------------------------------------------
  // RequestBlockTransactions

  /** Number of hashes in a shard's list of missing miniblock hashes. */
  function HashCount(infos: seq<TxsHashesInfo>): nat
    decreases |infos|
  {
    if infos == [] then 0 else HashCount(infos[..|infos| - 1]) + |infos[|infos| - 1].txHashes|
  }

  /** Number of missing hashes over all sender shards. */
  ghost function TotalMissing(missing: map<ShardId, seq<TxsHashesInfo>>): nat
    decreases |missing.Keys|
  {
    if missing == map[] then 0
    else
      var s := PickShard(missing);
      HashCount(missing[s]) + TotalMissing(missing - {s})
  }

  ghost function PickShard(missing: map<ShardId, seq<TxsHashesInfo>>): (s: ShardId)
    requires missing != map[]
    ensures s in missing
  {
    assert missing.Keys != {};
    var s :| s in missing; s
  }

  /** The total does not depend on which shard is taken first. */
  lemma {:induction false} TotalMissingRemove(missing: map<ShardId, seq<TxsHashesInfo>>, s: ShardId)
    requires s in missing
    ensures TotalMissing(missing) == HashCount(missing[s]) + TotalMissing(missing - {s})
    decreases |missing.Keys|
  {
    var s' := PickShard(missing);
    assert TotalMissing(missing) == HashCount(missing[s']) + TotalMissing(missing - {s'});
    if s' != s {
      assert (missing - {s'}).Keys == missing.Keys - {s'};
      assert (missing - {s}).Keys == missing.Keys - {s};
      TotalMissingRemove(missing - {s'}, s);
      TotalMissingRemove(missing - {s}, s');
      assert missing - {s'} - {s} == missing - {s} - {s'};
    }
  }

  /** Number of missing lists over all sender shards. */
  ghost function ListCount(missing: map<ShardId, seq<TxsHashesInfo>>): nat
    decreases |missing.Keys|
  {
    if missing == map[] then 0
    else
      var s := PickShard(missing);
      |missing[s]| + ListCount(missing - {s})
  }

  /** The number of lists does not depend on which shard is taken first. */
  lemma {:induction false} ListCountRemove(missing: map<ShardId, seq<TxsHashesInfo>>, s: ShardId)
    requires s in missing
    ensures ListCount(missing) == |missing[s]| + ListCount(missing - {s})
    decreases |missing.Keys|
  {
    var s' := PickShard(missing);
    assert ListCount(missing) == |missing[s']| + ListCount(missing - {s'});
    if s' != s {
      assert (missing - {s'}).Keys == missing.Keys - {s'};
      assert (missing - {s}).Keys == missing.Keys - {s};
      ListCountRemove(missing - {s'}, s);
      ListCountRemove(missing - {s}, s');
      assert missing - {s'} - {s} == missing - {s} - {s'};
    }
  }

  /** `h` is listed as missing under one of the shards in `shards`. */
  predicate ListedUnder(missing: map<ShardId, seq<TxsHashesInfo>>, shards: set<ShardId>, h: Bytes) {
    exists s, t :: s in shards && s in missing && t in missing[s] && h in t.txHashes
  }

  /** The entry `setMissingSCResultsForShard` leaves for `h` when one of the
      shards in `shards` lists it: no result, and that shard pair. */
  predicate MarkedMissing(missing: map<ShardId, seq<TxsHashesInfo>>, shards: set<ShardId>, h: Bytes, v: TxInfo) {
    exists s, t :: s in shards && s in missing && t in missing[s] && h in t.txHashes &&
      v == TxInfo(None, s, t.receiverShardId)
  }

  /** What marking the missing lists of the shards in `done` leaves, starting
      from `initial`: an entry is present exactly when it was or is listed;
      a listed hash is marked missing under one of the lists naming it;
      other entries are as they were. */
  ghost predicate MarkState(missing: map<ShardId, seq<TxsHashesInfo>>, done: set<ShardId>,
                            initial: map<Bytes, TxInfo>, cur: map<Bytes, TxInfo>) {
    forall h :: MarkStateAt(missing, done, initial, cur, h)
  }

  /** `MarkState` for one hash. */
  ghost predicate MarkStateAt(missing: map<ShardId, seq<TxsHashesInfo>>, done: set<ShardId>,
                              initial: map<Bytes, TxInfo>, cur: map<Bytes, TxInfo>, h: Bytes) {
    && (h in cur <==> h in initial || ListedUnder(missing, done, h))
    && (ListedUnder(missing, done, h) ==> MarkedMissing(missing, done, h, cur[h]))
    && (h in initial && !ListedUnder(missing, done, h) ==> cur[h] == initial[h])
  }

  /** Before any shard is marked, the map is as it was. */
  lemma MarkStateEmpty(missing: map<ShardId, seq<TxsHashesInfo>>, initial: map<Bytes, TxInfo>)
    ensures MarkState(missing, {}, initial, initial)
  {
  }

  /** The index of the last list of `infos` naming `h`, or -1 when none does:
      that list's entry is the one `setMissingSCResultsForShard` leaves. */
  function LastListing(infos: seq<TxsHashesInfo>, h: Bytes): (k: int)
    ensures -1 <= k < |infos|
    ensures k >= 0 ==> h in infos[k].txHashes
    ensures forall i :: k < i < |infos| ==> h !in infos[i].txHashes
    decreases |infos|
  {
    if infos == [] then -1
    else if h in infos[|infos| - 1].txHashes then |infos| - 1
    else LastListing(infos[..|infos| - 1], h)
  }

  /** What marking one sender shard's lists `infos` in order does to the map:
      a hash gets an entry exactly when it had one or some list names it;
      a named hash is marked with no result and the shard pair of the last
      list naming it; other entries stay. */
  ghost predicate ShardMarked(infos: seq<TxsHashesInfo>, senderShardId: ShardId,
                              before: map<Bytes, TxInfo>, after: map<Bytes, TxInfo>) {
    forall h :: ShardMarkedAt(infos, senderShardId, before, after, h)
  }

  /** `ShardMarked` for one hash. */
  ghost predicate ShardMarkedAt(infos: seq<TxsHashesInfo>, senderShardId: ShardId,
                                before: map<Bytes, TxInfo>, after: map<Bytes, TxInfo>, h: Bytes) {
    var k := LastListing(infos, h);
    && (h in after <==> h in before || k >= 0)
    && (k >= 0 ==> after[h] == TxInfo(None, senderShardId, infos[k].receiverShardId))
    && (h in before && k < 0 ==> after[h] == before[h])
  }

  lemma ShardMarkedEmpty(infos: seq<TxsHashesInfo>, senderShardId: ShardId, initial: map<Bytes, TxInfo>)
    ensures ShardMarked(infos[..0], senderShardId, initial, initial)
  {
  }

  /** Marking the next list of a sender shard extends what the earlier lists
      marked, the new list winning. */
  lemma ShardMarkedStep(infos: seq<TxsHashesInfo>, j: nat, senderShardId: ShardId,
                        initial: map<Bytes, TxInfo>, mid: map<Bytes, TxInfo>, after: map<Bytes, TxInfo>)
    requires j < |infos|
    requires ShardMarked(infos[..j], senderShardId, initial, mid)
    requires forall h :: h in after <==> h in mid || h in infos[j].txHashes
    requires forall h :: h in infos[j].txHashes ==> after[h] == TxInfo(None, senderShardId, infos[j].receiverShardId)
    requires forall h :: h in mid && h !in infos[j].txHashes ==> after[h] == mid[h]
    ensures ShardMarked(infos[..j + 1], senderShardId, initial, after)
  {
    var done := infos[..j];
    var next := infos[..j + 1];
    forall h
      ensures ShardMarkedAt(next, senderShardId, initial, after, h)
    {
      LastListingNext(infos, j, h);
      assert ShardMarkedAt(done, senderShardId, initial, mid, h);
      var k := LastListing(done, h);
      if k >= 0 {
        assert next[k] == done[k];
      }
    }
  }

  /** The last list naming a hash, once one more list is taken. */
  lemma LastListingNext(infos: seq<TxsHashesInfo>, j: nat, h: Bytes)
    requires j < |infos|
    ensures LastListing(infos[..j + 1], h) == if h in infos[j].txHashes then j else LastListing(infos[..j], h)
  {
    assert infos[..j + 1][..j] == infos[..j];
  }

  /** A hash has a last listing exactly when some list names it. */
  lemma LastListingListed(infos: seq<TxsHashesInfo>, h: Bytes)
    ensures LastListing(infos, h) >= 0 <==> exists t :: t in infos && h in t.txHashes
  {
    var k := LastListing(infos, h);
    if k >= 0 {
      assert infos[k] in infos;
    }
  }

  /** The loop of `getAllScrsFromMiniBlock`, consulting `haveTime` once per hash. */
  method FetchScrs(hashes: seq<Bytes>, cache: map<Bytes, Transaction>, haveTime: nat -> bool)
    returns (r: Result<seq<Transaction>, Error>)
    ensures r == ScrsFrom(hashes, cache, haveTime, 0)
  {
    var scrs := [];
    var i := 0;
    assert hashes[0..] == hashes;
    PrependNothing(ScrsFrom(hashes, cache, haveTime, 0));
    while i < |hashes|
      invariant 0 <= i <= |hashes|
      invariant ScrsFrom(hashes, cache, haveTime, 0) == Prepend(scrs, ScrsFrom(hashes[i..], cache, haveTime, i))
    {
      ScrsFromStep(hashes, cache, haveTime, i);
      if !haveTime(i) {
        return Err(ErrTimeIsOut);
      }
      var txHash := hashes[i];
      if txHash !in cache {
        return Err(ErrNilSmartContractResult);
      }
      var tx := cache[txHash];
      if !tx.SmartContractResult? {
        return Err(ErrWrongTypeAssertion);
      }
      PrependPrepend(scrs, [tx], ScrsFrom(hashes[i + 1..], cache, haveTime, i + 1));
      scrs := scrs + [tx];
      i := i + 1;
    }
    assert hashes[i..] == [] && scrs + [] == scrs;
    return Ok(scrs);
  }

  lemma ScrsFromStep(hashes: seq<Bytes>, cache: map<Bytes, Transaction>, haveTime: nat -> bool, i: nat)
    requires i < |hashes|
    ensures ScrsFrom(hashes[i..], cache, haveTime, i) ==
      if !haveTime(i) then Err(ErrTimeIsOut)
      else if hashes[i] !in cache then Err(ErrNilSmartContractResult)
      else if !cache[hashes[i]].SmartContractResult? then Err(ErrWrongTypeAssertion)
      else Prepend([cache[hashes[i]]], ScrsFrom(hashes[i + 1..], cache, haveTime, i + 1))
  {
    assert hashes[i..][0] == hashes[i];
    assert hashes[i..][1..] == hashes[i + 1..];
  }

  lemma PrependNothing(r: Result<seq<Transaction>, Error>)
    ensures Prepend([], r) == r
  {
    if r.Ok? {
      assert [] + r.value == r.value;
    }
  }

  lemma PrependPrepend(a: seq<Transaction>, b: seq<Transaction>, r: Result<seq<Transaction>, Error>)
    ensures Prepend(a, Prepend(b, r)) == Prepend(a + b, r)
  {
    if r.Ok? {
      assert a + (b + r.value) == (a + b) + r.value;
    }
  }

  /** The gas loop of `ProcessMiniBlock`; `counted` is the number of
      hashes whose gas it counted. */
  method RunGas(scrs: seq<Transaction>, hashes: seq<Bytes>, haveTime: nat -> bool, calls: nat,
                gasErr: (Transaction, Bytes) -> Option<Error>) returns (err: Option<Error>, counted: nat)
    requires |scrs| == |hashes|
    ensures err == GasFrom(0, scrs, hashes, haveTime, calls, gasErr)
    ensures counted == GasStopAt(0, scrs, hashes, haveTime, calls, gasErr)
  {
    var index := 0;
    while index < |scrs|
      invariant 0 <= index <= |scrs|
      invariant GasFrom(0, scrs, hashes, haveTime, calls, gasErr) == GasFrom(index, scrs, hashes, haveTime, calls, gasErr)
      invariant GasStopAt(0, scrs, hashes, haveTime, calls, gasErr) == GasStopAt(index, scrs, hashes, haveTime, calls, gasErr)
    {
      if !haveTime(calls + index) {
        return Some(ErrTimeIsOut), index;
      }
      var e := gasErr(scrs[index], hashes[index]);
      if e.Some? {
        return e, index;
      }
      index := index + 1;
    }
    return None, index;
  }

  /** The processing loop of `ProcessMiniBlock`. */
  method RunProcessing(scrs: seq<Transaction>, haveTime: nat -> bool, calls: nat,
                       processScr: Transaction -> Option<Error>) returns (err: Option<Error>)
    ensures err == ProcessFrom(0, scrs, haveTime, calls, processScr)
  {
    var index := 0;
    while index < |scrs|
      invariant 0 <= index <= |scrs|
      invariant ProcessFrom(0, scrs, haveTime, calls, processScr) == ProcessFrom(index, scrs, haveTime, calls, processScr)
    {
      if !haveTime(calls + index) {
        return Some(ErrTimeIsOut);
      }
      var e := processScr(scrs[index]);
      if e.Some? {
        return e;
      }
      index := index + 1;
    }
    return None;
  }

  class ScrPreprocessor {
    const selfId: ShardId
    /** The per-block bookkeeping map: result hash to (result, shard pair). */
    var txHashAndInfo: map<Bytes, TxInfo>
    var missingTxs: int

    constructor(selfId: ShardId)
      ensures this.selfId == selfId && txHashAndInfo == map[] && missingTxs == 0
    {
      this.selfId := selfId;
      txHashAndInfo := map[];
      missingTxs := 0;
    }

    /** `CreateBlockStarted`: the bookkeeping starts empty for the new block. */
    method CreateBlockStarted()
      modifies this
      ensures txHashAndInfo == map[] && missingTxs == 0
    {
      missingTxs := 0;
      txHashAndInfo := map[];
    }

    /** `IsDataPrepared`, given the outcome of waiting for the requested
        results: with nothing requested there is nothing to wait for;
        otherwise the missing count is cleared and the wait's error returned. */
    method IsDataPrepared(requestedScrs: int, waitErr: Option<Error>) returns (err: Option<Error>)
      modifies this
      ensures requestedScrs > 0 ==> err == waitErr && missingTxs == 0
      ensures requestedScrs <= 0 ==> err.None? && missingTxs == old(missingTxs)
      ensures txHashAndInfo == old(txHashAndInfo)
    {
      if requestedScrs > 0 {
        missingTxs := 0;
        return waitErr;
      }
      return None;
    }

    /** The inner loop of `ProcessBlockTransactions` over one miniblock. */
    method ProcessMiniBlockHashes(mb: MiniBlock, haveTime: nat -> bool, calls: nat,
                                  processScr: Transaction -> Option<Error>) returns (err: Option<Error>, calls': nat)
      modifies this
      ensures Progress(err, txHashAndInfo, calls')
        == ProcessHashes(mb.txHashes, mb, old(txHashAndInfo), haveTime, calls, processScr)
    {
      calls' := calls;
      var j := 0;
      while j < |mb.txHashes|
        invariant 0 <= j <= |mb.txHashes|
        invariant ProcessHashes(mb.txHashes, mb, old(txHashAndInfo), haveTime, calls, processScr)
          == ProcessHashes(mb.txHashes[j..], mb, txHashAndInfo, haveTime, calls', processScr)
      {
        assert mb.txHashes[j..][1..] == mb.txHashes[j + 1..];
        var ok := haveTime(calls');
        calls' := calls' + 1;
        if !ok {
          return Some(ErrTimeIsOut), calls';
        }
        var txHash := mb.txHashes[j];
        if txHash !in txHashAndInfo || txHashAndInfo[txHash].tx.None? {
          return Some(ErrMissingTransaction), calls';
        }
        var tx := txHashAndInfo[txHash].tx.value;
        if !tx.SmartContractResult? {
          return Some(ErrWrongTypeAssertion), calls';
        }
        var e := processScr(tx);
        if e.Some? {
          return e, calls';
        }
        txHashAndInfo := txHashAndInfo[txHash := TxInfo(Some(tx), mb.senderShardId, mb.receiverShardId)];
        j := j + 1;
      }
      return None, calls';
    }

    /** `ProcessBlockTransactions`: processes every result of the miniblocks
        sent to this shard from another one, refreshing their entries. */
    method ProcessBlockTransactions(body: Body, haveTime: nat -> bool, processScr: Transaction -> Option<Error>)
      returns (err: Option<Error>)
      modifies this
      ensures err == ProcessBody(body, selfId, old(txHashAndInfo), haveTime, 0, processScr).err
      ensures txHashAndInfo == ProcessBody(body, selfId, old(txHashAndInfo), haveTime, 0, processScr).info
    {
      var calls := 0;
      var i := 0;
      while i < |body|
        invariant 0 <= i <= |body|
        invariant ProcessBody(body, selfId, old(txHashAndInfo), haveTime, 0, processScr)
          == ProcessBody(body[i..], selfId, txHashAndInfo, haveTime, calls, processScr)
      {
        assert body[i..][1..] == body[i + 1..];
        var miniBlock := body[i];
        if ProcessedHere(miniBlock, selfId) {
          err, calls := ProcessMiniBlockHashes(miniBlock, haveTime, calls, processScr);
          if err.Some? {
            return;
          }
        }
        i := i + 1;
      }
      return None;
    }

    /** `SaveTxBlockToStorage`, with the shared save helper as `saveTxs`. */
    method SaveTxBlockToStorage(body: Body, saveTxs: seq<Bytes> -> Option<Error>) returns (err: Option<Error>)
      ensures err == SaveBody(body, selfId, saveTxs)
    {
      var i := 0;
      while i < |body|
        invariant 0 <= i <= |body|
        invariant SaveBody(body, selfId, saveTxs) == SaveBody(body[i..], selfId, saveTxs)
      {
        assert body[i..][1..] == body[i + 1..];
        var miniBlock := body[i];
        if ProcessedHere(miniBlock, selfId) {
          var e := saveTxs(miniBlock.txHashes);
          if e.Some? {
            return e;
          }
        }
        i := i + 1;
      }
      return None;
    }

    /** `setMissingSCResultsForShard`: every listed hash gets an entry with no
        result and the given shard pair; every other entry stays. */
    method SetMissingSCResultsForShard(senderShardId: ShardId, mbTxHashes: TxsHashesInfo)
      modifies this
      ensures forall h :: h in txHashAndInfo <==> h in old(txHashAndInfo) || h in mbTxHashes.txHashes
      ensures forall h :: h in mbTxHashes.txHashes ==>
        txHashAndInfo[h] == TxInfo(None, senderShardId, mbTxHashes.receiverShardId)
      ensures forall h :: h in old(txHashAndInfo) && h !in mbTxHashes.txHashes ==>
        txHashAndInfo[h] == old(txHashAndInfo)[h]
      ensures missingTxs == old(missingTxs)
    {
      var entry := TxInfo(None, senderShardId, mbTxHashes.receiverShardId);
      var i := 0;
      while i < |mbTxHashes.txHashes|
        invariant 0 <= i <= |mbTxHashes.txHashes|
        invariant forall h :: h in txHashAndInfo <==> h in old(txHashAndInfo) || h in mbTxHashes.txHashes[..i]
        invariant forall h :: h in mbTxHashes.txHashes[..i] ==> txHashAndInfo[h] == entry
        invariant forall h :: h in old(txHashAndInfo) && h !in mbTxHashes.txHashes[..i] ==>
          txHashAndInfo[h] == old(txHashAndInfo)[h]
        invariant missingTxs == old(missingTxs)
      {
        assert mbTxHashes.txHashes[..i + 1] == mbTxHashes.txHashes[..i] + [mbTxHashes.txHashes[i]];
        txHashAndInfo := txHashAndInfo[mbTxHashes.txHashes[i] := entry];
        i := i + 1;
      }
      assert mbTxHashes.txHashes[..i] == mbTxHashes.txHashes;
    }

    /** The inner loop of the first pass of `RequestBlockTransactions`: one
        sender shard's missing lists, in order. */
    method SetMissingForShard(senderShardId: ShardId, infos: seq<TxsHashesInfo>)
      modifies this
      ensures ShardMarked(infos, senderShardId, old(txHashAndInfo), txHashAndInfo)
      ensures missingTxs == old(missingTxs)
    {
      ghost var initial := txHashAndInfo;
      var j := 0;
      ShardMarkedEmpty(infos, senderShardId, initial);
      while j < |infos|
        invariant 0 <= j <= |infos|
        invariant ShardMarked(infos[..j], senderShardId, initial, txHashAndInfo)
        invariant missingTxs == old(missingTxs)
      {
        ghost var mid := txHashAndInfo;
        SetMissingSCResultsForShard(senderShardId, infos[j]);
        ShardMarkedStep(infos, j, senderShardId, initial, mid, txHashAndInfo);
        j := j + 1;
      }
      assert infos[..j] == infos;
    }

    /** The first loop of `computeMissingAndExistingSCResultsForShards`. */
    method ScrBlocksToCheck(body: Body) returns (scrTxs: Body)
      ensures scrTxs == ScrBlocksFromOtherShards(body, selfId)
    {
      scrTxs := [];
      var i := 0;
      while i < |body|
        invariant 0 <= i <= |body|
        invariant scrTxs == ScrBlocksFromOtherShards(body[..i], selfId)
      {
        assert body[..i + 1] == body[..i] + [body[i]];
        ScrBlocksFromOtherShardsAppend(body[..i], [body[i]], selfId);
        if FromOtherShard(body[i], selfId) {
          scrTxs := scrTxs + [body[i]];
        }
        i := i + 1;
      }
      assert body[..i] == body;
    }

    /** The inner loop of the second pass of `RequestBlockTransactions`: one
        request per missing list of a sender shard, counting its hashes. */
    method RequestShard(s: ShardId, infos: seq<TxsHashesInfo>) returns (count: nat, requests: seq<Request>)
      ensures count == HashCount(infos)
      ensures |requests| == |infos| && forall j :: 0 <= j < |infos| ==> requests[j] == Request(s, infos[j].txHashes)
      ensures forall r :: r in requests <==> exists t :: t in infos && r == Request(s, t.txHashes)
    {
      count := 0;
      requests := [];
      var j := 0;
      while j < |infos|
        invariant 0 <= j <= |infos|
        invariant count == HashCount(infos[..j])
        invariant |requests| == j && forall i :: 0 <= i < j ==> requests[i] == Request(s, infos[i].txHashes)
        invariant forall r :: r in requests <==> exists t :: t in infos[..j] && r == Request(s, t.txHashes)
      {
        assert infos[..j + 1][..j] == infos[..j];
        assert infos[..j + 1] == infos[..j] + [infos[j]];
        count := count + |infos[j].txHashes|;
        requests := requests + [Request(s, infos[j].txHashes)];
        j := j + 1;
      }
      assert infos[..j] == infos;
    }

    /** The second loop of `RequestBlockTransactions`: one request per missing
        list, counting every requested hash. */
    method RequestMissing(missing: map<ShardId, seq<TxsHashesInfo>>) returns (requested: nat, requests: seq<Request>)
      ensures requested == TotalMissing(missing)
      ensures |requests| == ListCount(missing)
      ensures forall r :: r in requests <==> exists s, t :: s in missing && t in missing[s] && r == Request(s, t.txHashes)
    {
      requested := 0;
      requests := [];
      var remaining := missing.Keys;
      ghost var left := missing;
      while remaining != {}
        invariant remaining <= missing.Keys
        invariant left.Keys == remaining && forall s :: s in left ==> left[s] == missing[s]
        invariant requested + TotalMissing(left) == TotalMissing(missing)
        invariant |requests| + ListCount(left) == ListCount(missing)
        invariant forall r :: r in requests <==>
          exists s, t :: s in missing && s !in remaining && t in missing[s] && r == Request(s, t.txHashes)
        decreases remaining
      {
        var s :| s in remaining;
        TotalMissingRemove(left, s);
        ListCountRemove(left, s);
        var count, shardRequests := RequestShard(s, missing[s]);
        ghost var requests0 := requests;
        requested := requested + count;
        requests := requests + shardRequests;
        remaining := remaining - {s};
        left := left - {s};
        forall r | r in requests
          ensures exists s', t :: s' in missing && s' !in remaining && t in missing[s'] && r == Request(s', t.txHashes)
        {
          if r !in requests0 {
            var t :| t in missing[s] && r == Request(s, t.txHashes);
          }
        }
        forall r | (exists s', t :: s' in missing && s' !in remaining && t in missing[s'] && r == Request(s', t.txHashes))
          ensures r in requests
        {
          var s', t :| s' in missing && s' !in remaining && t in missing[s'] && r == Request(s', t.txHashes);
          if s' == s {
            assert r in shardRequests;
          } else {
            assert r in requests0;
          }
        }
      }
      assert left == map[];
    }

    /** The first loop of `RequestBlockTransactions`: every hash some sender
        shard lists as missing is marked with no result and that shard's
        pair; every other entry stays. */
    method MarkAllMissing(missing: map<ShardId, seq<TxsHashesInfo>>)
      modifies this
      ensures MarkState(missing, missing.Keys, old(txHashAndInfo), txHashAndInfo)
      ensures missingTxs == old(missingTxs)
    {
      ghost var initial := txHashAndInfo;
      var remaining := missing.Keys;
      ghost var done: set<ShardId> := {};
      MarkStateEmpty(missing, initial);
      while remaining != {}
        invariant done !! remaining && done + remaining == missing.Keys
        invariant MarkState(missing, done, initial, txHashAndInfo)
        invariant missingTxs == old(missingTxs)
        decreases remaining
      {
        var s :| s in remaining;
        ghost var before := txHashAndInfo;
        SetMissingForShard(s, missing[s]);
        MarkedMissingStep(missing, done, s, before, txHashAndInfo, initial);
        remaining := remaining - {s};
        done := done + {s};
      }
      assert done == missing.Keys;
    }

    /** `RequestBlockTransactions`: the shared helper sorts the results of
        other shards' miniblocks into present and missing; every missing hash
        is then marked in the bookkeeping map and requested from its sender
        shard, and the number of requested hashes is returned. */
    method RequestBlockTransactions(body: Body, computeExistingAndMissing: (Body, map<Bytes, TxInfo>) -> MissingReport)
      returns (requested: nat, requests: seq<Request>)
      modifies this
      ensures var report := computeExistingAndMissing(ScrBlocksFromOtherShards(body, selfId), old(txHashAndInfo));
        && requested == TotalMissing(report.missing)
        && (forall r :: r in requests <==>
             exists s, t :: s in report.missing && t in report.missing[s] && r == Request(s, t.txHashes))
        && |requests| == ListCount(report.missing)
        && MarkState(report.missing, report.missing.Keys, report.txHashAndInfo, txHashAndInfo)
        && missingTxs == report.missingTxs
    {
      var scrTxs := ScrBlocksToCheck(body);
      var report := computeExistingAndMissing(scrTxs, txHashAndInfo);
      txHashAndInfo := report.txHashAndInfo;
      missingTxs := report.missingTxs;
      MarkAllMissing(report.missing);
      requested, requests := RequestMissing(report.missing);
    }

    /** `ProcessMiniBlock`, with the shard store of the miniblock's shard pair
        as `txCache` (None for a missing store), the gas computation as
        `gasErr` and the result processor as `processScr`. On success every
        hash of the miniblock is recorded with its result; on a failure after
        the gas loop has started, `gasRolledBack` is what is handed to the gas
        handler's rollback: the intended rollback (`GasRollback`), which is
        the one the code as written performs except on a time-out. */
    method ProcessMiniBlock(mb: MiniBlock, txCache: Option<map<Bytes, Transaction>>, haveTime: nat -> bool,
                            gasErr: (Transaction, Bytes) -> Option<Error>, processScr: Transaction -> Option<Error>)
      returns (err: Option<Error>, gasRolledBack: Option<seq<Bytes>>)
      modifies this
      ensures err == MiniBlockError(mb, txCache, haveTime, gasErr, processScr)
      ensures gasRolledBack == GasRollback(mb, txCache, haveTime, gasErr, processScr)
      ensures err != Some(ErrTimeIsOut) ==> gasRolledBack == GasRollbackAsWritten(mb, txCache, haveTime, gasErr, processScr)
      ensures err.Some? ==> txHashAndInfo == old(txHashAndInfo)
      ensures err.None? ==> txCache.Some? && Recorded(old(txHashAndInfo), txHashAndInfo, mb, txCache.value)
      ensures missingTxs == old(missingTxs)
    {
      if GasRollbackAsWritten(mb, txCache, haveTime, gasErr, processScr) != GasRollback(mb, txCache, haveTime, gasErr, processScr) {
        GasRollbackAsWrittenDiffersOnTimeOut(mb, txCache, haveTime, gasErr, processScr);
      }
      gasRolledBack := None;
      if !IsScrBlock(mb) {
        return Some(ErrWrongTypeInMiniBlock), None;
      }
      var scrs, hashes;
      scrs, hashes, err := GetAllScrsFromMiniBlock(mb, txCache, haveTime);
      if err.Some? {
        return;
      }
      var n := |scrs|;
      var counted;
      err, counted := RunGas(scrs, hashes, haveTime, n, gasErr);
      if err.Some? {
        return err, Some(hashes[..counted]);
      }
      err := RunProcessing(scrs, haveTime, 2 * n, processScr);
      if err.Some? {
        return err, Some(hashes);
      }
      RecordScrs(mb, scrs, txCache.value);
    }

    /** The last loop of `ProcessMiniBlock`: records every hash with its
        result and the miniblock's shard pair. */
    method RecordScrs(mb: MiniBlock, scrs: seq<Transaction>, ghost cache: map<Bytes, Transaction>)
      requires |scrs| == |mb.txHashes|
      requires forall i :: 0 <= i < |scrs| ==> mb.txHashes[i] in cache && scrs[i] == cache[mb.txHashes[i]]
      modifies this
      ensures Recorded(old(txHashAndInfo), txHashAndInfo, mb, cache)
      ensures missingTxs == old(missingTxs)
    {
      var hashes := mb.txHashes;
      var index := 0;
      while index < |scrs|
        invariant 0 <= index <= |scrs|
        invariant Recorded(old(txHashAndInfo), txHashAndInfo, MiniBlock(hashes[..index], mb.receiverShardId, mb.senderShardId, mb.mbType), cache)
        invariant missingTxs == old(missingTxs)
      {
        assert hashes[..index + 1] == hashes[..index] + [hashes[index]];
        txHashAndInfo := txHashAndInfo[hashes[index] := TxInfo(Some(scrs[index]), mb.senderShardId, mb.receiverShardId)];
        index := index + 1;
      }
      assert hashes[..index] == hashes;
    }

    /** `getAllScrsFromMiniBlock`: the miniblock's results from the shard
        store, in order, with their hashes. */
    method GetAllScrsFromMiniBlock(mb: MiniBlock, txCache: Option<map<Bytes, Transaction>>, haveTime: nat -> bool)
      returns (scrs: seq<Transaction>, hashes: seq<Bytes>, err: Option<Error>)
      ensures txCache.None? ==> err == Some(ErrNilUTxDataPool)
      ensures txCache.Some? ==> match ScrsFrom(mb.txHashes, txCache.value, haveTime, 0)
        case Ok(v) => err.None? && scrs == v && hashes == mb.txHashes
        case Err(e) => err == Some(e)
    {
      if txCache.None? {
        return [], [], Some(ErrNilUTxDataPool);
      }
      var r := FetchScrs(mb.txHashes, txCache.value, haveTime);
      if r.Err? {
        return [], [], Some(r.error);
      }
      return r.value, mb.txHashes, None;
    }

    /** `RestoreTxBlockIntoPools`, with the miniblock pool's presence as
        `miniBlockPoolPresent` and the storer, marshaller and hasher as
        parameters. It counts the hashes of every smart-contract-result
        miniblock it puts back, and stops at the first one it cannot. */
    method RestoreTxBlockIntoPools(body: Body, miniBlockPoolPresent: bool,
                                   getAll: seq<Bytes> -> Result<map<Bytes, Bytes>, Error>,
                                   unmarshal: Bytes -> Option<Error>,
                                   calculateHash: MiniBlock -> Result<Bytes, Error>)
      returns (restored: nat, err: Option<Error>)
      ensures !miniBlockPoolPresent ==> restored == 0 && err == Some(ErrNilMiniBlockPool)
      ensures miniBlockPoolPresent ==>
        (err.None? <==> forall mb :: mb in body && IsScrBlock(mb) ==> Restorable(mb, getAll, unmarshal, calculateHash))
      ensures miniBlockPoolPresent && err.None? ==> restored == ScrHashCount(body)
      ensures miniBlockPoolPresent && err.Some? ==>
        exists i :: 0 <= i < |body| && IsScrBlock(body[i]) &&
          FailsWith(body[i], err.value, getAll, unmarshal, calculateHash) &&
          (forall j :: 0 <= j < i && IsScrBlock(body[j]) ==> Restorable(body[j], getAll, unmarshal, calculateHash)) &&
          restored == ScrHashCount(body[..i])
    {
      if !miniBlockPoolPresent {
        return 0, Some(ErrNilMiniBlockPool);
      }
      restored := 0;
      var i := 0;
      while i < |body|
        invariant 0 <= i <= |body|
        invariant restored == ScrHashCount(body[..i])
        invariant forall j :: 0 <= j < i && IsScrBlock(body[j]) ==> Restorable(body[j], getAll, unmarshal, calculateHash)
      {
        assert body[..i + 1][..i] == body[..i];
        var miniBlock := body[i];
        if IsScrBlock(miniBlock) {
          var scrBuff := getAll(miniBlock.txHashes);
          if scrBuff.Err? {
            return restored, Some(scrBuff.error);
          }
          var e := UnmarshalAll(scrBuff.value, unmarshal);
          if e.Some? {
            return restored, e;
          }
          var miniBlockHash := calculateHash(miniBlock);
          if miniBlockHash.Err? {
            return restored, Some(miniBlockHash.error);
          }
          restored := restored + |miniBlock.txHashes|;
        }
        i := i + 1;
      }
      assert body[..i] == body;
      forall mb | mb in body && IsScrBlock(mb) ensures Restorable(mb, getAll, unmarshal, calculateHash) {
        var j :| 0 <= j < |body| && body[j] == mb;
      }
      return restored, None;
    }

    /** `computeMissingScrsForMiniBlock`, with the pool lookup as `inPool`. */
    method ComputeMissingScrsForMiniBlock(mb: MiniBlock, inPool: Bytes -> bool) returns (missing: seq<Bytes>)
      ensures missing == MissingScrs(mb, inPool)
    {
      if !IsScrBlock(mb) {
        return [];
      }
      missing := [];
      var i := 0;
      while i < |mb.txHashes|
        invariant 0 <= i <= |mb.txHashes|
        invariant missing == NotInPool(mb.txHashes[..i], inPool)
      {
        assert mb.txHashes[..i + 1][..i] == mb.txHashes[..i];
        if !inPool(mb.txHashes[i]) {
          missing := missing + [mb.txHashes[i]];
        }
        i := i + 1;
      }
      assert mb.txHashes[..i] == mb.txHashes;
    }

    /** `RequestTransactionsForMiniBlock`: a nil miniblock requests nothing;
        otherwise its missing results are requested from its sender shard
        when there are any, and their number is returned. */
    method RequestTransactionsForMiniBlock(mb: Option<MiniBlock>, inPool: Bytes -> bool)
      returns (count: nat, request: Option<Request>)
      ensures mb.None? ==> count == 0 && request.None?
      ensures mb.Some? ==> count == |MissingScrs(mb.value, inPool)|
      ensures mb.Some? ==>
        request == if count > 0 then Some(Request(mb.value.senderShardId, MissingScrs(mb.value, inPool))) else None
    {
      if mb.None? {
        return 0, None;
      }
      var missing := ComputeMissingScrsForMiniBlock(mb.value, inPool);
      request := None;
      if |missing| > 0 {
        request := Some(Request(mb.value.senderShardId, missing));
      }
      count := |missing|;
    }

    /** `GetAllCurrentUsedTxs`: every tracked hash with its result (None
        where it is still missing). */
    method GetAllCurrentUsedTxs() returns (used: map<Bytes, Option<Transaction>>)
      ensures used.Keys == txHashAndInfo.Keys
      ensures forall h :: h in used ==> used[h] == txHashAndInfo[h].tx
    {
      used := map[];
      var remaining := txHashAndInfo.Keys;
      while remaining != {}
        invariant remaining <= txHashAndInfo.Keys
        invariant used.Keys == txHashAndInfo.Keys - remaining
        invariant forall h :: h in used ==> used[h] == txHashAndInfo[h].tx
        decreases remaining
      {
        var h :| h in remaining;
        used := used[h := txHashAndInfo[h].tx];
        remaining := remaining - {h};
      }
    }
  }

  /** `HashCount` taken from the front. */
  lemma {:induction false} HashCountFront(infos: seq<TxsHashesInfo>)
    requires infos != []
    ensures HashCount(infos) == |infos[0].txHashes| + HashCount(infos[1..])
    decreases |infos|
  {
    if |infos| > 1 {
      var init := infos[..|infos| - 1];
      HashCountFront(init);
      assert init[1..] == infos[1..][..|infos[1..]| - 1];
    }
  }

  /** One step of the first pass of `RequestBlockTransactions`: after shard
      `s`'s lists are marked, the facts about the shards done so far extend
      to `done + {s}`. */
  lemma MarkedMissingStep(missing: map<ShardId, seq<TxsHashesInfo>>, done: set<ShardId>, s: ShardId,
                          before: map<Bytes, TxInfo>, after: map<Bytes, TxInfo>, initial: map<Bytes, TxInfo>)
    requires s in missing && s !in done
    requires MarkState(missing, done, initial, before)
    requires ShardMarked(missing[s], s, before, after)
    ensures MarkState(missing, done + {s}, initial, after)
  {
    forall h
      ensures MarkStateAt(missing, done + {s}, initial, after, h)
    {
      assert MarkStateAt(missing, done, initial, before, h);
      assert ShardMarkedAt(missing[s], s, before, after, h);
      ListedUnderAdd(missing, done, s, h);
      LastListingListed(missing[s], h);
      var k := LastListing(missing[s], h);
      if k >= 0 {
        assert missing[s][k] in missing[s];
      } else if ListedUnder(missing, done, h) {
        var s', t :| s' in done && s' in missing && t in missing[s'] && h in t.txHashes &&
          before[h] == TxInfo(None, s', t.receiverShardId);
        assert after[h] == before[h];
      }
    }
  }

  /** A hash is listed under one more shard exactly when it was listed under
      the earlier ones or that shard lists it. */
  lemma ListedUnderAdd(missing: map<ShardId, seq<TxsHashesInfo>>, done: set<ShardId>, s: ShardId, h: Bytes)
    requires s in missing
    ensures ListedUnder(missing, done + {s}, h) <==>
      ListedUnder(missing, done, h) || exists t :: t in missing[s] && h in t.txHashes
  {
    if ListedUnder(missing, done + {s}, h) {
      var s', t :| s' in done + {s} && s' in missing && t in missing[s'] && h in t.txHashes;
      if s' != s {
        assert ListedUnder(missing, done, h);
      }
    }
  }
}
