/** The block tracker's store of received headers, kept per shard and per
    nonce, its queries, the round-robin merge of the shards' longest chains
    and the two checks of a header's round and nonce. */
module BlockTrack {
  import opened Common

  datatype Header = Header(shardId: ShardId, nonce: Uint64, round: Uint64)

  datatype HeaderInfo = HeaderInfo(hash: Bytes, header: Header)

  type ShardHeaders = map<Uint64, seq<HeaderInfo>>

  type TrackedHeaders = map<ShardId, ShardHeaders>

  // ---------------------------------------------------------------------
  // The store and its invariant
  // ---------------------------------------------------------------------

  predicate HashesDistinct(infos: seq<HeaderInfo>) {
    forall i, j :: 0 <= i < j < |infos| ==> infos[i].hash != infos[j].hash
  }

  predicate FiledUnder(infos: seq<HeaderInfo>, shardId: ShardId, nonce: Uint64) {
    forall i :: 0 <= i < |infos| ==> infos[i].header.shardId == shardId && infos[i].header.nonce == nonce
  }

  /** Every tracked header sits under its own shard and nonce, and a hash
      occurs at most once per shard and nonce. */
  predicate WellFiled(headers: TrackedHeaders) {
    forall s, n :: s in headers && n in headers[s] ==>
      HashesDistinct(headers[s][n]) && FiledUnder(headers[s][n], s, n)
  }

  /** The headers tracked for a shard and nonce; none when either is absent. */
  function InfosAt(headers: TrackedHeaders, shardId: ShardId, nonce: Uint64): seq<HeaderInfo> {
    if shardId in headers && nonce in headers[shardId] then headers[shardId][nonce] else []
  }

  predicate HasHash(infos: seq<HeaderInfo>, hash: Bytes) {
    exists i :: 0 <= i < |infos| && infos[i].hash == hash
  }

  /** The store after `addHeader` of a non-nil header. */
  function AddedHeader(headers: TrackedHeaders, header: Header, hash: Bytes): (r: TrackedHeaders)
    ensures header.shardId in r && r.Keys == headers.Keys + {header.shardId}
    ensures HasHash(InfosAt(headers, header.shardId, header.nonce), hash) ==> r == headers
    ensures !HasHash(InfosAt(headers, header.shardId, header.nonce), hash) ==>
      InfosAt(r, header.shardId, header.nonce)
        == InfosAt(headers, header.shardId, header.nonce) + [HeaderInfo(hash, header)]
    ensures forall s, n :: s != header.shardId || n != header.nonce ==> InfosAt(r, s, n) == InfosAt(headers, s, n)
  {
    var forShard := if header.shardId in headers then headers[header.shardId] else map[];
    var atNonce := if header.nonce in forShard then forShard[header.nonce] else [];
    if HasHash(atNonce, hash) then headers[header.shardId := forShard]
    else headers[header.shardId := forShard[header.nonce := atNonce + [HeaderInfo(hash, header)]]]
  }

  lemma AddedHeaderKeepsWellFiled(headers: TrackedHeaders, header: Header, hash: Bytes)
    requires WellFiled(headers)
    ensures WellFiled(AddedHeader(headers, header, hash))
  {
    var r := AddedHeader(headers, header, hash);
    forall s, n | s in r && n in r[s]
      ensures HashesDistinct(r[s][n]) && FiledUnder(r[s][n], s, n)
    {
      assert r[s][n] == InfosAt(r, s, n);
      if s == header.shardId && n == header.nonce {
        var old_ := InfosAt(headers, s, n);
        assert HashesDistinct(old_) && FiledUnder(old_, s, n);
        if !HasHash(old_, hash) {
          var now := old_ + [HeaderInfo(hash, header)];
          assert r[s][n] == now;
          forall i, j | 0 <= i < j < |now| ensures now[i].hash != now[j].hash {
            if j == |old_| {
              assert now[i] == old_[i];
            }
          }
        }
      } else {
        assert InfosAt(r, s, n) == InfosAt(headers, s, n);
        assert s in headers && n in headers[s];
      }
    }
  }

  /** Adding the same header twice is the same as adding it once. */
  lemma AddedHeaderIdempotent(headers: TrackedHeaders, header: Header, hash: Bytes)
    ensures AddedHeader(AddedHeader(headers, header, hash), header, hash) == AddedHeader(headers, header, hash)
  {
    var r := AddedHeader(headers, header, hash);
    var atNonce := InfosAt(headers, header.shardId, header.nonce);
    if !HasHash(atNonce, hash) {
      var now := InfosAt(r, header.shardId, header.nonce);
      assert now[|atNonce|].hash == hash;
    }
  }

  /** The store after `cleanupTrackedHeadersBehindNonce`. */
  function CleanedBehind(headers: TrackedHeaders, shardId: ShardId, nonce: Uint64): (r: TrackedHeaders)
    ensures nonce == 0 || shardId !in headers ==> r == headers
    ensures r.Keys == headers.Keys
    ensures forall s :: s in headers && s != shardId ==> r[s] == headers[s]
    ensures shardId in headers ==> forall n :: n in r[shardId] ==> n >= nonce && n in headers[shardId]
    ensures shardId in headers ==>
      forall n :: n in headers[shardId] && n >= nonce ==> n in r[shardId] && r[shardId][n] == headers[shardId][n]
  {
    if nonce == 0 || shardId !in headers then headers
    else headers[shardId := map n | n in headers[shardId] && n >= nonce :: headers[shardId][n]]
  }

  lemma CleanedBehindKeepsWellFiled(headers: TrackedHeaders, shardId: ShardId, nonce: Uint64)
    requires WellFiled(headers)
    ensures WellFiled(CleanedBehind(headers, shardId, nonce))
  {
    var r := CleanedBehind(headers, shardId, nonce);
    forall s, n | s in r && n in r[s]
      ensures HashesDistinct(r[s][n]) && FiledUnder(r[s][n], s, n)
    {
      assert s in headers && n in headers[s] && r[s][n] == headers[s][n];
    }
  }

  // ---------------------------------------------------------------------
  // Sorting by nonce (the library sort the query relies on)
  // ---------------------------------------------------------------------

  predicate SortedByNonce(infos: seq<HeaderInfo>) {
    forall i, j :: 0 <= i < j < |infos| ==> infos[i].header.nonce <= infos[j].header.nonce
  }

  ghost predicate NoDuplicates<T>(s: seq<T>) {
    forall i, j :: 0 <= i < j < |s| ==> s[i] != s[j]
  }

  function InsertByNonce(x: HeaderInfo, s: seq<HeaderInfo>): (r: seq<HeaderInfo>)
    ensures |r| == |s| + 1
    ensures multiset(r) == multiset(s) + multiset{x}
  {
    if s == [] then [x]
    else if x.header.nonce <= s[0].header.nonce then [x] + s
    else
      assert s == [s[0]] + s[1..];
      [s[0]] + InsertByNonce(x, s[1..])
  }

  /** A sort by nonce; the order among equal nonces is not specified by the
      source (its library sort is not stable), this one is one such order. */
  function SortByNonce(s: seq<HeaderInfo>): (r: seq<HeaderInfo>)
    ensures multiset(r) == multiset(s)
    ensures |r| == |s|
  {
    if s == [] then []
    else
      assert s == [s[0]] + s[1..];
      InsertByNonce(s[0], SortByNonce(s[1..]))
  }

  lemma {:induction false} InsertByNonceSorted(x: HeaderInfo, s: seq<HeaderInfo>)
    requires SortedByNonce(s)
    ensures SortedByNonce(InsertByNonce(x, s))
  {
    if s != [] && x.header.nonce > s[0].header.nonce {
      InsertByNonceSorted(x, s[1..]);
      var rest := InsertByNonce(x, s[1..]);
      forall k | 0 <= k < |rest| ensures rest[k].header.nonce >= s[0].header.nonce {
        assert rest[k] in multiset(rest);
        if rest[k] != x {
          assert rest[k] in multiset(s[1..]);
          var m :| 0 <= m < |s[1..]| && s[1..][m] == rest[k];
          assert s[m + 1] == rest[k];
        }
      }
    }
  }

  lemma {:induction false} SortByNonceSorted(s: seq<HeaderInfo>)
    ensures SortedByNonce(SortByNonce(s))
  {
    if s != [] {
      SortByNonceSorted(s[1..]);
      InsertByNonceSorted(s[0], SortByNonce(s[1..]));
    }
  }

  lemma {:induction false} NoDuplicatesCounts<T>(s: seq<T>)
    requires NoDuplicates(s)
    ensures forall x :: multiset(s)[x] <= 1
  {
    if s != [] {
      var init, last := s[..|s| - 1], s[|s| - 1];
      assert s == init + [last];
      NoDuplicatesCounts(init);
      forall k | 0 <= k < |init| ensures init[k] != last {
        assert s[k] == init[k];
      }
      assert last !in init;
      assert multiset(s) == multiset(init) + multiset{last};
    }
  }

  lemma CountsNoDuplicates<T>(s: seq<T>)
    requires forall x :: multiset(s)[x] <= 1
    ensures NoDuplicates(s)
  {
    forall i, j | 0 <= i < j < |s| ensures s[i] != s[j] {
      assert s == s[..j] + s[j..];
      assert s[..j][i] == s[i];
      assert s[j..][0] == s[j];
      assert multiset(s)[s[j]] == multiset(s[..j])[s[j]] + multiset(s[j..])[s[j]];
      assert multiset(s[..j])[s[i]] >= 1 && multiset(s[j..])[s[j]] >= 1;
    }
  }

  lemma NoDuplicatesPermutation<T>(a: seq<T>, b: seq<T>)
    requires NoDuplicates(a) && multiset(a) == multiset(b)
    ensures NoDuplicates(b)
  {
    NoDuplicatesCounts(a);
    CountsNoDuplicates(b);
  }

  // ---------------------------------------------------------------------
  // The round-robin merge of the shards' longest chains
  // ---------------------------------------------------------------------

  /** How many of the chains have an element at index `i`. */
  function RowLength<T>(chains: seq<seq<T>>, i: nat): (r: nat)
    ensures r <= |chains|
  {
    if chains == [] then 0
    else RowLength(chains[..|chains| - 1], i) + (if i < |chains[|chains| - 1]| then 1 else 0)
  }

  /** How many elements the first `rows` rounds of the merge hold. */
  function RowsLength<T>(chains: seq<seq<T>>, rows: nat): nat {
    if rows == 0 then 0 else RowsLength(chains, rows - 1) + RowLength(chains, rows - 1)
  }

  function TotalLength<T>(chains: seq<seq<T>>): nat {
    if chains == [] then 0 else TotalLength(chains[..|chains| - 1]) + |chains[|chains| - 1]|
  }

  /** Where the merge places element `i` of chain `s`: after all earlier
      rounds and after element `i` of the chains before `s`. */
  function Position<T>(chains: seq<seq<T>>, s: nat, i: nat): nat
    requires s <= |chains|
  {
    RowsLength(chains, i) + RowLength(chains[..s], i)
  }

  lemma {:induction false} RowLengthPrefixGrows<T>(chains: seq<seq<T>>, s: nat, t: nat, i: nat)
    requires s < t <= |chains| && i < |chains[s]|
    ensures RowLength(chains[..s], i) < RowLength(chains[..t], i)
  {
    var p := chains[..t];
    assert p[..|p| - 1] == chains[..t - 1];
    if t - 1 == s {
      assert p[|p| - 1] == chains[s];
    } else {
      RowLengthPrefixGrows(chains, s, t - 1, i);
    }
  }

  lemma {:induction false} RowsLengthGrows<T>(chains: seq<seq<T>>, a: nat, b: nat)
    requires a <= b
    ensures RowsLength(chains, a) + (if a < b then RowLength(chains, a) else 0) <= RowsLength(chains, b)
  {
    if a < b {
      RowsLengthGrows(chains, a, b - 1);
    }
  }

  /** In the merge, element i of every chain comes before element i+1 of any
      chain, and within a round the chains keep shard order. */
  lemma PositionsOrdered<T>(chains: seq<seq<T>>, s: nat, i: nat, t: nat, j: nat)
    requires s < |chains| && i < |chains[s]| && t < |chains| && j < |chains[t]|
    requires i < j || (i == j && s < t)
    ensures Position(chains, s, i) < Position(chains, t, j)
  {
    assert chains[..|chains|] == chains;
    if i < j {
      if s + 1 <= |chains| {
        RowLengthPrefixGrows(chains, s, |chains|, i);
      }
      RowsLengthGrows(chains, i, j);
    } else {
      RowLengthPrefixGrows(chains, s, t, i);
    }
  }

  /** Sum over the chains of min(length, rows). */
  function SumCapped<T>(chains: seq<seq<T>>, rows: nat): nat {
    if chains == [] then 0
    else
      var last := chains[|chains| - 1];
      SumCapped(chains[..|chains| - 1], rows) + (if |last| < rows then |last| else rows)
  }

  lemma {:induction false} SumCappedStep<T>(chains: seq<seq<T>>, rows: nat)
    ensures SumCapped(chains, rows + 1) == SumCapped(chains, rows) + RowLength(chains, rows)
  {
    if chains != [] {
      SumCappedStep(chains[..|chains| - 1], rows);
    }
  }

  lemma {:induction false} RowsLengthIsSumCapped<T>(chains: seq<seq<T>>, rows: nat)
    ensures RowsLength(chains, rows) == SumCapped(chains, rows)
  {
    if rows > 0 {
      RowsLengthIsSumCapped(chains, rows - 1);
      SumCappedStep(chains, rows - 1);
    } else {
      SumCappedZero(chains);
    }
  }

  lemma {:induction false} SumCappedZero<T>(chains: seq<seq<T>>)
    ensures SumCapped(chains, 0) == 0
  {
    if chains != [] {
      SumCappedZero(chains[..|chains| - 1]);
    }
  }

  lemma {:induction false} SumCappedIsTotal<T>(chains: seq<seq<T>>, rows: nat)
    requires forall k :: 0 <= k < |chains| ==> |chains[k]| <= rows
    ensures SumCapped(chains, rows) == TotalLength(chains)
  {
    if chains != [] {
      SumCappedIsTotal(chains[..|chains| - 1], rows);
    }
  }

  /** One round of the merge: element `i` of every chain long enough, in
      shard order, appended to what the earlier rounds produced. */
  method AppendRound<T>(chains: seq<seq<T>>, i: nat, ordered: seq<T>) returns (r: seq<T>)
    requires |ordered| == RowsLength(chains, i)
    ensures |r| == RowsLength(chains, i + 1)
    ensures forall p :: 0 <= p < |ordered| ==> r[p] == ordered[p]
    ensures forall t :: 0 <= t < |chains| && i < |chains[t]| ==>
      Position(chains, t, i) < |r| && r[Position(chains, t, i)] == chains[t][i]
  {
    r := ordered;
    var s := 0;
    ghost var row := 0;
    while s < |chains|
      invariant 0 <= s <= |chains|
      invariant row == RowLength(chains[..s], i)
      invariant |r| == |ordered| + row
      invariant r[..|ordered|] == ordered
      invariant forall t :: 0 <= t < s && i < |chains[t]| ==>
        Position(chains, t, i) < |r| && r[Position(chains, t, i)] == chains[t][i]
    {
      RowLengthStep(chains, s, i);
      if i < |chains[s]| {
        assert Position(chains, s, i) == |r|;
        ghost var r0 := r;
        r := r + [chains[s][i]];
        row := row + 1;
        assert forall p :: 0 <= p < |r0| ==> r[p] == r0[p];
      }
      s := s + 1;
    }
    assert chains[..|chains|] == chains;
  }

  lemma RowLengthStep<T>(chains: seq<seq<T>>, s: nat, i: nat)
    requires s < |chains|
    ensures RowLength(chains[..s + 1], i) == RowLength(chains[..s], i) + (if i < |chains[s]| then 1 else 0)
  {
    assert chains[..s + 1][..s] == chains[..s];
    assert chains[..s + 1][s] == chains[s];
  }

  /** `ComputeLongestShardsChainsFromLastNotarized`: `chains[s]` is the
      longest chain the block processor computes for shard s from its last
      cross-notarized header, for every shard s below the number of shards.
      The result lists the chains round by round. */
  method ComputeLongestShardsChainsFromLastNotarized(
    lastNotarizedErr: Option<Error>,
    chains: seq<seq<HeaderInfo>>
  ) returns (err: Option<Error>, ordered: seq<HeaderInfo>, byShard: map<nat, seq<HeaderInfo>>)
    ensures err == lastNotarizedErr
    ensures err.Some? ==> ordered == [] && byShard == map[]
    ensures err.None? ==> forall s :: s in byShard <==> 0 <= s < |chains|
    ensures err.None? ==> forall s :: 0 <= s < |chains| ==> byShard[s] == chains[s]
    ensures err.None? ==> |ordered| == TotalLength(chains)
    ensures err.None? ==> forall s, i :: 0 <= s < |chains| && 0 <= i < |chains[s]| ==>
      Position(chains, s, i) < |ordered| && ordered[Position(chains, s, i)] == chains[s][i]
  {
    if lastNotarizedErr.Some? {
      return lastNotarizedErr, [], map[];
    }
    err := None;
    byShard := map[];
    var maxHdrLen: nat := 0;
    var s := 0;
    while s < |chains|
      invariant 0 <= s <= |chains|
      invariant forall k :: k in byShard <==> 0 <= k < s
      invariant forall k :: 0 <= k < s ==> byShard[k] == chains[k]
      invariant forall k :: 0 <= k < s ==> |chains[k]| <= maxHdrLen
    {
      byShard := byShard[s := chains[s]];
      if maxHdrLen < |chains[s]| {
        maxHdrLen := |chains[s]|;
      }
      s := s + 1;
    }

    ordered := [];
    var i := 0;
    while i < maxHdrLen
      invariant 0 <= i <= maxHdrLen
      invariant |ordered| == RowsLength(chains, i)
      invariant forall t, j :: 0 <= t < |chains| && 0 <= j < i && j < |chains[t]| ==>
        Position(chains, t, j) < |ordered| && ordered[Position(chains, t, j)] == chains[t][j]
    {
      var next := AppendRound(chains, i, ordered);
      forall t, j | 0 <= t < |chains| && 0 <= j < i && j < |chains[t]|
        ensures Position(chains, t, j) < |next| && next[Position(chains, t, j)] == chains[t][j]
      {
        assert next[Position(chains, t, j)] == ordered[Position(chains, t, j)];
      }
      ordered := next;
      i := i + 1;
    }
    RowsLengthIsSumCapped(chains, maxHdrLen);
    SumCappedIsTotal(chains, maxHdrLen);
  }

  // ---------------------------------------------------------------------
  // Round and nonce checks
  // ---------------------------------------------------------------------

  /** `CheckBlockAgainstRounder`: a header may be at most one round ahead of
      the rounder's current round. Both sides are int64 values in the source. */
  function CheckBlockAgainstRounder(header: Option<Header>, rounderIndex: Int64): (r: Option<Error>)
    ensures r == Some(ErrNilHeaderHandler) <==> header.None?
    ensures r == None || r == Some(ErrNilHeaderHandler) || r == Some(ErrHigherRoundInBlock)
    ensures header.Some? && header.value.round < TWO_63 && rounderIndex < TWO_63 - 1 ==>
      (r == Some(ErrHigherRoundInBlock) <==> header.value.round > rounderIndex + 1)
  {
    if header.None? then Some(ErrNilHeaderHandler)
    else
      var nextRound := AddInt64(rounderIndex, 1);
      if ToInt64(header.value.round) > nextRound then Some(ErrHigherRoundInBlock) else None
  }

  /** `CheckBlockAgainstFinal`: `finalHeader` is what the notarizer returns as
      the final header of the header's shard (self or cross). */
  function CheckBlockAgainstFinal(header: Option<Header>, finalHeader: Result<Header, Error>): (r: Option<Error>)
    ensures header.None? ==> r == Some(ErrNilHeaderHandler)
    ensures header.Some? && finalHeader.Err? ==> r == Some(finalHeader.error)
    ensures (header.Some? && finalHeader.Ok? &&
             header.value.round < TWO_63 && header.value.nonce < TWO_63 &&
             finalHeader.value.round < TWO_63 && finalHeader.value.nonce < TWO_63) ==>
      var h, f := header.value, finalHeader.value;
      && (r == None <==> h.round >= f.round && h.nonce >= f.nonce && h.round - f.round >= h.nonce - f.nonce)
      && (r == Some(ErrLowerRoundInBlock) <==> h.round < f.round)
      && (r == Some(ErrLowerNonceInBlock) <==> h.round >= f.round && h.nonce < f.nonce)
      && (r == Some(ErrHigherNonceInBlock) <==>
            h.round >= f.round && h.nonce >= f.nonce && h.round - f.round < h.nonce - f.nonce)
  {
    if header.None? then Some(ErrNilHeaderHandler)
    else if finalHeader.Err? then Some(finalHeader.error)
    else
      var h, f := header.value, finalHeader.value;
      var roundDif := SubInt64(ToInt64(h.round), ToInt64(f.round));
      var nonceDif := SubInt64(ToInt64(h.nonce), ToInt64(f.nonce));
      if roundDif < 0 then Some(ErrLowerRoundInBlock)
      else if nonceDif < 0 then Some(ErrLowerNonceInBlock)
      else if roundDif < nonceDif then Some(ErrHigherNonceInBlock)
      else None
  }

  /** `IsShardStuck`: the block balancer's count of pending miniblocks for
      the shard (`numPendingMiniBlocks`) has reached the maximum, a constant
      of the process package. */
  function IsShardStuck(numPendingMiniBlocks: ShardId -> nat, shardId: ShardId, maxNumPendingMiniBlocks: nat): (stuck: bool)
    ensures stuck <==> numPendingMiniBlocks(shardId) >= maxNumPendingMiniBlocks
  {
    numPendingMiniBlocks(shardId) >= maxNumPendingMiniBlocks
  }

  /** Each shard is judged on its own count: balancers that agree on the
      queried shard agree on whether it is stuck. */
  lemma IsShardStuckOwnCount(a: ShardId -> nat, b: ShardId -> nat, shardId: ShardId, maxNumPendingMiniBlocks: nat)
    requires a(shardId) == b(shardId)
    ensures IsShardStuck(a, shardId, maxNumPendingMiniBlocks) == IsShardStuck(b, shardId, maxNumPendingMiniBlocks)
  {
  }

  // ---------------------------------------------------------------------
  // The tracker object
  // ---------------------------------------------------------------------

  predicate TrackedFrom(forShard: ShardHeaders, nonce: Uint64, info: HeaderInfo) {
    var n := info.header.nonce;
    n >= nonce && n in forShard && info in forShard[n]
  }

  /** The first loop of `SortHeadersFromNonce`: every header tracked at a
      nonce not below `nonce`, gathered nonce by nonce in map order. */
  method CollectFromNonce(headersForShard: ShardHeaders, ghost shardId: ShardId, nonce: Uint64)
    returns (collected: seq<HeaderInfo>)
    requires forall n :: n in headersForShard ==>
      HashesDistinct(headersForShard[n]) && FiledUnder(headersForShard[n], shardId, n)
    ensures forall info :: info in collected <==> TrackedFrom(headersForShard, nonce, info)
    ensures NoDuplicates(collected)
  {
    collected := [];
    var remaining := headersForShard.Keys;
    while remaining != {}
      invariant remaining <= headersForShard.Keys
      invariant forall info :: info in collected <==>
        info.header.nonce !in remaining && TrackedFrom(headersForShard, nonce, info)
      invariant NoDuplicates(collected)
      decreases remaining
    {
      var n :| n in remaining;
      if n >= nonce {
        var more := headersForShard[n];
        assert HashesDistinct(more) && FiledUnder(more, shardId, n);
        forall i, j | 0 <= i < j < |collected + more| ensures (collected + more)[i] != (collected + more)[j] {
          if j >= |collected| {
            assert more[j - |collected|].header.nonce == n;
            if i >= |collected| {
              assert more[i - |collected|].hash != more[j - |collected|].hash;
            } else {
              assert collected[i] in collected;
            }
          }
        }
        collected := collected + more;
      }
      remaining := remaining - {n};
    }
  }

  /** The first loop of `SortHeadersFromNonce` followed by its sort: the
      tracked headers from `nonce` on, once each, in nonce order. */
  method SortedFromNonce(headersForShard: ShardHeaders, ghost shardId: ShardId, nonce: Uint64)
    returns (sorted: seq<HeaderInfo>)
    requires forall n :: n in headersForShard ==>
      HashesDistinct(headersForShard[n]) && FiledUnder(headersForShard[n], shardId, n)
    ensures forall info :: info in sorted <==> TrackedFrom(headersForShard, nonce, info)
    ensures forall info :: info in sorted ==> info.header.shardId == shardId
    ensures SortedByNonce(sorted) && NoDuplicates(sorted)
  {
    var collected := CollectFromNonce(headersForShard, shardId, nonce);
    sorted := collected;
    if |collected| > 1 {
      sorted := SortByNonce(collected);
      SortByNonceSorted(collected);
    }
    NoDuplicatesPermutation(collected, sorted);
    forall info | info in sorted ensures TrackedFrom(headersForShard, nonce, info) && info.header.shardId == shardId {
      assert info in multiset(sorted);
      assert info in collected;
      var n := info.header.nonce;
      assert FiledUnder(headersForShard[n], shardId, n);
    }
    forall info | TrackedFrom(headersForShard, nonce, info) ensures info in sorted {
      assert info in multiset(collected);
    }
  }

  /** The last loop of both queries: the headers and the hashes of a list
      of header infos, as two index-aligned lists. */
  method SplitInfos(infos: seq<HeaderInfo>) returns (hdrs: seq<Header>, hashes: seq<Bytes>)
    ensures |hdrs| == |infos| && |hashes| == |infos|
    ensures forall k :: 0 <= k < |infos| ==> hdrs[k] == infos[k].header && hashes[k] == infos[k].hash
  {
    hdrs, hashes := [], [];
    var i := 0;
    while i < |infos|
      invariant 0 <= i <= |infos| && |hdrs| == i && |hashes| == i
      invariant forall k :: 0 <= k < i ==> hdrs[k] == infos[k].header && hashes[k] == infos[k].hash
    {
      hdrs := hdrs + [infos[i].header];
      hashes := hashes + [infos[i].hash];
      i := i + 1;
    }
  }

  class BaseBlockTrack {
    const selfId: ShardId
    var headers: TrackedHeaders

    ghost predicate Valid()
      reads this
    {
      WellFiled(headers)
    }

    function ForShard(shardId: ShardId): ShardHeaders
      reads this
    {
      if shardId in headers then headers[shardId] else map[]
    }

    constructor (selfId: ShardId)
      ensures Valid() && this.selfId == selfId && headers == map[]
    {
      this.selfId := selfId;
      headers := map[];
    }

    /** `addHeader`: a nil header is ignored; a hash already tracked at the
        header's shard and nonce is not added again. */
    method AddHeader(header: Option<Header>, hash: Bytes)
      requires Valid()
      modifies this
      ensures Valid()
      ensures header.None? ==> headers == old(headers)
      ensures header.Some? ==> headers == AddedHeader(old(headers), header.value, hash)
    {
      if header.None? {
        return;
      }
      AddedHeaderKeepsWellFiled(headers, header.value, hash);
      var shardId, nonce := header.value.shardId, header.value.nonce;
      var headersForShard: ShardHeaders;
      if shardId in headers {
        headersForShard := headers[shardId];
      } else {
        headersForShard := map[];
        headers := headers[shardId := headersForShard];
      }
      var atNonce := if nonce in headersForShard then headersForShard[nonce] else [];
      var i := 0;
      while i < |atNonce|
        invariant 0 <= i <= |atNonce|
        invariant forall k :: 0 <= k < i ==> atNonce[k].hash != hash
      {
        if atNonce[i].hash == hash {
          assert HasHash(atNonce, hash);
          return;
        }
        i := i + 1;
      }
      assert !HasHash(atNonce, hash);
      headers := headers[shardId := headersForShard[nonce := atNonce + [HeaderInfo(hash, header.value)]]];
    }

    /** `cleanupTrackedHeadersBehindNonce`: drops, for one shard, every nonce
        below the given one; nonce 0 or an untracked shard change nothing. */
    method CleanupTrackedHeadersBehindNonce(shardId: ShardId, nonce: Uint64)
      requires Valid()
      modifies this
      ensures Valid()
      ensures headers == CleanedBehind(old(headers), shardId, nonce)
    {
      if nonce == 0 {
        return;
      }
      if shardId !in headers {
        return;
      }
      CleanedBehindKeepsWellFiled(headers, shardId, nonce);
      var headersForShard := headers[shardId];
      ghost var original := headersForShard;
      var remaining := headersForShard.Keys;
      while remaining != {}
        invariant remaining <= original.Keys
        invariant headersForShard == map n | n in original && (n in remaining || n >= nonce) :: original[n]
        decreases remaining
      {
        var n :| n in remaining;
        if n < nonce {
          headersForShard := headersForShard - {n};
        }
        remaining := remaining - {n};
      }
      assert headersForShard == map n | n in original && n >= nonce :: original[n];
      headers := headers[shardId := headersForShard];
    }

    /** `CleanupHeadersBehindNonce`: the self-notarized nonce bounds the
        self shard, the cross-notarized nonce every other shard. */
    method CleanupHeadersBehindNonce(shardId: ShardId, selfNotarizedNonce: Uint64, crossNotarizedNonce: Uint64)
      requires Valid()
      modifies this
      ensures Valid()
      ensures headers == CleanedBehind(old(headers), shardId,
        if shardId == selfId then selfNotarizedNonce else crossNotarizedNonce)
    {
      var nonce := selfNotarizedNonce;
      if shardId != selfId {
        nonce := crossNotarizedNonce;
      }
      CleanupTrackedHeadersBehindNonce(shardId, nonce);
    }

    /** `restoreTrackedHeadersToGenesis`. */
    method RestoreTrackedHeadersToGenesis()
      modifies this
      ensures Valid() && headers == map[]
    {
      headers := map[];
    }

    /** `SortHeadersFromNonce`: every header tracked for the shard at a nonce
        not below `nonce`, once each, in non-decreasing nonce order, with the
        hashes index-aligned. */
    method SortHeadersFromNonce(shardId: ShardId, nonce: Uint64) returns (hdrs: seq<Header>, hashes: seq<Bytes>)
      requires Valid()
      ensures |hdrs| == |hashes|
      ensures shardId !in headers ==> hdrs == []
      ensures forall i, j :: 0 <= i < j < |hdrs| ==> hdrs[i].nonce <= hdrs[j].nonce
      ensures forall i :: 0 <= i < |hdrs| ==> hdrs[i].shardId == shardId && hdrs[i].nonce >= nonce
      ensures forall i :: 0 <= i < |hdrs| ==> TrackedFrom(ForShard(shardId), nonce, HeaderInfo(hashes[i], hdrs[i]))
      ensures forall info :: TrackedFrom(ForShard(shardId), nonce, info) ==>
        exists i :: 0 <= i < |hdrs| && hdrs[i] == info.header && hashes[i] == info.hash
      ensures forall i, j :: 0 <= i < j < |hdrs| ==> hdrs[i] != hdrs[j] || hashes[i] != hashes[j]
    {
      if shardId !in headers {
        return [], [];
      }
      var headersForShard := headers[shardId];
      var sorted := SortedFromNonce(headersForShard, shardId, nonce);
      hdrs, hashes := SplitInfos(sorted);
      forall info | TrackedFrom(ForShard(shardId), nonce, info)
        ensures exists k :: 0 <= k < |hdrs| && hdrs[k] == info.header && hashes[k] == info.hash
      {
        var k :| 0 <= k < |sorted| && sorted[k] == info;
        assert hdrs[k] == info.header && hashes[k] == info.hash;
      }
      forall k | 0 <= k < |hdrs| ensures TrackedFrom(ForShard(shardId), nonce, HeaderInfo(hashes[k], hdrs[k])) {
        assert HeaderInfo(hashes[k], hdrs[k]) == sorted[k];
      }
    }

    /** `GetTrackedHeadersWithNonce`: the headers tracked for one shard and
        nonce, in the order they were added, with their hashes. */
    method GetTrackedHeadersWithNonce(shardId: ShardId, nonce: Uint64) returns (hdrs: seq<Header>, hashes: seq<Bytes>)
      requires Valid()
      ensures |hdrs| == |hashes| == |InfosAt(headers, shardId, nonce)|
      ensures forall i :: 0 <= i < |hdrs| ==> HeaderInfo(hashes[i], hdrs[i]) == InfosAt(headers, shardId, nonce)[i]
      ensures forall i :: 0 <= i < |hdrs| ==> hdrs[i].shardId == shardId && hdrs[i].nonce == nonce
    {
      if shardId !in headers {
        return [], [];
      }
      var headersForShard := headers[shardId];
      if nonce !in headersForShard {
        return [], [];
      }
      var atNonce := headersForShard[nonce];
      assert FiledUnder(atNonce, shardId, nonce);
      hdrs, hashes := SplitInfos(atNonce);
    }
  }
}
