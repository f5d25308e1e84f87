/** The shard coordinator stand-in used by the node's tests: a shard count
    that can be changed, the current shard, an optional callback that places
    addresses, and the naming of the communication channel between two
    shards. */
module ShardCoordinatorMock {
  import opened Common

  predicate IsDigit(ch: char) {
    '0' <= ch <= '9'
  }

  /** The decimal writing of `n` as Go's `%d` prints it: no sign, no leading
      zero. */
  function Decimal(n: nat): (s: string)
    ensures |s| >= 1
    ensures forall i :: 0 <= i < |s| ==> IsDigit(s[i])
    ensures |s| > 1 ==> s[0] != '0'
    decreases n
  {
    if n < 10 then [('0' as int + n) as char]
    else Decimal(n / 10) + [('0' as int + n % 10) as char]
  }

  /** Reads a string of digits back as a number. */
  function ParseDecimal(s: string): nat
    requires forall i :: 0 <= i < |s| ==> IsDigit(s[i])
    decreases |s|
  {
    if s == [] then 0
    else
      var last := s[|s| - 1];
      assert IsDigit(last);
      ParseDecimal(s[..|s| - 1]) * 10 + (last as int - '0' as int)
  }

  /** Reading back a decimal writing gives the number. */
  lemma {:induction false} ParseDecimalOfDecimal(n: nat)
    ensures ParseDecimal(Decimal(n)) == n
    decreases n
  {
    if n >= 10 {
      var s := Decimal(n);
      assert s[..|s| - 1] == Decimal(n / 10);
      ParseDecimalOfDecimal(n / 10);
    }
  }

  /** Different numbers are written differently. */
  lemma DecimalInjective(m: nat, n: nat)
    requires Decimal(m) == Decimal(n)
    ensures m == n
  {
    ParseDecimalOfDecimal(m);
    ParseDecimalOfDecimal(n);
  }

  /** The channel name of `CommunicationIdentifier`: `_` and the shard number when the
      destination is the current shard; otherwise `_`, the smaller number,
      `_`, the larger one. */
  function ChannelIdentifier(currentShard: ShardId, destShardId: ShardId): (r: string)
    ensures destShardId == currentShard ==> r == "_" + Decimal(currentShard)
    ensures destShardId != currentShard ==>
      var lo := if destShardId < currentShard then destShardId else currentShard;
      var hi := if destShardId < currentShard then currentShard else destShardId;
      lo < hi && {lo, hi} == {currentShard, destShardId} && r == "_" + Decimal(lo) + "_" + Decimal(hi)
  {
    if destShardId == currentShard then "_" + Decimal(currentShard)
    else if destShardId < currentShard then "_" + Decimal(destShardId) + "_" + Decimal(currentShard)
    else "_" + Decimal(currentShard) + "_" + Decimal(destShardId)
  }

  /** Both ends of a channel name it the same way. */
  lemma CommunicationIdentifierSymmetric(a: ShardId, b: ShardId)
    ensures ChannelIdentifier(a, b) == ChannelIdentifier(b, a)
  {
  }

  predicate AllDigits(s: string) {
    forall i :: 0 <= i < |s| ==> IsDigit(s[i])
  }

  /** The length of the run of digits a string starts with. */
  function DigitRun(t: string): (n: nat)
    ensures n <= |t|
  {
    if t == [] || !IsDigit(t[0]) then 0 else 1 + DigitRun(t[1..])
  }

  lemma {:induction false} DigitRunAll(x: string)
    requires AllDigits(x)
    ensures DigitRun(x) == |x|
  {
    if x != [] {
      DigitRunAll(x[1..]);
    }
  }

  lemma {:induction false} DigitRunBeforeUnderscore(x: string, y: string)
    requires AllDigits(x)
    ensures DigitRun(x + "_" + y) == |x|
  {
    if x != [] {
      assert (x + "_" + y)[1..] == x[1..] + "_" + y;
      DigitRunBeforeUnderscore(x[1..], y);
    }
  }

  /** `_x_y` names its two numbers unambiguously. */
  lemma SplitPair(x: string, y: string, x': string, y': string)
    requires AllDigits(x) && AllDigits(y) && AllDigits(x') && AllDigits(y')
    requires "_" + x + "_" + y == "_" + x' + "_" + y'
    ensures x == x' && y == y'
  {
    var s := "_" + x + "_" + y;
    var s' := "_" + x' + "_" + y';
    assert s[1..] == x + "_" + y && s'[1..] == x' + "_" + y';
    DigitRunBeforeUnderscore(x, y);
    DigitRunBeforeUnderscore(x', y');
    assert x == s[1..1 + |x|] == s'[1..1 + |x'|] == x';
    assert y == s[2 + |x|..] == s'[2 + |x'|..] == y';
  }

  /** A single-shard name `_x` is never a pair name `_x'_y'`. */
  lemma SingleIsNotPair(x: string, x': string, y': string)
    requires AllDigits(x) && AllDigits(x')
    ensures "_" + x != "_" + x' + "_" + y'
  {
    assert ("_" + x)[1..] == x;
    assert ("_" + x' + "_" + y')[1..] == x' + "_" + y';
    DigitRunAll(x);
    DigitRunBeforeUnderscore(x', y');
  }

  /** Different channels get different names: equal identifiers mean the
      same pair of shards (the same single shard for a shard talking to
      itself). */
  lemma CommunicationIdentifierInjective(a: ShardId, b: ShardId, c: ShardId, d: ShardId)
    requires ChannelIdentifier(a, b) == ChannelIdentifier(c, d)
    ensures (a == b) == (c == d)
    ensures {a, b} == {c, d}
  {
    var lo1 := if b < a then b else a;
    var hi1 := if b < a then a else b;
    var lo2 := if d < c then d else c;
    var hi2 := if d < c then c else d;
    if a == b && c == d {
      assert Decimal(a) == ("_" + Decimal(a))[1..] == ("_" + Decimal(c))[1..] == Decimal(c);
      DecimalInjective(a, c);
    } else if a == b {
      SingleIsNotPair(Decimal(a), Decimal(lo2), Decimal(hi2));
    } else if c == d {
      SingleIsNotPair(Decimal(c), Decimal(lo1), Decimal(hi1));
    } else {
      SplitPair(Decimal(lo1), Decimal(hi1), Decimal(lo2), Decimal(hi2));
      DecimalInjective(lo1, lo2);
      DecimalInjective(hi1, hi2);
    }
  }

  class MultipleShardsCoordinatorMock {
    var computeIdCalled: Option<Bytes -> ShardId>
    var noShards: Uint32
    var currentShard: ShardId

    /** `NewMultiShardsCoordinatorMock`: the given shard count, shard 0, no
        callback. */
    constructor(nrShard: Uint32)
      ensures noShards == nrShard && currentShard == 0 && computeIdCalled.None?
    {
      noShards := nrShard;
      currentShard := 0;
      computeIdCalled := None;
    }

    function NumberOfShards(): Uint32
      reads this
    {
      noShards
    }

    function SelfId(): ShardId
      reads this
    {
      currentShard
    }

    /** `ComputeId`: the callback's answer when one is set, the current shard
        otherwise. */
    function ComputeId(address: Bytes): (r: ShardId)
      reads this
      ensures computeIdCalled.None? ==> r == SelfId()
      ensures computeIdCalled.Some? ==> r == computeIdCalled.value(address)
    {
      match computeIdCalled
      case None => SelfId()
      case Some(f) => f(address)
    }

    /** `SameShard`: every two addresses are placed together. */
    function SameShard(firstAddress: Bytes, secondAddress: Bytes): (r: bool)
      ensures r
    {
      true
    }

    /** `SetNoShards`: the new count is what `NumberOfShards` reports; the
        current shard and the callback stay. */
    method SetNoShards(n: Uint32)
      modifies this
      ensures NumberOfShards() == n
      ensures currentShard == old(currentShard) && computeIdCalled == old(computeIdCalled)
    {
      noShards := n;
    }

    /** `SetSelfId`: accepted without error and without effect; having no
        frame, it cannot change the current shard. */
    method SetSelfId(shardId: ShardId) returns (err: Option<Error>)
      ensures err.None?
    {
      return None;
    }

    /** `CommunicationIdentifier` of the coordinator, named from its current
        shard. */
    function CommunicationIdentifier(destShardId: ShardId): (r: string)
      reads this
      ensures destShardId == currentShard <==> r == "_" + Decimal(currentShard)
    {
      ChannelIdentifier(currentShard, destShardId)
    }
  }
}
