/**
 How one flush of the client batcher turns the looked-up operations into RPCs
 (src/yb/client/batcher.cc): the comparator, the sort, and the loop that cuts
 the sorted queue into one RPC per tablet and operation group.
 */
module FlushPlan {
  import opened SeqMultisets

  /** The six operation types that a batcher accepts. */
  datatype OpType = RedisWrite | RedisRead | QlWrite | QlRead | PgsqlWrite | PgsqlRead {
    predicate ReadOnly() {
      RedisRead? || QlRead? || PgsqlRead?
    }
  }

  datatype OpGroup = WriteGroup | LeaderReadGroup | ConsistentPrefixReadGroup {
    function Rank(): nat {
      match this
      case WriteGroup => 0
      case LeaderReadGroup => 1
      case ConsistentPrefixReadGroup => 2
    }
  }

  /** A looked-up operation. Tablets are compared by address, so a tablet is its address. */
  datatype Op = Op(id: nat, tablet: nat, seqno: nat, opType: OpType, consistentPrefix: bool, sidecar: bool)

  /** The settings that stay fixed while a flush runs. */
  datatype Config = Config(followerReads: bool, transactional: bool, forceConsistentRead: bool,
                           allowLocalCalls: bool, combineErrors: bool)
  {
    predicate Forced() {
      forceConsistentRead || transactional
    }
  }

  /** One call of FlushBuffer, that is, one RPC. */
  datatype FlushCall = FlushCall(ops: seq<Op>, allowLocal: bool, needConsistentRead: bool)

  const MAX_SIDECAR_SLICES: nat := 16

  function GetOpGroup(cfg: Config, op: Op): OpGroup {
    if !op.opType.ReadOnly() then WriteGroup
    else if (op.opType.RedisRead? && cfg.followerReads) || (op.opType.QlRead? && op.consistentPrefix) then
      ConsistentPrefixReadGroup
    else LeaderReadGroup
  }

  function Key(cfg: Config, op: Op): (nat, nat) {
    (op.tablet, GetOpGroup(cfg, op).Rank())
  }

  predicate Less(cfg: Config, a: Op, b: Op) {
    if a.tablet == b.tablet then
      if GetOpGroup(cfg, a) != GetOpGroup(cfg, b) then
        GetOpGroup(cfg, a).Rank() < GetOpGroup(cfg, b).Rank()
      else a.seqno < b.seqno
    else a.tablet < b.tablet
  }

  // ---------------------------------------------------------------- sorting

  /** Sequence numbers are handed out once each. */
  ghost predicate DistinctSeqnos(s: seq<Op>) {
    forall i, j | 0 <= i < j < |s| :: s[i].seqno != s[j].seqno
  }

  ghost predicate SortedOps(cfg: Config, s: seq<Op>) {
    forall i, j | 0 <= i < j < |s| :: Less(cfg, s[i], s[j])
  }

  /** What std::sort promises: an ordered permutation. */
  ghost predicate IsSortOf(cfg: Config, s: seq<Op>, q: seq<Op>) {
    multiset(s) == multiset(q) && SortedOps(cfg, s)
  }

  function Insert(cfg: Config, x: Op, s: seq<Op>): (r: seq<Op>)
    ensures multiset(r) == multiset(s) + multiset{x}
  {
    if s == [] then [x]
    else if Less(cfg, x, s[0]) then [x] + s
    else
      assert s == [s[0]] + s[1..];
      [s[0]] + Insert(cfg, x, s[1..])
  }

  function SortOps(cfg: Config, q: seq<Op>): (s: seq<Op>)
    ensures multiset(s) == multiset(q)
  {
    if q == [] then []
    else
      assert q == [q[0]] + q[1..];
      Insert(cfg, q[0], SortOps(cfg, q[1..]))
  }

  lemma {:induction false} InsertSorted(cfg: Config, x: Op, s: seq<Op>)
    requires SortedOps(cfg, s)
    requires forall y | y in s :: y.seqno != x.seqno
    ensures SortedOps(cfg, Insert(cfg, x, s))
  {
    if s == [] || Less(cfg, x, s[0]) {
    } else {
      InsertSorted(cfg, x, s[1..]);
      var r := Insert(cfg, x, s[1..]);
      forall y | y in r ensures Less(cfg, s[0], y) {
        assert y in multiset(r);
        assert y in multiset(s[1..]) + multiset{x};
      }
    }
  }

  lemma {:induction false} SortOpsSorted(cfg: Config, q: seq<Op>)
    requires DistinctSeqnos(q)
    ensures IsSortOf(cfg, SortOps(cfg, q), q)
  {
    if q == [] {
    } else {
      SortOpsSorted(cfg, q[1..]);
      var r := SortOps(cfg, q[1..]);
      forall y | y in r ensures y.seqno != q[0].seqno {
        assert y in multiset(r);
        assert y in multiset(q[1..]);
      }
      InsertSorted(cfg, q[0], r);
    }
  }

  lemma SortedHeads(cfg: Config, s: seq<Op>, t: seq<Op>)
    requires s != [] && t != []
    requires SortedOps(cfg, s) && SortedOps(cfg, t)
    requires s[0] in t && t[0] in s
    ensures s[0] == t[0]
  {
    var x, y := s[0], t[0];
    var i :| 0 <= i < |t| && t[i] == x;
    var j :| 0 <= j < |s| && s[j] == y;
    assert i == 0 || Less(cfg, y, x);
    assert j == 0 || Less(cfg, x, y);
  }

  /** An ordered permutation is unique, so the outcome does not depend on how the library sorts. */
  lemma {:induction false} SortUnique(cfg: Config, s: seq<Op>, t: seq<Op>)
    requires SortedOps(cfg, s) && SortedOps(cfg, t)
    requires multiset(s) == multiset(t)
    ensures s == t
  {
    SameLength(s, t);
    if s == [] {
    } else {
      assert s[0] in multiset(t) && t[0] in multiset(s);
      SortedHeads(cfg, s, t);
      TailMultiset(s);
      TailMultiset(t);
      SortUnique(cfg, s[1..], t[1..]);
      assert s == [s[0]] + s[1..] && t == [s[0]] + t[1..];
    }
  }

  // ---------------------------------------------------------------- cutting

  function Sidecars(s: seq<Op>): nat {
    if s == [] then 0 else Sidecars(s[..|s|-1]) + if s[|s|-1].sidecar then 1 else 0
  }

  function Flatten(cs: seq<seq<Op>>): seq<Op> {
    if cs == [] then [] else cs[0] + Flatten(cs[1..])
  }

  /** A chunk that may travel in one RPC: one tablet, one group, closed as soon as its sidecars are used up. */
  ghost predicate Fits(cfg: Config, c: seq<Op>) {
    && c != []
    && (forall i | 0 <= i < |c| :: Key(cfg, c[i]) == Key(cfg, c[0]))
    && Sidecars(c[..|c|-1]) < MAX_SIDECAR_SLICES
  }

  /** The chunks partition the queue in order, and a split inside a tablet and group needs a full chunk. */
  ghost predicate IsCut(cfg: Config, s: seq<Op>, cs: seq<seq<Op>>) {
    && Flatten(cs) == s
    && (forall i | 0 <= i < |cs| :: Fits(cfg, cs[i]))
    && (forall i | 0 <= i < |cs| - 1 && Key(cfg, cs[i][0]) == Key(cfg, cs[i+1][0]) ::
          Sidecars(cs[i]) == MAX_SIDECAR_SLICES)
  }

  lemma {:induction false} SidecarsPrefix(s: seq<Op>, n: nat)
    requires n <= |s|
    ensures Sidecars(s[..n]) <= Sidecars(s)
    decreases |s|
  {
    if n < |s| {
      SidecarsPrefix(s[..|s|-1], n);
      assert s[..|s|-1][..n] == s[..n];
    } else {
      assert s[..n] == s;
    }
  }

  lemma CutEmpty(cfg: Config, s: seq<Op>, cs: seq<seq<Op>>)
    requires IsCut(cfg, s, cs)
    ensures s == [] <==> cs == []
    ensures cs != [] ==> |cs[0]| <= |s| && s[..|cs[0]|] == cs[0] && IsCut(cfg, s[|cs[0]|..], cs[1..])
  {
    if cs != [] {
      assert Fits(cfg, cs[0]);
      assert Flatten(cs[1..]) == s[|cs[0]|..];
    }
  }

  lemma KeyChangesAfter(cfg: Config, s: seq<Op>, cs: seq<seq<Op>>)
    requires IsCut(cfg, s, cs) && cs != []
    requires |cs[0]| < |s| && Sidecars(cs[0]) < MAX_SIDECAR_SLICES
    ensures Key(cfg, s[|cs[0]|]) != Key(cfg, s[0])
  {
    CutEmpty(cfg, s, cs);
    CutEmpty(cfg, s[|cs[0]|..], cs[1..]);
    assert cs[1..][0] == cs[1];
    assert s[|cs[0]|] == cs[1][0] && s[0] == cs[0][0];
  }

  lemma {:induction false} FirstChunkLength(cfg: Config, s: seq<Op>, cs: seq<seq<Op>>, ds: seq<seq<Op>>)
    requires IsCut(cfg, s, cs) && IsCut(cfg, s, ds) && cs != [] && ds != []
    ensures |cs[0]| >= |ds[0]|
  {
    var n := |cs[0]|;
    CutEmpty(cfg, s, cs);
    CutEmpty(cfg, s, ds);
    if n < |ds[0]| {
      var d := ds[0];
      assert s[0] == d[0] && s[n] == d[n];
      assert d[..|d|-1][..n] == cs[0];
      SidecarsPrefix(d[..|d|-1], n);
      KeyChangesAfter(cfg, s, cs);
    }
  }

  /** The rules of IsCut leave no freedom: there is one way to cut a queue. */
  lemma {:induction false} CutUnique(cfg: Config, s: seq<Op>, cs: seq<seq<Op>>, ds: seq<seq<Op>>)
    requires IsCut(cfg, s, cs) && IsCut(cfg, s, ds)
    ensures cs == ds
    decreases |cs|
  {
    CutEmpty(cfg, s, cs);
    CutEmpty(cfg, s, ds);
    if s == [] {
    } else {
      FirstChunkLength(cfg, s, cs, ds);
      FirstChunkLength(cfg, s, ds, cs);
      CutUnique(cfg, s[|cs[0]|..], cs[1..], ds[1..]);
      assert cs == [cs[0]] + cs[1..] && ds == [ds[0]] + ds[1..];
    }
  }

  /** The greedy chunk: up to the first change of key or the last permitted sidecar. */
  function ChunkLength(cfg: Config, s: seq<Op>, n: nat): (r: nat)
    requires 1 <= n <= |s|
    ensures n <= r <= |s|
    decreases |s| - n
  {
    if n == |s| || Key(cfg, s[n]) != Key(cfg, s[0]) || Sidecars(s[..n]) >= MAX_SIDECAR_SLICES then n
    else ChunkLength(cfg, s, n + 1)
  }

  function Chunks(cfg: Config, s: seq<Op>): seq<seq<Op>>
    decreases |s|
  {
    if s == [] then []
    else
      var n := ChunkLength(cfg, s, 1);
      [s[..n]] + Chunks(cfg, s[n..])
  }

  lemma {:induction false} ChunkLengthFits(cfg: Config, s: seq<Op>, n: nat)
    requires 1 <= n <= |s|
    requires Fits(cfg, s[..n])
    ensures var r := ChunkLength(cfg, s, n);
            && Fits(cfg, s[..r])
            && (r < |s| && Key(cfg, s[r]) == Key(cfg, s[0]) ==> Sidecars(s[..r]) == MAX_SIDECAR_SLICES)
    decreases |s| - n
  {
    assert s[..n] == s[..n-1] + [s[n-1]];
    if n < |s| && Key(cfg, s[n]) == Key(cfg, s[0]) && Sidecars(s[..n]) < MAX_SIDECAR_SLICES {
      assert s[..n+1][..n] == s[..n];
      ChunkLengthFits(cfg, s, n + 1);
    } else {
      assert s[..n][..n-1] == s[..n-1];
    }
  }

  /** Cutting greedily follows the rules; with CutUnique, nothing else does. */
  lemma {:induction false} ChunksCut(cfg: Config, s: seq<Op>)
    ensures IsCut(cfg, s, Chunks(cfg, s))
    decreases |s|
  {
    if s == [] {
    } else {
      assert s[..1][..0] == [];
      ChunkLengthFits(cfg, s, 1);
      var n := ChunkLength(cfg, s, 1);
      ChunksCut(cfg, s[n..]);
      var rest := Chunks(cfg, s[n..]);
      CutEmpty(cfg, s[n..], rest);
      var cs := Chunks(cfg, s);
      assert cs[1..] == rest && s == s[..n] + s[n..];
      forall i | 0 <= i < |cs| ensures Fits(cfg, cs[i]) {
        if i > 0 { assert cs[i] == rest[i-1]; }
      }
      forall i | 0 <= i < |cs| - 1 && Key(cfg, cs[i][0]) == Key(cfg, cs[i+1][0])
        ensures Sidecars(cs[i]) == MAX_SIDECAR_SLICES
      {
        if i > 0 {
          assert cs[i] == rest[i-1] && cs[i+1] == rest[i];
        } else {
          assert cs[1] == rest[0] && s[n] == rest[0][0];
        }
      }
    }
  }

  // ------------------------------------------------ how many RPCs there are

  ghost function Keys(cfg: Config, s: seq<Op>): set<(nat, nat)> {
    set op | op in s :: Key(cfg, op)
  }

  lemma {:induction false} SidecarsConcat(s: seq<Op>, t: seq<Op>)
    ensures Sidecars(s + t) == Sidecars(s) + Sidecars(t)
    decreases |t|
  {
    if t == [] {
      assert s + t == s;
    } else {
      assert (s + t)[..|s + t| - 1] == s + t[..|t|-1];
      SidecarsConcat(s, t[..|t|-1]);
    }
  }

  /** In a sorted queue the keys of a finished tablet and group do not come back. */
  lemma KeysAfterChunk(cfg: Config, c: seq<Op>, rest: seq<Op>)
    requires c != [] && rest != [] && SortedOps(cfg, c + rest)
    requires forall i | 0 <= i < |c| :: Key(cfg, c[i]) == Key(cfg, c[0])
    ensures Keys(cfg, c + rest) == Keys(cfg, rest) + {Key(cfg, c[0])}
    ensures Key(cfg, c[0]) != Key(cfg, rest[0]) ==> Key(cfg, c[0]) !in Keys(cfg, rest)
  {
    var s := c + rest;
    forall k | k in Keys(cfg, rest) + {Key(cfg, c[0])} ensures k in Keys(cfg, s) {
      if k == Key(cfg, c[0]) {
        assert c[0] in s;
      } else {
        var op :| op in rest && Key(cfg, op) == k;
        assert op in s;
      }
    }
    if Key(cfg, c[0]) != Key(cfg, rest[0]) {
      forall op | op in rest ensures Key(cfg, op) != Key(cfg, c[0]) {
        var i :| 0 <= i < |rest| && rest[i] == op;
        assert s[0] == c[0] && s[|c|] == rest[0] && s[|c| + i] == op;
        assert Less(cfg, c[0], rest[0]);
        assert i == 0 || Less(cfg, rest[0], op);
      }
    }
  }

  /** A flush sends at most one RPC per (tablet, group), plus one for every full load of sidecars. */
  lemma {:induction false} ChunkCountBound(cfg: Config, s: seq<Op>, cs: seq<seq<Op>>)
    requires SortedOps(cfg, s) && IsCut(cfg, s, cs)
    ensures |cs| <= |Keys(cfg, s)| + Sidecars(s) / MAX_SIDECAR_SLICES
    decreases |cs|
  {
    CutEmpty(cfg, s, cs);
    if s == [] {
    } else {
      var c, rest := cs[0], s[|cs[0]|..];
      assert s == c + rest && Fits(cfg, c);
      SidecarsConcat(c, rest);
      ChunkCountBound(cfg, rest, cs[1..]);
      CutEmpty(cfg, rest, cs[1..]);
      if rest == [] {
        assert Key(cfg, s[0]) in Keys(cfg, s);
        assert |Keys(cfg, s)| > 0;
      } else {
        KeysAfterChunk(cfg, c, rest);
        assert cs[1..][0] == cs[1] && cs[1][0] == rest[0];
        if Key(cfg, c[0]) == Key(cfg, rest[0]) {
          assert Key(cfg, rest[0]) in Keys(cfg, rest);
          assert Keys(cfg, s) == Keys(cfg, rest);
        }
      }
    }
  }

  // ----------------------------------------------------------- the RPC plan

  function CallOps(calls: seq<FlushCall>): seq<seq<Op>> {
    seq(|calls|, i requires 0 <= i < |calls| => calls[i].ops)
  }

  function Calls(cfg: Config, cs: seq<seq<Op>>): seq<FlushCall> {
    seq(|cs|, i requires 0 <= i < |cs| =>
      FlushCall(cs[i], i == |cs| - 1 && cfg.allowLocalCalls, cfg.Forced() || |cs| >= 2))
  }

  /** The RPCs that one flush of the queue `q` sends, in order. */
  function Plan(cfg: Config, q: seq<Op>): seq<FlushCall> {
    Calls(cfg, Chunks(cfg, SortOps(cfg, q)))
  }

  lemma {:induction false} FlattenSnoc(cs: seq<seq<Op>>, c: seq<Op>)
    ensures Flatten(cs + [c]) == Flatten(cs) + c
  {
    if cs == [] {
      assert cs + [c] == [c] && [c][1..] == [];
    } else {
      FlattenSnoc(cs[1..], c);
      assert (cs + [c])[1..] == cs[1..] + [c];
    }
  }

  /** `cs` cuts the queue up to `start`, and the chunk from `start` to `it` is still open. */
  ghost predicate CutUpTo(cfg: Config, s: seq<Op>, cs: seq<seq<Op>>, start: nat) {
    && start < |s|
    && IsCut(cfg, s[..start], cs)
    && (start > 0 <==> cs != [])
    && (cs != [] && Key(cfg, cs[|cs|-1][0]) == Key(cfg, s[start]) ==> Sidecars(cs[|cs|-1]) == MAX_SIDECAR_SLICES)
  }

  lemma CutExtend(cfg: Config, s: seq<Op>, cs: seq<seq<Op>>, start: nat, it: nat)
    requires CutUpTo(cfg, s, cs, start) && start < it <= |s|
    requires Fits(cfg, s[start..it])
    ensures IsCut(cfg, s[..it], cs + [s[start..it]])
  {
    FlattenSnoc(cs, s[start..it]);
    assert s[..start] + s[start..it] == s[..it];
    assert s[start] == s[start..it][0];
  }

  /** The state of the cut loop: the calls made so far, and the open chunk from `start` to `it`. */
  ghost predicate Cutting(cfg: Config, s: seq<Op>, calls: seq<FlushCall>, start: nat, it: nat) {
    && start <= it <= |s|
    && CutUpTo(cfg, s, CallOps(calls), start)
    && (it > start ==> Fits(cfg, s[start..it]))
    && forall c | c in calls :: !c.allowLocal && c.needConsistentRead
  }

  lemma CloseChunk(cfg: Config, s: seq<Op>, calls: seq<FlushCall>, start: nat, it: nat)
    requires Cutting(cfg, s, calls, start, it) && start < it < |s|
    requires Key(cfg, s[it]) != Key(cfg, s[start]) || Sidecars(s[start..it]) >= MAX_SIDECAR_SLICES
    ensures Cutting(cfg, s, calls + [FlushCall(s[start..it], false, true)], it, it)
    ensures s[it..it] == [] && Sidecars(s[it..it]) == 0
  {
    var c := s[start..it];
    CutExtend(cfg, s, CallOps(calls), start, it);
    assert CallOps(calls + [FlushCall(c, false, true)]) == CallOps(calls) + [c];
    assert c == c[..it-start-1] + [s[it-1]];
  }

  lemma GrowChunk(cfg: Config, s: seq<Op>, calls: seq<FlushCall>, start: nat, it: nat)
    requires Cutting(cfg, s, calls, start, it) && it < |s|
    requires Key(cfg, s[it]) == Key(cfg, s[start]) && Sidecars(s[start..it]) < MAX_SIDECAR_SLICES
    ensures Cutting(cfg, s, calls, start, it + 1)
    ensures Sidecars(s[start..it+1]) == Sidecars(s[start..it]) + if s[it].sidecar then 1 else 0
  {
    var c := s[start..it+1];
    assert c[..it-start] == s[start..it];
    forall i | 0 <= i < |c| ensures Key(cfg, c[i]) == Key(cfg, c[0]) {
      if i < it - start {
        assert c[i] == s[start..it][i] && c[0] == s[start..it][0];
      }
    }
  }

  lemma LastChunk(cfg: Config, s: seq<Op>, calls: seq<FlushCall>, start: nat)
    requires Cutting(cfg, s, calls, start, |s|)
    ensures var all := calls + [FlushCall(s[start..], cfg.allowLocalCalls, cfg.Forced() || start != 0)];
            IsCut(cfg, s, CallOps(all)) && UniformFlags(cfg, all) && all == Calls(cfg, Chunks(cfg, s))
  {
    var all := calls + [FlushCall(s[start..], cfg.allowLocalCalls, cfg.Forced() || start != 0)];
    CutExtend(cfg, s, CallOps(calls), start, |s|);
    assert s[..|s|] == s && s[start..|s|] == s[start..];
    assert CallOps(all) == CallOps(calls) + [s[start..]];
    ChunksCut(cfg, s);
    CutUnique(cfg, s, CallOps(all), Chunks(cfg, s));
    CallsDetermined(cfg, all);
  }

  /** Consistent reads are asked for in all RPCs of a flush or in none, and only the last RPC may run locally. */
  ghost predicate UniformFlags(cfg: Config, calls: seq<FlushCall>) {
    forall i | 0 <= i < |calls| ::
      && (calls[i].needConsistentRead <==> cfg.forceConsistentRead || cfg.transactional || |calls| >= 2)
      && (calls[i].allowLocal <==> cfg.allowLocalCalls && i == |calls| - 1)
  }

  /** The operations and the two flag rules determine the calls. */
  lemma CallsDetermined(cfg: Config, calls: seq<FlushCall>)
    requires UniformFlags(cfg, calls)
    ensures calls == Calls(cfg, CallOps(calls))
  {
    var cs := CallOps(calls);
    forall i | 0 <= i < |calls| ensures calls[i] == Calls(cfg, cs)[i] {
      var c := calls[i];
      assert c.needConsistentRead == (cfg.Forced() || |cs| >= 2);
      assert c.allowLocal == (i == |cs| - 1 && cfg.allowLocalCalls);
      assert c == FlushCall(cs[i], c.allowLocal, c.needConsistentRead);
    }
  }

  /** The state of the loop at an operation: the RPCs so far, and the group and sidecars of the range since `start`. */
  ghost predicate Scanning(cfg: Config, s: seq<Op>, calls: seq<FlushCall>, start: nat, it: nat, group: OpGroup,
                           sidecars: int)
  {
    && start < |s| && Cutting(cfg, s, calls, start, it) && (it == start ==> it == 0)
    && group == GetOpGroup(cfg, s[start]) && sidecars == Sidecars(s[start..it])
  }

  lemma ScanOn(cfg: Config, s: seq<Op>, calls: seq<FlushCall>, start: nat, it: nat, group: OpGroup, sidecars: int)
    requires Scanning(cfg, s, calls, start, it, group, sidecars) && it < |s|
    requires Key(cfg, s[it]) == Key(cfg, s[start]) && sidecars < MAX_SIDECAR_SLICES
    ensures Scanning(cfg, s, calls, start, it + 1, group, sidecars + if s[it].sidecar then 1 else 0)
  {
    GrowChunk(cfg, s, calls, start, it);
  }

  lemma ScanNext(cfg: Config, s: seq<Op>, calls: seq<FlushCall>, start: nat, it: nat, group: OpGroup, sidecars: int)
    requires Scanning(cfg, s, calls, start, it, group, sidecars) && it < |s|
    requires Key(cfg, s[it]) != Key(cfg, s[start]) || sidecars >= MAX_SIDECAR_SLICES
    ensures start < it
    ensures Scanning(cfg, s, calls + [FlushCall(s[start..it], false, true)], it, it + 1, GetOpGroup(cfg, s[it]),
                     0 + if s[it].sidecar then 1 else 0)
  {
    assert s[0..0] == [] && start < it;
    CloseChunk(cfg, s, calls, start, it);
    GrowChunk(cfg, s, calls + [FlushCall(s[start..it], false, true)], it, it);
  }

  /** The loop over the sorted queue: the RPCs it makes, and where the last one is to start. */
  method ScanOps(cfg: Config, ops: seq<Op>) returns (calls: seq<FlushCall>, start: nat)
    requires ops != []
    ensures Cutting(cfg, ops, calls, start, |ops|)
  {
    calls, start := [], 0;
    var startGroup := GetOpGroup(cfg, ops[start]);
    var numSidecars := 0;
    var it := start;
    assert ops[..0] == [] && ops[0..0] == [];
    while it != |ops|
      invariant Scanning(cfg, ops, calls, start, it, startGroup, numSidecars)
    {
      var itGroup := GetOpGroup(cfg, ops[it]);
      if ops[it].tablet != ops[start].tablet || startGroup != itGroup || numSidecars >= MAX_SIDECAR_SLICES {
        var needConsistentRead := cfg.Forced() || start != 0 || it != |ops|;
        ScanNext(cfg, ops, calls, start, it, startGroup, numSidecars);
        assert start != it && needConsistentRead; // the range handed to FlushBuffer is never empty
        calls := calls + [FlushCall(ops[start..it], false, needConsistentRead)];
        start := it;
        startGroup := itGroup;
        numSidecars := 0;
      } else {
        ScanOn(cfg, ops, calls, start, it, startGroup, numSidecars);
      }
      numSidecars := numSidecars + if ops[it].sidecar then 1 else 0;
      it := it + 1;
    }
  }

  /** The cut of FlushBuffersIfReady: the loop, and the RPC for what it leaves. */
  method CutIntoRpcs(cfg: Config, ops: seq<Op>) returns (calls: seq<FlushCall>)
    requires ops != []
    ensures IsCut(cfg, ops, CallOps(calls)) && UniformFlags(cfg, calls)
    ensures calls == Calls(cfg, Chunks(cfg, ops))
  {
    var start;
    calls, start := ScanOps(cfg, ops);
    LastChunk(cfg, ops, calls, start);
    var needConsistentRead := cfg.Forced() || start != 0;
    calls := calls + [FlushCall(ops[start..], cfg.allowLocalCalls, needConsistentRead)];
  }

  /** A flush depends on which operations were looked up, not on the order in which the lookups came back. */
  lemma PlanOfSet(cfg: Config, q: seq<Op>, r: seq<Op>)
    requires multiset(q) == multiset(r)
    requires DistinctSeqnos(q) && DistinctSeqnos(r)
    ensures Plan(cfg, q) == Plan(cfg, r)
  {
    SortOpsSorted(cfg, q);
    SortOpsSorted(cfg, r);
    SortUnique(cfg, SortOps(cfg, q), SortOps(cfg, r));
  }

  /** Every RPC of a plan is well formed, the RPCs partition the queue, and their number is bounded. */
  lemma PlanShape(cfg: Config, q: seq<Op>)
    requires DistinctSeqnos(q)
    ensures var calls := Plan(cfg, q); var s := Flatten(CallOps(calls));
            && IsSortOf(cfg, s, q)
            && IsCut(cfg, s, CallOps(calls))
            && |calls| <= |Keys(cfg, q)| + Sidecars(s) / MAX_SIDECAR_SLICES
  {
    var s := SortOps(cfg, q);
    SortOpsSorted(cfg, q);
    ChunksCut(cfg, s);
    assert CallOps(Plan(cfg, q)) == Chunks(cfg, s);
    ChunkCountBound(cfg, s, Chunks(cfg, s));
    assert Keys(cfg, s) == Keys(cfg, q) by {
      forall op ensures op in s <==> op in q {
        assert op in s <==> op in multiset(s);
        assert op in q <==> op in multiset(q);
      }
    }
  }

  lemma PlanFlags(cfg: Config, q: seq<Op>)
    ensures UniformFlags(cfg, Plan(cfg, q))
  {
    var calls, cs := Plan(cfg, q), Chunks(cfg, SortOps(cfg, q));
    forall i | 0 <= i < |calls|
      ensures calls[i] == FlushCall(cs[i], i == |cs| - 1 && cfg.allowLocalCalls, cfg.Forced() || |cs| >= 2)
    {
    }
  }

  /** Operations of one tablet and group leave in submission order, also across RPCs. */
  lemma SubmissionOrder(cfg: Config, q: seq<Op>, i: nat, j: nat, m: nat, n: nat)
    requires DistinctSeqnos(q)
    requires i <= j < |Plan(cfg, q)|
    requires m < |Plan(cfg, q)[i].ops| && n < |Plan(cfg, q)[j].ops|
    requires i < j || m < n
    requires Key(cfg, Plan(cfg, q)[i].ops[m]) == Key(cfg, Plan(cfg, q)[j].ops[n])
    ensures Plan(cfg, q)[i].ops[m].seqno < Plan(cfg, q)[j].ops[n].seqno
  {
    PlanShape(cfg, q);
    var cs := CallOps(Plan(cfg, q));
    FlattenAt(cs, i, m);
    FlattenAt(cs, j, n);
    OffsetMonotone(cs, i, j);
  }

  function Offset(cs: seq<seq<Op>>, i: nat): nat
    requires i <= |cs|
  {
    |Flatten(cs[..i])|
  }

  lemma {:induction false} FlattenSplit(cs: seq<seq<Op>>, i: nat)
    requires i <= |cs|
    ensures Flatten(cs) == Flatten(cs[..i]) + Flatten(cs[i..])
  {
    if i == 0 {
      assert cs[..0] == [] && cs[0..] == cs;
    } else {
      FlattenSplit(cs[1..], i - 1);
      assert cs[..i][1..] == cs[1..][..i-1] && cs[1..][i-1..] == cs[i..];
    }
  }

  lemma FlattenAt(cs: seq<seq<Op>>, i: nat, m: nat)
    requires i < |cs| && m < |cs[i]|
    ensures Offset(cs, i) + m < |Flatten(cs)| && Flatten(cs)[Offset(cs, i) + m] == cs[i][m]
  {
    FlattenSplit(cs, i);
    assert cs[i..][0] == cs[i];
  }

  lemma OffsetMonotone(cs: seq<seq<Op>>, i: nat, j: nat)
    requires i < |cs| && i <= j <= |cs|
    ensures i < j ==> Offset(cs, i) + |cs[i]| <= Offset(cs, j)
  {
    if i < j {
      FlattenSplit(cs[..j], i);
      assert cs[..j][..i] == cs[..i] && cs[..j][i..][0] == cs[i];
    }
  }

  // ------------------------------------------------- the rules in terms of operation types

  ghost predicate IsWrite(op: Op) {
    op.opType in {RedisWrite, QlWrite, PgsqlWrite}
  }

  /** A read that a follower may answer. */
  ghost predicate FollowerMayAnswer(cfg: Config, op: Op) {
    (op.opType == RedisRead && cfg.followerReads) || (op.opType == QlRead && op.consistentPrefix)
  }

  /** Operations that may travel together. */
  ghost predicate GoTogether(cfg: Config, a: Op, b: Op) {
    && a.tablet == b.tablet && (IsWrite(a) <==> IsWrite(b))
    && (FollowerMayAnswer(cfg, a) <==> FollowerMayAnswer(cfg, b))
  }

  function SidecarPlaces(s: seq<Op>): set<nat> {
    set m: nat | m < |s| && s[m].sidecar
  }

  lemma {:induction false} SidecarsAreCounted(s: seq<Op>)
    ensures Sidecars(s) == |SidecarPlaces(s)|
  {
    if s == [] {
    } else {
      var init, n := s[..|s|-1], |s| - 1;
      SidecarsAreCounted(init);
      assert SidecarPlaces(s) == SidecarPlaces(init) + if s[n].sidecar then {n} else {};
    }
  }

  lemma KeysGoTogether(cfg: Config, a: Op, b: Op)
    ensures Key(cfg, a) == Key(cfg, b) <==> GoTogether(cfg, a, b)
  {
  }

  /**
   Every RPC goes to one tablet and holds writes only, reads for followers only, or reads for leaders only, with
   at most 16 sidecars; and two RPCs in a row could have gone together only if the first holds 16.
   */
  lemma RpcRules(cfg: Config, q: seq<Op>, i: nat)
    requires DistinctSeqnos(q) && i < |Plan(cfg, q)|
    ensures var ops := Plan(cfg, q)[i].ops;
            && ops != []
            && (forall m, n | 0 <= m < |ops| && 0 <= n < |ops| :: GoTogether(cfg, ops[m], ops[n]))
            && |SidecarPlaces(ops)| <= 16
    ensures i + 1 < |Plan(cfg, q)| && Plan(cfg, q)[i+1].ops != []
            && GoTogether(cfg, Plan(cfg, q)[i].ops[0], Plan(cfg, q)[i+1].ops[0]) ==>
              |SidecarPlaces(Plan(cfg, q)[i].ops)| == 16
  {
    PlanShape(cfg, q);
    var cs := CallOps(Plan(cfg, q));
    var ops := cs[i];
    assert Fits(cfg, ops);
    SidecarsAreCounted(ops);
    forall m, n | 0 <= m < |ops| && 0 <= n < |ops| ensures GoTogether(cfg, ops[m], ops[n]) {
      assert Key(cfg, ops[m]) == Key(cfg, ops[0]) && Key(cfg, ops[n]) == Key(cfg, ops[0]);
      KeysGoTogether(cfg, ops[m], ops[n]);
    }
    if i + 1 < |cs| {
      assert Fits(cfg, cs[i+1]);
      KeysGoTogether(cfg, ops[0], cs[i+1][0]);
    }
  }

  /** RPCs go out by tablet, and on one tablet the writes before the reads and leader reads before the others. */
  lemma RpcOrder(cfg: Config, q: seq<Op>, i: nat, j: nat, m: nat, n: nat)
    requires DistinctSeqnos(q) && i < j < |Plan(cfg, q)|
    requires m < |Plan(cfg, q)[i].ops| && n < |Plan(cfg, q)[j].ops|
    ensures var a, b := Plan(cfg, q)[i].ops[m], Plan(cfg, q)[j].ops[n];
            && a.tablet <= b.tablet
            && (a.tablet == b.tablet ==>
                  (IsWrite(b) ==> IsWrite(a)) && (FollowerMayAnswer(cfg, a) ==> FollowerMayAnswer(cfg, b)))
  {
    PlanShape(cfg, q);
    var cs := CallOps(Plan(cfg, q));
    FlattenAt(cs, i, m);
    FlattenAt(cs, j, n);
    OffsetMonotone(cs, i, j);
    assert Less(cfg, cs[i][m], cs[j][n]);
  }
}
