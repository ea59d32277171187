/**
 Whole runs of a client batcher.  A step is one region guarded by the mutex, or
 one action that happens outside of it (building and sending one RPC, running the
 callback), so every interleaving of the threads that call into a batcher is a
 sequence of steps.  Calls that a thread still has to make are part of the world.
 */
module BatcherRuns {
  import opened SeqMultisets
  import opened FlushPlan
  import opened BatcherState
  import opened Options

  /** An RPC waits for its last attempt, then reports row errors, then retires its operations. */
  datatype RpcPhase = InFlight | Reporting(rows: seq<RowError>) | Retired

  datatype Rpc = Rpc(call: FlushCall, phase: RpcPhase)

  /** A thread that is about to run the flush callback. */
  datatype Notice = FlushNotice | AbortNotice(code: Code)

  datatype World = World(
    batch: Batch,
    checks: nat,                        // pending calls of CheckForFinishedFlush
    flushes: nat,                       // pending calls of FlushBuffersIfReady
    waiters: nat,                       // pending calls of TransactionReady
    dispatches: seq<seq<FlushCall>>,    // per dispatching thread, the RPCs it has yet to send
    rpcs: seq<Rpc>,                     // every RPC sent so far
    notices: seq<Notice>,
    callbacks: seq<Code>,               // the statuses the flush callback was run with
    added: set<OpId>,                   // every operation ever added
    retired: seq<OpId>,                 // every removal from the in-flight set
    lookedUp: seq<Op>,                  // every successful lookup, in order of completion
    flushAsked: bool)

  const START := World(EMPTY_BATCH, 0, 0, 0, [], [], [], [], {}, [], [], false)

  datatype Event =
    | Add(id: OpId, info: OpInfo)
    | Flush
    | LookupDone(id: OpId, result: LookupResult)
    | Check
    | FlushBuffers(prepared: bool)
    | TransactionReady(code: Code, toAbort: seq<OpId>)
    | Send(thread: nat)
    | Retry(rpc: nat)
    | RpcDone(rpc: nat, code: Code, rows: seq<RowError>)
    | ReportNextRow(rpc: nat)
    | Remove(rpc: nat)
    | Abort(code: Code, toAbort: seq<OpId>)
    | RunCallback(notice: nat)

  function Ids(ops: seq<Op>): seq<OpId> {
    seq(|ops|, i requires 0 <= i < |ops| => ops[i].id)
  }

  // ----------------------------------------------------------------- steps

  /** What may happen next: the threads' own continuations, and what callers and the network may do. */
  ghost predicate Allowed(w: World, e: Event) {
    match e
    case Add(id, _) => w.batch.phase == GatheringOps && id !in w.added
    case Flush => w.batch.phase == GatheringOps
    case LookupDone(id, result) =>
      && id in w.batch.ops && w.batch.ops[id].state == LookingUp
      && (if result.Found? then result.tablet.Some? else result.code != Ok)
    case Check => w.checks > 0
    case FlushBuffers(_) => w.flushes > 0
    case TransactionReady(code, toAbort) => w.waiters > 0 && (code != Ok ==> AbortSafe(w) && ListsBuffered(w, toAbort))
    case Send(t) => t < |w.dispatches| && w.dispatches[t] != []
    case Retry(r) => r < |w.rpcs| && w.rpcs[r].phase == InFlight
    case RpcDone(r, _, _) => r < |w.rpcs| && w.rpcs[r].phase == InFlight
    case ReportNextRow(r) => r < |w.rpcs| && w.rpcs[r].phase.Reporting? && w.rpcs[r].phase.rows != []
    case Remove(r) => r < |w.rpcs| && w.rpcs[r].phase == Reporting([])
    case Abort(_, toAbort) => AbortSafe(w) && ListsBuffered(w, toAbort)
    case RunCallback(i) => i < |w.notices|
  }

  ghost predicate ListsBuffered(w: World, toAbort: seq<OpId>) {
    multiset(toAbort) == multiset(WithState(w.batch.ops, Buffered))
  }

  /** The guard on Abort: nothing is being dispatched or awaits its RPC, and no callback is about to run. */
  predicate AbortSafe(w: World) {
    && (forall d | d in w.dispatches :: d == [])
    && (forall r | r in w.rpcs :: r.phase != InFlight)
    && w.notices == []
  }

  function AbortStep(cfg: Config, w: World, code: Code, toAbort: seq<OpId>): Option<World> {
    var b := AbortBatch(w.batch, cfg, code, toAbort);
    if b.None? then None
    else Some(w.(batch := b.value,
                 retired := w.retired + toAbort,
                 notices := if w.batch.callbackSet then w.notices + [AbortNotice(code)] else w.notices))
  }

  function LookupStep(cfg: Config, w: World, id: OpId, result: LookupResult): Option<World> {
    var b := FinishLookup(w.batch, cfg, id, result);
    if b.None? then None
    else if w.batch.phase == Aborted then Some(w.(batch := b.value, retired := w.retired + [id]))
    else if result.NotFound? then
      Some(w.(batch := b.value, retired := w.retired + [id], checks := w.checks + 1, flushes := w.flushes + 1))
    else if id !in w.batch.ops || result.tablet.None? then None
    else
      Some(w.(batch := b.value, lookedUp := w.lookedUp + [LookedUp(id, w.batch.ops[id], result.tablet.value)],
              flushes := w.flushes + 1))
  }

  function CheckStep(w: World): World
    requires w.checks > 0
  {
    w.(batch := FinishFlush(w.batch), checks := w.checks - 1,
       notices := if FlushOver(w.batch) then w.notices + [FlushNotice] else w.notices)
  }

  function FlushStep(cfg: Config, w: World, prepared: bool): World
    requires w.flushes > 0
  {
    var readiness := Ready(w.batch, cfg, prepared);
    var w' := w.(batch := TakeQueue(w.batch, readiness), flushes := w.flushes - 1);
    match readiness
    case NotReady => w'
    case WaitForTransaction => w'.(waiters := w.waiters + 1)
    case Take =>
      if w.batch.queue == [] then w' else w'.(dispatches := w.dispatches + [Plan(cfg, w.batch.queue)])
  }

  function SendStep(w: World, t: nat): World
    requires t < |w.dispatches| && w.dispatches[t] != []
  {
    var call := w.dispatches[t][0];
    w.(batch := SendOps(w.batch, Ids(call.ops)),
       dispatches := w.dispatches[t := w.dispatches[t][1..]],
       rpcs := w.rpcs + [Rpc(call, InFlight)])
  }

  function RemoveStep(w: World, r: nat): Option<World>
    requires r < |w.rpcs|
  {
    var ids := Ids(w.rpcs[r].call.ops);
    var b := EraseAll(w.batch, ids);
    if b.None? then None
    else Some(w.(batch := b.value, rpcs := w.rpcs[r := w.rpcs[r].(phase := Retired)],
                 retired := w.retired + ids, checks := w.checks + 1))
  }

  function CallbackStep(w: World, i: nat): Option<World>
    requires i < |w.notices|
  {
    var b := TakeCallback(w.batch);
    if b.None? then None
    else
      var code := if w.notices[i].FlushNotice? then FlushStatus(w.batch) else w.notices[i].code;
      Some(w.(batch := b.value, callbacks := w.callbacks + [code],
              notices := w.notices[..i] + w.notices[i+1..]))
  }

  /** The effect of an event; None is a CHECK that failed, or a call of an empty callback. */
  ghost function Step(cfg: Config, w: World, e: Event): Option<World>
    requires Allowed(w, e) || e.Abort?
  {
    match e
    case Add(id, info) =>
      var b := AddOp(w.batch, id, info);
      if b.None? then None else Some(w.(batch := b.value, added := w.added + {id}))
    case Flush =>
      var b := BeginFlush(w.batch);
      if b.None? then None
      else Some(w.(batch := b.value, checks := w.checks + 1, flushes := w.flushes + 1, flushAsked := true))
    case LookupDone(id, result) => LookupStep(cfg, w, id, result)
    case Check => Some(CheckStep(w))
    case FlushBuffers(prepared) => Some(FlushStep(cfg, w, prepared))
    case TransactionReady(code, toAbort) =>
      var w' := w.(waiters := w.waiters - 1);
      if code == Ok then Some(w'.(flushes := w.flushes + 1)) else AbortStep(cfg, w', code, toAbort)
    case Send(t) => Some(SendStep(w, t))
    case Retry(r) => Some(w)
    case RpcDone(r, code, rows) =>
      var b := RpcStatus(w.batch, cfg, Ids(w.rpcs[r].call.ops), code);
      if b.None? then None
      else Some(w.(batch := b.value, rpcs := w.rpcs[r := w.rpcs[r].(phase := Reporting(rows))]))
    case ReportNextRow(r) =>
      var rows := w.rpcs[r].phase.rows;
      Some(w.(batch := ReportRow(w.batch, cfg, Ids(w.rpcs[r].call.ops), rows[0]),
              rpcs := w.rpcs[r := w.rpcs[r].(phase := Reporting(rows[1..]))]))
    case Remove(r) => RemoveStep(w, r)
    case Abort(code, toAbort) => AbortStep(cfg, w, code, toAbort)
    case RunCallback(i) => CallbackStep(w, i)
  }

  ghost predicate TouchesRpcs(e: Event) {
    e.Send? || e.RpcDone? || e.ReportNextRow? || e.Remove?
  }

  lemma OthersKeepRpcs(cfg: Config, w: World, e: Event)
    requires Allowed(w, e) && Step(cfg, w, e).Some? && !TouchesRpcs(e)
    ensures Step(cfg, w, e).value.rpcs == w.rpcs
  {
  }

  // ----------------------------------------------------------- what is kept

  /** The operations of the calls that a dispatching thread has yet to send. */
  function CallIds(calls: seq<FlushCall>): multiset<OpId> {
    Sum(CallEach(calls))
  }

  function CallEach(calls: seq<FlushCall>): seq<multiset<OpId>> {
    seq(|calls|, i requires 0 <= i < |calls| => multiset(Ids(calls[i].ops)))
  }

  function LiveOf(r: Rpc): multiset<OpId> {
    if r.phase == Retired then multiset{} else multiset(Ids(r.call.ops))
  }

  /** The operations of the RPCs that are not retired yet. */
  function LiveIds(rpcs: seq<Rpc>): multiset<OpId> {
    Sum(LiveEach(rpcs))
  }

  function LiveEach(rpcs: seq<Rpc>): seq<multiset<OpId>> {
    seq(|rpcs|, i requires 0 <= i < |rpcs| => LiveOf(rpcs[i]))
  }

  function SentCalls(rpcs: seq<Rpc>): seq<FlushCall> {
    seq(|rpcs|, i requires 0 <= i < |rpcs| => rpcs[i].call)
  }

  function Pending(w: World): seq<FlushCall> {
    if w.dispatches == [] then [] else w.dispatches[0]
  }

  /** Every operation in the in-flight set is in exactly one place, and the counters count. */
  ghost predicate Owned(w: World) {
    var b := w.batch;
    && b.outstandingLookups == |WithState(b.ops, LookingUp)|
    && (b.phase != Aborted ==>
          multiset(WithState(b.ops, Buffered)) == multiset(Ids(b.queue)) + CallIds(Pending(w)))
    && (b.phase == Aborted ==> WithState(b.ops, Buffered) == {} && Pending(w) == [])
    && multiset(WithState(b.ops, RequestSent)) == LiveIds(w.rpcs)
    && multiset(w.added) == multiset(b.ops.Keys) + multiset(w.retired)
  }

  /** Sequence numbers are below the next one and never shared, not even with an operation that has left. */
  ghost predicate Numbered(ops: map<OpId, InFlightOp>, lookedUp: seq<Op>, next: nat) {
    && (forall id | id in ops :: ops[id].seqno < next)
    && (forall i, j | i in ops && j in ops && i != j :: ops[i].seqno != ops[j].seqno)
    && (forall op | op in lookedUp :: op.seqno < next)
    && (forall op, id | op in lookedUp && id in WithState(ops, LookingUp) :: ops[id].seqno != op.seqno)
    && DistinctSeqnos(lookedUp)
  }

  /** One dispatch at most, of everything that was looked up, after every lookup is over. */
  ghost predicate DispatchedOnce(cfg: Config, w: World) {
    && |w.dispatches| <= 1
    && (w.dispatches == [] ==>
          w.rpcs == [] && (w.batch.phase != Aborted ==> w.batch.queue == w.lookedUp))
    && (w.dispatches != [] ==>
          && w.batch.phase != GatheringOps
          && WithState(w.batch.ops, LookingUp) == {}
          && w.batch.queue == []
          && SentCalls(w.rpcs) + w.dispatches[0] == Plan(cfg, w.lookedUp))
    && (forall r | r in w.rpcs :: r.call.ops != [])
    && (forall c | c in Pending(w) :: c.ops != [])
  }

  ghost predicate ErrorsKept(cfg: Config, b: Batch) {
    && (b.hadErrors <==> b.errors != [])
    && b.combinedError == if cfg.combineErrors then CombineAll(Codes(b.errors)) else Ok
  }

  /** Where the flush callback is: not given, waiting, about to run, or run. */
  ghost predicate CallbackKept(w: World) {
    var b := w.batch;
    && (b.phase == GatheringOps ==>
          !w.flushAsked && !b.callbackSet && w.notices == [] && w.callbacks == [] && w.dispatches == [])
    && (b.phase == Flushing ==> w.flushAsked && b.callbackSet && w.notices == [] && w.callbacks == [])
    && (b.phase == Flushed ==>
          && w.flushAsked && b.ops.Keys == {}
          && ((b.callbackSet && w.notices == [FlushNotice] && w.callbacks == [])
              || (!b.callbackSet && w.notices == [] && w.callbacks == [FlushStatus(b)])))
    && (b.phase == Aborted ==>
          && (forall r | r in w.rpcs :: r.phase != InFlight)
          && ((b.callbackSet && w.flushAsked && |w.notices| == 1 && w.notices[0].AbortNotice? && w.callbacks == [])
              || (!b.callbackSet && w.notices == [] && |w.callbacks| == if w.flushAsked then 1 else 0)))
  }

  /** Whoever makes the last operation leave still has to look, and so does whoever ends the last lookup. */
  ghost predicate SomeoneLooks(w: World) {
    w.batch.phase == Flushing ==>
      && (w.batch.ops.Keys == {} ==> w.checks > 0)
      && (w.batch.outstandingLookups == 0 && w.batch.queue != [] ==> w.flushes + w.waiters > 0)
  }

  ghost predicate Inv(cfg: Config, w: World) {
    && Owned(w)
    && Numbered(w.batch.ops, w.lookedUp, w.batch.nextSeqno)
    && DispatchedOnce(cfg, w)
    && ErrorsKept(cfg, w.batch)
    && CallbackKept(w)
    && SomeoneLooks(w)
  }

  // -------------------------------------------------- sets and multisets of operations

  lemma SetPlusOne(s: set<OpId>, x: OpId)
    requires x !in s
    ensures multiset(s + {x}) == multiset(s) + multiset{x}
  {
  }

  /** A list that fits into a set, as multisets, has no repeats; taking it out is exact. */
  lemma PartOfSet(ids: seq<OpId>, s: set<OpId>)
    requires multiset(ids) <= multiset(s)
    ensures forall i, j | 0 <= i < j < |ids| :: ids[i] != ids[j]
    ensures forall id | id in ids :: id in s
    ensures multiset(s - Members(ids)) == multiset(s) - multiset(ids)
    ensures multiset(Members(ids)) == multiset(ids)
  {
    var m := Members(ids);
    forall id ensures multiset(ids)[id] <= 1 && (id in ids <==> multiset(ids)[id] == 1) {
      assert multiset(ids)[id] <= multiset(s)[id] <= 1;
      assert id in ids <==> id in multiset(ids);
    }
    forall id | id in ids ensures id in s {
      assert id in multiset(ids) && id in multiset(s);
    }
    assert multiset(m) == multiset(ids);
    MultisetOfSet(ids, m);
  }

  lemma Unaffected(ops: map<OpId, InFlightOp>, id: OpId, f: InFlightOp, st: OpState)
    requires f.state != st && (id !in ops || ops[id].state != st)
    ensures WithState(ops[id := f], st) == WithState(ops, st)
  {
  }

  lemma OpsAdded(ops: map<OpId, InFlightOp>, id: OpId, f: InFlightOp)
    requires id !in ops && f.state == LookingUp
    ensures WithState(ops[id := f], LookingUp) == WithState(ops, LookingUp) + {id}
    ensures |WithState(ops[id := f], LookingUp)| == |WithState(ops, LookingUp)| + 1
    ensures WithState(ops[id := f], Buffered) == WithState(ops, Buffered)
    ensures WithState(ops[id := f], RequestSent) == WithState(ops, RequestSent)
    ensures multiset(ops[id := f].Keys) == multiset(ops.Keys) + multiset{id}
  {
    Unaffected(ops, id, f, Buffered);
    Unaffected(ops, id, f, RequestSent);
    SetPlusOne(ops.Keys, id);
    assert ops[id := f].Keys == ops.Keys + {id};
    assert WithState(ops[id := f], LookingUp) == WithState(ops, LookingUp) + {id};
  }

  lemma OpsBuffered(ops: map<OpId, InFlightOp>, id: OpId)
    requires id in WithState(ops, LookingUp)
    ensures var ops' := ops[id := ops[id].(state := Buffered)];
            && WithState(ops', LookingUp) == WithState(ops, LookingUp) - {id}
            && |WithState(ops', LookingUp)| == |WithState(ops, LookingUp)| - 1
            && WithState(ops', RequestSent) == WithState(ops, RequestSent)
            && multiset(WithState(ops', Buffered)) == multiset(WithState(ops, Buffered)) + multiset{id}
            && ops'.Keys == ops.Keys
  {
    var ops' := ops[id := ops[id].(state := Buffered)];
    assert WithState(ops', Buffered) == WithState(ops, Buffered) + {id};
    assert WithState(ops', LookingUp) == WithState(ops, LookingUp) - {id};
  }

  lemma LookupErased(ops: map<OpId, InFlightOp>, id: OpId)
    requires id in WithState(ops, LookingUp)
    ensures WithState(ops - {id}, LookingUp) == WithState(ops, LookingUp) - {id}
    ensures |WithState(ops - {id}, LookingUp)| == |WithState(ops, LookingUp)| - 1
    ensures WithState(ops - {id}, Buffered) == WithState(ops, Buffered)
    ensures WithState(ops - {id}, RequestSent) == WithState(ops, RequestSent)
    ensures multiset(ops.Keys) == multiset((ops - {id}).Keys) + multiset{id}
  {
    assert ops.Keys == (ops - {id}).Keys + {id};
    assert WithState(ops - {id}, LookingUp) == WithState(ops, LookingUp) - {id};
  }

  /** Erasing a list of operations that all have the state `st`. */
  lemma OpsErased(ops: map<OpId, InFlightOp>, ids: seq<OpId>, st: OpState)
    requires multiset(ids) <= multiset(WithState(ops, st))
    ensures var ops' := ops - Members(ids);
            && multiset(WithState(ops', st)) == multiset(WithState(ops, st)) - multiset(ids)
            && (forall other | other != st :: WithState(ops', other) == WithState(ops, other))
            && multiset(ops.Keys) == multiset(ops'.Keys) + multiset(ids)
  {
    var gone := Members(ids);
    PartOfSet(ids, WithState(ops, st));
    assert WithState(ops - gone, st) == WithState(ops, st) - gone;
    assert (ops - gone).Keys == ops.Keys - gone && gone <= ops.Keys;
  }

  lemma OpsSent(b: Batch, ids: seq<OpId>)
    requires multiset(ids) <= multiset(WithState(b.ops, Buffered))
    ensures var ops' := SendOps(b, ids).ops;
            && ops'.Keys == b.ops.Keys
            && WithState(ops', LookingUp) == WithState(b.ops, LookingUp)
            && multiset(WithState(ops', Buffered)) == multiset(WithState(b.ops, Buffered)) - multiset(ids)
            && multiset(WithState(ops', RequestSent)) == multiset(WithState(b.ops, RequestSent)) + multiset(ids)
  {
    PartOfSet(ids, WithState(b.ops, Buffered));
    StatesSent(b, ids);
    UnionAsMultiset(WithState(b.ops, RequestSent), Members(ids));
  }

  lemma StatesSent(b: Batch, ids: seq<OpId>)
    requires forall id | id in ids :: id in WithState(b.ops, Buffered)
    ensures var ops' := SendOps(b, ids).ops;
            && ops'.Keys == b.ops.Keys
            && WithState(ops', LookingUp) == WithState(b.ops, LookingUp)
            && WithState(ops', Buffered) == WithState(b.ops, Buffered) - Members(ids)
            && WithState(ops', RequestSent) == WithState(b.ops, RequestSent) + Members(ids)
            && WithState(b.ops, RequestSent) !! Members(ids)
  {
  }

  lemma UnionAsMultiset(s: set<OpId>, t: set<OpId>)
    requires s !! t
    ensures multiset(s + t) == multiset(s) + multiset(t)
  {
  }

  lemma LiveSnoc(rpcs: seq<Rpc>, x: Rpc)
    ensures LiveIds(rpcs + [x]) == LiveIds(rpcs) + LiveOf(x)
  {
    assert LiveEach(rpcs + [x]) == LiveEach(rpcs) + [LiveOf(x)];
    SumSnoc(LiveEach(rpcs), LiveOf(x));
  }

  lemma LiveReplace(rpcs: seq<Rpc>, r: nat, x: Rpc)
    requires r < |rpcs|
    ensures LiveIds(rpcs[r := x]) + LiveOf(rpcs[r]) == LiveIds(rpcs) + LiveOf(x)
  {
    assert LiveEach(rpcs[r := x]) == LiveEach(rpcs)[r := LiveOf(x)];
    SumReplace(LiveEach(rpcs), r, LiveOf(x));
  }

  lemma LiveContains(rpcs: seq<Rpc>, r: nat)
    requires r < |rpcs|
    ensures LiveOf(rpcs[r]) <= LiveIds(rpcs)
  {
    SumContains(LiveEach(rpcs), r);
  }

  lemma IdsConcat(s: seq<Op>, t: seq<Op>)
    ensures Ids(s + t) == Ids(s) + Ids(t)
  {
  }

  lemma IdsTail(s: seq<Op>)
    requires s != []
    ensures multiset(Ids(s)) == multiset(Ids(s[1..])) + multiset{s[0].id}
  {
    TailMultiset(Ids(s));
    assert Ids(s)[1..] == Ids(s[1..]);
  }

  lemma {:induction false} InsertIds(cfg: Config, x: Op, s: seq<Op>)
    ensures multiset(Ids(Insert(cfg, x, s))) == multiset(Ids(s)) + multiset{x.id}
  {
    var r := Insert(cfg, x, s);
    IdsTail(r);
    if s == [] || Less(cfg, x, s[0]) {
      assert r[1..] == s;
    } else {
      InsertIds(cfg, x, s[1..]);
      assert r[1..] == Insert(cfg, x, s[1..]);
      IdsTail(s);
    }
  }

  lemma {:induction false} SortIds(cfg: Config, q: seq<Op>)
    ensures multiset(Ids(SortOps(cfg, q))) == multiset(Ids(q))
  {
    if q == [] {
    } else {
      SortIds(cfg, q[1..]);
      InsertIds(cfg, q[0], SortOps(cfg, q[1..]));
      IdsTail(q);
    }
  }

  lemma CallIdsCons(call: FlushCall, rest: seq<FlushCall>)
    ensures CallIds([call] + rest) == multiset(Ids(call.ops)) + CallIds(rest)
  {
    assert CallEach([call] + rest) == [multiset(Ids(call.ops))] + CallEach(rest);
    SumCons(multiset(Ids(call.ops)), CallEach(rest));
  }

  lemma {:induction false} CallIdsFlat(calls: seq<FlushCall>)
    ensures CallIds(calls) == multiset(Ids(Flatten(CallOps(calls))))
  {
    if calls == [] {
    } else {
      CallIdsFlat(calls[1..]);
      CallIdsCons(calls[0], calls[1..]);
      assert calls == [calls[0]] + calls[1..];
      assert CallOps(calls)[1..] == CallOps(calls[1..]);
      IdsConcat(calls[0].ops, Flatten(CallOps(calls[1..])));
    }
  }

  /** A plan sends each queued operation once, in RPCs that are not empty. */
  lemma PlanIds(cfg: Config, q: seq<Op>)
    ensures CallIds(Plan(cfg, q)) == multiset(Ids(q))
    ensures forall c | c in Plan(cfg, q) :: c.ops != []
  {
    var calls, s := Plan(cfg, q), SortOps(cfg, q);
    ChunksCut(cfg, s);
    assert CallOps(calls) == Chunks(cfg, s);
    CallIdsFlat(calls);
    SortIds(cfg, q);
    forall c | c in calls ensures c.ops != [] {
      var i :| 0 <= i < |calls| && calls[i] == c;
      assert Fits(cfg, CallOps(calls)[i]);
    }
  }

  // ------------------------------------------------------ every step keeps it

  lemma NumberedAdd(ops: map<OpId, InFlightOp>, lookedUp: seq<Op>, next: nat, id: OpId, info: OpInfo)
    requires Numbered(ops, lookedUp, next)
    ensures Numbered(ops[id := InFlightOp(next, LookingUp, info)], lookedUp, next + 1)
  {
    var ops' := ops[id := InFlightOp(next, LookingUp, info)];
    forall op, x | op in lookedUp && x in WithState(ops', LookingUp) ensures ops'[x].seqno != op.seqno {
      assert x == id || x in WithState(ops, LookingUp);
    }
  }

  lemma NumberedFound(ops: map<OpId, InFlightOp>, lookedUp: seq<Op>, next: nat, id: OpId, tablet: nat)
    requires Numbered(ops, lookedUp, next) && id in WithState(ops, LookingUp)
    ensures Numbered(ops[id := ops[id].(state := Buffered)], lookedUp + [LookedUp(id, ops[id], tablet)], next)
  {
    var ops', looked' := ops[id := ops[id].(state := Buffered)], lookedUp + [LookedUp(id, ops[id], tablet)];
    forall op, x | op in looked' && x in WithState(ops', LookingUp) ensures ops'[x].seqno != op.seqno {
      assert x in WithState(ops, LookingUp) && x != id;
    }
    forall i, j | 0 <= i < j < |looked'| ensures looked'[i].seqno != looked'[j].seqno {
      assert looked'[i] in lookedUp;
    }
  }

  /** Removing operations, or changing the state of some that are no longer looked up. */
  lemma NumberedKept(ops: map<OpId, InFlightOp>, ops': map<OpId, InFlightOp>, lookedUp: seq<Op>, next: nat)
    requires Numbered(ops, lookedUp, next)
    requires forall id | id in ops' :: id in ops && ops'[id].seqno == ops[id].seqno
    requires WithState(ops', LookingUp) <= WithState(ops, LookingUp)
    ensures Numbered(ops', lookedUp, next)
  {
  }

  lemma NumberedSend(b: Batch, ids: seq<OpId>, lookedUp: seq<Op>, next: nat)
    requires Numbered(b.ops, lookedUp, next)
    requires WithState(SendOps(b, ids).ops, LookingUp) == WithState(b.ops, LookingUp)
    ensures Numbered(SendOps(b, ids).ops, lookedUp, next)
  {
    NumberedKept(b.ops, SendOps(b, ids).ops, lookedUp, next);
  }

  lemma OwnedAdd(w: World, id: OpId, f: InFlightOp)
    requires Owned(w) && id !in w.added && f.state == LookingUp
    ensures id !in w.batch.ops
    ensures Owned(w.(batch := w.batch.(ops := w.batch.ops[id := f],
                                       outstandingLookups := w.batch.outstandingLookups + 1,
                                       nextSeqno := w.batch.nextSeqno + 1),
                     added := w.added + {id}))
  {
    var ops := w.batch.ops;
    assert id in ops ==> id in multiset(w.added);
    OpsAdded(ops, id, f);
    SetPlusOne(w.added, id);
  }

  lemma KeptByAdd(cfg: Config, w: World, id: OpId, info: OpInfo)
    requires Inv(cfg, w) && Allowed(w, Add(id, info))
    ensures Step(cfg, w, Add(id, info)).Some? && Inv(cfg, Step(cfg, w, Add(id, info)).value)
  {
    var f := InFlightOp(w.batch.nextSeqno, LookingUp, info);
    OwnedAdd(w, id, f);
    NumberedAdd(w.batch.ops, w.lookedUp, w.batch.nextSeqno, id, info);
  }

  lemma KeptByFlush(cfg: Config, w: World)
    requires Inv(cfg, w) && Allowed(w, Flush)
    ensures Step(cfg, w, Flush).Some? && Inv(cfg, Step(cfg, w, Flush).value)
  {
  }

  lemma CodesSnoc(errors: seq<(OpId, Code)>, id: OpId, code: Code)
    ensures CombineAll(Codes(errors + [(id, code)])) == Combine(CombineAll(Codes(errors)), code)
  {
    var all := Codes(errors + [(id, code)]);
    assert all[..|all|-1] == Codes(errors);
  }

  lemma ErrorKept(cfg: Config, b: Batch, id: OpId, code: Code)
    requires ErrorsKept(cfg, b)
    ensures ErrorsKept(cfg, CombineError(b, cfg, id, code))
  {
    CodesSnoc(b.errors, id, code);
  }

  lemma OwnedLookupFailed(w: World, w': World, id: OpId)
    requires Owned(w) && id in WithState(w.batch.ops, LookingUp)
    requires w'.batch.ops == w.batch.ops - {id} && w'.retired == w.retired + [id]
    requires w'.batch.outstandingLookups == w.batch.outstandingLookups - 1
    requires w'.batch.phase == w.batch.phase && w'.batch.queue == w.batch.queue
    requires w'.dispatches == w.dispatches && w'.rpcs == w.rpcs && w'.added == w.added
    ensures Owned(w')
  {
    LookupErased(w.batch.ops, id);
    assert multiset(w'.retired) == multiset(w.retired) + multiset{id};
  }

  lemma KeptByLookupFailed(cfg: Config, w: World, id: OpId, result: LookupResult)
    requires Inv(cfg, w) && Allowed(w, LookupDone(id, result))
    requires w.batch.phase == Aborted || result.NotFound?
    ensures LookupStep(cfg, w, id, result).Some? && Inv(cfg, LookupStep(cfg, w, id, result).value)
  {
    var b, w' := w.batch, LookupStep(cfg, w, id, result).value;
    var code := if b.phase == Aborted then AbortedCode else result.code;
    ErrorKept(cfg, b.(ops := b.ops - {id}, outstandingLookups := b.outstandingLookups - 1), id, code);
    OwnedLookupFailed(w, w', id);
    LookupErased(b.ops, id);
    NumberedKept(b.ops, w'.batch.ops, w.lookedUp, b.nextSeqno);
  }

  lemma OwnedLookupFound(w: World, w': World, id: OpId, tablet: nat)
    requires Owned(w) && id in WithState(w.batch.ops, LookingUp) && w.batch.phase != Aborted
    requires w'.batch.ops == w.batch.ops[id := w.batch.ops[id].(state := Buffered)]
    requires w'.batch.queue == w.batch.queue + [LookedUp(id, w.batch.ops[id], tablet)]
    requires w'.batch.outstandingLookups == w.batch.outstandingLookups - 1
    requires w'.batch.phase == w.batch.phase && w'.retired == w.retired
    requires w'.dispatches == w.dispatches && w'.rpcs == w.rpcs && w'.added == w.added
    ensures Owned(w')
  {
    OpsBuffered(w.batch.ops, id);
    var op := LookedUp(id, w.batch.ops[id], tablet);
    IdsConcat(w.batch.queue, [op]);
    assert Ids([op]) == [id];
  }

  lemma KeptByLookupFound(cfg: Config, w: World, id: OpId, result: LookupResult)
    requires Inv(cfg, w) && Allowed(w, LookupDone(id, result))
    requires w.batch.phase != Aborted && result.Found?
    ensures LookupStep(cfg, w, id, result).Some? && Inv(cfg, LookupStep(cfg, w, id, result).value)
  {
    var b, w' := w.batch, LookupStep(cfg, w, id, result).value;
    assert id in WithState(b.ops, LookingUp);
    OwnedLookupFound(w, w', id, result.tablet.value);
    NumberedFound(b.ops, w.lookedUp, b.nextSeqno, id, result.tablet.value);
  }

  lemma KeptByCheck(cfg: Config, w: World)
    requires Inv(cfg, w) && w.checks > 0
    ensures Inv(cfg, CheckStep(w))
  {
    var w' := CheckStep(w);
    assert Owned(w');
    assert DispatchedOnce(cfg, w');
  }

  lemma OwnedDispatch(cfg: Config, w: World, w': World)
    requires Owned(w) && w.dispatches == [] && w.batch.phase != Aborted
    requires w'.batch == w.batch.(queue := []) && w'.dispatches == [Plan(cfg, w.batch.queue)]
    requires w'.rpcs == w.rpcs && w'.added == w.added && w'.retired == w.retired
    ensures Owned(w')
    ensures forall c | c in Pending(w') :: c.ops != []
  {
    PlanIds(cfg, w.batch.queue);
    assert Ids(w'.batch.queue) == [];
  }

  lemma KeptByFlushBuffers(cfg: Config, w: World, prepared: bool)
    requires Inv(cfg, w) && w.flushes > 0
    ensures Inv(cfg, FlushStep(cfg, w, prepared))
  {
    if Ready(w.batch, cfg, prepared) == Take && w.batch.queue != [] {
      KeptByDispatch(cfg, w, prepared);
    } else {
      KeptByWaiting(cfg, w, FlushStep(cfg, w, prepared));
    }
  }

  lemma KeptByWaiting(cfg: Config, w: World, w': World)
    requires Inv(cfg, w) && w'.batch == w.batch && w'.dispatches == w.dispatches && w'.rpcs == w.rpcs
    requires w'.added == w.added && w'.retired == w.retired && w'.lookedUp == w.lookedUp && w'.checks == w.checks
    requires w'.notices == w.notices && w'.callbacks == w.callbacks && w'.flushAsked == w.flushAsked
    requires SomeoneLooks(w')
    ensures Inv(cfg, w')
  {
    assert Owned(w');
    assert DispatchedOnce(cfg, w');
  }

  lemma KeptByDispatch(cfg: Config, w: World, prepared: bool)
    requires Inv(cfg, w) && w.flushes > 0 && Ready(w.batch, cfg, prepared) == Take && w.batch.queue != []
    ensures Inv(cfg, FlushStep(cfg, w, prepared))
  {
    var w' := FlushStep(cfg, w, prepared);
    EmptyBySize(WithState(w.batch.ops, LookingUp));
    OwnedDispatch(cfg, w, w');
    assert SentCalls(w.rpcs) == [];
    assert SentCalls(w'.rpcs) + w'.dispatches[0] == Plan(cfg, w.lookedUp);
    assert DispatchedOnce(cfg, w');
  }

  lemma EmptyBySize(s: set<OpId>)
    requires |s| == 0
    ensures s == {}
  {
  }

  lemma OwnedSend(w: World, w': World, call: FlushCall, rest: seq<FlushCall>)
    requires Owned(w) && w.batch.phase != Aborted && Pending(w) == [call] + rest
    requires w'.batch == SendOps(w.batch, Ids(call.ops)) && Pending(w') == rest
    requires w'.rpcs == w.rpcs + [Rpc(call, InFlight)]
    requires w'.added == w.added && w'.retired == w.retired
    ensures Owned(w')
    ensures WithState(w'.batch.ops, LookingUp) == WithState(w.batch.ops, LookingUp)
  {
    var ids := Ids(call.ops);
    CallIdsCons(call, rest);
    OpsSent(w.batch, ids);
    LiveSnoc(w.rpcs, Rpc(call, InFlight));
  }

  lemma DispatchedSend(cfg: Config, w: World, w': World, call: FlushCall, rest: seq<FlushCall>)
    requires DispatchedOnce(cfg, w) && w.dispatches == [[call] + rest] && w'.dispatches == [rest]
    requires w'.rpcs == w.rpcs + [Rpc(call, InFlight)] && w'.lookedUp == w.lookedUp
    requires w'.batch.phase == w.batch.phase && w'.batch.queue == w.batch.queue
    requires WithState(w'.batch.ops, LookingUp) == WithState(w.batch.ops, LookingUp)
    ensures DispatchedOnce(cfg, w')
  {
    assert Pending(w) == [call] + rest && call in Pending(w);
    assert forall c | c in rest :: c in Pending(w);
    assert SentCalls(w'.rpcs) == SentCalls(w.rpcs) + [call];
    assert SentCalls(w'.rpcs) + rest == SentCalls(w.rpcs) + w.dispatches[0];
  }

  /** Operations that are planned or sent keep the batcher from leaving the flushing state. */
  lemma SendingIsFlushing(cfg: Config, w: World)
    requires Inv(cfg, w) && Pending(w) != []
    ensures w.batch.phase == Flushing && w.batch.ops.Keys != {}
  {
    assert Pending(w)[0] in Pending(w);
    PlannedIsInFlight(w);
  }

  lemma PlannedIsInFlight(w: World)
    requires Owned(w) && Pending(w) != [] && Pending(w)[0].ops != []
    ensures w.batch.phase != Aborted && w.batch.ops.Keys != {}
  {
    var call, rest := Pending(w)[0], Pending(w)[1..];
    assert Pending(w) == [call] + rest;
    CallIdsCons(call, rest);
    var id := Ids(call.ops)[0];
    assert id in multiset(Ids(call.ops)) && id in CallIds(Pending(w));
    assert id in multiset(WithState(w.batch.ops, Buffered)) && id in w.batch.ops;
  }

  lemma KeptBySend(cfg: Config, w: World, t: nat)
    requires t < |w.dispatches| && w.dispatches[t] != [] && Inv(cfg, w)
    ensures Inv(cfg, SendStep(w, t))
  {
    SendShape(cfg, w, t);
    SendingIsFlushing(cfg, w);
    KeptBySendOf(cfg, w, SendStep(w, t), w.dispatches[0][0], w.dispatches[0][1..]);
  }

  lemma SendShape(cfg: Config, w: World, t: nat)
    requires t < |w.dispatches| && w.dispatches[t] != [] && DispatchedOnce(cfg, w)
    ensures t == 0 && w.dispatches == [[w.dispatches[0][0]] + w.dispatches[0][1..]]
    ensures SendStep(w, t).dispatches == [w.dispatches[0][1..]] && Pending(w) == w.dispatches[0]
  {
    var plan := w.dispatches[0];
    assert w.dispatches == [plan] && plan == [plan[0]] + plan[1..];
  }

  lemma KeptBySendOf(cfg: Config, w: World, w': World, call: FlushCall, rest: seq<FlushCall>)
    requires Inv(cfg, w) && w.dispatches == [[call] + rest] && w.batch.phase == Flushing && w.batch.ops.Keys != {}
    requires w' == w.(batch := SendOps(w.batch, Ids(call.ops)), dispatches := [rest],
                      rpcs := w.rpcs + [Rpc(call, InFlight)])
    ensures Inv(cfg, w')
  {
    OwnedSend(w, w', call, rest);
    DispatchedSend(cfg, w, w', call, rest);
    NumberedSend(w.batch, Ids(call.ops), w.lookedUp, w.batch.nextSeqno);
    assert w'.batch.ops.Keys == w.batch.ops.Keys;
  }

  /** A live RPC holds operations that are still in flight, so the flush is not over. */
  lemma LiveMeansOps(cfg: Config, w: World, r: nat)
    requires Inv(cfg, w) && r < |w.rpcs| && w.rpcs[r].phase != Retired
    ensures multiset(Ids(w.rpcs[r].call.ops)) <= multiset(WithState(w.batch.ops, RequestSent))
    ensures w.batch.phase == Flushing || w.batch.phase == Aborted
    ensures w.rpcs[r].phase == InFlight ==> w.batch.phase == Flushing
    ensures w.batch.ops.Keys != {}
    ensures |w.dispatches| == 1
  {
    LiveContains(w.rpcs, r);
    var rpc := w.rpcs[r];
    assert rpc in w.rpcs;
    var id := Ids(rpc.call.ops)[0];
    assert id in multiset(Ids(rpc.call.ops));
    assert id in multiset(WithState(w.batch.ops, RequestSent));
    assert id in w.batch.ops;
  }

  lemma DispatchedRpc(cfg: Config, w: World, w': World, r: nat, phase: RpcPhase)
    requires DispatchedOnce(cfg, w) && r < |w.rpcs|
    requires w'.rpcs == w.rpcs[r := w.rpcs[r].(phase := phase)]
    requires w'.dispatches == w.dispatches && w'.lookedUp == w.lookedUp
    requires w'.batch.phase == w.batch.phase && w'.batch.queue == w.batch.queue
    requires WithState(w'.batch.ops, LookingUp) == WithState(w.batch.ops, LookingUp)
    ensures DispatchedOnce(cfg, w')
    ensures phase != InFlight && (forall x | x in w.rpcs :: x.phase != InFlight) ==>
              (forall x | x in w'.rpcs :: x.phase != InFlight)
  {
    assert w.rpcs[r] in w.rpcs;
    assert SentCalls(w'.rpcs) == SentCalls(w.rpcs);
    assert forall x | x in w'.rpcs :: x in w.rpcs || x == w.rpcs[r].(phase := phase);
  }

  /** Reporting errors for an RPC touches nothing but the error report and the phase of the RPC. */
  lemma KeptByReport(cfg: Config, w: World, r: nat, b: Batch, rows: seq<RowError>)
    requires Inv(cfg, w) && r < |w.rpcs| && w.rpcs[r].phase != Retired
    requires SameButErrors(w.batch, b) && b.ops == w.batch.ops && ErrorsKept(cfg, b)
    ensures Inv(cfg, w.(batch := b, rpcs := w.rpcs[r := w.rpcs[r].(phase := Reporting(rows))]))
  {
    var rpc := w.rpcs[r].(phase := Reporting(rows));
    var w' := w.(batch := b, rpcs := w.rpcs[r := rpc]);
    LiveMeansOps(cfg, w, r);
    LiveReplace(w.rpcs, r, rpc);
    assert LiveOf(rpc) == LiveOf(w.rpcs[r]);
    CancelMultisets(LiveIds(w'.rpcs), LiveIds(w.rpcs), LiveOf(rpc));
    DispatchedRpc(cfg, w, w', r, rpc.phase);
  }

  lemma {:induction false} CombineAllOpsKept(cfg: Config, b: Batch, ids: seq<OpId>, code: Code)
    requires ErrorsKept(cfg, b)
    ensures var c := CombineAllOps(b, cfg, ids, code); SameButErrors(b, c) && c.ops == b.ops && ErrorsKept(cfg, c)
  {
    if ids == [] {
    } else {
      CombineAllOpsKept(cfg, b, ids[..|ids|-1], code);
      ErrorKept(cfg, CombineAllOps(b, cfg, ids[..|ids|-1], code), ids[|ids|-1], code);
    }
  }

  lemma KeptByRpcDone(cfg: Config, w: World, r: nat, code: Code, rows: seq<RowError>)
    requires Inv(cfg, w) && Allowed(w, RpcDone(r, code, rows))
    ensures Step(cfg, w, RpcDone(r, code, rows)).Some? && Inv(cfg, Step(cfg, w, RpcDone(r, code, rows)).value)
  {
    LiveMeansOps(cfg, w, r);
    var ids := Ids(w.rpcs[r].call.ops);
    CombineAllOpsKept(cfg, w.batch, ids, code);
    KeptByReport(cfg, w, r, RpcStatus(w.batch, cfg, ids, code).value, rows);
  }

  lemma KeptByReportNextRow(cfg: Config, w: World, r: nat)
    requires Inv(cfg, w) && Allowed(w, ReportNextRow(r))
    ensures Step(cfg, w, ReportNextRow(r)).Some? && Inv(cfg, Step(cfg, w, ReportNextRow(r)).value)
  {
    var ids, rows := Ids(w.rpcs[r].call.ops), w.rpcs[r].phase.rows;
    if 0 <= rows[0].index < |ids| {
      ErrorKept(cfg, w.batch, ids[rows[0].index], rows[0].code);
    }
    KeptByReport(cfg, w, r, ReportRow(w.batch, cfg, ids, rows[0]), rows[1..]);
  }

  lemma OwnedRemove(w: World, w': World, r: nat)
    requires Owned(w) && r < |w.rpcs| && w.rpcs[r].phase != Retired
    requires multiset(Ids(w.rpcs[r].call.ops)) <= multiset(WithState(w.batch.ops, RequestSent))
    requires w'.batch == w.batch.(ops := w.batch.ops - Members(Ids(w.rpcs[r].call.ops)))
    requires w'.rpcs == w.rpcs[r := w.rpcs[r].(phase := Retired)] && w'.dispatches == w.dispatches
    requires w'.added == w.added && w'.retired == w.retired + Ids(w.rpcs[r].call.ops)
    ensures Owned(w')
    ensures WithState(w'.batch.ops, LookingUp) == WithState(w.batch.ops, LookingUp)
  {
    var ids := Ids(w.rpcs[r].call.ops);
    OpsErased(w.batch.ops, ids, RequestSent);
    LiveReplace(w.rpcs, r, w.rpcs[r].(phase := Retired));
    SubtractMultisets(LiveIds(w'.rpcs), LiveIds(w.rpcs), multiset(ids));
    assert multiset(w'.retired) == multiset(w.retired) + multiset(ids);
  }

  lemma KeptByRemove(cfg: Config, w: World, r: nat)
    requires r < |w.rpcs| && w.rpcs[r].phase == Reporting([]) && Inv(cfg, w)
    ensures RemoveStep(w, r).Some? && Inv(cfg, RemoveStep(w, r).value)
  {
    var ids := Ids(w.rpcs[r].call.ops);
    LiveMeansOps(cfg, w, r);
    PartOfSet(ids, WithState(w.batch.ops, RequestSent));
    EraseAllForm(w.batch, ids);
    var w' := RemoveStep(w, r).value;
    OwnedRemove(w, w', r);
    DispatchedRpc(cfg, w, w', r, Retired);
    NumberedKept(w.batch.ops, w'.batch.ops, w.lookedUp, w.batch.nextSeqno);
  }

  lemma {:induction false} MarkAllFailedErrors(cfg: Config, b: Batch, ids: seq<OpId>, code: Code)
    requires ErrorsKept(cfg, b)
    ensures MarkAllFailed(b, cfg, ids, code).Some? ==> ErrorsKept(cfg, MarkAllFailed(b, cfg, ids, code).value)
  {
    if ids == [] {
    } else {
      var r := MarkAllFailed(b, cfg, ids[..|ids|-1], code);
      MarkAllFailedErrors(cfg, b, ids[..|ids|-1], code);
      if r.Some? {
        ErrorKept(cfg, r.value.(ops := r.value.ops - {ids[|ids|-1]}), ids[|ids|-1], code);
      }
    }
  }

  lemma OwnedAbort(w: World, w': World, toAbort: seq<OpId>)
    requires Owned(w) && ListsBuffered(w, toAbort) && Pending(w) == []
    requires w'.batch.ops == w.batch.ops - Members(toAbort) && w'.batch.phase == Aborted
    requires w'.batch.outstandingLookups == w.batch.outstandingLookups
    requires w'.dispatches == w.dispatches && w'.rpcs == w.rpcs
    requires w'.added == w.added && w'.retired == w.retired + toAbort
    ensures Owned(w')
    ensures WithState(w'.batch.ops, LookingUp) == WithState(w.batch.ops, LookingUp)
  {
    OpsErased(w.batch.ops, toAbort, Buffered);
    assert multiset(w'.retired) == multiset(w.retired) + multiset(toAbort);
    EmptyAsMultiset(WithState(w'.batch.ops, Buffered));
  }

  /** What the region of Abort leaves behind. */
  lemma AbortRegion(cfg: Config, w: World, code: Code, toAbort: seq<OpId>)
    requires Owned(w) && ErrorsKept(cfg, w.batch) && ListsBuffered(w, toAbort)
    ensures var b := AbortBatch(w.batch, cfg, code, toAbort);
            && b.Some? && SameButErrors(w.batch.(phase := Aborted), b.value)
            && b.value.ops == w.batch.ops - Members(toAbort) && ErrorsKept(cfg, b.value)
  {
    var b := w.batch.(phase := Aborted);
    MultisetOfSet(toAbort, WithState(b.ops, Buffered));
    MarkAllFailedForm(b, cfg, toAbort, code);
    MarkAllFailedFrame(b, cfg, toAbort, code);
    MarkAllFailedErrors(cfg, b, toAbort, code);
  }

  lemma KeptByAbort(cfg: Config, w: World, code: Code, toAbort: seq<OpId>)
    requires Inv(cfg, w) && AbortSafe(w) && ListsBuffered(w, toAbort)
    ensures AbortStep(cfg, w, code, toAbort).Some? && Inv(cfg, AbortStep(cfg, w, code, toAbort).value)
  {
    AbortRegion(cfg, w, code, toAbort);
    var w' := AbortStep(cfg, w, code, toAbort).value;
    assert Pending(w) == [] by {
      assert w.dispatches != [] ==> w.dispatches[0] in w.dispatches;
    }
    OwnedAbort(w, w', toAbort);
    NumberedKept(w.batch.ops, w'.batch.ops, w.lookedUp, w.batch.nextSeqno);
  }

  lemma KeptByCallback(cfg: Config, w: World, i: nat)
    requires Inv(cfg, w) && i < |w.notices|
    ensures CallbackStep(w, i).Some? && Inv(cfg, CallbackStep(w, i).value)
  {
    assert i == 0 && |w.notices| == 1;
    var w' := CallbackStep(w, i).value;
    assert w'.notices == [] && w.callbacks == [];
  }

  /** No allowed step fails a CHECK or calls an empty callback, and every one keeps the invariant. */
  lemma StepKeeps(cfg: Config, w: World, e: Event)
    requires Inv(cfg, w) && Allowed(w, e)
    ensures Step(cfg, w, e).Some? && Inv(cfg, Step(cfg, w, e).value)
  {
    match e
    case Add(id, info) => KeptByAdd(cfg, w, id, info);
    case Flush => KeptByFlush(cfg, w);
    case LookupDone(id, result) =>
      if w.batch.phase == Aborted || result.NotFound? {
        KeptByLookupFailed(cfg, w, id, result);
      } else {
        KeptByLookupFound(cfg, w, id, result);
      }
    case Check => KeptByCheck(cfg, w);
    case FlushBuffers(prepared) => KeptByFlushBuffers(cfg, w, prepared);
    case TransactionReady(code, toAbort) => KeptByTransaction(cfg, w, code, toAbort);
    case Send(t) => KeptBySend(cfg, w, t);
    case Retry(r) =>
    case RpcDone(r, code, rows) => KeptByRpcDone(cfg, w, r, code, rows);
    case ReportNextRow(r) => KeptByReportNextRow(cfg, w, r);
    case Remove(r) => KeptByRemove(cfg, w, r);
    case Abort(code, toAbort) => KeptByAbort(cfg, w, code, toAbort);
    case RunCallback(i) => KeptByCallback(cfg, w, i);
  }

  lemma KeptByTransaction(cfg: Config, w: World, code: Code, toAbort: seq<OpId>)
    requires Inv(cfg, w) && Allowed(w, TransactionReady(code, toAbort))
    ensures Step(cfg, w, TransactionReady(code, toAbort)).Some?
    ensures Inv(cfg, Step(cfg, w, TransactionReady(code, toAbort)).value)
  {
    if code != Ok {
      // The waiter only matters to a flushing batcher, and this one becomes aborted.
      AbortRegion(cfg, w, code, toAbort);
      KeptByAbort(cfg, w, code, toAbort);
    }
  }

  // ------------------------------------------------------------ whole runs

  ghost predicate Legal(cfg: Config, w: World, es: seq<Event>)
    decreases |es|
  {
    es == [] || (Allowed(w, es[0]) && (Step(cfg, w, es[0]).Some? ==> Legal(cfg, Step(cfg, w, es[0]).value, es[1..])))
  }

  ghost function Exec(cfg: Config, w: World, es: seq<Event>): Option<World>
    requires Legal(cfg, w, es)
    decreases |es|
  {
    if es == [] then Some(w)
    else if Step(cfg, w, es[0]).None? then None
    else Exec(cfg, Step(cfg, w, es[0]).value, es[1..])
  }

  lemma RunCons(cfg: Config, w: World, e: Event, es: seq<Event>)
    requires Allowed(w, e) && Step(cfg, w, e).Some? && Legal(cfg, Step(cfg, w, e).value, es)
    ensures Legal(cfg, w, [e] + es) && Exec(cfg, w, [e] + es) == Exec(cfg, Step(cfg, w, e).value, es)
  {
    assert ([e] + es)[1..] == es;
  }

  lemma {:induction false} RunKeeps(cfg: Config, w: World, es: seq<Event>)
    requires Inv(cfg, w) && Legal(cfg, w, es)
    ensures Exec(cfg, w, es).Some? && Inv(cfg, Exec(cfg, w, es).value)
    decreases |es|
  {
    if es == [] {
    } else {
      StepKeeps(cfg, w, es[0]);
      RunKeeps(cfg, Step(cfg, w, es[0]).value, es[1..]);
    }
  }

  lemma StartInv(cfg: Config)
    ensures Inv(cfg, START)
  {
    assert WithState(START.batch.ops, LookingUp) == {};
    assert WithState(START.batch.ops, Buffered) == {} && Ids(START.batch.queue) == [];
    assert WithState(START.batch.ops, RequestSent) == {} && LiveEach(START.rpcs) == [];
    assert START.batch.ops.Keys == {};
  }

  /** Every run of a batcher, from its construction on, passes all CHECKs and ends in a good state. */
  lemma RunsAreSafe(cfg: Config, es: seq<Event>)
    requires Legal(cfg, START, es)
    ensures Exec(cfg, START, es).Some? && Inv(cfg, Exec(cfg, START, es).value)
  {
    StartInv(cfg);
    RunKeeps(cfg, START, es);
  }

  /**
   The flush callback runs once at most.  When it ran and nothing aborted the batch, no operation is
   pending.  Its status is then OK exactly when no error was ever reported, the combined code if errors
   are combined and that is not OK, and IOError otherwise.
   */
  lemma CallbackOnce(cfg: Config, es: seq<Event>)
    requires Legal(cfg, START, es)
    ensures var w := Exec(cfg, START, es);
            && w.Some?
            && |w.value.callbacks| <= 1
            && (w.value.callbacks != [] && w.value.batch.phase != Aborted ==>
                  var b, code := w.value.batch, w.value.callbacks[0];
                  var cs := Codes(b.errors);
                  var s := Summary(cs[LeadingOks(cs)..]);
                  && b.ops.Keys == {}
                  && code == StatusOf(cfg.combineErrors, cs)
                  && code == (if cfg.combineErrors && s != Ok then s else if b.errors != [] then IOError else Ok)
                  && (code == Ok <==> b.errors == [])
                  && (code == IOError <==> b.errors != [] && (!cfg.combineErrors || s == Ok || s == IOError)))
  {
    RunsAreSafe(cfg, es);
    var b := Exec(cfg, START, es).value.batch;
    StatusForm(cfg.combineErrors, Codes(b.errors));
  }

  /** A run that fails an operation with the code `c` and runs the callback. */
  function FailedLookupRun(id: OpId, info: OpInfo, c: Code): seq<Event> {
    [Add(id, info), Flush, LookupDone(id, NotFound(c)), Check, RunCallback(0)]
  }

  lemma FinishesWith(cfg: Config, w: World)
    requires w.batch.phase == Flushing && w.batch.ops.Keys == {} && w.batch.callbackSet
    requires w.checks > 0 && w.notices == [] && w.callbacks == []
    ensures var es := [Check, RunCallback(0)];
            && Legal(cfg, w, es)
            && Exec(cfg, w, es).Some?
            && Exec(cfg, w, es).value.batch.phase == Flushed
            && Exec(cfg, w, es).value.callbacks == [FlushStatus(w.batch)]
  {
    var w1 := CheckStep(w);
    var w2 := CallbackStep(w1, 0).value;
    assert w1.notices == [FlushNotice] && w2.callbacks == [FlushStatus(w.batch)];
    assert Legal(cfg, w2, []) && Exec(cfg, w2, []) == Some(w2);
    RunCons(cfg, w1, RunCallback(0), []);
    RunCons(cfg, w, Check, [RunCallback(0)]);
  }

  /** With combined errors the promised IOError is not what a failed operation always gives. */
  lemma DeliversOther(cfg: Config, id: OpId, info: OpInfo, c: Code)
    requires cfg.combineErrors && c != Ok
    ensures var es := FailedLookupRun(id, info, c);
            && Legal(cfg, START, es)
            && Exec(cfg, START, es).Some?
            && Exec(cfg, START, es).value.batch.phase == Flushed
            && Exec(cfg, START, es).value.callbacks == [c]
  {
    var w1 := Step(cfg, START, Add(id, info)).value;
    var w2 := Step(cfg, w1, Flush).value;
    var w3 := Step(cfg, w2, LookupDone(id, NotFound(c))).value;
    assert w3.batch.ops.Keys == {} && w3.batch.combinedError == c;
    FinishesWith(cfg, w3);
    RunCons(cfg, w2, LookupDone(id, NotFound(c)), [Check, RunCallback(0)]);
    RunCons(cfg, w1, Flush, [LookupDone(id, NotFound(c)), Check, RunCallback(0)]);
    RunCons(cfg, START, Add(id, info), [Flush, LookupDone(id, NotFound(c)), Check, RunCallback(0)]);
  }

  /** Each operation ever added is still in flight or has left the in-flight set exactly once. */
  lemma EachOpLeavesOnce(cfg: Config, es: seq<Event>, id: OpId)
    requires Legal(cfg, START, es)
    ensures var w := Exec(cfg, START, es);
            w.Some? && multiset(w.value.retired)[id] == if id in w.value.added && id !in w.value.batch.ops then 1 else 0
  {
    RunsAreSafe(cfg, es);
    var w := Exec(cfg, START, es).value;
    assert multiset(w.added)[id] == multiset(w.batch.ops.Keys)[id] + multiset(w.retired)[id];
  }

  lemma CallIdsConcat(s: seq<FlushCall>, t: seq<FlushCall>)
    ensures CallIds(s + t) == CallIds(s) + CallIds(t)
  {
    assert CallEach(s + t) == CallEach(s) + CallEach(t);
    SumConcat(CallEach(s), CallEach(t));
  }

  /**
   A run dispatches at most once.  Once it has, no lookup is outstanding, and the RPCs sent and
   still to be sent are the plan of the operations whose lookup succeeded, each in one RPC.
   */
  lemma DispatchIsComplete(cfg: Config, es: seq<Event>)
    requires Legal(cfg, START, es)
    ensures var w := Exec(cfg, START, es);
            && w.Some? && |w.value.dispatches| <= 1
            && (w.value.rpcs != [] ==> w.value.dispatches != [])
            && (w.value.dispatches != [] ==>
                  && WithState(w.value.batch.ops, LookingUp) == {}
                  && SentCalls(w.value.rpcs) + Pending(w.value) == Plan(cfg, w.value.lookedUp)
                  && UniformFlags(cfg, SentCalls(w.value.rpcs) + Pending(w.value))
                  && CallIds(SentCalls(w.value.rpcs)) + CallIds(Pending(w.value)) == multiset(Ids(w.value.lookedUp)))
  {
    RunsAreSafe(cfg, es);
    var w := Exec(cfg, START, es).value;
    if w.dispatches != [] {
      PlanIds(cfg, w.lookedUp);
      PlanFlags(cfg, w.lookedUp);
      CallIdsConcat(SentCalls(w.rpcs), Pending(w));
    }
  }

  /** Two runs whose lookups found the same operations send the same RPCs, whatever the order of the lookups. */
  lemma SameOpsSameRpcs(cfg: Config, es: seq<Event>, fs: seq<Event>)
    requires Legal(cfg, START, es) && Legal(cfg, START, fs)
    ensures var v, w := Exec(cfg, START, es), Exec(cfg, START, fs);
            v.Some? && w.Some? && (
            v.value.dispatches != [] && w.value.dispatches != []
            && multiset(v.value.lookedUp) == multiset(w.value.lookedUp) ==>
              SentCalls(v.value.rpcs) + Pending(v.value) == SentCalls(w.value.rpcs) + Pending(w.value))
  {
    RunsAreSafe(cfg, es);
    RunsAreSafe(cfg, fs);
    var v, w := Exec(cfg, START, es).value, Exec(cfg, START, fs).value;
    if multiset(v.lookedUp) == multiset(w.lookedUp) {
      PlanOfSet(cfg, v.lookedUp, w.lookedUp);
    }
  }

  // ------------------------------------------------------------ after Abort

  /** The only thing an aborted batcher may still do to the outside: run the callback it announced. */
  ghost predicate Announced(w: World, w': World) {
    || (w'.notices == w.notices && w'.callbacks == w.callbacks)
    || (|w.notices| == 1 && w.notices[0].AbortNotice?
        && w'.notices == [] && w'.callbacks == w.callbacks + [w.notices[0].code])
  }

  lemma {:induction false} EraseAllPhase(b: Batch, ids: seq<OpId>)
    ensures EraseAll(b, ids).Some? ==> EraseAll(b, ids).value.phase == b.phase
  {
    if ids == [] {
    } else {
      EraseAllPhase(b, ids[..|ids|-1]);
    }
  }

  lemma AbortedAgain(cfg: Config, w: World, code: Code, toAbort: seq<OpId>)
    requires AbortSafe(w) && (w.batch.callbackSet ==> w.notices != []) && AbortStep(cfg, w, code, toAbort).Some?
    ensures var w' := AbortStep(cfg, w, code, toAbort).value;
            w'.batch.phase == Aborted && w'.rpcs == w.rpcs && w'.notices == w.notices && w'.callbacks == w.callbacks
  {
    MarkAllFailedFrame(w.batch.(phase := Aborted), cfg, toAbort, code);
  }

  lemma AbortedStep(cfg: Config, w: World, e: Event)
    requires Allowed(w, e) && w.batch.phase == Aborted && CallbackKept(w) && Pending(w) == [] && |w.dispatches| <= 1
    requires Step(cfg, w, e).Some?
    ensures var w' := Step(cfg, w, e).value;
            w'.batch.phase == Aborted && SentCalls(w'.rpcs) == SentCalls(w.rpcs) && Announced(w, w')
  {
    var w' := Step(cfg, w, e).value;
    forall r: nat | r < |w.rpcs| ensures w.rpcs[r].phase != InFlight {
      assert w.rpcs[r] in w.rpcs;
    }
    if e.ReportNextRow? {
      assert SentCalls(w'.rpcs) == SentCalls(w.rpcs);
    } else if e.Remove? {
      assert SentCalls(w'.rpcs) == SentCalls(w.rpcs);
      EraseAllPhase(w.batch, Ids(w.rpcs[e.rpc].call.ops));
    } else if e.TransactionReady? && e.code != Ok {
      AbortedAgain(cfg, w.(waiters := w.waiters - 1), e.code, e.toAbort);
    } else if e.Abort? {
      AbortedAgain(cfg, w, e.code, e.toAbort);
    } else if e.RunCallback? {
      assert w'.notices == [];
    }
  }

  /** Once aborted, a batcher stays aborted, sends nothing more, and runs at most the callback it announced. */
  lemma {:induction false} AbortIsFinal(cfg: Config, w: World, es: seq<Event>)
    requires Inv(cfg, w) && Legal(cfg, w, es) && w.batch.phase == Aborted
    ensures var w' := Exec(cfg, w, es);
            w'.Some? && w'.value.batch.phase == Aborted
            && SentCalls(w'.value.rpcs) == SentCalls(w.rpcs) && Announced(w, w'.value)
    decreases |es|
  {
    if es == [] {
    } else {
      StepKeeps(cfg, w, es[0]);
      AbortedStep(cfg, w, es[0]);
      AbortIsFinal(cfg, Step(cfg, w, es[0]).value, es[1..]);
    }
  }

  /** Aborting a pending flush delivers the abort status, once, and no operation that was unsent is ever sent. */
  lemma AbortNotifiesOnce(cfg: Config, w: World, code: Code, toAbort: seq<OpId>, es: seq<Event>)
    requires Inv(cfg, w) && w.batch.phase == Flushing && Allowed(w, Abort(code, toAbort))
    requires Step(cfg, w, Abort(code, toAbort)).Some?
    requires Legal(cfg, Step(cfg, w, Abort(code, toAbort)).value, es)
    ensures var w' := Exec(cfg, Step(cfg, w, Abort(code, toAbort)).value, es);
            && w'.Some? && w'.value.batch.phase == Aborted
            && SentCalls(w'.value.rpcs) == SentCalls(w.rpcs)
            && ((w'.value.notices == [AbortNotice(code)] && w'.value.callbacks == [])
                || (w'.value.notices == [] && w'.value.callbacks == [code]))
  {
    StepKeeps(cfg, w, Abort(code, toAbort));
    MarkAllFailedFrame(w.batch.(phase := Aborted), cfg, toAbort, code);
    AbortIsFinal(cfg, Step(cfg, w, Abort(code, toAbort)).value, es);
  }
}
