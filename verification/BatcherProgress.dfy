/**
 Two facts about whole runs of a client batcher that go beyond what every step keeps:
 the guard on Abort is exactly the one its CHECKs need, and a batcher that is asked to
 flush always comes to rest with nothing in flight.
 */
module BatcherProgress {
  import opened SeqMultisets
  import opened FlushPlan
  import opened BatcherState
  import opened BatcherRuns
  import opened Options

  // --------------------------------------------------------- the Abort guard

  lemma RunFails(cfg: Config, w: World, e: Event)
    requires Allowed(w, e) && Step(cfg, w, e).None?
    ensures Legal(cfg, w, [e]) && Exec(cfg, w, [e]).None?
  {
  }

  lemma FailsOnDispatch(cfg: Config, w: World, t: nat) returns (es: seq<Event>)
    requires w.batch.phase == Aborted && t < |w.dispatches| && w.dispatches[t] != []
    ensures Legal(cfg, w, es) && Exec(cfg, w, es).None?
  {
    var done := RpcDone(|w.rpcs|, Ok, []);
    var w' := SendStep(w, t);
    assert w'.rpcs[|w.rpcs|].phase == InFlight;
    RunFails(cfg, w', done);
    RunCons(cfg, w, Send(t), [done]);
    es := [Send(t)] + [done];
  }

  lemma FailsOnSecondNotice(cfg: Config, w: World) returns (es: seq<Event>)
    requires w.batch.callbackSet && |w.notices| == 2
    ensures Legal(cfg, w, es) && Exec(cfg, w, es).None?
  {
    var w' := CallbackStep(w, 0).value;
    RunFails(cfg, w', RunCallback(0));
    RunCons(cfg, w, RunCallback(0), [RunCallback(0)]);
    es := [RunCallback(0)] + [RunCallback(0)];
  }

  lemma FailsOnRpc(cfg: Config, w: World, r: nat) returns (es: seq<Event>)
    requires w.batch.phase == Aborted && r < |w.rpcs| && w.rpcs[r].phase == InFlight
    ensures Legal(cfg, w, es) && Exec(cfg, w, es).None?
  {
    RunFails(cfg, w, RpcDone(r, Ok, []));
    es := [RpcDone(r, Ok, [])];
  }

  /** Why the guard does not hold, and what Abort leaves of it. */
  ghost predicate Exposed(w: World) {
    || (exists r :: 0 <= r < |w.rpcs| && w.rpcs[r].phase == InFlight)
    || (exists t :: 0 <= t < |w.dispatches| && w.dispatches[t] != [])
    || (w.batch.callbackSet && |w.notices| == 2)
  }

  lemma ExposedFails(cfg: Config, w: World) returns (es: seq<Event>)
    requires w.batch.phase == Aborted && Exposed(w)
    ensures Legal(cfg, w, es) && Exec(cfg, w, es).None?
  {
    if r :| 0 <= r < |w.rpcs| && w.rpcs[r].phase == InFlight {
      es := FailsOnRpc(cfg, w, r);
    } else if t :| 0 <= t < |w.dispatches| && w.dispatches[t] != [] {
      es := FailsOnDispatch(cfg, w, t);
    } else {
      es := FailsOnSecondNotice(cfg, w);
    }
  }

  lemma UnguardedIsExposed(w: World, w': World)
    requires CallbackKept(w) && !AbortSafe(w)
    requires w'.rpcs == w.rpcs && w'.dispatches == w.dispatches && w'.batch.callbackSet == w.batch.callbackSet
    requires w.batch.callbackSet ==> |w'.notices| == |w.notices| + 1
    ensures Exposed(w')
  {
    if r :| 0 <= r < |w.rpcs| && w.rpcs[r].phase == InFlight {
      assert w'.rpcs[r].phase == InFlight;
    } else if t :| 0 <= t < |w.dispatches| && w.dispatches[t] != [] {
      assert w'.dispatches[t] != [];
    }
  }

  /** Without the guard, some continuation of the run fails a CHECK or calls an empty callback. */
  lemma UnguardedAbortFails(cfg: Config, w: World, code: Code, toAbort: seq<OpId>) returns (es: seq<Event>)
    requires Inv(cfg, w) && ListsBuffered(w, toAbort) && !AbortSafe(w)
    ensures AbortStep(cfg, w, code, toAbort).Some?
    ensures Legal(cfg, AbortStep(cfg, w, code, toAbort).value, es)
    ensures Exec(cfg, AbortStep(cfg, w, code, toAbort).value, es).None?
  {
    AbortRegion(cfg, w, code, toAbort);
    var w' := AbortStep(cfg, w, code, toAbort).value;
    UnguardedIsExposed(w, w');
    es := ExposedFails(cfg, w');
  }

  /** The guard is exact: an Abort leaves every later run free of failures if and only if it holds. */
  lemma AbortGuardIsExact(cfg: Config, w: World, code: Code, toAbort: seq<OpId>)
    requires Inv(cfg, w) && ListsBuffered(w, toAbort)
    ensures AbortStep(cfg, w, code, toAbort).Some?
    ensures AbortSafe(w) <==>
            forall es | Legal(cfg, AbortStep(cfg, w, code, toAbort).value, es) ::
              Exec(cfg, AbortStep(cfg, w, code, toAbort).value, es).Some?
  {
    if AbortSafe(w) {
      KeptByAbort(cfg, w, code, toAbort);
      var w' := AbortStep(cfg, w, code, toAbort).value;
      forall es | Legal(cfg, w', es) ensures Exec(cfg, w', es).Some? {
        RunKeeps(cfg, w', es);
      }
    } else {
      var es := UnguardedAbortFails(cfg, w, code, toAbort);
    }
  }

  /** The shortest run that has a request out: one operation is added, flushed, found and sent. */
  function SendingRun(id: OpId, info: OpInfo, tablet: nat): seq<Event> {
    [Add(id, info), Flush, LookupDone(id, Found(Some(tablet))), FlushBuffers(true), Send(0)]
  }

  /** One operation is in flight, and the queue holds it. */
  ghost predicate OneBuffered(w: World, op: Op) {
    && w.batch.phase == Flushing && w.batch.outstandingLookups == 0 && w.batch.queue == [op]
    && w.batch.ops.Keys == {op.id} && w.flushes > 0 && w.dispatches == [] && w.rpcs == []
  }

  lemma RunCons3(cfg: Config, w: World, e: Event, f: Event, g: Event, w': World, es: seq<Event>)
    requires Allowed(w, e) && Step(cfg, w, e).Some?
    requires var w1 := Step(cfg, w, e).value;
             && Allowed(w1, f) && Step(cfg, w1, f).Some?
             && var w2 := Step(cfg, w1, f).value; Allowed(w2, g) && Step(cfg, w2, g) == Some(w')
    requires Legal(cfg, w', es)
    ensures Legal(cfg, w, [e, f, g] + es) && Exec(cfg, w, [e, f, g] + es) == Exec(cfg, w', es)
  {
    var w1 := Step(cfg, w, e).value;
    var w2 := Step(cfg, w1, f).value;
    RunCons(cfg, w2, g, es);
    RunCons(cfg, w1, f, [g] + es);
    RunCons(cfg, w, e, [f] + ([g] + es));
    assert [e] + ([f] + ([g] + es)) == [e, f, g] + es;
  }

  lemma OneIsFound(cfg: Config, id: OpId, info: OpInfo, tablet: nat, es: seq<Event>) returns (w: World, op: Op)
    ensures OneBuffered(w, op)
    ensures var run := [Add(id, info), Flush, LookupDone(id, Found(Some(tablet)))];
            && Legal(cfg, START, run) && Exec(cfg, START, run) == Some(w)
            && (Legal(cfg, w, es) ==> Legal(cfg, START, run + es) && Exec(cfg, START, run + es) == Exec(cfg, w, es))
  {
    var found := LookupDone(id, Found(Some(tablet)));
    var w1 := Step(cfg, START, Add(id, info)).value;
    var w2 := Step(cfg, w1, Flush).value;
    w, op := LookupStep(cfg, w2, id, found.result).value, LookedUp(id, w2.batch.ops[id], tablet);
    assert w.batch.queue == [op] && w.batch.ops.Keys == {id};
    RunCons3(cfg, START, Add(id, info), Flush, found, w, []);
    assert [Add(id, info), Flush, found] + [] == [Add(id, info), Flush, found];
    if Legal(cfg, w, es) {
      RunCons3(cfg, START, Add(id, info), Flush, found, w, es);
    }
  }

  lemma OneIsSent(cfg: Config, w: World, op: Op) returns (w': World)
    requires Inv(cfg, w) && OneBuffered(w, op)
    ensures var es := [FlushBuffers(true), Send(0)]; Legal(cfg, w, es) && Exec(cfg, w, es) == Some(w')
    ensures Inv(cfg, w') && |w'.rpcs| == 1 && w'.rpcs[0].phase == InFlight && ListsBuffered(w', [])
  {
    var w1 := FlushStep(cfg, w, true);
    PlanOfOne(cfg, op);
    w' := SendStep(w1, 0);
    RunCons(cfg, w1, Send(0), []);
    RunCons(cfg, w, FlushBuffers(true), [Send(0)]);
    RunKeeps(cfg, w, [FlushBuffers(true), Send(0)]);
    OnlyOneSent(cfg, w', op.id);
  }

  lemma PlanOfOne(cfg: Config, op: Op)
    ensures Plan(cfg, [op]) != []
  {
    PlanIds(cfg, [op]);
    assert Ids([op]) == [op.id] && CallEach([]) == [];
  }

  lemma OnlyOneSent(cfg: Config, w: World, id: OpId)
    requires Inv(cfg, w) && w.batch.ops.Keys == {id} && |w.rpcs| == 1 && w.rpcs[0].phase == InFlight
    ensures ListsBuffered(w, [])
  {
    LiveMeansOps(cfg, w, 0);
    assert w.rpcs[0] in w.rpcs;
    var x := Ids(w.rpcs[0].call.ops)[0];
    assert x in multiset(Ids(w.rpcs[0].call.ops));
    assert x in multiset(WithState(w.batch.ops, RequestSent)) && x in w.batch.ops.Keys;
    assert WithState(w.batch.ops, Buffered) == {};
  }

  /**
   Such a state is reached: in every configuration this run ends with a request out and the guard broken,
   and after an Abort the end of that RPC fails the CHECK.
   */
  lemma AbortWhileSent(cfg: Config, id: OpId, info: OpInfo, tablet: nat, code: Code, answer: Code, rows: seq<RowError>)
    ensures var es := SendingRun(id, info, tablet);
            && Legal(cfg, START, es)
            && Exec(cfg, START, es).Some?
            && var w := Exec(cfg, START, es).value;
               && |w.rpcs| == 1 && w.rpcs[0].phase == InFlight && !AbortSafe(w)
               && ListsBuffered(w, [])
               && var w' := AbortStep(cfg, w, code, []);
                  && w'.Some? && Allowed(w'.value, RpcDone(0, answer, rows))
                  && Step(cfg, w'.value, RpcDone(0, answer, rows)).None?
  {
    var tail := [FlushBuffers(true), Send(0)];
    var w, op := OneIsFound(cfg, id, info, tablet, tail);
    RunsAreSafe(cfg, [Add(id, info), Flush, LookupDone(id, Found(Some(tablet)))]);
    var w' := OneIsSent(cfg, w, op);
    assert [Add(id, info), Flush, LookupDone(id, Found(Some(tablet)))] + tail == SendingRun(id, info, tablet);
    assert w'.rpcs[0] in w'.rpcs;
  }

  // ---------------------------------------------------------------- progress

  function RpcWeight(p: RpcPhase): nat {
    match p
    case InFlight => 4
    case Reporting(_) => 3
    case Retired => 0
  }

  function RpcWeights(rpcs: seq<Rpc>): nat {
    if rpcs == [] then 0 else RpcWeights(rpcs[..|rpcs|-1]) + RpcWeight(rpcs[|rpcs|-1].phase)
  }

  function RowsOf(p: RpcPhase): nat {
    if p.Reporting? then |p.rows| else 0
  }

  function RowsLeft(rpcs: seq<Rpc>): nat {
    if rpcs == [] then 0 else RowsLeft(rpcs[..|rpcs|-1]) + RowsOf(rpcs[|rpcs|-1].phase)
  }

  /** The work that lies ahead: lookups, buffered operations, RPCs, and calls that threads still have to make. */
  function Weight(w: World): nat {
    7 * |WithState(w.batch.ops, LookingUp)| + 5 * |WithState(w.batch.ops, Buffered)| + RpcWeights(w.rpcs)
    + 2 * w.checks + w.flushes + 2 * w.waiters + |w.notices|
  }

  /** An answer that was awaited, or a thread that gets on; not a retry, and not being told to wait. */
  ghost predicate Completion(cfg: Config, w: World, e: Event) {
    match e
    case LookupDone(_, _) => true
    case Check => true
    case FlushBuffers(prepared) => Ready(w.batch, cfg, prepared) != WaitForTransaction
    case TransactionReady(_, _) => true
    case Send(_) => true
    case RpcDone(_, _, _) => true
    case ReportNextRow(_) => true
    case Remove(_) => true
    case RunCallback(_) => true
    case _ => false
  }

  ghost predicate LessWork(w: World, w': World) {
    Weight(w') < Weight(w) || (Weight(w') == Weight(w) && RowsLeft(w'.rpcs) < RowsLeft(w.rpcs))
  }

  lemma {:induction false} WeightsReplace(rpcs: seq<Rpc>, r: nat, x: Rpc)
    requires r < |rpcs|
    ensures RpcWeights(rpcs[r := x]) + RpcWeight(rpcs[r].phase) == RpcWeights(rpcs) + RpcWeight(x.phase)
    ensures RowsLeft(rpcs[r := x]) + RowsOf(rpcs[r].phase) == RowsLeft(rpcs) + RowsOf(x.phase)
  {
    var init, upd := rpcs[..|rpcs|-1], rpcs[r := x];
    if r < |init| {
      WeightsReplace(init, r, x);
      assert upd[..|upd|-1] == init[r := x];
    } else {
      assert upd[..|upd|-1] == init;
    }
  }

  lemma WeightsSnoc(rpcs: seq<Rpc>, x: Rpc)
    ensures RpcWeights(rpcs + [x]) == RpcWeights(rpcs) + RpcWeight(x.phase)
  {
    assert (rpcs + [x])[..|rpcs|] == rpcs;
  }

  lemma LookupIsProgress(cfg: Config, w: World, id: OpId, result: LookupResult)
    requires Inv(cfg, w) && Allowed(w, LookupDone(id, result))
    ensures LookupStep(cfg, w, id, result).Some? && LessWork(w, LookupStep(cfg, w, id, result).value)
  {
    LookupLeaves(cfg, w, id, result);
    LookupLightens(w, LookupStep(cfg, w, id, result).value, id);
  }

  /** What a finished lookup does to the operations and to the calls that threads have to make. */
  lemma LookupLeaves(cfg: Config, w: World, id: OpId, result: LookupResult)
    requires Allowed(w, LookupDone(id, result))
    ensures LookupStep(cfg, w, id, result).Some?
    ensures LookupLeft(w, LookupStep(cfg, w, id, result).value, id)
  {
  }

  ghost predicate LookupLeft(w: World, w': World, id: OpId) {
    && id in w.batch.ops
    && (w'.batch.ops == w.batch.ops - {id} || w'.batch.ops == w.batch.ops[id := w.batch.ops[id].(state := Buffered)])
    && w'.checks <= w.checks + 1 && w'.flushes <= w.flushes + 1 && w'.waiters == w.waiters && w'.rpcs == w.rpcs
    && w'.notices == w.notices && (w'.batch.ops != w.batch.ops - {id} ==> w'.checks == w.checks)
  }

  lemma LookupLightens(w: World, w': World, id: OpId)
    requires LookupLeft(w, w', id) && w.batch.ops[id].state == LookingUp
    ensures LessWork(w, w')
  {
    var ops := w.batch.ops;
    assert id in WithState(ops, LookingUp);
    if w'.batch.ops == ops - {id} {
      LookupErased(ops, id);
    } else {
      OpsBuffered(ops, id);
      assert WithState(w'.batch.ops, Buffered) == WithState(ops, Buffered) + {id};
    }
  }

  lemma SendIsProgress(cfg: Config, w: World, t: nat)
    requires t < |w.dispatches| && w.dispatches[t] != [] && Inv(cfg, w)
    ensures LessWork(w, SendStep(w, t))
  {
    SendShape(cfg, w, t);
    SendingIsFlushing(cfg, w);
    var call, rest := w.dispatches[0][0], w.dispatches[0][1..];
    assert call in Pending(w);
    CallIdsCons(call, rest);
    SendLightens(w, SendStep(w, t), call);
  }

  lemma SendLightens(w: World, w': World, call: FlushCall)
    requires multiset(Ids(call.ops)) <= multiset(WithState(w.batch.ops, Buffered)) && call.ops != []
    requires w'.batch == SendOps(w.batch, Ids(call.ops)) && w'.rpcs == w.rpcs + [Rpc(call, InFlight)]
    requires w'.checks == w.checks && w'.flushes == w.flushes && w'.waiters == w.waiters && w'.notices == w.notices
    ensures LessWork(w, w')
  {
    var ids := Ids(call.ops);
    OpsSent(w.batch, ids);
    WeightsSnoc(w.rpcs, Rpc(call, InFlight));
    FewerInSet(WithState(w.batch.ops, Buffered), WithState(SendOps(w.batch, ids).ops, Buffered), ids);
  }

  lemma FewerInSet(s: set<OpId>, s': set<OpId>, ids: seq<OpId>)
    requires multiset(ids) <= multiset(s) && multiset(s') == multiset(s) - multiset(ids)
    ensures |s'| == |s| - |ids|
  {
    assert multiset(s) == multiset(s') + multiset(ids);
    assert |multiset(s)| == |multiset(s')| + |multiset(ids)|;
    SizeAsMultiset(s);
    SizeAsMultiset(s');
  }

  lemma RpcDoneIsProgress(cfg: Config, w: World, r: nat, code: Code, rows: seq<RowError>)
    requires Inv(cfg, w) && Allowed(w, RpcDone(r, code, rows))
    ensures var w' := Step(cfg, w, RpcDone(r, code, rows)); w'.Some? && LessWork(w, w'.value)
  {
    LiveMeansOps(cfg, w, r);
    CombineAllOpsKept(cfg, w.batch, Ids(w.rpcs[r].call.ops), code);
    WeightsReplace(w.rpcs, r, w.rpcs[r].(phase := Reporting(rows)));
  }

  lemma RowIsProgress(cfg: Config, w: World, r: nat)
    requires Allowed(w, ReportNextRow(r))
    ensures var w' := Step(cfg, w, ReportNextRow(r)); w'.Some? && LessWork(w, w'.value)
  {
    WeightsReplace(w.rpcs, r, w.rpcs[r].(phase := Reporting(w.rpcs[r].phase.rows[1..])));
  }

  lemma RemoveIsProgress(cfg: Config, w: World, r: nat)
    requires r < |w.rpcs| && w.rpcs[r].phase == Reporting([]) && Inv(cfg, w)
    ensures RemoveStep(w, r).Some? && LessWork(w, RemoveStep(w, r).value)
  {
    var ids := Ids(w.rpcs[r].call.ops);
    LiveMeansOps(cfg, w, r);
    PartOfSet(ids, WithState(w.batch.ops, RequestSent));
    EraseAllForm(w.batch, ids);
    OpsErased(w.batch.ops, ids, RequestSent);
    WeightsReplace(w.rpcs, r, w.rpcs[r].(phase := Retired));
  }

  lemma TransactionIsProgress(cfg: Config, w: World, code: Code, toAbort: seq<OpId>)
    requires Inv(cfg, w) && Allowed(w, TransactionReady(code, toAbort))
    ensures Step(cfg, w, TransactionReady(code, toAbort)).Some?
    ensures LessWork(w, Step(cfg, w, TransactionReady(code, toAbort)).value)
  {
    if code != Ok {
      AbortRegion(cfg, w, code, toAbort);
      AbortLightens(w, Step(cfg, w, TransactionReady(code, toAbort)).value, toAbort);
    }
  }

  lemma AbortLightens(w: World, w': World, toAbort: seq<OpId>)
    requires ListsBuffered(w, toAbort) && w'.batch.ops == w.batch.ops - Members(toAbort) && w'.rpcs == w.rpcs
    requires w'.checks == w.checks && w'.flushes == w.flushes && w'.waiters < w.waiters
    requires |w'.notices| <= |w.notices| + 1
    ensures LessWork(w, w')
  {
    OpsErased(w.batch.ops, toAbort, Buffered);
    FewerInSet(WithState(w.batch.ops, Buffered), WithState(w'.batch.ops, Buffered), toAbort);
  }

  lemma CheckIsProgress(w: World)
    requires w.checks > 0
    ensures LessWork(w, CheckStep(w))
  {
  }

  lemma FlushIsProgress(cfg: Config, w: World, prepared: bool)
    requires w.flushes > 0 && Ready(w.batch, cfg, prepared) != WaitForTransaction
    ensures LessWork(w, FlushStep(cfg, w, prepared))
  {
  }

  /** Every completion leaves less work, so a run makes only finitely many between retries. */
  lemma CompletionIsProgress(cfg: Config, w: World, e: Event)
    requires Inv(cfg, w) && Allowed(w, e) && Completion(cfg, w, e)
    ensures Step(cfg, w, e).Some? && LessWork(w, Step(cfg, w, e).value)
  {
    match e
    case LookupDone(id, result) => LookupIsProgress(cfg, w, id, result);
    case Check => CheckIsProgress(w);
    case FlushBuffers(prepared) => FlushIsProgress(cfg, w, prepared);
    case TransactionReady(code, toAbort) => TransactionIsProgress(cfg, w, code, toAbort);
    case Send(t) => SendIsProgress(cfg, w, t);
    case RpcDone(r, code, rows) => RpcDoneIsProgress(cfg, w, r, code, rows);
    case ReportNextRow(r) => RowIsProgress(cfg, w, r);
    case Remove(r) => RemoveIsProgress(cfg, w, r);
    case RunCallback(i) => KeptByCallback(cfg, w, i);
  }

  /** Nothing is awaited and no thread has anything left to do. */
  ghost predicate AtRest(w: World) {
    && WithState(w.batch.ops, LookingUp) == {}
    && w.checks == 0 && w.flushes == 0 && w.waiters == 0
    && (forall d | d in w.dispatches :: d == [])
    && (forall r | r in w.rpcs :: r.phase == Retired)
    && w.notices == []
  }

  lemma {:induction false} NoneLive(rpcs: seq<Rpc>)
    requires forall r | r in rpcs :: r.phase == Retired
    ensures LiveIds(rpcs) == multiset{}
  {
    if rpcs == [] {
    } else {
      var init := rpcs[..|rpcs|-1];
      assert rpcs == init + [rpcs[|rpcs|-1]];
      NoneLive(init);
      LiveSnoc(init, rpcs[|rpcs|-1]);
    }
  }

  /** At rest after a flush or an abort, the destructor's CHECKs hold and a requested callback has run once. */
  lemma RestMeansDone(cfg: Config, w: World)
    requires Inv(cfg, w) && AtRest(w) && w.batch.phase != GatheringOps
    ensures w.batch.ops.Keys == {}
    ensures w.batch.phase == Flushed || w.batch.phase == Aborted
    ensures w.flushAsked ==> |w.callbacks| == 1
  {
    var b := w.batch;
    NoneLive(w.rpcs);
    assert Pending(w) == [] by {
      assert w.dispatches != [] ==> w.dispatches[0] in w.dispatches;
    }
    assert CallEach(Pending(w)) == [];
    EmptyAsMultiset(WithState(b.ops, RequestSent));
    if b.phase == Flushing {
      assert b.queue == [] && Ids(b.queue) == [];
    }
    if b.phase != Flushed {
      EmptyAsMultiset(WithState(b.ops, Buffered));
      StatesCover(b.ops);
    }
  }

  lemma StatesCover(ops: map<OpId, InFlightOp>)
    ensures ops.Keys == WithState(ops, LookingUp) + WithState(ops, Buffered) + WithState(ops, RequestSent)
  {
  }

  /** Short of rest, some completion can happen: a batcher never gets stuck. */
  lemma NeverStuck(cfg: Config, w: World) returns (e: Event)
    requires !AtRest(w)
    ensures Allowed(w, e) && Completion(cfg, w, e)
  {
    if id :| id in WithState(w.batch.ops, LookingUp) {
      e := LookupDone(id, Found(Some(0)));
    } else if w.checks > 0 {
      e := Check;
    } else if w.flushes > 0 {
      e := FlushBuffers(true);
    } else if w.waiters > 0 {
      e := TransactionReady(Ok, []);
    } else if t :| 0 <= t < |w.dispatches| && w.dispatches[t] != [] {
      e := Send(t);
    } else if r :| 0 <= r < |w.rpcs| && w.rpcs[r].phase != Retired {
      e := if w.rpcs[r].phase == InFlight then RpcDone(r, Ok, [])
           else if w.rpcs[r].phase.rows != [] then ReportNextRow(r)
           else Remove(r);
    } else {
      assert w.notices != [];
      e := RunCallback(0);
    }
  }

  // -------------------------------------------------- every run of completions ends at rest

  /** The row errors that an answer brings. */
  function Brought(e: Event): nat {
    if e.RpcDone? then |e.rows| else 0
  }

  function BroughtBy(es: seq<Event>): nat {
    if es == [] then 0 else Brought(es[0]) + BroughtBy(es[1..])
  }

  function Work(w: World): nat {
    Weight(w) + RowsLeft(w.rpcs)
  }

  /** The RPCs after an event that touches them: one more, or one in another phase. */
  lemma RpcRowsKept(rpcs: seq<Rpc>, rpcs': seq<Rpc>, r: nat, x: Rpc, brought: nat)
    requires if r < |rpcs| then rpcs' == rpcs[r := x] else rpcs' == rpcs + [x]
    requires RowsOf(x.phase) <= brought + if r < |rpcs| then RowsOf(rpcs[r].phase) else 0
    ensures RowsLeft(rpcs') <= RowsLeft(rpcs) + brought
  {
    if r < |rpcs| {
      WeightsReplace(rpcs, r, x);
    } else {
      assert (rpcs + [x])[..|rpcs|] == rpcs;
    }
  }

  /** No row error comes from anything but an answer. */
  lemma RowsComeFromAnswers(cfg: Config, w: World, e: Event)
    requires Allowed(w, e) && Step(cfg, w, e).Some?
    ensures RowsLeft(Step(cfg, w, e).value.rpcs) <= RowsLeft(w.rpcs) + Brought(e)
  {
    var rpcs' := Step(cfg, w, e).value.rpcs;
    if e.Send? {
      RpcRowsKept(w.rpcs, rpcs', |w.rpcs|, rpcs'[|w.rpcs|], 0);
    } else if TouchesRpcs(e) {
      RpcRowsKept(w.rpcs, rpcs', e.rpc, rpcs'[e.rpc], Brought(e));
    } else {
      OthersKeepRpcs(cfg, w, e);
    }
  }

  lemma CompletionCosts(cfg: Config, w: World, e: Event)
    requires Inv(cfg, w) && Allowed(w, e) && Completion(cfg, w, e)
    ensures Step(cfg, w, e).Some? && Inv(cfg, Step(cfg, w, e).value)
    ensures Work(Step(cfg, w, e).value) < Work(w) + Brought(e)
  {
    StepKeeps(cfg, w, e);
    CompletionIsProgress(cfg, w, e);
    RowsComeFromAnswers(cfg, w, e);
  }

  /** A run made of completions only. */
  ghost predicate Completions(cfg: Config, w: World, es: seq<Event>)
    requires Legal(cfg, w, es)
    decreases |es|
  {
    es == [] || (Completion(cfg, w, es[0]) &&
                 (Step(cfg, w, es[0]).Some? ==> Completions(cfg, Step(cfg, w, es[0]).value, es[1..])))
  }

  lemma {:induction false} CompletionsCost(cfg: Config, w: World, es: seq<Event>)
    requires Inv(cfg, w) && Legal(cfg, w, es) && Completions(cfg, w, es)
    ensures var w' := Exec(cfg, w, es);
            w'.Some? && Inv(cfg, w'.value) && |es| + Work(w'.value) <= Work(w) + BroughtBy(es)
    decreases |es|
  {
    if es == [] {
    } else {
      CompletionCosts(cfg, w, es[0]);
      var w' := Step(cfg, w, es[0]).value;
      CompletionsCost(cfg, w', es[1..]);
      assert Exec(cfg, w, es) == Exec(cfg, w', es[1..]);
    }
  }

  ghost predicate NothingDue(cfg: Config, w: World) {
    forall e | Allowed(w, e) :: !Completion(cfg, w, e)
  }

  /** A batcher is at rest exactly when no completion is due. */
  lemma RestIsNothingDue(cfg: Config, w: World)
    ensures AtRest(w) <==> NothingDue(cfg, w)
  {
    if AtRest(w) {
      forall e | Allowed(w, e) ensures !Completion(cfg, w, e) {
        NotDueAtRest(cfg, w, e);
      }
    } else {
      var e := NeverStuck(cfg, w);
    }
  }

  lemma NotDueAtRest(cfg: Config, w: World, e: Event)
    requires AtRest(w)
    ensures !(Allowed(w, e) && Completion(cfg, w, e))
  {
    if e.LookupDone? {
      var id := e.id;
      assert id in w.batch.ops && w.batch.ops[id].state == LookingUp ==> id in WithState(w.batch.ops, LookingUp);
    }
    if e.Send? {
      assert e.thread < |w.dispatches| ==> w.dispatches[e.thread] in w.dispatches;
    }
    if e.RpcDone? || e.ReportNextRow? || e.Remove? {
      assert e.rpc < |w.rpcs| ==> w.rpcs[e.rpc] in w.rpcs;
    }
  }

  /**
   In every state of every run: whichever completions happen, in whichever order, there are at most as many
   as there is work and row errors, and when none is due any more the batcher is at rest.
   */
  lemma CompletionsEndAtRest(cfg: Config, before: seq<Event>, es: seq<Event>)
    requires Legal(cfg, START, before) && Exec(cfg, START, before).Some?
    requires Legal(cfg, Exec(cfg, START, before).value, es) && Completions(cfg, Exec(cfg, START, before).value, es)
    ensures var w := Exec(cfg, START, before).value;
            var w' := Exec(cfg, w, es);
            && |es| <= Work(w) + BroughtBy(es)
            && w'.Some? && (NothingDue(cfg, w'.value) <==> AtRest(w'.value))
  {
    RunsAreSafe(cfg, before);
    var w := Exec(cfg, START, before).value;
    CompletionsCost(cfg, w, es);
    RestIsNothingDue(cfg, Exec(cfg, w, es).value);
  }

  /** From every state that a run can reach, the completions that are due bring the batcher to rest. */
  lemma {:induction false} ComesToRest(cfg: Config, w: World) returns (es: seq<Event>)
    requires Inv(cfg, w)
    ensures Legal(cfg, w, es) && Exec(cfg, w, es).Some?
    ensures Inv(cfg, Exec(cfg, w, es).value) && AtRest(Exec(cfg, w, es).value)
    decreases Weight(w), RowsLeft(w.rpcs)
  {
    if AtRest(w) {
      es := [];
    } else {
      var e := NeverStuck(cfg, w);
      CompletionIsProgress(cfg, w, e);
      StepKeeps(cfg, w, e);
      var rest := ComesToRest(cfg, Step(cfg, w, e).value);
      RunCons(cfg, w, e, rest);
      es := [e] + rest;
    }
  }
}
