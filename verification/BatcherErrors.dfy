/**
 Which errors a run reports, told from its events alone, and that the callback delivers their status.
 */
module BatcherErrors {
  import opened SeqMultisets
  import opened FlushPlan
  import opened BatcherState
  import opened BatcherRuns
  import opened Options

  /** One error with the code for every operation. */
  function Each(ids: seq<OpId>, code: Code): seq<(OpId, Code)> {
    seq(|ids|, i requires 0 <= i < |ids| => (ids[i], code))
  }

  /** The error of a row, if the index is in range. */
  function RowReport(ids: seq<OpId>, row: RowError): seq<(OpId, Code)> {
    if 0 <= row.index < |ids| then [(ids[row.index], row.code)] else []
  }

  /** The errors that an event must report. */
  function Reports(w: World, e: Event): seq<(OpId, Code)>
    requires Allowed(w, e)
  {
    match e
    case LookupDone(id, result) =>
      if w.batch.phase == Aborted then [(id, AbortedCode)]
      else if result.NotFound? then [(id, result.code)]
      else []
    case RpcDone(r, code, _) => if code == Ok then [] else Each(Ids(w.rpcs[r].call.ops), code)
    case ReportNextRow(r) => RowReport(Ids(w.rpcs[r].call.ops), w.rpcs[r].phase.rows[0])
    case TransactionReady(code, toAbort) => if code == Ok then [] else Each(toAbort, code)
    case Abort(code, toAbort) => Each(toAbort, code)
    case _ => []
  }

  // --------------------------------------------------------- the log, in order

  /** The errors that the events of a run must report, in order. */
  ghost function Reported(cfg: Config, w: World, es: seq<Event>): seq<(OpId, Code)>
    requires Legal(cfg, w, es)
    decreases |es|
  {
    if es == [] then []
    else Reports(w, es[0]) +
         if Step(cfg, w, es[0]).Some? then Reported(cfg, Step(cfg, w, es[0]).value, es[1..]) else []
  }

  lemma EachSnoc(ids: seq<OpId>, code: Code)
    requires ids != []
    ensures Each(ids, code) == Each(ids[..|ids|-1], code) + [(ids[|ids|-1], code)]
  {
  }

  lemma {:induction false} FailedAreLogged(b: Batch, cfg: Config, ids: seq<OpId>, code: Code)
    ensures var r := MarkAllFailed(b, cfg, ids, code); r.Some? ==> r.value.errors == b.errors + Each(ids, code)
  {
    if ids == [] {
    } else {
      FailedAreLogged(b, cfg, ids[..|ids|-1], code);
      EachSnoc(ids, code);
    }
  }

  lemma {:induction false} CombinedAreLogged(b: Batch, cfg: Config, ids: seq<OpId>, code: Code)
    ensures CombineAllOps(b, cfg, ids, code).errors == b.errors + Each(ids, code)
  {
    if ids == [] {
    } else {
      CombinedAreLogged(b, cfg, ids[..|ids|-1], code);
      EachSnoc(ids, code);
    }
  }

  lemma {:induction false} ErasedAreNotLogged(b: Batch, ids: seq<OpId>)
    ensures EraseAll(b, ids).Some? ==> EraseAll(b, ids).value.errors == b.errors
  {
    if ids == [] {
    } else {
      ErasedAreNotLogged(b, ids[..|ids|-1]);
    }
  }

  lemma AbortIsLogged(cfg: Config, w: World, code: Code, toAbort: seq<OpId>)
    requires AbortStep(cfg, w, code, toAbort).Some?
    ensures AbortStep(cfg, w, code, toAbort).value.batch.errors == w.batch.errors + Each(toAbort, code)
  {
    FailedAreLogged(w.batch.(phase := Aborted), cfg, toAbort, code);
  }

  lemma StepIsLogged(cfg: Config, w: World, e: Event)
    requires Allowed(w, e) && Step(cfg, w, e).Some?
    ensures Step(cfg, w, e).value.batch.errors == w.batch.errors + Reports(w, e)
  {
    assert w.batch.errors + [] == w.batch.errors;
    match e
    case TransactionReady(code, toAbort) =>
      if code != Ok {
        AbortIsLogged(cfg, w.(waiters := w.waiters - 1), code, toAbort);
      }
    case Abort(code, toAbort) => AbortIsLogged(cfg, w, code, toAbort);
    case RpcDone(r, code, _) => CombinedAreLogged(w.batch, cfg, Ids(w.rpcs[r].call.ops), code);
    case Remove(r) => ErasedAreNotLogged(w.batch, Ids(w.rpcs[r].call.ops));
    case _ =>
  }

  lemma {:induction false} RunIsLogged(cfg: Config, w: World, es: seq<Event>)
    requires Legal(cfg, w, es) && Exec(cfg, w, es).Some?
    ensures Exec(cfg, w, es).value.batch.errors == w.batch.errors + Reported(cfg, w, es)
    decreases |es|
  {
    if es == [] {
    } else {
      var w' := Step(cfg, w, es[0]).value;
      StepIsLogged(cfg, w, es[0]);
      RunIsLogged(cfg, w', es[1..]);
      Associative(w.batch.errors, Reports(w, es[0]), Reported(cfg, w', es[1..]));
    }
  }

  lemma Associative(a: seq<(OpId, Code)>, b: seq<(OpId, Code)>, c: seq<(OpId, Code)>)
    ensures a + (b + c) == (a + b) + c
  {
  }

  /** In every run the error log is the list of what its events must report. */
  lemma LogIsReported(cfg: Config, es: seq<Event>)
    requires Legal(cfg, START, es)
    ensures Exec(cfg, START, es).Some? && Exec(cfg, START, es).value.batch.errors == Reported(cfg, START, es)
  {
    RunsAreSafe(cfg, es);
    RunIsLogged(cfg, START, es);
  }

  // ------------------------------------------------ nothing that is due gets lost

  function RowReports(ids: seq<OpId>, rows: seq<RowError>): seq<(OpId, Code)> {
    if rows == [] then [] else RowReport(ids, rows[0]) + RowReports(ids, rows[1..])
  }

  /** The errors that an event makes due: all rows of an answer at once, and none when they are told one by one. */
  function Dues(w: World, e: Event): seq<(OpId, Code)>
    requires Allowed(w, e)
  {
    if e.RpcDone? then Reports(w, e) + RowReports(Ids(w.rpcs[e.rpc].call.ops), e.rows)
    else if e.ReportNextRow? then []
    else Reports(w, e)
  }

  ghost function Due(cfg: Config, w: World, es: seq<Event>): seq<(OpId, Code)>
    requires Legal(cfg, w, es)
    decreases |es|
  {
    if es == [] then []
    else Dues(w, es[0]) +
         if Step(cfg, w, es[0]).Some? then Due(cfg, Step(cfg, w, es[0]).value, es[1..]) else []
  }

  /** The row errors that an RPC has yet to tell. */
  function Untold(rpc: Rpc): multiset<(OpId, Code)> {
    if rpc.phase.Reporting? then multiset(RowReports(Ids(rpc.call.ops), rpc.phase.rows)) else multiset{}
  }

  function UntoldEach(rpcs: seq<Rpc>): seq<multiset<(OpId, Code)>> {
    seq(|rpcs|, i requires 0 <= i < |rpcs| => Untold(rpcs[i]))
  }

  function AllUntold(rpcs: seq<Rpc>): multiset<(OpId, Code)> {
    Sum(UntoldEach(rpcs))
  }

  lemma UntoldReplace(rpcs: seq<Rpc>, r: nat, x: Rpc)
    requires r < |rpcs|
    ensures AllUntold(rpcs[r := x]) + Untold(rpcs[r]) == AllUntold(rpcs) + Untold(x)
  {
    assert UntoldEach(rpcs[r := x]) == UntoldEach(rpcs)[r := Untold(x)];
    SumReplace(UntoldEach(rpcs), r, Untold(x));
  }

  lemma UntoldSnoc(rpcs: seq<Rpc>, x: Rpc)
    ensures AllUntold(rpcs + [x]) == AllUntold(rpcs) + Untold(x)
  {
    assert UntoldEach(rpcs + [x]) == UntoldEach(rpcs) + [Untold(x)];
    SumSnoc(UntoldEach(rpcs), Untold(x));
  }

  /** What is told and untold grows by what becomes due. */
  ghost predicate Accounted(w: World, w': World, dues: seq<(OpId, Code)>) {
    multiset(w'.batch.errors) + AllUntold(w'.rpcs) == multiset(w.batch.errors) + AllUntold(w.rpcs) + multiset(dues)
  }

  lemma ToldAndUntold(w: World, w': World, reports: seq<(OpId, Code)>, dues: seq<(OpId, Code)>, r: nat, x: Rpc)
    requires w'.batch.errors == w.batch.errors + reports && r < |w.rpcs| && w'.rpcs == w.rpcs[r := x]
    requires multiset(reports) + Untold(x) == multiset(dues) + Untold(w.rpcs[r])
    ensures Accounted(w, w', dues)
  {
    UntoldReplace(w.rpcs, r, x);
    assert multiset(w'.batch.errors) == multiset(w.batch.errors) + multiset(reports);
    Balance(multiset(w.batch.errors), multiset(reports), multiset(dues), AllUntold(w.rpcs), AllUntold(w'.rpcs),
            Untold(w.rpcs[r]), Untold(x));
  }

  lemma Balance<T>(errors: multiset<T>, reports: multiset<T>, dues: multiset<T>, all: multiset<T>, all': multiset<T>,
                   had: multiset<T>, has: multiset<T>)
    requires all' + had == all + has && reports + has == dues + had
    ensures (errors + reports) + all' == (errors + all) + dues
  {
    assert ((errors + reports) + all') + had == (errors + reports) + (all' + had);
    assert (errors + reports) + (all + has) == (errors + all) + (reports + has);
    assert (errors + all) + (dues + had) == ((errors + all) + dues) + had;
    CancelMultisets((errors + reports) + all', (errors + all) + dues, had);
  }

  lemma RpcIsAccounted(cfg: Config, w: World, e: Event)
    requires Allowed(w, e) && Step(cfg, w, e).Some? && (e.RpcDone? || e.ReportNextRow? || e.Remove?)
    ensures Accounted(w, Step(cfg, w, e).value, Dues(w, e))
  {
    var w', r := Step(cfg, w, e).value, e.rpc;
    var ids := Ids(w.rpcs[r].call.ops);
    StepIsLogged(cfg, w, e);
    ToldAndUntold(w, w', Reports(w, e), Dues(w, e), r, w'.rpcs[r]);
  }

  lemma StepIsAccounted(cfg: Config, w: World, e: Event)
    requires Allowed(w, e) && Step(cfg, w, e).Some?
    ensures Accounted(w, Step(cfg, w, e).value, Dues(w, e))
  {
    var w' := Step(cfg, w, e).value;
    if e.RpcDone? || e.ReportNextRow? || e.Remove? {
      RpcIsAccounted(cfg, w, e);
    } else {
      StepIsLogged(cfg, w, e);
      if e.Send? {
        UntoldSnoc(w.rpcs, w'.rpcs[|w.rpcs|]);
      } else {
        OthersKeepRpcs(cfg, w, e);
      }
    }
  }

  lemma {:induction false} RunIsAccounted(cfg: Config, w: World, es: seq<Event>)
    requires Legal(cfg, w, es) && Exec(cfg, w, es).Some?
    ensures Accounted(w, Exec(cfg, w, es).value, Due(cfg, w, es))
    decreases |es|
  {
    if es == [] {
    } else {
      var w' := Step(cfg, w, es[0]).value;
      StepIsAccounted(cfg, w, es[0]);
      RunIsAccounted(cfg, w', es[1..]);
      AccountedTrans(w, w', Exec(cfg, w', es[1..]).value, Dues(w, es[0]), Due(cfg, w', es[1..]));
    }
  }

  lemma AccountedTrans(u: World, v: World, w: World, a: seq<(OpId, Code)>, b: seq<(OpId, Code)>)
    requires Accounted(u, v, a) && Accounted(v, w, b)
    ensures Accounted(u, w, a + b)
  {
    assert multiset(a + b) == multiset(a) + multiset(b);
  }

  lemma {:induction false} NoneUntold(rpcs: seq<Rpc>)
    requires forall r | r in rpcs :: r.phase == Retired
    ensures AllUntold(rpcs) == multiset{}
    decreases |rpcs|
  {
    if rpcs == [] {
    } else {
      var init, last := rpcs[..|rpcs|-1], rpcs[|rpcs|-1];
      assert rpcs == init + [last] && last in rpcs;
      NoneUntold(init);
      UntoldSnoc(init, last);
    }
  }

  /** In every run, the errors in the log and those that RPCs have yet to tell are those that became due. */
  lemma NothingIsLost(cfg: Config, es: seq<Event>)
    requires Legal(cfg, START, es)
    ensures var w := Exec(cfg, START, es);
            w.Some? && multiset(w.value.batch.errors) + AllUntold(w.value.rpcs) == multiset(Due(cfg, START, es))
  {
    RunsAreSafe(cfg, es);
    RunIsAccounted(cfg, START, es);
    NoneUntold([]);
  }

  // ------------------------------------------------------------- the callback

  lemma AllRetired(cfg: Config, w: World)
    requires Inv(cfg, w) && w.batch.ops.Keys == {}
    ensures forall r | r in w.rpcs :: r.phase == Retired
  {
    forall i | 0 <= i < |w.rpcs| ensures w.rpcs[i].phase == Retired {
      if w.rpcs[i].phase != Retired {
        LiveMeansOps(cfg, w, i);
      }
    }
  }

  /**
   When the callback ran and nothing aborted the batch, it got the status of the errors that the events of the
   run report: OK exactly when no lookup failed, no RPC failed and no row in range failed, and all of those are
   in the log.
   */
  lemma CallbackTellsEvents(cfg: Config, es: seq<Event>)
    requires Legal(cfg, START, es)
    ensures var w := Exec(cfg, START, es);
            && w.Some?
            && (w.value.callbacks != [] && w.value.batch.phase != Aborted ==>
                  && w.value.callbacks == [StatusOf(cfg.combineErrors, Codes(Reported(cfg, START, es)))]
                  && multiset(Reported(cfg, START, es)) == multiset(Due(cfg, START, es))
                  && (w.value.callbacks[0] == Ok <==> Due(cfg, START, es) == []))
  {
    CallbackOnce(cfg, es);
    LogIsReported(cfg, es);
    NothingIsLost(cfg, es);
    RunsAreSafe(cfg, es);
    var w := Exec(cfg, START, es).value;
    if w.callbacks != [] && w.batch.phase != Aborted {
      AllRetired(cfg, w);
      NoneUntold(w.rpcs);
      SameLength(Reported(cfg, START, es), Due(cfg, START, es));
    }
  }
}
