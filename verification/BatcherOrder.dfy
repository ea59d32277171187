/**
 Operations followed through whole runs: sequence numbers follow the order in which operations were added, so
 two operations of one tablet and group go out in that order; and what is sent is what was added and found.
 */
module BatcherOrder {
  import opened SeqMultisets
  import opened FlushPlan
  import opened BatcherState
  import opened BatcherRuns
  import opened Options

  function AddedBy(e: Event): seq<OpId> {
    if e.Add? then [e.id] else []
  }

  /** The operations that a run adds, in order. */
  function Added(es: seq<Event>): seq<OpId> {
    if es == [] then [] else AddedBy(es[0]) + Added(es[1..])
  }

  ghost predicate Placed(adds: seq<OpId>, seqno: nat, id: OpId) {
    seqno < |adds| && adds[seqno] == id
  }

  /** Every operation has its place among the added ones as its sequence number. */
  ghost predicate InOrder(w: World, adds: seq<OpId>) {
    && w.batch.nextSeqno == |adds| && w.added == Members(adds)
    && (forall i, j | 0 <= i < j < |adds| :: adds[i] != adds[j])
    && (forall id | id in w.batch.ops :: Placed(adds, w.batch.ops[id].seqno, id))
    && (forall op | op in w.lookedUp :: Placed(adds, op.seqno, op.id))
  }

  // -------------------------------------------------------- steps that add no operation

  /** No operation is new, and those that stay keep their sequence numbers and what they are. */
  ghost predicate KeepsSeqnos(b: Batch, b': Batch) {
    && b'.nextSeqno == b.nextSeqno
    && forall id | id in b'.ops ::
         id in b.ops && b'.ops[id].seqno == b.ops[id].seqno && b'.ops[id].info == b.ops[id].info
  }

  lemma {:induction false} FailedKeepSeqnos(b: Batch, cfg: Config, ids: seq<OpId>, code: Code)
    ensures MarkAllFailed(b, cfg, ids, code).Some? ==> KeepsSeqnos(b, MarkAllFailed(b, cfg, ids, code).value)
  {
    if ids == [] {
    } else {
      FailedKeepSeqnos(b, cfg, ids[..|ids|-1], code);
    }
  }

  lemma {:induction false} ErasedKeepSeqnos(b: Batch, ids: seq<OpId>)
    ensures EraseAll(b, ids).Some? ==> KeepsSeqnos(b, EraseAll(b, ids).value)
  {
    if ids == [] {
    } else {
      ErasedKeepSeqnos(b, ids[..|ids|-1]);
    }
  }

  lemma {:induction false} ReportedKeepSeqnos(b: Batch, cfg: Config, ids: seq<OpId>, code: Code)
    ensures KeepsSeqnos(b, CombineAllOps(b, cfg, ids, code))
  {
    if ids == [] {
    } else {
      ReportedKeepSeqnos(b, cfg, ids[..|ids|-1], code);
    }
  }

  /** What an event other than Add leaves: the same numbers, and at most one more lookup, of an operation in flight. */
  ghost predicate AddsNone(w: World, w': World) {
    && KeepsSeqnos(w.batch, w'.batch) && w'.added == w.added
    && forall op | op in w'.lookedUp ::
         op in w.lookedUp || (op.id in w.batch.ops && op.seqno == w.batch.ops[op.id].seqno)
  }

  lemma LookupAddsNone(cfg: Config, w: World, id: OpId, result: LookupResult)
    requires LookupStep(cfg, w, id, result).Some?
    ensures AddsNone(w, LookupStep(cfg, w, id, result).value)
  {
  }

  lemma AbortAddsNone(cfg: Config, w: World, code: Code, toAbort: seq<OpId>)
    requires AbortStep(cfg, w, code, toAbort).Some?
    ensures AddsNone(w, AbortStep(cfg, w, code, toAbort).value)
  {
    FailedKeepSeqnos(w.batch.(phase := Aborted), cfg, toAbort, code);
  }

  lemma RpcDoneAddsNone(cfg: Config, w: World, r: nat, code: Code, rows: seq<RowError>)
    requires Allowed(w, RpcDone(r, code, rows)) && Step(cfg, w, RpcDone(r, code, rows)).Some?
    ensures AddsNone(w, Step(cfg, w, RpcDone(r, code, rows)).value)
  {
    ReportedKeepSeqnos(w.batch, cfg, Ids(w.rpcs[r].call.ops), code);
  }

  lemma RemoveAddsNone(w: World, r: nat)
    requires r < |w.rpcs| && RemoveStep(w, r).Some?
    ensures AddsNone(w, RemoveStep(w, r).value)
  {
    ErasedKeepSeqnos(w.batch, Ids(w.rpcs[r].call.ops));
  }

  lemma OthersAddNone(cfg: Config, w: World, e: Event)
    requires Allowed(w, e) && !e.Add? && Step(cfg, w, e).Some?
    ensures AddsNone(w, Step(cfg, w, e).value)
  {
    match e
    case LookupDone(id, result) => LookupAddsNone(cfg, w, id, result);
    case TransactionReady(code, toAbort) =>
      if code != Ok {
        AbortAddsNone(cfg, w.(waiters := w.waiters - 1), code, toAbort);
      }
    case Abort(code, toAbort) => AbortAddsNone(cfg, w, code, toAbort);
    case RpcDone(r, code, rows) => RpcDoneAddsNone(cfg, w, r, code, rows);
    case Remove(r) => RemoveAddsNone(w, r);
    case _ =>
  }

  lemma NoneKeepsOrder(w: World, w': World, adds: seq<OpId>)
    requires InOrder(w, adds) && AddsNone(w, w')
    ensures InOrder(w', adds)
  {
    forall id | id in w'.batch.ops ensures Placed(adds, w'.batch.ops[id].seqno, id) {
      assert Placed(adds, w.batch.ops[id].seqno, id);
    }
    forall op | op in w'.lookedUp ensures Placed(adds, op.seqno, op.id) {
      if op in w.lookedUp {
        assert Placed(adds, op.seqno, op.id);
      } else {
        assert Placed(adds, w.batch.ops[op.id].seqno, op.id);
      }
    }
  }

  lemma AddKeepsOrder(cfg: Config, w: World, id: OpId, info: OpInfo, adds: seq<OpId>)
    requires InOrder(w, adds) && Allowed(w, Add(id, info)) && Step(cfg, w, Add(id, info)).Some?
    ensures InOrder(Step(cfg, w, Add(id, info)).value, adds + [id])
  {
    var w', adds' := Step(cfg, w, Add(id, info)).value, adds + [id];
    MembersSnoc(adds, id);
    assert forall x | x in adds :: x in Members(adds);
    forall x | x in w'.batch.ops ensures Placed(adds', w'.batch.ops[x].seqno, x) {
      assert x != id ==> Placed(adds, w.batch.ops[x].seqno, x);
    }
    forall op | op in w'.lookedUp ensures Placed(adds', op.seqno, op.id) {
      assert Placed(adds, op.seqno, op.id);
    }
  }

  // ------------------------------------------------------------------- whole runs

  lemma StepKeepsOrder(cfg: Config, w: World, e: Event, adds: seq<OpId>)
    requires Allowed(w, e) && Step(cfg, w, e).Some? && InOrder(w, adds)
    ensures InOrder(Step(cfg, w, e).value, adds + AddedBy(e))
  {
    if e.Add? {
      AddKeepsOrder(cfg, w, e.id, e.info, adds);
    } else {
      OthersAddNone(cfg, w, e);
      NoneKeepsOrder(w, Step(cfg, w, e).value, adds);
      assert adds + AddedBy(e) == adds;
    }
  }

  lemma {:induction false} RunsKeepOrder(cfg: Config, w: World, es: seq<Event>, adds: seq<OpId>)
    requires Legal(cfg, w, es) && Exec(cfg, w, es).Some? && InOrder(w, adds)
    ensures InOrder(Exec(cfg, w, es).value, adds + Added(es))
    decreases |es|
  {
    if es == [] {
      assert adds + Added(es) == adds;
    } else {
      StepKeepsOrder(cfg, w, es[0], adds);
      var here := adds + AddedBy(es[0]);
      RunsKeepOrder(cfg, Step(cfg, w, es[0]).value, es[1..], here);
      Associative(adds, AddedBy(es[0]), Added(es[1..]));
    }
  }

  lemma Associative(a: seq<OpId>, b: seq<OpId>, c: seq<OpId>)
    ensures a + (b + c) == (a + b) + c
  {
  }

  /** The place of an Add among all of them. */
  lemma {:induction false} AddedConcat(es: seq<Event>, fs: seq<Event>)
    ensures Added(es + fs) == Added(es) + Added(fs)
    decreases |es|
  {
    if es == [] {
      assert es + fs == fs;
    } else {
      AddedConcat(es[1..], fs);
      assert (es + fs)[0] == es[0] && (es + fs)[1..] == es[1..] + fs;
      Associative(AddedBy(es[0]), Added(es[1..]), Added(fs));
    }
  }

  lemma PlaceOfAdd(es: seq<Event>, i: nat)
    requires i < |es| && es[i].Add?
    ensures Placed(Added(es), |Added(es[..i])|, es[i].id)
    ensures |Added(es[..i+1])| == |Added(es[..i])| + 1
  {
    AddedConcat(es[..i], es[i..]);
    assert es == es[..i] + es[i..];
    AddedConcat(es[..i], [es[i]]);
    assert es[..i+1] == es[..i] + [es[i]] && [es[i]][1..] == [];
  }

  lemma FewerBefore(es: seq<Event>, i: nat, j: nat)
    requires i <= j <= |es|
    ensures |Added(es[..i])| <= |Added(es[..j])|
  {
    AddedConcat(es[..i], es[i..j]);
    assert es[..j] == es[..i] + es[i..j];
  }

  lemma RunIsInOrder(cfg: Config, es: seq<Event>)
    requires Legal(cfg, START, es)
    ensures Exec(cfg, START, es).Some? && InOrder(Exec(cfg, START, es).value, Added(es))
  {
    RunsAreSafe(cfg, es);
    assert InOrder(START, []);
    RunsKeepOrder(cfg, START, es, []);
    assert [] + Added(es) == Added(es);
  }

  /** A lower place for the operation that was added earlier. */
  lemma EarlierIsLower(es: seq<Event>, i: nat, j: nat, s: nat, t: nat)
    requires i < j < |es| && es[i].Add? && es[j].Add?
    requires forall k, l | 0 <= k < l < |Added(es)| :: Added(es)[k] != Added(es)[l]
    requires Placed(Added(es), s, es[i].id) && Placed(Added(es), t, es[j].id)
    ensures s < t
  {
    PlaceOfAdd(es, i);
    PlaceOfAdd(es, j);
    FewerBefore(es, i + 1, j);
  }

  /** In every run, an operation that was added earlier has the lower sequence number. */
  lemma SeqnosFollowAdds(cfg: Config, es: seq<Event>, i: nat, j: nat)
    requires Legal(cfg, START, es) && i < j < |es| && es[i].Add? && es[j].Add?
    ensures var w := Exec(cfg, START, es);
            && w.Some?
            && forall p, q | p in w.value.lookedUp && q in w.value.lookedUp && p.id == es[i].id && q.id == es[j].id ::
                 p.seqno < q.seqno
  {
    RunIsInOrder(cfg, es);
    var lookedUp := Exec(cfg, START, es).value.lookedUp;
    forall p, q | p in lookedUp && q in lookedUp && p.id == es[i].id && q.id == es[j].id ensures p.seqno < q.seqno {
      EarlierIsLower(es, i, j, p.seqno, q.seqno);
    }
  }

  /** The operation at a place of the RPC list of a run. */
  ghost predicate SentAt(calls: seq<FlushCall>, a: nat, m: nat, id: OpId) {
    a < |calls| && m < |calls[a].ops| && calls[a].ops[m].id == id
  }

  lemma PlannedWasFound(cfg: Config, q: seq<Op>, a: nat, m: nat)
    requires DistinctSeqnos(q) && a < |Plan(cfg, q)| && m < |Plan(cfg, q)[a].ops|
    ensures Plan(cfg, q)[a].ops[m] in q
  {
    PlanShape(cfg, q);
    var cs := CallOps(Plan(cfg, q));
    FlattenAt(cs, a, m);
    assert cs[a][m] in Flatten(cs);
    assert cs[a][m] in multiset(Flatten(cs)) && cs[a][m] in multiset(q);
  }

  /** Of two operations of one tablet and group, the one that was added first goes out first. */
  lemma AddedFirstGoesFirst(cfg: Config, es: seq<Event>, i: nat, j: nat, a: nat, m: nat, b: nat, n: nat)
    requires Legal(cfg, START, es) && i < j < |es| && es[i].Add? && es[j].Add?
    ensures Exec(cfg, START, es).Some?
    ensures var w := Exec(cfg, START, es).value;
            var calls := SentCalls(w.rpcs) + Pending(w);
            SentAt(calls, a, m, es[i].id) && SentAt(calls, b, n, es[j].id)
            && GoTogether(cfg, calls[a].ops[m], calls[b].ops[n]) ==>
              a < b || (a == b && m < n)
  {
    RunsAreSafe(cfg, es);
    DispatchIsComplete(cfg, es);
    SeqnosFollowAdds(cfg, es, i, j);
    var w := Exec(cfg, START, es).value;
    var calls := SentCalls(w.rpcs) + Pending(w);
    if SentAt(calls, a, m, es[i].id) && SentAt(calls, b, n, es[j].id) {
      PlannedInOrder(cfg, w, calls, es[i].id, es[j].id, a, m, b, n);
    }
  }

  lemma PlannedInOrder(cfg: Config, w: World, calls: seq<FlushCall>, x: OpId, y: OpId, a: nat, m: nat, b: nat, n: nat)
    requires DistinctSeqnos(w.lookedUp) && calls == Plan(cfg, w.lookedUp)
    requires SentAt(calls, a, m, x) && SentAt(calls, b, n, y)
    requires forall p, q | p in w.lookedUp && q in w.lookedUp && p.id == x && q.id == y :: p.seqno < q.seqno
    ensures GoTogether(cfg, calls[a].ops[m], calls[b].ops[n]) ==> a < b || (a == b && m < n)
  {
    PlannedWasFound(cfg, w.lookedUp, a, m);
    PlannedWasFound(cfg, w.lookedUp, b, n);
    var p, q := calls[a].ops[m], calls[b].ops[n];
    assert p.seqno < q.seqno;
    KeysGoTogether(cfg, p, q);
    if Key(cfg, p) == Key(cfg, q) && (b < a || (a == b && n < m)) {
      SubmissionOrder(cfg, w.lookedUp, b, a, n, m);
    }
  }

  // -------------------------------------------------- what is sent is what was added and found

  ghost predicate AddedAt(es: seq<Event>, i: nat, op: Op) {
    && i < |es| && es[i].Add? && es[i].id == op.id
    && es[i].info.opType == op.opType && es[i].info.consistentPrefix == op.consistentPrefix
    && es[i].info.sidecar == op.sidecar
  }

  ghost predicate FoundAt(es: seq<Event>, j: nat, op: Op) {
    j < |es| && es[j] == LookupDone(op.id, Found(Some(op.tablet)))
  }

  /** The operation is as it was added, and on the tablet that its lookup found after that. */
  ghost predicate CameFrom(es: seq<Event>, op: Op) {
    exists i: nat, j: nat :: i < j && AddedAt(es, i, op) && FoundAt(es, j, op)
  }

  ghost predicate WasAdded(es: seq<Event>, id: OpId, info: OpInfo) {
    exists i: nat :: i < |es| && es[i] == Add(id, info)
  }

  /** A flush that found the transaction, if there is one, ready. */
  ghost predicate FlushedReady(cfg: Config, es: seq<Event>) {
    exists i: nat :: i < |es| && es[i].FlushBuffers? && (cfg.transactional ==> es[i].prepared)
  }

  ghost predicate Traced(cfg: Config, w: World, es: seq<Event>) {
    && (forall id | id in w.batch.ops :: WasAdded(es, id, w.batch.ops[id].info))
    && (forall op | op in w.lookedUp :: CameFrom(es, op))
    && (w.dispatches != [] ==> FlushedReady(cfg, es))
  }

  lemma AddedStays(es: seq<Event>, e: Event, id: OpId, info: OpInfo)
    requires WasAdded(es, id, info)
    ensures WasAdded(es + [e], id, info)
  {
    var i: nat :| i < |es| && es[i] == Add(id, info);
    assert (es + [e])[i] == Add(id, info);
  }

  lemma CameFromStays(es: seq<Event>, e: Event, op: Op)
    requires CameFrom(es, op)
    ensures CameFrom(es + [e], op)
  {
    var i: nat, j: nat :| i < j && AddedAt(es, i, op) && FoundAt(es, j, op);
    assert AddedAt(es + [e], i, op) && FoundAt(es + [e], j, op);
  }

  lemma FlushedStays(cfg: Config, es: seq<Event>, e: Event)
    requires FlushedReady(cfg, es)
    ensures FlushedReady(cfg, es + [e])
  {
    var i: nat :| i < |es| && es[i].FlushBuffers? && (cfg.transactional ==> es[i].prepared);
    assert (es + [e])[i] == es[i];
  }

  lemma LookupIsTraced(es: seq<Event>, op: Op, info: OpInfo)
    requires WasAdded(es, op.id, info)
    requires op.opType == info.opType && op.consistentPrefix == info.consistentPrefix && op.sidecar == info.sidecar
    ensures CameFrom(es + [LookupDone(op.id, Found(Some(op.tablet)))], op)
  {
    var i: nat :| i < |es| && es[i] == Add(op.id, info);
    var es' := es + [LookupDone(op.id, Found(Some(op.tablet)))];
    assert AddedAt(es', i, op) && FoundAt(es', |es|, op);
  }

  /** The operations in flight after an event. */
  lemma OpsTraced(cfg: Config, w: World, e: Event, es: seq<Event>, id: OpId)
    requires Allowed(w, e) && Step(cfg, w, e).Some? && Traced(cfg, w, es) && id in Step(cfg, w, e).value.batch.ops
    ensures WasAdded(es + [e], id, Step(cfg, w, e).value.batch.ops[id].info)
  {
    if e.Add? && e.id == id {
      assert (es + [e])[|es|] == Add(id, e.info);
    } else {
      if !e.Add? {
        OthersAddNone(cfg, w, e);
      }
      AddedStays(es, e, id, w.batch.ops[id].info);
    }
  }

  /** The lookups that succeeded. */
  lemma FoundTraced(cfg: Config, w: World, e: Event, es: seq<Event>, op: Op)
    requires Allowed(w, e) && Step(cfg, w, e).Some? && Traced(cfg, w, es) && op in Step(cfg, w, e).value.lookedUp
    ensures CameFrom(es + [e], op)
  {
    if op in w.lookedUp {
      CameFromStays(es, e, op);
    } else {
      assert e.LookupDone? && e.result.Found?;
      LookupIsTraced(es, op, w.batch.ops[e.id].info);
    }
  }

  lemma DispatchTraced(cfg: Config, w: World, e: Event, es: seq<Event>)
    requires Allowed(w, e) && Step(cfg, w, e).Some? && Traced(cfg, w, es) && Step(cfg, w, e).value.dispatches != []
    ensures FlushedReady(cfg, es + [e])
  {
    if w.dispatches != [] {
      FlushedStays(cfg, es, e);
    } else {
      assert (es + [e])[|es|] == e;
    }
  }

  lemma StepTraced(cfg: Config, w: World, e: Event, es: seq<Event>)
    requires Allowed(w, e) && Step(cfg, w, e).Some? && Traced(cfg, w, es)
    ensures Traced(cfg, Step(cfg, w, e).value, es + [e])
  {
    var w' := Step(cfg, w, e).value;
    forall id | id in w'.batch.ops ensures WasAdded(es + [e], id, w'.batch.ops[id].info) {
      OpsTraced(cfg, w, e, es, id);
    }
    forall op | op in w'.lookedUp ensures CameFrom(es + [e], op) {
      FoundTraced(cfg, w, e, es, op);
    }
    if w'.dispatches != [] {
      DispatchTraced(cfg, w, e, es);
    }
  }

  lemma {:induction false} RunTraced(cfg: Config, w: World, es: seq<Event>, past: seq<Event>)
    requires Legal(cfg, w, es) && Exec(cfg, w, es).Some? && Traced(cfg, w, past)
    ensures Traced(cfg, Exec(cfg, w, es).value, past + es)
    decreases |es|
  {
    if es == [] {
      assert past + es == past;
    } else {
      StepTraced(cfg, w, es[0], past);
      RunTraced(cfg, Step(cfg, w, es[0]).value, es[1..], past + [es[0]]);
      assert (past + [es[0]]) + es[1..] == past + es;
    }
  }

  /**
   In every run, each operation that is sent or planned has the type, consistency and sidecar flag it was added
   with and is on the tablet that its lookup found; and nothing is planned before a flush that finds the
   transaction, if there is one, ready.
   */
  lemma SentIsAddedAndFound(cfg: Config, es: seq<Event>)
    requires Legal(cfg, START, es)
    ensures var w := Exec(cfg, START, es);
            && w.Some?
            && (forall op | op in w.value.lookedUp :: CameFrom(es, op))
            && (forall c, op | c in SentCalls(w.value.rpcs) + Pending(w.value) && op in c.ops :: CameFrom(es, op))
            && (w.value.dispatches != [] ==> FlushedReady(cfg, es))
  {
    RunsAreSafe(cfg, es);
    RunTraced(cfg, START, es, []);
    assert [] + es == es;
    DispatchIsComplete(cfg, es);
    var w := Exec(cfg, START, es).value;
    var calls := SentCalls(w.rpcs) + Pending(w);
    forall c, op | c in calls && op in c.ops ensures CameFrom(es, op) {
      SomewhereInPlan(cfg, w.lookedUp, calls, c, op);
    }
  }

  lemma SomewhereInPlan(cfg: Config, q: seq<Op>, calls: seq<FlushCall>, c: FlushCall, op: Op)
    requires DistinctSeqnos(q) && calls == Plan(cfg, q) && c in calls && op in c.ops
    ensures op in q
  {
    var a :| 0 <= a < |calls| && calls[a] == c;
    var m :| 0 <= m < |c.ops| && c.ops[m] == op;
    PlannedWasFound(cfg, q, a, m);
  }
}
