/**
 The state of a client batcher and what each region guarded by its mutex does
 to it (src/yb/client/batcher.cc, batcher.h).  Every operation is first given
 as a function on values; the class at the end updates its fields in place and
 is proved to follow those functions.  A failing CHECK is the value None.
 */
module BatcherState {
  import opened FlushPlan
  import opened Options
  import opened SeqMultisets

  type OpId = nat

  datatype Phase = GatheringOps | Flushing | Flushed | Aborted

  datatype OpState = LookingUp | Buffered | RequestSent

  /** A Status, up to its code. */
  datatype Code = Ok | IOError | AbortedCode | Combined | OtherCode(n: nat)

  /** What the batcher asks of a YBOperation. */
  datatype OpInfo = OpInfo(opType: OpType, consistentPrefix: bool, sidecar: bool)

  datatype InFlightOp = InFlightOp(seqno: nat, state: OpState, info: OpInfo)

  datatype Batch = Batch(
    phase: Phase,
    ops: map<OpId, InFlightOp>,
    queue: seq<Op>,
    nextSeqno: nat,
    outstandingLookups: int,
    combinedError: Code,
    hadErrors: bool,
    callbackSet: bool,
    errors: seq<(OpId, Code)>)

  const EMPTY_BATCH := Batch(GatheringOps, map[], [], 0, 0, Ok, false, false, [])

  // ------------------------------------------------------ combining errors

  function Combine(acc: Code, code: Code): Code {
    if acc == Ok then code
    else if acc != Combined && acc != code then Combined
    else acc
  }

  function CombineAll(codes: seq<Code>): Code {
    if codes == [] then Ok
    else Combine(CombineAll(codes[..|codes|-1]), codes[|codes|-1])
  }

  function Codes(errors: seq<(OpId, Code)>): seq<Code> {
    seq(|errors|, i requires 0 <= i < |errors| => errors[i].1)
  }

  /** Without OK among them: no error gives OK, one shared code gives that code, anything else Combined. */
  function Summary(codes: seq<Code>): Code {
    if codes == [] then Ok
    else if forall c | c in codes :: c == codes[0] then codes[0]
    else Combined
  }

  lemma SummarySnoc(s: seq<Code>, c: Code)
    requires s == [] || s[0] != Ok
    ensures Summary(s + [c]) == Combine(Summary(s), c)
  {
    var t := s + [c];
    assert c in t && forall x | x in s :: x in t;
    if s != [] {
      assert t[0] == s[0];
      if d :| d in s && d != s[0] {
        assert d in t;
      }
    }
  }

  function LeadingOks(codes: seq<Code>): (k: nat)
    ensures k <= |codes|
    ensures forall i | 0 <= i < k :: codes[i] == Ok
    ensures k < |codes| ==> codes[k] != Ok
  {
    if codes == [] || codes[0] != Ok then 0 else 1 + LeadingOks(codes[1..])
  }

  /** The running combination in closed form: leading OK codes are absorbed, a later one is a different code. */
  lemma {:induction false} CombineAllForm(codes: seq<Code>, k: nat)
    requires k <= |codes|
    requires forall i | 0 <= i < k :: codes[i] == Ok
    requires k < |codes| ==> codes[k] != Ok
    ensures CombineAll(codes) == Summary(codes[k..])
    decreases |codes|
  {
    if codes == [] {
    } else {
      var init, last := codes[..|codes|-1], codes[|codes|-1];
      if k == |codes| {
        CombineAllForm(init, |init|);
      } else {
        CombineAllForm(init, k);
        assert codes[k..] == init[k..] + [last];
        SummarySnoc(init[k..], last);
      }
    }
  }

  /** With no OK among the reported codes: none gives OK, one shared code gives that code, else Combined. */
  lemma CombinedCode(codes: seq<Code>)
    requires Ok !in codes
    ensures CombineAll(codes) == Summary(codes)
  {
    CombineAllForm(codes, 0);
    assert codes[0..] == codes;
  }

  /** The codes for which the combined code depends on the order in which they arrive. */
  ghost predicate OrderSensitive(codes: seq<Code>) {
    && Ok in codes
    && (exists c | c in codes :: c != Ok && c != Combined)
    && (forall c, d | c in codes && d in codes :: c != Ok && d != Ok ==> c == d)
  }

  /** What the combined code is when the order does not matter; it looks at membership only. */
  ghost function Verdict(codes: seq<Code>): Code {
    if forall c | c in codes :: c == Ok then Ok
    else if c :| c in codes && c != Ok && forall d | d in codes :: d == c then c
    else Combined
  }

  lemma SettledCode(codes: seq<Code>)
    requires !OrderSensitive(codes)
    ensures CombineAll(codes) == Verdict(codes)
  {
    var k := LeadingOks(codes);
    CombineAllForm(codes, k);
    if k < |codes| {
      var head, tail := codes[k], codes[k..];
      assert head == tail[0] && head in codes;
      if forall c | c in codes :: c == head {
        assert forall c | c in tail :: c in codes;
      } else {
        var c :| c in codes && c != head;
        assert Verdict(codes) == Combined;
        if head != Combined {
          var d :| d in codes && d != head && (d != Ok || k == 0);
          var j :| 0 <= j < |codes| && codes[j] == d;
          assert tail[j-k] == d && d in tail;
        }
      }
    }
  }

  lemma SameMembers(s: seq<Code>, t: seq<Code>)
    requires multiset(s) == multiset(t)
    ensures forall c :: c in s <==> c in t
  {
    forall c ensures c in s <==> c in t {
      assert c in s <==> c in multiset(s);
      assert c in t <==> c in multiset(t);
    }
  }

  function Only(codes: seq<Code>, ok: bool): (r: seq<Code>)
    ensures forall c | c in r :: c in codes && (c == Ok <==> ok)
    ensures forall c | c in codes && (c == Ok <==> ok) :: c in r
  {
    if codes == [] then []
    else (if (codes[0] == Ok) == ok then [codes[0]] else []) + Only(codes[1..], ok)
  }

  lemma {:induction false} OnlySplits(codes: seq<Code>)
    ensures multiset(Only(codes, true) + Only(codes, false)) == multiset(codes)
  {
    if codes == [] {
    } else {
      OnlySplits(codes[1..]);
      assert codes == [codes[0]] + codes[1..];
    }
  }

  lemma OksFirst(oks: seq<Code>, bad: seq<Code>)
    requires forall c | c in oks :: c == Ok
    requires bad != [] && bad[0] != Ok
    ensures CombineAll(oks + bad) == Summary(bad)
    ensures CombineAll(bad + oks) == Summary(bad + oks)
  {
    var p, q := oks + bad, bad + oks;
    assert forall i | 0 <= i < |oks| :: p[i] == oks[i] && oks[i] in oks;
    CombineAllForm(p, |oks|);
    assert p[|oks|..] == bad;
    CombineAllForm(q, 0);
    assert q[0..] == q;
  }

  lemma OrdersDiffer(codes: seq<Code>) returns (p: seq<Code>, q: seq<Code>)
    requires OrderSensitive(codes)
    ensures multiset(p) == multiset(q) == multiset(codes)
    ensures CombineAll(p) != CombineAll(q) && CombineAll(p) != Ok && CombineAll(q) != Ok
  {
    var c :| c in codes && c != Ok && c != Combined;
    var oks, bad := Only(codes, true), Only(codes, false);
    p, q := oks + bad, bad + oks;
    assert multiset(p) == multiset(q) == multiset(codes) by {
      OnlySplits(codes);
      assert multiset(q) == multiset(bad) + multiset(oks);
    }
    assert CombineAll(p) == c && CombineAll(q) == Combined by {
      assert c in bad && bad[0] in bad && Ok in oks;
      assert forall d | d in bad :: d == c;
      SummaryDiffers(oks, bad, c);
      OksFirst(oks, bad);
    }
  }

  lemma SummaryDiffers(oks: seq<Code>, bad: seq<Code>, c: Code)
    requires Ok in oks && bad != [] && c != Ok && c != Combined && forall d | d in bad :: d == c
    ensures Summary(bad) == c && Summary(bad + oks) == Combined
  {
    var q := bad + oks;
    assert bad[0] in bad && q[0] == c && Ok in q;
  }

  /**
   The order of the reported codes matters exactly when an OK is among them and
   all the others share one code other than Combined.
   */
  lemma OrderMatters(codes: seq<Code>)
    ensures OrderSensitive(codes) <==>
            exists p :: multiset(p) == multiset(codes) && CombineAll(p) != CombineAll(codes)
  {
    if OrderSensitive(codes) {
      var p, q := OrdersDiffer(codes);
      assert CombineAll(p) != CombineAll(codes) || CombineAll(q) != CombineAll(codes);
    } else {
      SettledCode(codes);
      forall p | multiset(p) == multiset(codes) ensures CombineAll(p) == CombineAll(codes) {
        SameMembers(p, codes);
        SettledCode(p);
      }
    }
  }

  /** The status that a flush delivers for the codes that were reported, in this order. */
  function StatusOf(combine: bool, codes: seq<Code>): Code {
    if combine && CombineAll(codes) != Ok then CombineAll(codes)
    else if codes != [] then IOError
    else Ok
  }

  /** It is IOError just when errors are not combined, or combine to OK or to IOError. */
  lemma StatusForm(combine: bool, codes: seq<Code>)
    ensures var s := Summary(codes[LeadingOks(codes)..]);
            && StatusOf(combine, codes) == (if combine && s != Ok then s else if codes != [] then IOError else Ok)
            && (StatusOf(combine, codes) == IOError <==> codes != [] && (!combine || s == Ok || s == IOError))
  {
    CombineAllForm(codes, LeadingOks(codes));
    if codes == [] {
      assert codes[LeadingOks(codes)..] == [];
    }
  }

  /** The delivered status depends on the order in the same cases, if errors are combined at all. */
  lemma StatusOrderMatters(combine: bool, codes: seq<Code>)
    ensures combine && OrderSensitive(codes) <==>
            exists p :: multiset(p) == multiset(codes) && StatusOf(combine, p) != StatusOf(combine, codes)
  {
    if combine && OrderSensitive(codes) {
      var p, q := OrdersDiffer(codes);
      SameLength(p, codes);
      SameLength(q, codes);
      assert StatusOf(combine, p) != StatusOf(combine, q);
    } else {
      OrderMatters(codes);
      forall p | multiset(p) == multiset(codes) ensures StatusOf(combine, p) == StatusOf(combine, codes) {
        SameLength(p, codes);
        assert !OrderSensitive(codes) ==> CombineAll(p) == CombineAll(codes);
      }
    }
  }

  // ------------------------------------------------- the regions, on values

  function CombineError(b: Batch, cfg: Config, id: OpId, code: Code): Batch {
    b.(errors := b.errors + [(id, code)],
       combinedError := if cfg.combineErrors then Combine(b.combinedError, code) else b.combinedError,
       hadErrors := true)
  }

  function MarkFailed(b: Batch, cfg: Config, id: OpId, code: Code): Option<Batch> {
    if id !in b.ops then None
    else Some(CombineError(b.(ops := b.ops - {id}), cfg, id, code))
  }

  function MarkAllFailed(b: Batch, cfg: Config, ids: seq<OpId>, code: Code): Option<Batch> {
    if ids == [] then Some(b)
    else
      var r := MarkAllFailed(b, cfg, ids[..|ids|-1], code);
      if r.None? then None else MarkFailed(r.value, cfg, ids[|ids|-1], code)
  }

  function CombineAllOps(b: Batch, cfg: Config, ids: seq<OpId>, code: Code): Batch {
    if ids == [] then b
    else CombineError(CombineAllOps(b, cfg, ids[..|ids|-1], code), cfg, ids[|ids|-1], code)
  }

  function EraseAll(b: Batch, ids: seq<OpId>): Option<Batch> {
    if ids == [] then Some(b)
    else
      var r := EraseAll(b, ids[..|ids|-1]);
      var id := ids[|ids|-1];
      if r.None? || id !in r.value.ops then None
      else Some(r.value.(ops := r.value.ops - {id}))
  }

  function WithState(ops: map<OpId, InFlightOp>, st: OpState): set<OpId> {
    set id | id in ops && ops[id].state == st
  }

  /** AddInFlightOp. */
  function AddOp(b: Batch, id: OpId, info: OpInfo): Option<Batch> {
    if b.phase != GatheringOps || id in b.ops then None
    else Some(b.(ops := b.ops[id := InFlightOp(b.nextSeqno, LookingUp, info)],
                 nextSeqno := b.nextSeqno + 1,
                 outstandingLookups := b.outstandingLookups + 1))
  }

  /** The first region of FlushAsync. */
  function BeginFlush(b: Batch): Option<Batch> {
    if b.phase != GatheringOps then None
    else Some(b.(phase := Flushing, callbackSet := true))
  }

  /** What the meta cache answers: a tablet, which a CHECK wants not to be null, or an error. */
  datatype LookupResult = Found(tablet: Option<nat>) | NotFound(code: Code)

  function LookedUp(id: OpId, f: InFlightOp, tablet: nat): Op {
    Op(id, tablet, f.seqno, f.info.opType, f.info.consistentPrefix, f.info.sidecar)
  }

  /** The region of TabletLookupFinished. */
  function FinishLookup(b: Batch, cfg: Config, id: OpId, result: LookupResult): Option<Batch> {
    var b' := b.(outstandingLookups := b.outstandingLookups - 1);
    if b.phase == Aborted then MarkFailed(b', cfg, id, AbortedCode)
    else if result.NotFound? then MarkFailed(b', cfg, id, result.code)
    else if id !in b.ops || b.ops[id].state != LookingUp || result.tablet.None? then None
    else Some(b'.(ops := b.ops[id := b.ops[id].(state := Buffered)],
                  queue := b.queue + [LookedUp(id, b.ops[id], result.tablet.value)]))
  }

  /** Whether CheckForFinishedFlush turns the state to flushed and goes on to run the callback. */
  predicate FlushOver(b: Batch) {
    b.phase == Flushing && b.ops.Keys == {}
  }

  /** The region of CheckForFinishedFlush. */
  function FinishFlush(b: Batch): Batch {
    if FlushOver(b) then b.(phase := Flushed) else b
  }

  datatype Readiness = NotReady | WaitForTransaction | Take

  /** The region of FlushBuffersIfReady; `prepared` is the transaction's answer. */
  function Ready(b: Batch, cfg: Config, prepared: bool): Readiness {
    if b.phase != Flushing || b.outstandingLookups != 0 then NotReady
    else if cfg.transactional && !prepared then WaitForTransaction
    else Take
  }

  function TakeQueue(b: Batch, readiness: Readiness): Batch {
    if readiness == Take then b.(queue := []) else b
  }

  /** RunCallback takes the callback out of its slot; an empty slot is an error. */
  function TakeCallback(b: Batch): Option<Batch> {
    if b.callbackSet then Some(b.(callbackSet := false)) else None
  }

  /** The region of Abort, with the buffered operations in the order in which they were found. */
  function AbortBatch(b: Batch, cfg: Config, code: Code, toAbort: seq<OpId>): Option<Batch> {
    MarkAllFailed(b.(phase := Aborted), cfg, toAbort, code)
  }

  /** Building an RPC marks its operations as sent. */
  function SendOps(b: Batch, ids: seq<OpId>): Batch {
    b.(ops := map id | id in b.ops :: if id in ids then b.ops[id].(state := RequestSent) else b.ops[id])
  }

  /** ProcessRpcStatus: the CHECK, then one error per operation if the whole RPC failed. */
  function RpcStatus(b: Batch, cfg: Config, ids: seq<OpId>, code: Code): Option<Batch> {
    if b.phase != Flushing then None
    else Some(if code == Ok then b else CombineAllOps(b, cfg, ids, code))
  }

  /** A per-row error of a write response; an index out of range is logged and skipped. */
  datatype RowError = RowError(index: int, code: Code)

  function ReportRow(b: Batch, cfg: Config, ids: seq<OpId>, row: RowError): Batch {
    if 0 <= row.index < |ids| then CombineError(b, cfg, ids[row.index], row.code) else b
  }

  function ReportRows(b: Batch, cfg: Config, ids: seq<OpId>, rows: seq<RowError>): Batch {
    if rows == [] then b
    else ReportRow(ReportRows(b, cfg, ids, rows[..|rows|-1]), cfg, ids, rows[|rows|-1])
  }

  function FlushStatus(b: Batch): Code {
    if b.combinedError != Ok then b.combinedError
    else if b.hadErrors then IOError
    else Ok
  }

  /** Nothing but the in-flight set and the error report differs. */
  predicate SameButErrors(b: Batch, c: Batch) {
    && b.phase == c.phase && b.queue == c.queue && b.nextSeqno == c.nextSeqno
    && b.outstandingLookups == c.outstandingLookups && b.callbackSet == c.callbackSet
  }

  lemma {:induction false} MarkAllFailedFrame(b: Batch, cfg: Config, ids: seq<OpId>, code: Code)
    ensures MarkAllFailed(b, cfg, ids, code).Some? ==> SameButErrors(b, MarkAllFailed(b, cfg, ids, code).value)
  {
    if ids == [] {
    } else {
      MarkAllFailedFrame(b, cfg, ids[..|ids|-1], code);
    }
  }

  /** A list of operations that can be failed can be failed one after the other. */
  lemma {:induction false} MarkSomeFailed(b: Batch, cfg: Config, ids: seq<OpId>, i: nat, code: Code)
    requires i <= |ids| && MarkAllFailed(b, cfg, ids, code).Some?
    ensures MarkAllFailed(b, cfg, ids[..i], code).Some?
    decreases |ids|
  {
    if i == |ids| {
      assert ids[..i] == ids;
    } else {
      MarkSomeFailed(b, cfg, ids[..|ids|-1], i, code);
      assert ids[..|ids|-1][..i] == ids[..i];
    }
  }

  /** Failing a list of distinct in-flight operations takes exactly those out. */
  lemma {:induction false} MarkAllFailedForm(b: Batch, cfg: Config, ids: seq<OpId>, code: Code)
    requires forall i, j | 0 <= i < j < |ids| :: ids[i] != ids[j]
    requires forall id | id in ids :: id in b.ops
    ensures MarkAllFailed(b, cfg, ids, code).Some?
    ensures MarkAllFailed(b, cfg, ids, code).value.ops == b.ops - Members(ids)
  {
    if ids == [] {
      assert b.ops - Members(ids) == b.ops;
    } else {
      var init, last := ids[..|ids|-1], ids[|ids|-1];
      MarkAllFailedForm(b, cfg, init, code);
      assert last !in init && last in ids;
      EraseOneMore(b.ops, ids);
    }
  }

  lemma EraseOneMore(ops: map<OpId, InFlightOp>, ids: seq<OpId>)
    requires ids != []
    ensures ops - Members(ids[..|ids|-1]) - {ids[|ids|-1]} == ops - Members(ids)
  {
    var init, last := ids[..|ids|-1], ids[|ids|-1];
    assert ids == init + [last];
    assert Members(ids) == Members(init) + {last};
  }

  lemma {:induction false} EraseAllForm(b: Batch, ids: seq<OpId>)
    requires forall i, j | 0 <= i < j < |ids| :: ids[i] != ids[j]
    requires forall id | id in ids :: id in b.ops
    ensures EraseAll(b, ids) == Some(b.(ops := b.ops - Members(ids)))
  {
    if ids == [] {
      assert b.ops - Members(ids) == b.ops;
    } else {
      var init, last := ids[..|ids|-1], ids[|ids|-1];
      EraseAllForm(b, init);
      assert last !in init && last in ids;
      EraseOneMore(b.ops, ids);
    }
  }

  // --------------------------------------------------- the batcher in place

  class Batcher {
    const cfg: Config
    var phase: Phase
    var ops: map<OpId, InFlightOp>
    var queue: seq<Op>
    var nextSeqno: nat
    var outstandingLookups: int
    var combinedError: Code
    var hadErrors: bool
    var callbackSet: bool
    var errors: seq<(OpId, Code)>

    function View(): Batch
      reads this
    {
      Batch(phase, ops, queue, nextSeqno, outstandingLookups, combinedError, hadErrors, callbackSet, errors)
    }

    constructor (cfg: Config)
      ensures this.cfg == cfg && View() == EMPTY_BATCH
    {
      this.cfg := cfg;
      phase := GatheringOps;
      ops, queue, errors := map[], [], [];
      nextSeqno, outstandingLookups := 0, 0;
      combinedError, hadErrors, callbackSet := Ok, false, false;
    }

    method CombineErrorUnlocked(id: OpId, code: Code)
      modifies this
      ensures View() == CombineError(old(View()), cfg, id, code)
    {
      errors := errors + [(id, code)];
      if cfg.combineErrors {
        if combinedError == Ok {
          combinedError := code;
        } else if combinedError != Combined && combinedError != code {
          combinedError := Combined;
        }
      }
      hadErrors := true;
    }

    method MarkInFlightOpFailedUnlocked(id: OpId, code: Code) returns (check: bool)
      modifies this
      ensures check <==> MarkFailed(old(View()), cfg, id, code).Some?
      ensures check ==> Some(View()) == MarkFailed(old(View()), cfg, id, code)
    {
      check := id in ops;
      if check {
        ops := ops - {id};
        CombineErrorUnlocked(id, code);
      }
    }

    method AddInFlightOp(id: OpId, info: OpInfo) returns (check: bool)
      modifies this
      ensures check <==> AddOp(old(View()), id, info).Some?
      ensures check ==> Some(View()) == AddOp(old(View()), id, info)
    {
      check := phase == GatheringOps && id !in ops;
      if check {
        ops := ops[id := InFlightOp(nextSeqno, LookingUp, info)];
        nextSeqno := nextSeqno + 1;
        outstandingLookups := outstandingLookups + 1;
      }
    }

    method FlushAsync() returns (check: bool)
      modifies this
      ensures check <==> BeginFlush(old(View())).Some?
      ensures check ==> Some(View()) == BeginFlush(old(View()))
    {
      check := phase == GatheringOps;
      if check {
        phase := Flushing;
        callbackSet := true;
      }
    }

    method TabletLookupFinished(id: OpId, result: LookupResult) returns (check: bool)
      modifies this
      ensures check <==> FinishLookup(old(View()), cfg, id, result).Some?
      ensures check ==> Some(View()) == FinishLookup(old(View()), cfg, id, result)
    {
      outstandingLookups := outstandingLookups - 1;
      if phase == Aborted {
        check := MarkInFlightOpFailedUnlocked(id, AbortedCode);
        return;
      }
      match result
      case Found(tablet) =>
        check := id in ops && ops[id].state == LookingUp && tablet.Some?;
        if check {
          queue := queue + [LookedUp(id, ops[id], tablet.value)];
          ops := ops[id := ops[id].(state := Buffered)];
        }
      case NotFound(code) =>
        check := MarkInFlightOpFailedUnlocked(id, code);
    }

    method CheckForFinishedFlush() returns (finished: bool)
      modifies this
      ensures finished <==> FlushOver(old(View()))
      ensures View() == FinishFlush(old(View()))
    {
      if phase != Flushing || ops.Keys != {} {
        return false;
      }
      phase := Flushed;
      return true;
    }

    method Abort(code: Code) returns (toAbort: seq<OpId>, runCallback: bool)
      modifies this
      ensures multiset(toAbort) == multiset(WithState(old(ops), Buffered))
      ensures Some(View()) == AbortBatch(old(View()), cfg, code, toAbort)
      ensures runCallback == old(callbackSet)
    {
      phase := Aborted;
      toAbort := FindBuffered();
      MultisetOfSet(toAbort, WithState(ops, Buffered));
      MarkAllFailedForm(View(), cfg, toAbort, code);
      MarkAllFailedFrame(View(), cfg, toAbort, code);
      MarkInFlightOpsFailed(toAbort, code);
      runCallback := callbackSet;
    }

    /** The second loop of Abort. */
    method MarkInFlightOpsFailed(ids: seq<OpId>, code: Code)
      requires MarkAllFailed(View(), cfg, ids, code).Some?
      modifies this
      ensures Some(View()) == MarkAllFailed(old(View()), cfg, ids, code)
    {
      var i := 0;
      while i < |ids|
        invariant 0 <= i <= |ids|
        invariant Some(View()) == MarkAllFailed(old(View()), cfg, ids[..i], code)
      {
        assert ids[..i+1][..i] == ids[..i];
        MarkSomeFailed(old(View()), cfg, ids, i + 1, code);
        var check := MarkInFlightOpFailedUnlocked(ids[i], code);
        i := i + 1;
      }
      assert ids[..i] == ids;
    }

    /** The first loop of Abort: the set is walked in no particular order. */
    method FindBuffered() returns (toAbort: seq<OpId>)
      ensures multiset(toAbort) == multiset(WithState(ops, Buffered))
    {
      toAbort := [];
      var rest := ops.Keys;
      ghost var done: set<OpId> := {};
      while rest != {}
        invariant rest <= ops.Keys && done == WithState(ops, Buffered) - rest
        invariant multiset(toAbort) == multiset(done)
      {
        var id :| id in rest;
        rest := rest - {id};
        if ops[id].state == Buffered {
          toAbort := toAbort + [id];
          done := done + {id};
        }
      }
      assert done == WithState(ops, Buffered);
    }

    /** Everything up to the sends: the region, the sort and the cut. */
    method FlushBuffersIfReady(prepared: bool) returns (readiness: Readiness, calls: seq<FlushCall>)
      modifies this
      ensures readiness == Ready(old(View()), cfg, prepared)
      ensures View() == TakeQueue(old(View()), readiness)
      ensures calls == if readiness == Take then Plan(cfg, old(queue)) else []
      ensures UniformFlags(cfg, calls)
    {
      calls := [];
      if phase != Flushing || outstandingLookups != 0 {
        return NotReady, [];
      }
      if cfg.transactional && !prepared {
        return WaitForTransaction, [];
      }
      readiness := Take;
      var taken := queue;
      queue := [];
      if taken == [] {
        return;
      }
      var sorted := SortOps(cfg, taken);
      assert |multiset(sorted)| == |multiset(taken)|;
      calls := CutIntoRpcs(cfg, sorted);
    }

    method ProcessRpcStatus(ids: seq<OpId>, code: Code) returns (check: bool)
      modifies this
      ensures check <==> RpcStatus(old(View()), cfg, ids, code).Some?
      ensures check ==> Some(View()) == RpcStatus(old(View()), cfg, ids, code)
    {
      check := phase == Flushing;
      if check && code != Ok {
        var i := 0;
        while i < |ids|
          invariant 0 <= i <= |ids|
          invariant View() == CombineAllOps(old(View()), cfg, ids[..i], code)
        {
          CombineErrorUnlocked(ids[i], code);
          assert ids[..i+1][..i] == ids[..i];
          i := i + 1;
        }
        assert ids[..i] == ids;
      }
    }

    method ProcessRowErrors(ids: seq<OpId>, rows: seq<RowError>)
      modifies this
      ensures View() == ReportRows(old(View()), cfg, ids, rows)
    {
      var i := 0;
      while i < |rows|
        invariant 0 <= i <= |rows|
        invariant View() == ReportRows(old(View()), cfg, ids, rows[..i])
      {
        assert rows[..i+1][..i] == rows[..i];
        var row := rows[i];
        i := i + 1;
        if row.index < 0 || row.index >= |ids| {
          continue;
        }
        CombineErrorUnlocked(ids[row.index], row.code);
      }
      assert rows[..i] == rows;
    }

    method RemoveInFlightOpsAfterFlushing(ids: seq<OpId>) returns (check: bool)
      modifies this
      ensures check <==> EraseAll(old(View()), ids).Some?
      ensures check ==> Some(View()) == EraseAll(old(View()), ids)
    {
      var i := 0;
      while i < |ids|
        invariant 0 <= i <= |ids|
        invariant Some(View()) == EraseAll(old(View()), ids[..i])
      {
        assert ids[..i+1][..i] == ids[..i];
        if ids[i] !in ops {
          EraseAllPrefix(old(View()), ids, i + 1);
          return false;
        }
        ops := ops - {ids[i]};
        i := i + 1;
      }
      assert ids[..i] == ids;
      return true;
    }

    method RunCallback() returns (check: bool)
      modifies this
      ensures check <==> TakeCallback(old(View())).Some?
      ensures View() == if check then TakeCallback(old(View())).value else old(View())
    {
      check := callbackSet;
      callbackSet := false;
    }
  }

  lemma {:induction false} EraseAllPrefix(b: Batch, ids: seq<OpId>, i: nat)
    requires i <= |ids| && EraseAll(b, ids[..i]).None?
    ensures EraseAll(b, ids).None?
    decreases |ids|
  {
    if i < |ids| {
      assert ids[..|ids|-1][..i] == ids[..i];
      EraseAllPrefix(b, ids[..|ids|-1], i);
    } else {
      assert ids[..i] == ids;
    }
  }

  /** A sequence whose multiset is a set has no repeats and the same members. */
  lemma MultisetOfSet(s: seq<OpId>, m: set<OpId>)
    requires multiset(s) == multiset(m)
    ensures forall i, j | 0 <= i < j < |s| :: s[i] != s[j]
    ensures Members(s) == m
    ensures forall x :: x in s <==> x in m
  {
    forall i, j | 0 <= i < j < |s| ensures s[i] != s[j] {
      var rest := s[..j] + s[j+1..];
      assert s == s[..j] + [s[j]] + s[j+1..];
      assert multiset(s) == multiset(rest) + multiset{s[j]};
      assert multiset(m)[s[j]] <= 1;
      assert s[j] !in multiset(rest) && rest[i] in multiset(rest);
    }
    forall x ensures x in s <==> x in m {
      assert x in s <==> x in multiset(s);
      assert x in m <==> x in multiset(m);
    }
  }
}
