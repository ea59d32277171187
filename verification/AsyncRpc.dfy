/**
 How a read or write RPC moves request messages out of its operations and back
 in, and response messages in (src/yb/client/async_rpc.cc).  The operations are
 objects, and nothing keeps a caller from putting one object into a batch twice,
 so the specification tracks messages per object.
 */
module AsyncRpc {

  /** The three request families of a batch. */
  datatype Kind = Redis | Ql | Pgsql

  type Message = seq<int>

  /** What a freshly added element of a batch holds. */
  const EMPTY: Message := []

  datatype ResponseStatus = ResponseOk | ParsingError | ServerError | RestartRequired | RuntimeError

  datatype Response = Response(status: ResponseStatus, error: string, payload: seq<int>)

  /** The status that Failed is given, by the classes it distinguishes. */
  datatype FailureKind = Invalid | IllegalState | TryAgain | OtherFailure

  datatype Failure = Failure(kind: FailureKind, message: string)

  const WRITE_MISMATCH := Failure(IllegalState, "Write response count mismatch")

  const READ_MISMATCH := Failure(IllegalState, "Read response count mismatch")

  /** One list per kind, as in the request and response messages of the tablet server. */
  datatype Batches<T> = Batches(lists: map<Kind, seq<T>>) {
    function Get(k: Kind): seq<T> {
      if k in lists then lists[k] else []
    }

    function Put(k: Kind, s: seq<T>): Batches<T> {
      Batches(lists[k := s])
    }
  }

  // ------------------------------------------------------------- positions

  /** How many of the first `n` operations are of kind `k`. */
  function Count(kinds: seq<Kind>, n: nat, k: Kind): nat
    requires n <= |kinds|
  {
    if n == 0 then 0 else Count(kinds, n - 1, k) + if kinds[n-1] == k then 1 else 0
  }

  /** The index that the running counter of its kind has when the loop reaches operation `i`. */
  function Rank(kinds: seq<Kind>, i: nat): nat
    requires i < |kinds|
  {
    Count(kinds, i, kinds[i])
  }

  /** The places of a kind among the first `n` operations. */
  function PlacesOf(kinds: seq<Kind>, n: nat, k: Kind): set<nat>
    requires n <= |kinds|
  {
    set j: nat | j < n && kinds[j] == k
  }

  /** A rank is the number of operations of the same kind in front. */
  lemma {:induction false} CountIsPlaces(kinds: seq<Kind>, n: nat, k: Kind)
    requires n <= |kinds|
    ensures Count(kinds, n, k) == |PlacesOf(kinds, n, k)|
  {
    if n == 0 {
      assert PlacesOf(kinds, n, k) == {};
    } else {
      CountIsPlaces(kinds, n - 1, k);
      assert PlacesOf(kinds, n, k) == PlacesOf(kinds, n - 1, k) + if kinds[n-1] == k then {n - 1} else {};
    }
  }

  lemma {:induction false} CountMonotone(kinds: seq<Kind>, i: nat, j: nat, k: Kind)
    requires i <= j <= |kinds|
    ensures Count(kinds, i, k) <= Count(kinds, j, k)
    decreases j
  {
    if i == j {
    } else {
      CountMonotone(kinds, i, j - 1, k);
    }
  }

  /** Different positions of one kind have different ranks, in order, all below the count. */
  lemma RankOrder(kinds: seq<Kind>, i: nat, j: nat)
    requires i < j <= |kinds|
    ensures Rank(kinds, i) < Count(kinds, j, kinds[i])
  {
    CountMonotone(kinds, i + 1, j, kinds[i]);
  }

  function Occurrences<O(==)>(ops: seq<O>, n: nat, o: O): nat
    requires n <= |ops|
  {
    if n == 0 then 0 else Occurrences(ops, n - 1, o) + if ops[n-1] == o then 1 else 0
  }

  lemma {:induction false} MemberOccurs<O>(ops: seq<O>, n: nat, i: nat)
    requires i < n <= |ops|
    ensures Occurrences(ops, n, ops[i]) > 0
  {
    if i == n - 1 {
    } else {
      MemberOccurs(ops, n - 1, i);
    }
  }

  // ------------------------------------------------------------ swap loops

  /** Messages held by operations, and messages held by the batch of an RPC. */
  datatype Slots<O, T> = Slots(held: map<O, T>, batch: Batches<T>)

  /**
   The loops of SwapRequestsAndResponses over the first `m` operations: swap what the operation
   holds with the element at its rank; an operation that has no element is passed over.
   */
  ghost function SwapAll<O, T>(s: Slots<O, T>, ops: seq<O>, kinds: seq<Kind>, m: nat): (r: Slots<O, T>)
    requires m <= |ops| == |kinds|
    ensures r.held.Keys == s.held.Keys
  {
    if m == 0 then s
    else
      var r := SwapAll(s, ops, kinds, m - 1);
      SwapOne(r, ops[m-1], kinds[m-1], Rank(kinds, m - 1))
  }

  ghost function SwapOne<O, T>(s: Slots<O, T>, o: O, k: Kind, idx: nat): (r: Slots<O, T>)
    ensures r.held.Keys == s.held.Keys
  {
    if idx >= |s.batch.Get(k)| || o !in s.held then s
    else Slots(s.held[o := s.batch.Get(k)[idx]], s.batch.Put(k, s.batch.Get(k)[idx := s.held[o]]))
  }

  lemma SwapOneSlots<O, T>(s: Slots<O, T>, o: O, k: Kind, idx: nat, k': Kind, j: nat)
    requires j < |s.batch.Get(k')| && (k' != k || j != idx)
    ensures var r := SwapOne(s, o, k, idx).batch.Get(k');
            |r| == |s.batch.Get(k')| && r[j] == s.batch.Get(k')[j]
  {
  }

  /** The loop has not touched the elements of the positions that it has yet to reach. */
  lemma {:induction false} SwapLater<O, T>(s: Slots<O, T>, ops: seq<O>, kinds: seq<Kind>, m: nat, i: nat)
    requires m <= i < |ops| == |kinds|
    requires Rank(kinds, i) < |s.batch.Get(kinds[i])|
    ensures var b := SwapAll(s, ops, kinds, m).batch.Get(kinds[i]);
            |b| == |s.batch.Get(kinds[i])| && b[Rank(kinds, i)] == s.batch.Get(kinds[i])[Rank(kinds, i)]
  {
    if m == 0 {
    } else {
      SwapLater(s, ops, kinds, m - 1, i);
      RankOrder(kinds, m - 1, i);
      SwapOneSlots(SwapAll(s, ops, kinds, m - 1), ops[m-1], kinds[m-1], Rank(kinds, m - 1), kinds[i], Rank(kinds, i));
    }
  }

  /** What the operation at position `m` holds right after its turn. */
  lemma SwapTurn<O, T>(s: Slots<O, T>, ops: seq<O>, kinds: seq<Kind>, m: nat)
    requires m < |ops| == |kinds|
    requires Rank(kinds, m) < |s.batch.Get(kinds[m])|
    requires ops[m] in s.held
    ensures SwapAll(s, ops, kinds, m + 1).held
            == SwapAll(s, ops, kinds, m).held[ops[m] := s.batch.Get(kinds[m])[Rank(kinds, m)]]
  {
    SwapLater(s, ops, kinds, m, m);
  }

  /** The states that a loop goes through: `i` operations have had their turn in the state number `i`. */
  ghost predicate SwapsAt<O, T>(st: seq<Slots<O, T>>, ops: seq<O>, kinds: seq<Kind>, i: nat)
    requires i < |ops| == |kinds| && |st| == |ops| + 1
  {
    && st[i+1] == SwapOne(st[i], ops[i], kinds[i], Rank(kinds, i))
    && |st[i].batch.Get(kinds[i])| == |st[0].batch.Get(kinds[i])|
  }

  lemma SwapStages<O, T>(s: Slots<O, T>, ops: seq<O>, kinds: seq<Kind>, m: nat) returns (st: seq<Slots<O, T>>)
    requires m <= |ops| == |kinds|
    ensures |st| == |ops| + 1 && st[0] == s && st[m] == SwapAll(s, ops, kinds, m)
    ensures forall i: nat | i < |ops| :: SwapsAt(st, ops, kinds, i)
  {
    st := seq(|ops| + 1, i requires 0 <= i <= |ops| => SwapAll(s, ops, kinds, i));
    forall i: nat | i < |ops| ensures SwapsAt(st, ops, kinds, i) {
      SwapSizes(s, ops, kinds, i, kinds[i]);
    }
  }

  // -------------------------------------------------------------- requests

  /** The constructor's loop over the first `m` operations: add an empty element to the batch and swap it in. */
  ghost function Load<O>(reqs: map<O, Message>, ops: seq<O>, kinds: seq<Kind>, m: nat): (r: Slots<O, Message>)
    requires m <= |ops| == |kinds|
    ensures r.held.Keys == reqs.Keys
  {
    if m == 0 then Slots(reqs, Batches(map[]))
    else LoadOne(Load(reqs, ops, kinds, m - 1), ops[m-1], kinds[m-1])
  }

  ghost function LoadOne<O>(s: Slots<O, Message>, o: O, k: Kind): (r: Slots<O, Message>)
    ensures r.held.Keys == s.held.Keys
  {
    if o !in s.held then s
    else Slots(s.held[o := EMPTY], s.batch.Put(k, s.batch.Get(k) + [s.held[o]]))
  }

  /** The element of the loaded batch that belongs to position `i`. */
  ghost function SlotOf<O>(reqs: map<O, Message>, ops: seq<O>, i: nat): Message
    requires i < |ops| && ops[i] in reqs
  {
    if Occurrences(ops, i, ops[i]) > 0 then EMPTY else reqs[ops[i]]
  }

  ghost predicate LoadsAt<O>(st: seq<Slots<O, Message>>, ops: seq<O>, kinds: seq<Kind>, i: nat)
    requires i < |ops| == |kinds| && |st| == |ops| + 1
  {
    st[i+1] == LoadOne(st[i], ops[i], kinds[i])
  }

  lemma LoadStages<O>(reqs: map<O, Message>, ops: seq<O>, kinds: seq<Kind>) returns (st: seq<Slots<O, Message>>)
    requires |ops| == |kinds|
    ensures |st| == |ops| + 1 && st[0] == Slots(reqs, Batches(map[])) && st[|ops|] == Load(reqs, ops, kinds, |ops|)
    ensures forall i: nat | i < |ops| :: LoadsAt(st, ops, kinds, i)
  {
    st := seq(|ops| + 1, i requires 0 <= i <= |ops| => Load(reqs, ops, kinds, i));
  }

  lemma LoadGrows<O>(s: Slots<O, Message>, o: O, k: Kind, k': Kind)
    requires o in s.held
    ensures LoadOne(s, o, k).batch.Get(k') == s.batch.Get(k') + if k' == k then [s.held[o]] else []
  {
  }

  lemma LoadGrowsBy<O>(s: Slots<O, Message>, o: O, k: Kind, k': Kind)
    requires o in s.held
    ensures |LoadOne(s, o, k).batch.Get(k')| == |s.batch.Get(k')| + if k' == k then 1 else 0
  {
    LoadGrows(s, o, k, k');
  }

  lemma {:induction false} LoadSizes<O>(reqs: map<O, Message>, ops: seq<O>, kinds: seq<Kind>, m: nat, k: Kind)
    requires m <= |ops| == |kinds| && forall o | o in ops :: o in reqs
    ensures |Load(reqs, ops, kinds, m).batch.Get(k)| == Count(kinds, m, k)
  {
    if m == 0 {
    } else {
      LoadSizes(reqs, ops, kinds, m - 1, k);
      LoadGrowsBy(Load(reqs, ops, kinds, m - 1), ops[m-1], kinds[m-1], k);
    }
  }

  /** Loading leaves every operation of the batch with an empty request. */
  lemma {:induction false} LoadEmpties<O>(reqs: map<O, Message>, ops: seq<O>, kinds: seq<Kind>, m: nat, o: O)
    requires m <= |ops| == |kinds| && o in reqs
    ensures Load(reqs, ops, kinds, m).held[o] == if Occurrences(ops, m, o) > 0 then EMPTY else reqs[o]
  {
    if m == 0 {
    } else {
      LoadEmpties(reqs, ops, kinds, m - 1, o);
    }
  }

  lemma LastSlot<O>(reqs: map<O, Message>, ops: seq<O>, kinds: seq<Kind>, i: nat)
    requires i < |ops| == |kinds| && forall o | o in ops :: o in reqs
    ensures var b := Load(reqs, ops, kinds, i + 1).batch.Get(kinds[i]);
            Rank(kinds, i) < |b| && b[Rank(kinds, i)] == SlotOf(reqs, ops, i)
  {
    LoadGrows(Load(reqs, ops, kinds, i), ops[i], kinds[i], kinds[i]);
    LoadSizes(reqs, ops, kinds, i, kinds[i]);
    LoadEmpties(reqs, ops, kinds, i, ops[i]);
  }

  /** After loading, the request of an object sits in the batch at the rank of its first occurrence. */
  lemma {:induction false} LoadSlots<O>(reqs: map<O, Message>, ops: seq<O>, kinds: seq<Kind>, m: nat, i: nat)
    requires i < m <= |ops| == |kinds| && forall o | o in ops :: o in reqs
    ensures var b := Load(reqs, ops, kinds, m).batch.Get(kinds[i]);
            Rank(kinds, i) < |b| && b[Rank(kinds, i)] == SlotOf(reqs, ops, i)
  {
    if i == m - 1 {
      LastSlot(reqs, ops, kinds, i);
    } else {
      LoadSlots(reqs, ops, kinds, m - 1, i);
      LoadGrows(Load(reqs, ops, kinds, m - 1), ops[m-1], kinds[m-1], kinds[i]);
    }
  }

  lemma RestoreTurn<O>(reqs: map<O, Message>, ops: seq<O>, kinds: seq<Kind>, m: nat)
    requires m < |ops| == |kinds| && forall x | x in ops :: x in reqs
    ensures var l := Load(reqs, ops, kinds, |ops|);
            SwapAll(l, ops, kinds, m + 1).held == SwapAll(l, ops, kinds, m).held[ops[m] := SlotOf(reqs, ops, m)]
  {
    LoadSlots(reqs, ops, kinds, |ops|, m);
    SwapTurn(Load(reqs, ops, kinds, |ops|), ops, kinds, m);
  }

  /** The restoring loop gives the operation at position `i` the element that belongs to the position. */
  ghost predicate RestoredAt<O>(held: seq<map<O, Message>>, reqs: map<O, Message>, ops: seq<O>, i: nat)
    requires i < |ops| && ops[i] in reqs && |held| == |ops| + 1
  {
    held[i+1] == held[i][ops[i] := SlotOf(reqs, ops, i)]
  }

  lemma {:induction false} RestoreSteps<O>(held: seq<map<O, Message>>, reqs: map<O, Message>, ops: seq<O>, m: nat, o: O)
    requires m <= |ops| && |held| == |ops| + 1 && o in reqs && forall x | x in ops :: x in reqs
    requires o in held[0] && held[0][o] == EMPTY && forall i: nat | i < |ops| :: RestoredAt(held, reqs, ops, i)
    ensures o in held[m] && held[m][o] == if Occurrences(ops, m, o) == 1 then reqs[o] else EMPTY
  {
    if m == 0 {
    } else {
      RestoreSteps(held, reqs, ops, m - 1, o);
      assert RestoredAt(held, reqs, ops, m - 1);
    }
  }

  /** What the restoring loop has done after `m` operations: a second occurrence takes the request away again. */
  lemma RestoreForm<O>(reqs: map<O, Message>, ops: seq<O>, kinds: seq<Kind>, m: nat, o: O)
    requires m <= |ops| == |kinds| && o in reqs && Occurrences(ops, |ops|, o) > 0
    requires forall x | x in ops :: x in reqs
    ensures SwapAll(Load(reqs, ops, kinds, |ops|), ops, kinds, m).held[o]
            == if Occurrences(ops, m, o) == 1 then reqs[o] else EMPTY
  {
    var l := Load(reqs, ops, kinds, |ops|);
    var held := seq(|ops| + 1, i requires 0 <= i <= |ops| => SwapAll(l, ops, kinds, i).held);
    LoadEmpties(reqs, ops, kinds, |ops|, o);
    forall i: nat | i < |ops| ensures RestoredAt(held, reqs, ops, i) {
      RestoreTurn(reqs, ops, kinds, i);
    }
    RestoreSteps(held, reqs, ops, m, o);
  }

  /**
   Over the whole life of an RPC, an operation gets its request back if and only if
   it is in the batch once, or its request was empty to begin with.
   */
  lemma RequestSurvives<O>(reqs: map<O, Message>, ops: seq<O>, kinds: seq<Kind>, o: O)
    requires |ops| == |kinds| && o in ops && forall x | x in ops :: x in reqs
    ensures SwapAll(Load(reqs, ops, kinds, |ops|), ops, kinds, |ops|).held[o] == reqs[o]
            <==> Occurrences(ops, |ops|, o) == 1 || reqs[o] == EMPTY
  {
    var i :| 0 <= i < |ops| && ops[i] == o;
    MemberOccurs(ops, |ops|, i);
    RestoreForm(reqs, ops, kinds, |ops|, o);
  }

  // ------------------------------------------------------------- responses

  /** What Failed writes into an operation: a PostgreSQL response keeps its payload, the others are cleared. */
  function ErrorResponse(k: Kind, f: Failure, moved: string, was: Response): Response {
    match k
    case Redis =>
      if f.kind == IllegalState then Response(ServerError, moved, [])
      else Response(if f.kind == Invalid then ParsingError else ServerError, f.message, [])
    case Ql =>
      Response(if f.kind == TryAgain then RestartRequired else RuntimeError, f.message, [])
    case Pgsql =>
      was.(status := if f.kind == TryAgain then RestartRequired else RuntimeError, error := f.message)
  }

  /**
   What the response of an operation tells of a failure: a restart exactly for a status to try again, a parsing
   error exactly for an invalid Redis command, and where the key has moved exactly for a Redis operation in an
   illegal state.
   */
  ghost predicate Tells(k: Kind, f: Failure, moved: string, now: Response) {
    && (k == Redis ==> now.status == if f.kind == Invalid then ParsingError else ServerError)
    && (k != Redis ==> now.status == if f.kind == TryAgain then RestartRequired else RuntimeError)
    && now.error == (if k == Redis && f.kind == IllegalState then moved else f.message)
    && (k != Pgsql ==> now.payload == [])
  }

  /** An operation ends with the response at the rank, among its kind, of its last occurrence. */
  lemma {:induction false} AnswerForm<O>(s: Slots<O, Response>, ops: seq<O>, kinds: seq<Kind>, m: nat, i: nat)
    requires i < m <= |ops| == |kinds| && ops[i] in s.held
    requires Rank(kinds, i) < |s.batch.Get(kinds[i])|
    requires forall j | i < j < m :: ops[j] != ops[i]
    ensures SwapAll(s, ops, kinds, m).held[ops[i]] == s.batch.Get(kinds[i])[Rank(kinds, i)]
  {
    if i == m - 1 {
      SwapTurn(s, ops, kinds, i);
    } else {
      AnswerForm(s, ops, kinds, m - 1, i);
    }
  }

  /** An operation for which there is no response at its rank keeps the response it had. */
  lemma {:induction false} Unanswered<O>(s: Slots<O, Response>, ops: seq<O>, kinds: seq<Kind>, m: nat, o: O)
    requires m <= |ops| == |kinds| && o in s.held
    requires forall i | 0 <= i < m && ops[i] == o :: Rank(kinds, i) >= |s.batch.Get(kinds[i])|
    ensures SwapAll(s, ops, kinds, m).held[o] == s.held[o]
  {
    if m == 0 {
    } else {
      Unanswered(s, ops, kinds, m - 1, o);
      SwapSizes(s, ops, kinds, m - 1, kinds[m-1]);
    }
  }

  lemma {:induction false} SwapSizes<O, T>(s: Slots<O, T>, ops: seq<O>, kinds: seq<Kind>, m: nat, k: Kind)
    requires m <= |ops| == |kinds|
    ensures |SwapAll(s, ops, kinds, m).batch.Get(k)| == |s.batch.Get(k)|
  {
    if m == 0 {
    } else {
      SwapSizes(s, ops, kinds, m - 1, k);
    }
  }

  /** The loop of Failed over the first `m` operations. */
  ghost function FailAll<O>(resps: map<O, Response>, ops: seq<O>, kinds: seq<Kind>, moved: map<O, string>,
                            f: Failure, m: nat): (r: map<O, Response>)
    requires m <= |ops| == |kinds|
    ensures r.Keys == resps.Keys
  {
    if m == 0 then resps
    else
      var r := FailAll(resps, ops, kinds, moved, f, m - 1);
      if ops[m-1] !in r || ops[m-1] !in moved then r
      else r[ops[m-1] := ErrorResponse(kinds[m-1], f, moved[ops[m-1]], r[ops[m-1]])]
  }

  lemma {:induction false} FailAllTells<O>(resps: map<O, Response>, ops: seq<O>, kinds: seq<Kind>,
                                           moved: map<O, string>, f: Failure, m: nat, i: nat)
    requires i < m <= |ops| == |kinds| && ops[i] in resps && ops[i] in moved
    requires forall j | i < j < m :: ops[j] != ops[i]
    ensures Tells(kinds[i], f, moved[ops[i]], FailAll(resps, ops, kinds, moved, f, m)[ops[i]])
  {
    if i == m - 1 {
    } else {
      FailAllTells(resps, ops, kinds, moved, f, m - 1, i);
    }
  }

  /** A PostgreSQL response keeps its payload. */
  lemma {:induction false} FailAllKeepsPayload<O>(resps: map<O, Response>, ops: seq<O>, kinds: seq<Kind>,
                                                  moved: map<O, string>, f: Failure, m: nat, o: O)
    requires m <= |ops| == |kinds| && o in resps && forall j | 0 <= j < m && ops[j] == o :: kinds[j] == Pgsql
    ensures FailAll(resps, ops, kinds, moved, f, m)[o].payload == resps[o].payload
  {
    if m == 0 {
    } else {
      FailAllKeepsPayload(resps, ops, kinds, moved, f, m - 1, o);
    }
  }

  lemma {:induction false} LastPlace<O>(ops: seq<O>, n: nat, o: O) returns (i: nat)
    requires n <= |ops| && o in ops[..n]
    ensures i < n && ops[i] == o && forall j | i < j < n :: ops[j] != o
    decreases n
  {
    if ops[n-1] == o {
      i := n - 1;
    } else {
      assert ops[..n] == ops[..n-1] + [ops[n-1]];
      i := LastPlace(ops, n - 1, o);
    }
  }

  ghost predicate FailsAt<O>(st: seq<map<O, Response>>, ops: seq<O>, kinds: seq<Kind>, moved: map<O, string>,
                             f: Failure, i: nat)
    requires i < |ops| == |kinds| && |st| == |ops| + 1
  {
    ops[i] in st[i] && ops[i] in moved ==>
      st[i+1] == st[i][ops[i] := ErrorResponse(kinds[i], f, moved[ops[i]], st[i][ops[i]])]
  }

  lemma FailStages<O>(resps: map<O, Response>, ops: seq<O>, kinds: seq<Kind>, moved: map<O, string>, f: Failure)
    returns (st: seq<map<O, Response>>)
    requires |ops| == |kinds|
    ensures |st| == |ops| + 1 && st[0] == resps && st[|ops|] == FailAll(resps, ops, kinds, moved, f, |ops|)
    ensures forall i: nat | i < |ops| :: FailsAt(st, ops, kinds, moved, f, i)
  {
    st := seq(|ops| + 1, i requires 0 <= i <= |ops| => FailAll(resps, ops, kinds, moved, f, i));
  }

  lemma {:induction false} FailAllForm<O>(resps: map<O, Response>, ops: seq<O>, kinds: seq<Kind>,
                                          moved: map<O, string>, f: Failure, m: nat, i: nat)
    requires i < m <= |ops| == |kinds| && ops[i] in resps && ops[i] in moved
    ensures FailAll(resps, ops, kinds, moved, f, m)[ops[i]].status != ResponseOk
  {
    if i == m - 1 {
    } else {
      FailAllForm(resps, ops, kinds, moved, f, m - 1, i);
    }
  }

  /** As many responses of each kind as there are operations of it. */
  predicate CountsMatch(b: Batches<Response>, kinds: seq<Kind>) {
    && |b.Get(Redis)| == Count(kinds, |kinds|, Redis)
    && |b.Get(Ql)| == Count(kinds, |kinds|, Ql)
    && |b.Get(Pgsql)| == Count(kinds, |kinds|, Pgsql)
  }

  /** Some kind has fewer responses than operations. */
  predicate Short(b: Batches<Response>, kinds: seq<Kind>) {
    || |b.Get(Redis)| < Count(kinds, |kinds|, Redis)
    || |b.Get(Ql)| < Count(kinds, |kinds|, Ql)
    || |b.Get(Pgsql)| < Count(kinds, |kinds|, Pgsql)
  }

  /** Where the loop of a read RPC gives up: the first operation without a response. */
  function FirstUnanswered(b: Batches<Response>, kinds: seq<Kind>, i: nat): (r: nat)
    requires i <= |kinds|
    ensures i <= r <= |kinds|
    ensures r < |kinds| ==> Rank(kinds, r) >= |b.Get(kinds[r])|
    ensures forall j | i <= j < r :: Rank(kinds, j) < |b.Get(kinds[j])|
    decreases |kinds| - i
  {
    if i == |kinds| || Rank(kinds, i) >= |b.Get(kinds[i])| then i else FirstUnanswered(b, kinds, i + 1)
  }

  /** The loop of a read RPC gives up exactly when some kind is short. */
  lemma GivesUpWhenShort(b: Batches<Response>, kinds: seq<Kind>)
    ensures FirstUnanswered(b, kinds, 0) < |kinds| <==> Short(b, kinds)
  {
    var r := FirstUnanswered(b, kinds, 0);
    if r < |kinds| {
      RankOrder(kinds, r, |kinds|);
    } else {
      AllRanksCovered(b, kinds, |kinds|, Redis);
      AllRanksCovered(b, kinds, |kinds|, Ql);
      AllRanksCovered(b, kinds, |kinds|, Pgsql);
    }
  }

  lemma {:induction false} AllRanksCovered(b: Batches<Response>, kinds: seq<Kind>, m: nat, k: Kind)
    requires m <= |kinds| && forall j | 0 <= j < m :: Rank(kinds, j) < |b.Get(kinds[j])|
    ensures Count(kinds, m, k) <= |b.Get(k)|
  {
    if m == 0 {
    } else {
      AllRanksCovered(b, kinds, m - 1, k);
    }
  }

  /** What an RPC makes of a response: the responses of the operations, and whether a mismatch was signalled. */
  datatype Outcome<O> = Outcome(resps: map<O, Response>, mismatch: bool)

  /** All responses are handed out, and a mismatch of the counts turns them into errors. */
  ghost function FullOutcome<O>(s: Slots<O, Response>, ops: seq<O>, kinds: seq<Kind>, moved: map<O, string>,
                                f: Failure): Outcome<O>
    requires |ops| == |kinds|
  {
    var answered := SwapAll(s, ops, kinds, |ops|).held;
    if CountsMatch(s.batch, kinds) then Outcome(answered, false)
    else Outcome(FailAll(answered, ops, kinds, moved, f, |ops|), true)
  }

  ghost function WriteOutcome<O>(s: Slots<O, Response>, ops: seq<O>, kinds: seq<Kind>,
                                 moved: map<O, string>): Outcome<O>
    requires |ops| == |kinds|
  {
    FullOutcome(s, ops, kinds, moved, WRITE_MISMATCH)
  }

  ghost function ReadOutcome<O>(s: Slots<O, Response>, ops: seq<O>, kinds: seq<Kind>,
                                moved: map<O, string>): Outcome<O>
    requires |ops| == |kinds|
  {
    var stop := FirstUnanswered(s.batch, kinds, 0);
    if stop < |ops| then Outcome(SwapAll(s, ops, kinds, stop).held, true)
    else FullOutcome(s, ops, kinds, moved, READ_MISMATCH)
  }

  lemma MatchCovers(b: Batches<Response>, kinds: seq<Kind>, i: nat)
    requires i < |kinds| && CountsMatch(b, kinds)
    ensures Rank(kinds, i) < |b.Get(kinds[i])|
  {
    RankOrder(kinds, i, |kinds|);
  }

  lemma FullAnswers<O>(s: Slots<O, Response>, ops: seq<O>, kinds: seq<Kind>, moved: map<O, string>, f: Failure, i: nat)
    requires i < |ops| == |kinds| && ops[i] in s.held && ops[i] in moved
    ensures var r := FullOutcome(s, ops, kinds, moved, f);
            && (r.mismatch <==> !CountsMatch(s.batch, kinds))
            && (r.mismatch ==> r.resps[ops[i]].status != ResponseOk)
            && ((forall j | i < j < |ops| :: ops[j] != ops[i]) ==>
                  if r.mismatch then Tells(kinds[i], f, moved[ops[i]], r.resps[ops[i]])
                  else Rank(kinds, i) < |s.batch.Get(kinds[i])|
                       && r.resps[ops[i]] == s.batch.Get(kinds[i])[Rank(kinds, i)])
  {
    var isLast := forall j | i < j < |ops| :: ops[j] != ops[i];
    if CountsMatch(s.batch, kinds) {
      MatchCovers(s.batch, kinds, i);
      if isLast {
        AnswerForm(s, ops, kinds, |ops|, i);
      }
    } else {
      var answered := SwapAll(s, ops, kinds, |ops|).held;
      FailAllForm(answered, ops, kinds, moved, f, |ops|, i);
      if isLast {
        FailAllTells(answered, ops, kinds, moved, f, |ops|, i);
      }
    }
  }

  /** With matching counts each operation gets the response at its rank; otherwise all tell of the mismatch. */
  lemma WriteAnswers<O>(s: Slots<O, Response>, ops: seq<O>, kinds: seq<Kind>, moved: map<O, string>, i: nat)
    requires i < |ops| == |kinds| && ops[i] in s.held && ops[i] in moved
    ensures var r := WriteOutcome(s, ops, kinds, moved);
            && (r.mismatch <==> !CountsMatch(s.batch, kinds))
            && (r.mismatch ==> r.resps[ops[i]].status != ResponseOk)
            && ((forall j | i < j < |ops| :: ops[j] != ops[i]) ==>
                  if r.mismatch then Tells(kinds[i], WRITE_MISMATCH, moved[ops[i]], r.resps[ops[i]])
                  else Rank(kinds, i) < |s.batch.Get(kinds[i])|
                       && r.resps[ops[i]] == s.batch.Get(kinds[i])[Rank(kinds, i)])
  {
    FullAnswers(s, ops, kinds, moved, WRITE_MISMATCH, i);
  }

  ghost predicate Distinct<O>(ops: seq<O>) {
    forall i, j | 0 <= i < j < |ops| :: ops[i] != ops[j]
  }

  /**
   A read signals a mismatch in the same cases, but turns the responses into errors only when no kind is
   short.  When one is, the operations before the one at which the loop gives up have the response at their
   rank, and that one and those behind it keep the response they had.
   */
  lemma ReadAnswers<O>(s: Slots<O, Response>, ops: seq<O>, kinds: seq<Kind>, moved: map<O, string>, i: nat)
    requires i < |ops| == |kinds| && ops[i] in s.held && ops[i] in moved
    ensures var r := ReadOutcome(s, ops, kinds, moved);
            && (r.mismatch <==> !CountsMatch(s.batch, kinds))
            && (Short(s.batch, kinds) ==> r.mismatch)
            && (r.mismatch && !Short(s.batch, kinds) ==> r.resps[ops[i]].status != ResponseOk)
            && (!r.mismatch && (forall j | i < j < |ops| :: ops[j] != ops[i]) ==>
                  Rank(kinds, i) < |s.batch.Get(kinds[i])|
                  && r.resps[ops[i]] == s.batch.Get(kinds[i])[Rank(kinds, i)])
            && (Short(s.batch, kinds) && Distinct(ops) ==>
                  if i < FirstUnanswered(s.batch, kinds, 0) then
                    Rank(kinds, i) < |s.batch.Get(kinds[i])|
                    && r.resps[ops[i]] == s.batch.Get(kinds[i])[Rank(kinds, i)]
                  else r.resps[ops[i]] == s.held[ops[i]])
  {
    GivesUpWhenShort(s.batch, kinds);
    if Short(s.batch, kinds) {
      if Distinct(ops) {
        ReadAnswersShort(s, ops, kinds, i);
      }
    } else {
      FullAnswers(s, ops, kinds, moved, READ_MISMATCH, i);
    }
  }

  lemma ReadAnswersShort<O>(s: Slots<O, Response>, ops: seq<O>, kinds: seq<Kind>, i: nat)
    requires i < |ops| == |kinds| && ops[i] in s.held && Distinct(ops)
    ensures var stop := FirstUnanswered(s.batch, kinds, 0);
            var answered := SwapAll(s, ops, kinds, stop).held;
            if i < stop then
              Rank(kinds, i) < |s.batch.Get(kinds[i])|
              && answered[ops[i]] == s.batch.Get(kinds[i])[Rank(kinds, i)]
            else answered[ops[i]] == s.held[ops[i]]
  {
    var stop := FirstUnanswered(s.batch, kinds, 0);
    if i < stop {
      AnswerForm(s, ops, kinds, stop, i);
    } else {
      Unanswered(s, ops, kinds, stop, ops[i]);
    }
  }

  /** A mismatch turns every response of a read into an error exactly when no kind is short. */
  lemma ReadMismatchFailsAll<O>(s: Slots<O, Response>, ops: seq<O>, kinds: seq<Kind>, moved: map<O, string>)
    requires |ops| == |kinds| && Distinct(ops)
    requires forall o | o in ops :: o in s.held && o in moved && s.held[o].status == ResponseOk
    ensures var r := ReadOutcome(s, ops, kinds, moved);
            r.mismatch ==>
              ((forall o | o in ops :: r.resps[o].status != ResponseOk) <==> !Short(s.batch, kinds))
  {
    var r := ReadOutcome(s, ops, kinds, moved);
    if Short(s.batch, kinds) {
      GivesUpWhenShort(s.batch, kinds);
      var stop := FirstUnanswered(s.batch, kinds, 0);
      ReadAnswers(s, ops, kinds, moved, stop);
      assert ops[stop] in ops;
    } else if r.mismatch {
      forall o | o in ops ensures r.resps[o].status != ResponseOk {
        var i :| 0 <= i < |ops| && ops[i] == o;
        ReadAnswers(s, ops, kinds, moved, i);
      }
    }
  }

  // ---------------------------------------------------------- the RPC in place

  /** An operation as its caller sees it; `moved` is the text that points a Redis client elsewhere. */
  class YbOp {
    const kind: Kind
    const moved: string
    var request: Message
    var response: Response

    constructor (kind: Kind, moved: string, request: Message, response: Response)
      ensures this.kind == kind && this.moved == moved && this.request == request && this.response == response
    {
      this.kind, this.moved, this.request, this.response := kind, moved, request, response;
    }
  }

  function KindsOf(ops: seq<YbOp>): (kinds: seq<Kind>)
    ensures |kinds| == |ops|
  {
    seq(|ops|, i requires 0 <= i < |ops| => ops[i].kind)
  }

  ghost function Requests(ops: seq<YbOp>): map<YbOp, Message>
    reads ops
  {
    map o | o in ops :: o.request
  }

  ghost function Responses(ops: seq<YbOp>): map<YbOp, Response>
    reads ops
  {
    map o | o in ops :: o.response
  }

  ghost function Moved(ops: seq<YbOp>): map<YbOp, string> {
    map o | o in ops :: o.moved
  }

  /** Every operation tells of the failure, and the PostgreSQL ones keep their payload. */
  ghost predicate AllTell(ops: seq<YbOp>, f: Failure, was: map<YbOp, Response>, now: map<YbOp, Response>) {
    forall o | o in ops ::
      && o in was && o in now && Tells(o.kind, f, o.moved, now[o])
      && (o.kind == Pgsql ==> now[o].payload == was[o].payload)
  }

  lemma AllWillTell(ops: seq<YbOp>, f: Failure, was: map<YbOp, Response>)
    requires forall o | o in ops :: o in was
    ensures AllTell(ops, f, was, FailAll(was, ops, KindsOf(ops), Moved(ops), f, |ops|))
  {
    var kinds, moved := KindsOf(ops), Moved(ops);
    forall o | o in ops
      ensures Tells(o.kind, f, o.moved, FailAll(was, ops, kinds, moved, f, |ops|)[o])
      ensures o.kind == Pgsql ==> FailAll(was, ops, kinds, moved, f, |ops|)[o].payload == was[o].payload
    {
      assert ops[..|ops|] == ops;
      var i := LastPlace(ops, |ops|, o);
      FailAllTells(was, ops, kinds, moved, f, |ops|, i);
      if o.kind == Pgsql {
        FailAllKeepsPayload(was, ops, kinds, moved, f, |ops|, o);
      }
    }
  }

  class Rpc {
    const ops: seq<YbOp>
    var req: Batches<Message>
    var resp: Batches<Response>
    var mismatches: nat // calls of AddOpCountMismatchError
    ghost var originals: map<YbOp, Message> // the requests that the operations came with

    /** What the operations and the request message hold, together. */
    ghost function RequestSlots(): Slots<YbOp, Message>
      reads this, ops
    {
      Slots(Requests(ops), req)
    }

    ghost function ResponseSlots(): Slots<YbOp, Response>
      reads this, ops
    {
      Slots(Responses(ops), resp)
    }

    /** The requests are in the batch, as the constructor put them there. */
    ghost predicate Sendable()
      reads this, ops
    {
      originals.Keys == Requests(ops).Keys && RequestSlots() == Load(originals, ops, KindsOf(ops), |ops|)
    }

    constructor (ops: seq<YbOp>)
      modifies ops
      ensures this.ops == ops && mismatches == 0
      ensures Sendable() && originals == old(Requests(ops))
      ensures Responses(ops) == old(Responses(ops))
    {
      this.ops := ops;
      req := Batches(map[]);
      resp := Batches(map[]);
      mismatches := 0;
      originals := Requests(ops);
      new;
      MoveRequests();
    }

    /** The loop of the constructors. */
    method MoveRequests()
      requires req == Batches(map[]) && originals == Requests(ops)
      modifies this`req, ops
      ensures Sendable()
      ensures Responses(ops) == old(Responses(ops))
    {
      ghost var kinds := KindsOf(ops);
      ghost var stages := LoadStages(Requests(ops), ops, kinds);
      var i := 0;
      while i < |ops|
        invariant 0 <= i <= |ops|
        invariant RequestSlots() == stages[i]
        invariant Responses(ops) == old(Responses(ops))
      {
        assert LoadsAt(stages, ops, kinds, i);
        MoveRequest(ops[i]);
        i := i + 1;
      }
    }

    /** Add an element to the batch of the operation's kind and swap it with the operation's request. */
    method MoveRequest(op: YbOp)
      requires op in ops
      modifies this`req, op`request
      ensures RequestSlots() == LoadOne(old(RequestSlots()), op, op.kind)
      ensures Responses(ops) == old(Responses(ops))
    {
      req := req.Put(op.kind, req.Get(op.kind) + [op.request]);
      op.request := EMPTY;
    }

    method SwapRequest(op: YbOp, idx: nat)
      requires op in ops && idx < |req.Get(op.kind)|
      modifies this`req, op`request
      ensures RequestSlots() == SwapOne(old(RequestSlots()), op, op.kind, idx)
      ensures Responses(ops) == old(Responses(ops))
    {
      var list := req.Get(op.kind);
      req := req.Put(op.kind, list[idx := op.request]);
      op.request := list[idx];
    }

    method SwapResponse(op: YbOp, idx: nat)
      requires op in ops && idx < |resp.Get(op.kind)|
      modifies this`resp, op`response
      ensures ResponseSlots() == SwapOne(old(ResponseSlots()), op, op.kind, idx)
      ensures Requests(ops) == old(Requests(ops))
    {
      var list := resp.Get(op.kind);
      resp := resp.Put(op.kind, list[idx := op.response]);
      op.response := list[idx];
    }

    /** The first loop of SwapRequestsAndResponses. */
    method RestoreRequests()
      requires forall k: Kind :: Count(KindsOf(ops), |ops|, k) <= |req.Get(k)|
      modifies this`req, ops
      ensures RequestSlots() == SwapAll(old(RequestSlots()), ops, KindsOf(ops), |ops|)
      ensures Responses(ops) == old(Responses(ops))
    {
      ghost var kinds := KindsOf(ops);
      ghost var stages := SwapStages(RequestSlots(), ops, kinds, |ops|);
      var next := Counters(0, 0, 0);
      var i := 0;
      while i < |ops|
        invariant 0 <= i <= |ops|
        invariant CountersAt(next, kinds, i)
        invariant RequestSlots() == stages[i]
        invariant Responses(ops) == old(Responses(ops))
      {
        assert SwapsAt(stages, ops, kinds, i);
        RankOrder(kinds, i, |kinds|);
        CountersStep(next, kinds, i);
        SwapRequest(ops[i], next.Get(ops[i].kind));
        next := next.Inc(ops[i].kind);
        i := i + 1;
      }
    }

    /** The loop of Failed. */
    method Failed(f: Failure)
      modifies ops
      ensures Responses(ops) == FailAll(old(Responses(ops)), ops, KindsOf(ops), Moved(ops), f, |ops|)
      ensures AllTell(ops, f, old(Responses(ops)), Responses(ops))
      ensures Requests(ops) == old(Requests(ops))
    {
      ghost var kinds := KindsOf(ops);
      ghost var stages := FailStages(Responses(ops), ops, kinds, Moved(ops), f);
      var i := 0;
      while i < |ops|
        invariant 0 <= i <= |ops|
        invariant Responses(ops) == stages[i]
        invariant Requests(ops) == old(Requests(ops))
      {
        assert FailsAt(stages, ops, kinds, Moved(ops), f, i);
        FailOne(ops[i], f);
        i := i + 1;
      }
      AllWillTell(ops, f, old(Responses(ops)));
    }

    method FailOne(op: YbOp, f: Failure)
      requires op in ops
      modifies op`response
      ensures Responses(ops) == old(Responses(ops))[op := ErrorResponse(op.kind, f, op.moved, old(op.response))]
      ensures Requests(ops) == old(Requests(ops))
    {
      op.response := ErrorResponse(op.kind, f, op.moved, op.response);
    }

    /** The loop of a write RPC that hands out the responses. */
    method HandOut() returns (next: Counters)
      modifies this`resp, ops
      ensures ResponseSlots() == SwapAll(old(ResponseSlots()), ops, KindsOf(ops), |ops|)
      ensures CountersAt(next, KindsOf(ops), |ops|)
      ensures Requests(ops) == old(Requests(ops))
    {
      ghost var kinds := KindsOf(ops);
      ghost var stages := SwapStages(ResponseSlots(), ops, kinds, |ops|);
      next := Counters(0, 0, 0);
      var i := 0;
      while i < |ops|
        invariant 0 <= i <= |ops|
        invariant CountersAt(next, kinds, i)
        invariant ResponseSlots() == stages[i]
        invariant Requests(ops) == old(Requests(ops))
      {
        assert SwapsAt(stages, ops, kinds, i);
        CountersStep(next, kinds, i);
        var idx := next.Get(ops[i].kind);
        if idx < |resp.Get(ops[i].kind)| {
          SwapResponse(ops[i], idx);
        }
        next := next.Inc(ops[i].kind);
        i := i + 1;
      }
    }

    /** The loop of a read RPC, which gives up at the first missing response. */
    method HandOutUntilShort() returns (next: Counters, gaveUp: bool, ghost stop: nat)
      modifies this`resp, ops
      ensures stop == FirstUnanswered(old(resp), KindsOf(ops), 0)
      ensures ResponseSlots() == SwapAll(old(ResponseSlots()), ops, KindsOf(ops), stop)
      ensures gaveUp <==> stop < |ops|
      ensures CountersAt(next, KindsOf(ops), stop)
      ensures Requests(ops) == old(Requests(ops))
    {
      ghost var kinds := KindsOf(ops);
      stop := FirstUnanswered(resp, kinds, 0);
      ghost var stages := SwapStages(ResponseSlots(), ops, kinds, stop);
      next := Counters(0, 0, 0);
      var i := 0;
      while i < |ops|
        invariant 0 <= i <= stop
        invariant CountersAt(next, kinds, i)
        invariant ResponseSlots() == stages[i]
        invariant Requests(ops) == old(Requests(ops))
      {
        ReadTurn(stages, ops, kinds, next, i);
        var idx := next.Get(ops[i].kind);
        if idx >= |resp.Get(ops[i].kind)| {
          gaveUp := true;
          return;
        }
        SwapResponse(ops[i], idx);
        next := next.Inc(ops[i].kind);
        i := i + 1;
      }
      gaveUp := false;
    }

    /** Signal a mismatch of the response counts and turn every response into an error. */
    method FailMismatch(f: Failure)
      modifies this`mismatches, ops
      ensures mismatches == old(mismatches) + 1
      ensures Responses(ops) == FailAll(old(Responses(ops)), ops, KindsOf(ops), Moved(ops), f, |ops|)
      ensures Requests(ops) == old(Requests(ops))
    {
      mismatches := mismatches + 1;
      Failed(f);
    }

    /** What a write RPC does with a response that came without an error. */
    method TakeWriteResponses()
      modifies this`resp, this`mismatches, ops
      ensures Outcome(Responses(ops), mismatches != old(mismatches))
              == WriteOutcome(old(ResponseSlots()), ops, KindsOf(ops), Moved(ops))
      ensures old(mismatches) <= mismatches <= old(mismatches) + 1
      ensures Requests(ops) == old(Requests(ops))
    {
      ghost var kinds, before := KindsOf(ops), ResponseSlots();
      var sizes := SizesOf(resp);
      var next := HandOut();
      WriteOutcomeIs(before, ops, kinds, Moved(ops), next);
      if next != sizes {
        FailMismatch(WRITE_MISMATCH);
      }
    }

    /** The read loop, in terms of the outcome it leads to. */
    method ReadResponses() returns (next: Counters, gaveUp: bool)
      modifies this`resp, ops
      ensures ReadOutcome(old(ResponseSlots()), ops, KindsOf(ops), Moved(ops)) ==
              if gaveUp then Outcome(Responses(ops), true)
              else if next == SizesOf(old(resp)) then Outcome(Responses(ops), false)
              else Outcome(FailAll(Responses(ops), ops, KindsOf(ops), Moved(ops), READ_MISMATCH, |ops|), true)
      ensures Requests(ops) == old(Requests(ops))
    {
      ghost var before := ResponseSlots();
      ghost var stop;
      next, gaveUp, stop := HandOutUntilShort();
      ReadOutcomeIs(before, ops, KindsOf(ops), Moved(ops), next);
    }

    /** What a read RPC does with a response that came without an error. */
    method TakeReadResponses()
      modifies this`resp, this`mismatches, ops
      ensures Outcome(Responses(ops), mismatches != old(mismatches))
              == ReadOutcome(old(ResponseSlots()), ops, KindsOf(ops), Moved(ops))
      ensures old(mismatches) <= mismatches <= old(mismatches) + 1
      ensures Requests(ops) == old(Requests(ops))
    {
      var sizes := SizesOf(resp);
      var next, gaveUp := ReadResponses();
      if gaveUp {
        mismatches := mismatches + 1;
      } else if next != sizes {
        FailMismatch(READ_MISMATCH);
      }
    }

    method TakeResponses(write: bool)
      modifies this`resp, this`mismatches, ops
      ensures Outcome(Responses(ops), mismatches != old(mismatches)) ==
              if write then WriteOutcome(old(ResponseSlots()), ops, KindsOf(ops), Moved(ops))
              else ReadOutcome(old(ResponseSlots()), ops, KindsOf(ops), Moved(ops))
      ensures old(mismatches) <= mismatches <= old(mismatches) + 1
      ensures Requests(ops) == old(Requests(ops))
    {
      if write {
        TakeWriteResponses();
      } else {
        TakeReadResponses();
      }
    }

    /** One attempt at the call, the first or a retry: the network fills in the response message. */
    method Attempt(reply: Batches<Response>)
      requires Sendable()
      modifies this`resp
      ensures Sendable() && resp == reply
    {
      resp := reply;
    }

    method GiveBackRequests()
      requires Sendable()
      modifies this`req, ops
      ensures GivenBack(Requests(ops), originals, ops)
      ensures Responses(ops) == old(Responses(ops))
    {
      ghost var kinds := KindsOf(ops);
      forall k: Kind ensures Count(kinds, |ops|, k) <= |req.Get(k)| {
        LoadSizes(originals, ops, kinds, |ops|, k);
      }
      RestoreRequests();
      forall o | o in ops
        ensures Requests(ops)[o] == originals[o] <==> Occurrences(ops, |ops|, o) == 1 || originals[o] == EMPTY
      {
        RequestSurvives(originals, ops, kinds, o);
      }
    }

    /** The end of the call: whatever the verdict, the requests go back to the operations. */
    method ProcessResponseFromTserver(write: bool, verdict: Verdict)
      requires Sendable()
      modifies this`req, this`resp, this`mismatches, ops
      ensures GivenBack(Requests(ops), originals, ops)
      ensures verdict.CallFailed? ==> Responses(ops) == old(Responses(ops))
      ensures verdict.ErrorReply? ==>
                Responses(ops) == FailAll(old(Responses(ops)), ops, KindsOf(ops), Moved(ops), verdict.failure, |ops|)
      ensures verdict.Answered? ==>
                Outcome(Responses(ops), mismatches != old(mismatches)) ==
                if write then WriteOutcome(old(ResponseSlots()), ops, KindsOf(ops), Moved(ops))
                else ReadOutcome(old(ResponseSlots()), ops, KindsOf(ops), Moved(ops))
      ensures old(mismatches) <= mismatches <= old(mismatches) + 1
      ensures !verdict.Answered? ==> mismatches == old(mismatches)
    {
      match verdict {
        case CallFailed =>
          GiveBackRequests();
        case ErrorReply(failure) =>
          FailWith(failure);
        case Answered =>
          Answer(write);
      }
    }

    /** The responses become errors and the requests go back. */
    method FailWith(failure: Failure)
      requires Sendable()
      modifies this`req, ops
      ensures GivenBack(Requests(ops), originals, ops)
      ensures Responses(ops) == FailAll(old(Responses(ops)), ops, KindsOf(ops), Moved(ops), failure, |ops|)
    {
      Failed(failure);
      GiveBackRequests();
    }

    /** The requests go back and the responses are handed out. */
    method Answer(write: bool)
      requires Sendable()
      modifies this`req, this`resp, this`mismatches, ops
      ensures GivenBack(Requests(ops), originals, ops)
      ensures Outcome(Responses(ops), mismatches != old(mismatches)) ==
              if write then WriteOutcome(old(ResponseSlots()), ops, KindsOf(ops), Moved(ops))
              else ReadOutcome(old(ResponseSlots()), ops, KindsOf(ops), Moved(ops))
      ensures old(mismatches) <= mismatches <= old(mismatches) + 1
    {
      GiveBackRequests();
      TakeResponses(write);
    }
  }

  /** An operation has its request as it was before the call exactly if it is in the batch once, or had none. */
  ghost predicate GivenBack(reqs: map<YbOp, Message>, originals: map<YbOp, Message>, ops: seq<YbOp>) {
    forall o | o in ops ::
      && o in reqs && o in originals
      && (reqs[o] == originals[o] <==> Occurrences(ops, |ops|, o) == 1 || originals[o] == EMPTY)
  }

  /** How a call ended: without a reply, with an error or a restart request for all, or with responses. */
  datatype Verdict = CallFailed | ErrorReply(failure: Failure) | Answered

  function SizesOf(b: Batches<Response>): Counters {
    Counters(|b.Get(Redis)|, |b.Get(Ql)|, |b.Get(Pgsql)|)
  }

  /** The three running indices of the loops. */
  datatype Counters = Counters(redisIdx: nat, qlIdx: nat, pgsqlIdx: nat) {
    function Get(k: Kind): nat {
      match k
      case Redis => redisIdx
      case Ql => qlIdx
      case Pgsql => pgsqlIdx
    }

    function Inc(k: Kind): Counters {
      match k
      case Redis => this.(redisIdx := redisIdx + 1)
      case Ql => this.(qlIdx := qlIdx + 1)
      case Pgsql => this.(pgsqlIdx := pgsqlIdx + 1)
    }
  }

  ghost predicate CountersAt(c: Counters, kinds: seq<Kind>, i: nat)
    requires i <= |kinds|
  {
    c == Counters(Count(kinds, i, Redis), Count(kinds, i, Ql), Count(kinds, i, Pgsql))
  }

  lemma CountersStep(c: Counters, kinds: seq<Kind>, i: nat)
    requires i < |kinds| && CountersAt(c, kinds, i)
    ensures c.Get(kinds[i]) == Rank(kinds, i)
    ensures CountersAt(c.Inc(kinds[i]), kinds, i + 1)
  {
  }

  /** What one turn of a read RPC's loop finds. */
  lemma ReadTurn<O>(st: seq<Slots<O, Response>>, ops: seq<O>, kinds: seq<Kind>, next: Counters, i: nat)
    requires i < |ops| == |kinds| && |st| == |ops| + 1 && SwapsAt(st, ops, kinds, i) && CountersAt(next, kinds, i)
    requires i <= FirstUnanswered(st[0].batch, kinds, 0)
    ensures next.Get(kinds[i]) == Rank(kinds, i) && CountersAt(next.Inc(kinds[i]), kinds, i + 1)
    ensures Rank(kinds, i) >= |st[i].batch.Get(kinds[i])| <==> i == FirstUnanswered(st[0].batch, kinds, 0)
    ensures st[i+1] == SwapOne(st[i], ops[i], kinds[i], Rank(kinds, i))
  {
    CountersStep(next, kinds, i);
  }

  lemma WriteOutcomeIs<O>(s: Slots<O, Response>, ops: seq<O>, kinds: seq<Kind>, moved: map<O, string>, next: Counters)
    requires |ops| == |kinds| && CountersAt(next, kinds, |ops|)
    ensures var held := SwapAll(s, ops, kinds, |ops|).held;
            WriteOutcome(s, ops, kinds, moved) ==
            if next == SizesOf(s.batch) then Outcome(held, false)
            else Outcome(FailAll(held, ops, kinds, moved, WRITE_MISMATCH, |ops|), true)
  {
  }

  lemma ReadOutcomeIs<O>(s: Slots<O, Response>, ops: seq<O>, kinds: seq<Kind>, moved: map<O, string>, next: Counters)
    requires |ops| == |kinds| && CountersAt(next, kinds, FirstUnanswered(s.batch, kinds, 0))
    ensures var stop := FirstUnanswered(s.batch, kinds, 0);
            var held := SwapAll(s, ops, kinds, stop).held;
            ReadOutcome(s, ops, kinds, moved) ==
            if stop < |ops| then Outcome(held, true)
            else if next == SizesOf(s.batch) then Outcome(held, false)
            else Outcome(FailAll(held, ops, kinds, moved, READ_MISMATCH, |ops|), true)
  {
  }
}
