/** The AI request pipeline and its two-layer response cache
    (backend/app/modules/ai/service.py, cache.py and repository.py). Prompt hashes are taken as
    collision-free names of prompts. */
module ResponseCache {
  import opened Wrappers

  datatype Status = Queued | Completed | Failed

  datatype AIRequest = AIRequest(hash: string, status: Status)

  datatype AIResponse = AIResponse(request: nat, content: string, cached: bool)

  /** The request and response tables (append-only, ids are positions) and the fast layer. */
  datatype Store = Store(requests: seq<AIRequest>, responses: seq<AIResponse>, fast: map<string, string>)

  /** How the surroundings behave during one processing step: whether the fast layer answers a read and
      a write, and what the provider returns, if anything. */
  datatype Env = Env(readable: bool, writable: bool, completion: Option<string>)

  datatype Op =
    | Submit(hash: string)
    | Process(request: nat, env: Env)
    | Expire(hash: string)
    | RolledBack(request: nat, env: Env)   // the step ran but its transaction did not commit
    | RolledBackInline(hash: string, env: Env)   // the same, in the transaction that submitted the request

  function GetCached(fast: map<string, string>, hash: string, env: Env): Option<string> {
    if env.readable && hash in fast then Some(fast[hash]) else None
  }

  function SetCached(fast: map<string, string>, hash: string, content: string, env: Env): map<string, string> {
    if env.writable then fast[hash := content] else fast
  }

  /** `latest_completed_for_hash`: the newest response whose request completed with this hash. */
  function Latest(st: Store, hash: string, n: nat): (r: Option<nat>)
    requires n <= |st.responses|
    ensures r.Some? ==> r.value < n && Answers(st, r.value, hash)
    ensures r.None? ==> forall i :: 0 <= i < n ==> !Answers(st, i, hash)
  {
    if n == 0 then None else if Answers(st, n - 1, hash) then Some(n - 1) else Latest(st, hash, n - 1)
  }

  /** Response `i` belongs to a completed request for this prompt. */
  predicate Answers(st: Store, i: nat, hash: string)
    requires i < |st.responses|
  {
    var r := st.responses[i].request;
    r < |st.requests| && st.requests[r].status.Completed? && st.requests[r].hash == hash
  }

  function Durable(st: Store, hash: string): Option<string> {
    match Latest(st, hash, |st.responses|)
    case None => None
    case Some(i) => Some(st.responses[i].content)
  }

  function Finish(st: Store, r: nat, status: Status): Store
    requires r < |st.requests|
  {
    st.(requests := st.requests[r := st.requests[r].(status := status)])
  }

  function Answer(st: Store, r: nat, content: string, cached: bool): Store
    requires r < |st.requests|
  {
    Finish(st.(responses := st.responses + [AIResponse(r, content, cached)]), r, Completed)
  }

  /** `process`, with its write to the fast layer. */
  function ProcessRequest(st: Store, r: nat, env: Env): Store {
    if r >= |st.requests| || st.requests[r].status != Queued then st
    else
      var hash := st.requests[r].hash;
      var fast := GetCached(st.fast, hash, env);
      var hit := if fast.Some? then fast else Durable(st, hash);
      if hit.Some? then Answer(st, r, hit.value, true)
      else match env.completion
        case None => Finish(st, r, Failed)
        case Some(content) => Answer(st, r, content, false).(fast := SetCached(st.fast, hash, content, env))
  }

  function Submitted(st: Store, hash: string): Store {
    st.(requests := st.requests + [AIRequest(hash, Queued)])
  }

  function Step(st: Store, op: Op): Store {
    match op
    case Submit(hash) => Submitted(st, hash)
    case Process(r, env) => ProcessRequest(st, r, env)
    case Expire(hash) => st.(fast := st.fast - {hash})
    case RolledBack(r, env) => st.(fast := ProcessRequest(st, r, env).fast)
    case RolledBackInline(hash, env) => st.(fast := ProcessRequest(Submitted(st, hash), |st.requests|, env).fast)
  }

  class AIService {
    var requests: seq<AIRequest>
    var responses: seq<AIResponse>
    var fast: map<string, string>

    function Tables(): Store
      reads this
    {
      Store(requests, responses, fast)
    }

    constructor ()
      ensures Tables() == Store([], [], map[])
    {
      requests, responses, fast := [], [], map[];
    }

    method SubmitRequest(hash: string) returns (r: nat)
      modifies this
      ensures r == |old(requests)| && Tables() == Step(old(Tables()), Submit(hash))
    {
      r := |requests|;
      requests := requests + [AIRequest(hash, Queued)];
    }

    method Complete(r: nat)
      requires r < |requests|
      modifies `requests
      ensures requests == old(requests)[r := old(requests)[r].(status := Completed)]
    {
      requests := requests[r := requests[r].(status := Completed)];
    }

    method ProcessQueued(r: nat, env: Env)
      modifies this
      ensures Tables() == ProcessRequest(old(Tables()), r, env)
    {
      if r >= |requests| || requests[r].status != Queued { return; }
      var hash := requests[r].hash;
      var cachedContent := GetCached(fast, hash, env);
      if cachedContent.None? {
        var previous := Latest(Tables(), hash, |responses|);
        if previous.Some? {
          cachedContent := Some(responses[previous.value].content);
        }
      }
      if cachedContent.Some? {
        responses := responses + [AIResponse(r, cachedContent.value, true)];
        Complete(r);
        return;
      }
      if env.completion.None? {
        requests := requests[r := requests[r].(status := Failed)];
        return;
      }
      responses := responses + [AIResponse(r, env.completion.value, false)];
      fast := SetCached(fast, hash, env.completion.value, env);
      Complete(r);
    }
  }

  function Run(st: Store, ops: seq<Op>): Store {
    if ops == [] then st else Step(Run(st, ops[..|ops| - 1]), ops[|ops| - 1])
  }

  const EMPTY := Store([], [], map[])

  // ---- The invariant ----

  /** Responses belong to completed requests, one each. */
  ghost predicate OneResponseEach(st: Store) {
    (forall i :: 0 <= i < |st.responses| ==>
       st.responses[i].request < |st.requests| && st.requests[st.responses[i].request].status.Completed?) &&
    (forall i, j :: 0 <= i < j < |st.responses| ==> st.responses[i].request != st.responses[j].request) &&
    forall r :: 0 <= r < |st.requests| && st.requests[r].status.Completed? ==> HasResponse(st, r)
  }

  ghost predicate HasResponse(st: Store, r: nat) {
    exists i :: 0 <= i < |st.responses| && st.responses[i].request == r
  }

  /** All answers to one prompt are the same text. */
  ghost predicate Agreed(st: Store) {
    forall i, j, hash ::
      0 <= i < |st.responses| && 0 <= j < |st.responses| && Answers(st, i, hash) && Answers(st, j, hash) ==>
      st.responses[i].content == st.responses[j].content
  }

  /** The fast layer holds only what the durable layer holds. */
  ghost predicate FastBacked(st: Store) {
    forall hash :: hash in st.fast ==>
      exists i :: 0 <= i < |st.responses| && Answers(st, i, hash) && st.responses[i].content == st.fast[hash]
  }

  ghost predicate Inv(st: Store) { OneResponseEach(st) && Agreed(st) && FastBacked(st) }

  /** Completing a queued request with a new response changes no earlier answer. */
  lemma AnswerKeeps(st: Store, r: nat, content: string, cached: bool)
    requires OneResponseEach(st) && r < |st.requests| && st.requests[r].status.Queued?
    ensures var next := Answer(st, r, content, cached);
            OneResponseEach(next) && Answers(next, |st.responses|, st.requests[r].hash) &&
            forall i, hash :: 0 <= i < |st.responses| ==> (Answers(next, i, hash) <==> Answers(st, i, hash))
  {
    var next := Answer(st, r, content, cached);
    assert next.responses[|st.responses|] == AIResponse(r, content, cached);
    forall q | 0 <= q < |next.requests| && next.requests[q].status.Completed? ensures HasResponse(next, q) {
      if q == r {
        assert next.responses[|st.responses|].request == q;
      } else {
        assert HasResponse(st, q);
        var i :| 0 <= i < |st.responses| && st.responses[i].request == q;
        assert next.responses[i].request == q;
      }
    }
  }

  /** The text a request is answered with agrees with every earlier answer to its prompt. */
  ghost predicate Consistent(st: Store, hash: string, content: string) {
    forall i :: 0 <= i < |st.responses| && Answers(st, i, hash) ==> st.responses[i].content == content
  }

  lemma AnswerKeepsInv(st: Store, r: nat, content: string, cached: bool)
    requires Inv(st) && r < |st.requests| && st.requests[r].status.Queued? &&
             Consistent(st, st.requests[r].hash, content)
    ensures Inv(Answer(st, r, content, cached))
  {
    AnswerKeeps(st, r, content, cached);
    var next := Answer(st, r, content, cached);
    forall hash | hash in next.fast
      ensures exists i ::
                0 <= i < |next.responses| && Answers(next, i, hash) && next.responses[i].content == next.fast[hash]
    {
      var i :| 0 <= i < |st.responses| && Answers(st, i, hash) && st.responses[i].content == st.fast[hash];
      assert Answers(next, i, hash) && next.responses[i] == st.responses[i];
    }
    assert Agreed(next) by {
      forall i, j, hash |
        0 <= i < |next.responses| && 0 <= j < |next.responses| && Answers(next, i, hash) && Answers(next, j, hash)
        ensures next.responses[i].content == next.responses[j].content
      {
        assert i < |st.responses| ==> Answers(st, i, hash);
        assert j < |st.responses| ==> Answers(st, j, hash);
      }
    }
  }

  /** Marking a queued request failed, or adding one, touches no answer. */
  lemma QueueKeepsInv(st: Store, next: Store)
    requires Inv(st) && next.responses == st.responses && next.fast == st.fast && |st.requests| <= |next.requests|
    requires forall q :: 0 <= q < |st.requests| ==>
               next.requests[q].hash == st.requests[q].hash &&
               (next.requests[q].status.Completed? <==> st.requests[q].status.Completed?)
    requires forall q :: |st.requests| <= q < |next.requests| ==> !next.requests[q].status.Completed?
    ensures Inv(next)
  {
    forall i, hash | 0 <= i < |st.responses| ensures Answers(next, i, hash) <==> Answers(st, i, hash) {
    }
    forall q | 0 <= q < |next.requests| && next.requests[q].status.Completed? ensures HasResponse(next, q) {
      assert HasResponse(st, q);
      var i :| 0 <= i < |st.responses| && st.responses[i].request == q;
      assert next.responses[i].request == q;
    }
    forall hash | hash in next.fast
      ensures exists i ::
                0 <= i < |next.responses| && Answers(next, i, hash) && next.responses[i].content == next.fast[hash]
    {
      var i :| 0 <= i < |st.responses| && Answers(st, i, hash) && st.responses[i].content == st.fast[hash];
      assert Answers(next, i, hash);
    }
  }

  lemma FastStoreKeepsInv(st: Store, hash: string, content: string, i: nat)
    requires Inv(st) && i < |st.responses| && Answers(st, i, hash) && st.responses[i].content == content
    ensures Inv(st.(fast := st.fast[hash := content]))
  {
    var next := st.(fast := st.fast[hash := content]);
    assert forall j, h :: 0 <= j < |st.responses| ==> (Answers(next, j, h) <==> Answers(st, j, h));
    forall h | h in next.fast
      ensures exists j :: 0 <= j < |next.responses| && Answers(next, j, h) && next.responses[j].content == next.fast[h]
    {
      if h == hash {
        assert Answers(next, i, h);
      } else {
        var j :| 0 <= j < |st.responses| && Answers(st, j, h) && st.responses[j].content == st.fast[h];
        assert Answers(next, j, h);
      }
    }
    assert forall r :: HasResponse(st, r) ==> HasResponse(next, r);
  }

  /** With the invariant, both layers give the agreed text. */
  lemma HitsAreConsistent(st: Store, hash: string, env: Env)
    requires Inv(st)
    ensures var fast := GetCached(st.fast, hash, env);
            var hit := if fast.Some? then fast else Durable(st, hash);
            if hit.Some? then Consistent(st, hash, hit.value) else forall content :: Consistent(st, hash, content)
  {
    if env.readable && hash in st.fast {
      var i :| 0 <= i < |st.responses| && Answers(st, i, hash) && st.responses[i].content == st.fast[hash];
    }
  }

  lemma ProcessKeepsInv(st: Store, r: nat, env: Env)
    requires Inv(st)
    ensures Inv(ProcessRequest(st, r, env))
  {
    if r < |st.requests| && st.requests[r].status.Queued? {
      var hash := st.requests[r].hash;
      HitsAreConsistent(st, hash, env);
      var fast := GetCached(st.fast, hash, env);
      var hit := if fast.Some? then fast else Durable(st, hash);
      if hit.Some? {
        AnswerKeepsInv(st, r, hit.value, true);
      } else if env.completion.None? {
        QueueKeepsInv(st, Finish(st, r, Failed));
      } else {
        var content := env.completion.value;
        AnswerKeepsInv(st, r, content, false);
        AnswerKeeps(st, r, content, false);
        var next := Answer(st, r, content, false);
        FastStoreKeepsInv(next, hash, content, |st.responses|);
        assert next.(fast := st.fast) == next;
      }
    }
  }

  lemma ExpireKeepsInv(st: Store, hash: string)
    requires Inv(st)
    ensures Inv(st.(fast := st.fast - {hash}))
  {
    var next := st.(fast := st.fast - {hash});
    assert forall j, h :: 0 <= j < |st.responses| ==> (Answers(next, j, h) <==> Answers(st, j, h));
    forall h | h in next.fast
      ensures exists j :: 0 <= j < |next.responses| && Answers(next, j, h) && next.responses[j].content == next.fast[h]
    {
      var j :| 0 <= j < |st.responses| && Answers(st, j, h) && st.responses[j].content == st.fast[h];
      assert Answers(next, j, h);
    }
    assert forall r :: HasResponse(st, r) ==> HasResponse(next, r);
  }

  // ---- Rolled-back steps ----

  /** A step for `r` would reach the provider, get an answer and store it in the fast layer. */
  predicate WouldStore(st: Store, r: nat, env: Env) {
    r < |st.requests| && st.requests[r].status.Queued? &&
    GetCached(st.fast, st.requests[r].hash, env).None? && Durable(st, st.requests[r].hash).None? &&
    env.completion.Some? && env.writable
  }

  /** The step stores a provider's answer in the fast layer and does not commit. */
  predicate Harmful(st: Store, op: Op) {
    match op
    case RolledBack(r, env) => WouldStore(st, r, env)
    case RolledBackInline(hash, env) => WouldStore(Submitted(st, hash), |st.requests|, env)
    case _ => false
  }

  /** An answer that only the fast layer holds breaks the invariant. */
  lemma StrayAnswer(st: Store, next: Store, hash: string)
    requires Inv(st) && Durable(st, hash).None? && hash in next.fast && next == st.(fast := next.fast)
    ensures !Inv(next)
  {
    forall i | 0 <= i < |next.responses| ensures !Answers(next, i, hash) {
      assert Answers(next, i, hash) == Answers(st, i, hash);
    }
  }

  lemma SubmittedKeeps(st: Store, hash: string)
    requires Inv(st)
    ensures Inv(Submitted(st, hash))
    ensures Durable(Submitted(st, hash), hash) == Durable(st, hash)
  {
    QueueKeepsInv(st, Submitted(st, hash));
    LatestSubmitted(st, hash, |st.responses|);
  }

  lemma {:induction false} LatestSubmitted(st: Store, hash: string, n: nat)
    requires OneResponseEach(st) && n <= |st.responses|
    ensures Latest(Submitted(st, hash), hash, n) == Latest(st, hash, n)
  {
    if n > 0 { LatestSubmitted(st, hash, n - 1); }
  }

  lemma RolledBackExactly(st: Store, r: nat, env: Env)
    requires Inv(st)
    ensures Inv(Step(st, RolledBack(r, env))) <==> !WouldStore(st, r, env)
  {
    if WouldStore(st, r, env) {
      StrayAnswer(st, Step(st, RolledBack(r, env)), st.requests[r].hash);
    } else {
      assert Step(st, RolledBack(r, env)) == st;
    }
  }

  /** What is left of a step that stored an answer, or did not, when it is undone. */
  lemma LeftInFastLayer(st: Store, r: nat, env: Env)
    requires r < |st.requests| && st.requests[r].status.Queued?
    ensures ProcessRequest(st, r, env).fast ==
            if WouldStore(st, r, env) then st.fast[st.requests[r].hash := env.completion.value] else st.fast
  {
  }

  lemma InlineExactly(st: Store, hash: string, env: Env)
    requires Inv(st)
    ensures Inv(Step(st, RolledBackInline(hash, env))) <==> !WouldStore(Submitted(st, hash), |st.requests|, env)
  {
    var next := Step(st, RolledBackInline(hash, env));
    LeftInFastLayer(Submitted(st, hash), |st.requests|, env);
    if WouldStore(Submitted(st, hash), |st.requests|, env) {
      SubmittedKeeps(st, hash);
      StrayAnswer(st, next, hash);
    } else {
      assert next == st;
    }
  }

  /** Exactly when a step that ran but did not commit does no harm: when it would not have stored a
      provider's answer in the fast layer, which no rollback takes back. It makes no difference whether
      the rollback takes the request row with it. */
  lemma RollbackHarmlessExactly(st: Store, op: Op)
    requires Inv(st) && (op.RolledBack? || op.RolledBackInline?)
    ensures Inv(Step(st, op)) <==> !Harmful(st, op)
  {
    match op
    case RolledBack(r, env) => RolledBackExactly(st, r, env);
    case RolledBackInline(hash, env) => InlineExactly(st, hash, env);
  }

  ghost predicate CoherentAt(ops: seq<Op>, n: nat)
    requires n <= |ops|
  {
    Inv(Run(EMPTY, ops[..n]))
  }

  /** The k-th step is not a harmful rollback. */
  predicate HarmlessAt(ops: seq<Op>, k: nat)
    requires k < |ops|
  {
    !Harmful(Run(EMPTY, ops[..k]), ops[k])
  }

  /** Cache coherence, exactly: with any outages of the fast layer, any expiries and any provider answers,
      all completed responses to one prompt have the same content, the fast layer is absent or equal to
      it, and every completed request has exactly one response, at every moment of the run, if and only
      if no rolled-back step stores a provider's answer in the fast layer. */
  lemma {:induction false} CacheCoherent(ops: seq<Op>)
    ensures (forall n: nat :: n <= |ops| ==> CoherentAt(ops, n)) <==>
            (forall k: nat :: k < |ops| ==> HarmlessAt(ops, k))
  {
    if forall k: nat :: k < |ops| ==> HarmlessAt(ops, k) {
      forall n: nat | n <= |ops| ensures CoherentAt(ops, n) {
        CoherentWhileHarmless(ops, n);
      }
    } else {
      var k: nat :| k < |ops| && !HarmlessAt(ops, k);
      if CoherentAt(ops, k) { NextCoherent(ops, k); }
    }
  }

  lemma {:induction false} CoherentWhileHarmless(ops: seq<Op>, n: nat)
    requires n <= |ops| && forall k: nat :: k < n ==> HarmlessAt(ops, k)
    ensures CoherentAt(ops, n)
  {
    if n > 0 {
      CoherentWhileHarmless(ops, n - 1);
      NextCoherent(ops, n - 1);
    }
  }

  lemma NextCoherent(ops: seq<Op>, k: nat)
    requires k < |ops| && CoherentAt(ops, k)
    ensures CoherentAt(ops, k + 1) <==> HarmlessAt(ops, k)
  {
    assert ops[..k + 1][..k] == ops[..k];
    StepKeepsInvExactly(Run(EMPTY, ops[..k]), ops[k]);
  }

  /** Every step keeps the invariant but a rolled-back one that stored an answer. */
  lemma StepKeepsInvExactly(st: Store, op: Op)
    requires Inv(st)
    ensures Inv(Step(st, op)) <==> !Harmful(st, op)
  {
    match op {
      case Submit(hash) => QueueKeepsInv(st, Step(st, op));
      case Process(r, env) => ProcessKeepsInv(st, r, env);
      case Expire(hash) => ExpireKeepsInv(st, hash);
      case _ => RollbackHarmlessExactly(st, op);
    }
  }

  /** And the harm is real from every state: after such a step a few committed steps suffice to give one
      prompt two different answers, the fast layer being down for the first of them. */
  lemma HarmfulRollbackDiverges(st: Store, op: Op, y: string)
    requires Inv(st) && Harmful(st, op) && op.env.completion != Some(y)
    ensures !Agreed(Run(Step(st, op), Divergence(st, op, y)))
  {
    if op.RolledBack? {
      StrayDiverges(st, op.request, op.env.completion.value, y);
    } else {
      var hash, x := op.hash, op.env.completion.value;
      var submitted := Submitted(st, hash);
      SubmittedKeeps(st, hash);
      StrayDiverges(submitted, |st.requests|, x, y);
      var ops := Divergence(st, op, y);
      assert ops == [ops[0]] + Diverging(hash, |st.requests|, |submitted.requests|, y);
      RunAfter(Step(st, op), ops[0], Diverging(hash, |st.requests|, |submitted.requests|, y));
      assert Step(Step(st, op), ops[0]) == submitted.(fast := submitted.fast[hash := x]);
    }
  }

  /** Request `r` is answered past the fast layer, then request `q`, submitted next, from it. */
  function Diverging(hash: string, r: nat, q: nat, y: string): seq<Op> {
    [Process(r, Env(false, false, Some(y))), Submit(hash), Process(q, Env(true, true, None))]
  }

  /** The steps after a harmful rollback; when it took the request with it, the request comes again. */
  function Divergence(st: Store, op: Op, y: string): seq<Op>
    requires Harmful(st, op)
  {
    if op.RolledBack? then Diverging(st.requests[op.request].hash, op.request, |st.requests|, y)
    else [Submit(op.hash)] + Diverging(op.hash, |st.requests|, |st.requests| + 1, y)
  }

  lemma RunSnoc(st: Store, ops: seq<Op>, op: Op)
    ensures Run(st, ops + [op]) == Step(Run(st, ops), op)
  {
    assert (ops + [op])[..|ops|] == ops;
  }

  lemma {:induction false} RunAfter(st: Store, op: Op, ops: seq<Op>)
    ensures Run(st, [op] + ops) == Run(Step(st, op), ops)
  {
    if ops == [] {
      RunSnoc(st, [], op);
      assert [op] + ops == [] + [op];
    } else {
      var front, last := ops[..|ops| - 1], ops[|ops| - 1];
      RunAfter(st, op, front);
      RunSnoc(st, [op] + front, last);
      RunSnoc(Step(st, op), front, last);
      assert [op] + ops == ([op] + front) + [last] && ops == front + [last];
    }
  }

  lemma StrayDiverges(st: Store, r: nat, x: string, y: string)
    requires Inv(st) && r < |st.requests| && st.requests[r].status.Queued? && x != y
    requires Durable(st, st.requests[r].hash).None?
    ensures var hash := st.requests[r].hash;
            !Agreed(Run(st.(fast := st.fast[hash := x]), Diverging(hash, r, |st.requests|, y)))
  {
    var hash, n := st.requests[r].hash, |st.responses|;
    var ops := Diverging(hash, r, |st.requests|, y);
    var s0 := st.(fast := st.fast[hash := x]);
    forall i | 0 <= i < n ensures Answers(s0, i, hash) == Answers(st, i, hash) {
    }
    assert Durable(s0, hash).None?;
    var s1 := Answer(s0, r, y, false);
    assert Step(s0, ops[0]) == s1;
    var s2 := Submitted(s1, hash);
    assert Step(s1, ops[1]) == s2;
    var s3 := Answer(s2, |st.requests|, x, true);
    assert Step(s2, ops[2]) == s3;
    assert ops[..2][..1] == ops[..1] && ops[..1][..0] == [];
    assert Run(s0, ops[..1]) == s1 && Run(s0, ops[..2]) == s2;
    assert Run(s0, ops) == s3;
    assert s3.responses[n] == AIResponse(r, y, false) && s3.responses[n + 1] == AIResponse(|st.requests|, x, true);
    assert Answers(s3, n, hash) && Answers(s3, n + 1, hash);
  }

  /** Redelivery: a request that has left the queue is never processed again, whatever happens between
      and whatever the surroundings answer then; so no delivery adds a second response. */
  lemma {:induction false} RedeliveryIsANoOp(st: Store, r: nat, between: seq<Op>, env: Env)
    requires r < |st.requests| && !st.requests[r].status.Queued?
    ensures var later := Run(st, between);
            r < |later.requests| && later.requests[r] == st.requests[r] && Step(later, Process(r, env)) == later
  {
    if between != [] {
      RedeliveryIsANoOp(st, r, between[..|between| - 1], env);
    }
  }

  /** Such a step does occur: a provider answer that is stored by a step whose transaction is then rolled
      back, and read again later, contradicts an answer given in between while the fast layer was down. */
  lemma RollbackBreaksCoherence(hash: string, x: string, y: string)
    requires x != y
    ensures var up, down := Env(true, true, Some(x)), Env(false, false, Some(y));
            var ops := [Submit(hash), Submit(hash), RolledBack(0, up), Process(0, down), Process(1, up)];
            !Agreed(Run(EMPTY, ops))
  {
    var up, down := Env(true, true, Some(x)), Env(false, false, Some(y));
    var ops := [Submit(hash), Submit(hash), RolledBack(0, up), Process(0, down), Process(1, up)];
    var s2 := Store([AIRequest(hash, Queued), AIRequest(hash, Queued)], [], map[]);
    assert ops[..5] == ops && ops[..5][..4] == ops[..4] && ops[..4][..3] == ops[..3] && ops[..3][..2] == ops[..2] &&
           ops[..2][..1] == ops[..1] && ops[..1][..0] == [];
    assert Run(EMPTY, ops[..0]) == EMPTY;
    assert Run(EMPTY, ops[..1]) == Store([AIRequest(hash, Queued)], [], map[]);
    assert Run(EMPTY, ops[..2]) == s2;
    var s3 := s2.(fast := map[hash := x]);
    assert Run(EMPTY, ops[..3]) == s3;
    var s4 := Store([AIRequest(hash, Completed), AIRequest(hash, Queued)], [AIResponse(0, y, false)], map[hash := x]);
    assert Run(EMPTY, ops[..4]) == s4;
    var s5 := Store([AIRequest(hash, Completed), AIRequest(hash, Completed)],
                    [AIResponse(0, y, false), AIResponse(1, x, true)], map[hash := x]);
    assert Run(EMPTY, ops) == s5;
    assert Answers(s5, 0, hash) && Answers(s5, 1, hash);
  }

  // ---- Where answers come from ----

  /** Some completed request has this prompt answered with this text. */
  ghost predicate Answered(st: Store, hash: string, content: string) {
    exists i :: 0 <= i < |st.responses| && Answers(st, i, hash) && st.responses[i].content == content
  }

  /** The prompt has no answer yet, in either layer that can be reached. */
  ghost predicate Unanswered(st: Store, hash: string, env: Env) {
    (env.readable ==> hash !in st.fast) && forall content :: !Answered(st, hash, content)
  }

  /** Request `r` is settled as `status`, with this new response if there is one; nothing else changes but,
      perhaps, what the fast layer holds for its prompt. */
  ghost predicate Settled(st: Store, next: Store, r: nat, status: Status, added: seq<AIResponse>)
    requires r < |st.requests|
  {
    && next.requests == st.requests[r := AIRequest(st.requests[r].hash, status)]
    && next.responses == st.responses + added
    && forall hash :: hash != st.requests[r].hash ==>
         (hash in next.fast <==> hash in st.fast) && (hash in next.fast ==> next.fast[hash] == st.fast[hash])
  }

  lemma DurableIsAnswered(st: Store, hash: string)
    ensures match Durable(st, hash)
            case None => forall content :: !Answered(st, hash, content)
            case Some(content) => Answered(st, hash, content)
  {
    var i := Latest(st, hash, |st.responses|);
    if i.Some? { assert Answers(st, i.value, hash); }
  }

  /** Processing a queued request, exactly: a prompt already answered gets the same answer again, marked as
      cached; a new one gets the provider's, not marked, which the fast layer then holds if it can be
      written; if the provider fails the request fails and has no response. */
  lemma ProcessingExactly(st: Store, r: nat, env: Env)
    requires Inv(st) && r < |st.requests| && st.requests[r].status.Queued?
    ensures var next, hash := ProcessRequest(st, r, env), st.requests[r].hash;
            if !Unanswered(st, hash, env) then
              next.fast == st.fast &&
              exists content ::
                Answered(st, hash, content) && Settled(st, next, r, Completed, [AIResponse(r, content, true)])
            else match env.completion
              case None => next.fast == st.fast && Settled(st, next, r, Failed, [])
              case Some(content) =>
                Settled(st, next, r, Completed, [AIResponse(r, content, false)]) &&
                (if env.writable then hash in next.fast && next.fast[hash] == content else next.fast == st.fast)
  {
    var next, hash := ProcessRequest(st, r, env), st.requests[r].hash;
    DurableIsAnswered(st, hash);
    var fast := GetCached(st.fast, hash, env);
    if fast.Some? {
      var i :| 0 <= i < |st.responses| && Answers(st, i, hash) && st.responses[i].content == st.fast[hash];
      assert Answered(st, hash, fast.value);
      assert Settled(st, next, r, Completed, [AIResponse(r, fast.value, true)]);
    } else if Durable(st, hash).Some? {
      assert Settled(st, next, r, Completed, [AIResponse(r, Durable(st, hash).value, true)]);
    }
  }

  /** The k-th request is the processing of `r` in which the provider said `content`. */
  predicate ProvidedBy(ops: seq<Op>, k: nat, r: nat, content: string)
    requires k < |ops|
  {
    ops[k].Process? && ops[k].request == r && ops[k].env.completion == Some(content)
  }

  /** Every answer can be traced: one that is not marked cached is what the provider said when its request
      was processed; one that is repeats an earlier answer to the same prompt. */
  ghost predicate Traced(st: Store, ops: seq<Op>, i: nat)
    requires i < |st.responses|
  {
    var response := st.responses[i];
    response.request < |st.requests| &&
    if response.cached then
      exists j :: 0 <= j < i && st.responses[j].content == response.content &&
                  st.responses[j].request < |st.requests| &&
                  st.requests[st.responses[j].request].hash == st.requests[response.request].hash
    else exists k: nat :: k < |ops| && ProvidedBy(ops, k, response.request, response.content)
  }

  lemma TracedLater(st: Store, next: Store, ops: seq<Op>, op: Op, i: nat)
    requires i < |st.responses| && Traced(st, ops, i) && st.responses <= next.responses
    requires |st.requests| <= |next.requests|
    requires forall r :: 0 <= r < |st.requests| ==> next.requests[r].hash == st.requests[r].hash
    ensures Traced(next, ops + [op], i)
  {
    var response := st.responses[i];
    if response.cached {
      var j :| 0 <= j < i && st.responses[j].content == response.content && st.responses[j].request < |st.requests| &&
               st.requests[st.responses[j].request].hash == st.requests[response.request].hash;
      assert next.responses[j] == st.responses[j];
    } else {
      var k: nat :| k < |ops| && ProvidedBy(ops, k, response.request, response.content);
      assert (ops + [op])[k] == ops[k];
      assert ProvidedBy(ops + [op], k, response.request, response.content);
    }
  }

  lemma TracedNew(st: Store, ops: seq<Op>, op: Op)
    requires Inv(st) && op.Process? && op.request < |st.requests| && st.requests[op.request].status.Queued?
    ensures var next := Step(st, op); |st.responses| < |next.responses| ==> Traced(next, ops + [op], |st.responses|)
  {
    var next, hash := Step(st, op), st.requests[op.request].hash;
    ProcessingExactly(st, op.request, op.env);
    if !Unanswered(st, hash, op.env) {
      var content :| Answered(st, hash, content) &&
                     Settled(st, next, op.request, Completed, [AIResponse(op.request, content, true)]);
      var j :| 0 <= j < |st.responses| && Answers(st, j, hash) && st.responses[j].content == content;
      assert next.responses[j] == st.responses[j];
    } else if op.env.completion.Some? {
      assert (ops + [op])[|ops|] == op;
      assert ProvidedBy(ops + [op], |ops|, op.request, op.env.completion.value);
    }
  }

  lemma StepKeepsRows(st: Store, op: Op)
    ensures var next := Step(st, op);
            st.responses <= next.responses && |next.responses| <= |st.responses| + 1 &&
            |st.requests| <= |next.requests| &&
            (forall r :: 0 <= r < |st.requests| ==> next.requests[r].hash == st.requests[r].hash) &&
            (|next.responses| > |st.responses| ==>
               op.Process? && op.request < |st.requests| && st.requests[op.request].status.Queued?)
  {
  }

  lemma TracedStep(st: Store, ops: seq<Op>, op: Op, i: nat)
    requires Inv(st) && (forall j: nat :: j < |st.responses| ==> Traced(st, ops, j)) && i < |Step(st, op).responses|
    ensures Traced(Step(st, op), ops + [op], i)
  {
    StepKeepsRows(st, op);
    if i < |st.responses| {
      TracedLater(st, Step(st, op), ops, op, i);
    } else {
      TracedNew(st, ops, op);
    }
  }

  /** In every coherent run each answer can be traced to the provider. */
  lemma {:induction false} AnswersAreTraced(ops: seq<Op>, i: nat)
    requires (forall k: nat :: k < |ops| ==> HarmlessAt(ops, k)) && i < |Run(EMPTY, ops).responses|
    ensures Traced(Run(EMPTY, ops), ops, i)
    decreases |ops|
  {
    if ops != [] {
      var front, op := ops[..|ops| - 1], ops[|ops| - 1];
      HarmlessFront(ops);
      CoherentWhileHarmless(front, |front|);
      assert front[..|front|] == front && ops == front + [op];
      RunSnoc(EMPTY, front, op);
      forall j: nat | j < |Run(EMPTY, front).responses| ensures Traced(Run(EMPTY, front), front, j) {
        AnswersAreTraced(front, j);
      }
      TracedStep(Run(EMPTY, front), front, op, i);
    }
  }

  lemma HarmlessFront(ops: seq<Op>)
    requires ops != [] && forall k: nat :: k < |ops| ==> HarmlessAt(ops, k)
    ensures var front := ops[..|ops| - 1]; forall k: nat :: k < |front| ==> HarmlessAt(front, k)
  {
    var front := ops[..|ops| - 1];
    forall k: nat | k < |front| ensures HarmlessAt(front, k) {
      assert front[..k] == ops[..k] && HarmlessAt(ops, k);
    }
  }

  /** From request to answer: in any coherent state a submitted prompt that is processed while the provider
      answers is completed, with one response of its own. */
  lemma SubmittedIsAnswered(st: Store, hash: string, env: Env)
    requires Inv(st) && env.completion.Some?
    ensures var r, next := |st.requests|, Run(st, [Submit(hash), Process(|st.requests|, env)]);
            |next.requests| == r + 1 && next.requests[..r] == st.requests &&
            next.requests[r] == AIRequest(hash, Completed) &&
            |next.responses| == |st.responses| + 1 && next.responses[|st.responses|].request == r
  {
    var r, ops := |st.requests|, [Submit(hash), Process(|st.requests|, env)];
    assert ops[..1][..0] == [] && Run(st, ops[..1]) == Submitted(st, hash);
    SubmittedKeeps(st, hash);
    ProcessingExactly(Submitted(st, hash), r, env);
    assert Run(st, ops) == ProcessRequest(Submitted(st, hash), r, env);
  }
}
