/** The transaction workers of the database client: each takes a transaction from the
    shared buffer, sends it, waits for the reply and puts it in the transaction's own
    result buffer.  The shared buffer is the ring of `BoundedBuffer`; every single step of
    workers, clients and server interleaves with every other in any order. */
module TransactionWorkers {
  import opened Wrappers
  import opened RingIndex
  import opened BoundedBuffer

  type Tr = nat

  /** A reply on a worker's socket. */
  datatype Message = Message(tr: Tr, reply: int)

  /** A worker's variables and socket, that it is inside a pop, or how it ended: at a null
      pointer from the buffer, or on an error. */
  datatype Worker = Running(pending: bool, tr: Tr, inbox: seq<Message>) | Popping | Stopped | Failed

  /** How far a transaction has come: in the hands of the thread that pushes it, in the
      ring, in the hands of the worker that has popped it, sent, and what came of it. */
  datatype Progress =
    | Offered(thread: Thread)
    | Queued
    | Held(worker: Thread)
    | Asked(worker: Thread)
    | Answered(reply: int)
    | Lost

  /** What happens around a worker in one round. */
  datatype Luck = Luck(pollFails: bool, echo: bool, sendFails: bool)

  /** Everything that is recorded: the buffer's history and where each thread is in it, the
      workers, and what became of each transaction. */
  datatype Books = Books(
    queue: seq<Elem>,
    taken: nat,
    pcs: map<Thread, Pc>,
    workers: map<Thread, Worker>,
    progress: map<Tr, Progress>,
    served: map<Tr, int>,
    results: map<Tr, seq<int>>,
    nulls: nat,
    sent: seq<Tr>)

  predicate Alive(w: Worker) {
    w.Running? || w.Popping?
  }

  predicate Asks(w: Worker, tr: Tr) {
    w.Running? && w.pending && w.tr == tr
  }

  /** Not sent yet. */
  predicate Unsent(p: Progress) {
    p.Offered? || p.Queued? || p.Held?
  }

  /** What a thread has in its hands on the way into the ring. */
  predicate Offers(pc: Pc, elem: Elem) {
    (pc.PushReserved? || pc.PushLocked?) && pc.elem == elem
  }

  /** What a thread has in its hands on the way out. */
  predicate Holds(pc: Pc, elem: Elem) {
    (pc.PopLoaded? || pc.PopUnlocked?) && pc.elem == elem
  }

  predicate Pops(pc: Pc) {
    pc.PopReserved? || pc.PopLocked? || pc.PopLoaded? || pc.PopUnlocked?
  }

  /** Threads below `n` are workers and only pop; thread `n` shuts down and pushes null
      pointers; all others are clients and push transactions. */
  predicate RoleOK(n: nat, workers: map<Thread, Worker>, t: Thread, pc: Pc) {
    if t < n then
      t in workers && (pc == Idle || Pops(pc)) && (workers[t].Popping? <==> pc != Idle)
    else
      t !in workers && !Pops(pc) && (pc.PushReserved? || pc.PushLocked? ==> (pc.elem == None <==> t == n))
  }

  ghost predicate RolesOK(n: nat, workers: map<Thread, Worker>, pcs: map<Thread, Pc>) {
    forall t: Thread :: RoleOK(n, workers, t, PcOf(pcs, t))
  }

  /** A transaction is in a thread's hands exactly when its record says so. */
  ghost predicate CarryOK(pc: Pc, progress: map<Tr, Progress>, t: Thread, tr: Tr) {
    && (Offers(pc, Some(tr)) <==> tr in progress && progress[tr] == Offered(t))
    && (Holds(pc, Some(tr)) <==> tr in progress && progress[tr] == Held(t))
  }

  ghost predicate CarriedOK(pcs: map<Thread, Pc>, progress: map<Tr, Progress>) {
    forall t: Thread, tr: Tr :: CarryOK(PcOf(pcs, t), progress, t, tr)
  }

  /** Every transaction is in the ring once, and those not taken yet are queued. */
  ghost predicate QueueOK(queue: seq<Elem>, taken: nat, progress: map<Tr, Progress>) {
    && taken <= |queue|
    && (forall i :: 0 <= i < |queue| && queue[i].Some? ==> InRing(queue[i].value, i >= taken, progress))
    && (forall i, j :: 0 <= i < j < |queue| && queue[i].Some? ==> queue[i] != queue[j])
  }

  ghost predicate InRing(tr: Tr, waiting: bool, progress: map<Tr, Progress>) {
    tr in progress && !progress[tr].Offered? && (progress[tr] == Queued <==> waiting)
  }

  /** A worker with a request pending is the one that asks for it; a reply on its socket is
      the server's reply to just that request. */
  ghost predicate WorkerOK(w: Thread, worker: Worker, progress: map<Tr, Progress>, served: map<Tr, int>) {
    worker.Running? ==>
      && (worker.pending ==> worker.tr in progress && progress[worker.tr] == Asked(w)
                             && (worker.inbox == [] <==> worker.tr !in served))
      && (worker.inbox != [] ==> worker.pending && worker.tr in served
                                 && worker.inbox == [Message(worker.tr, served[worker.tr])])
  }

  ghost predicate AnyFailed(workers: map<Thread, Worker>) {
    exists w :: w in workers && workers[w] == Failed
  }

  /** A result buffer holds the server's reply to its own transaction, once, or nothing. */
  ghost predicate ProgressOK(tr: Tr, p: Progress, workers: map<Thread, Worker>, served: map<Tr, int>,
                             result: seq<int>)
  {
    match p
    case Asked(w) => w in workers && Asks(workers[w], tr) && result == []
    case Answered(reply) => tr in served && served[tr] == reply && result == [reply]
    case Lost => AnyFailed(workers) && result == []
    case _ => tr !in served && result == []
  }

  ghost predicate RecordsOK(workers: map<Thread, Worker>, progress: map<Tr, Progress>, served: map<Tr, int>,
                            results: map<Tr, seq<int>>)
  {
    && results.Keys == progress.Keys && served.Keys <= progress.Keys
    && (forall w :: w in workers ==> WorkerOK(w, workers[w], progress, served))
    && (forall tr :: tr in progress ==> ProgressOK(tr, progress[tr], workers, served, results[tr]))
  }

  ghost function Nulls(queue: seq<Elem>): nat {
    if queue == [] then 0 else Nulls(queue[..|queue|-1]) + if queue[|queue|-1] == None then 1 else 0
  }

  /** Workers that have popped a null pointer. */
  ghost function Ended(workers: map<Thread, Worker>, pcs: map<Thread, Pc>): set<Thread> {
    set w | w in workers && (workers[w] == Stopped || Holds(PcOf(pcs, w), None))
  }

  ghost predicate CountOK(queue: seq<Elem>, taken: nat, workers: map<Thread, Worker>, pcs: map<Thread, Pc>) {
    taken <= |queue| && Nulls(queue[..taken]) == |Ended(workers, pcs)|
  }

  /** One null pointer is pushed per worker and no more. */
  ghost predicate NullsOK(n: nat, queue: seq<Elem>, pcs: map<Thread, Pc>, nulls: nat) {
    Nulls(queue) + (if Offers(PcOf(pcs, n), None) then 1 else 0) == nulls <= n
  }

  /** No transaction is sent twice. */
  ghost predicate SentOK(sent: seq<Tr>, progress: map<Tr, Progress>) {
    && (forall i :: 0 <= i < |sent| ==> sent[i] in progress && !Unsent(progress[sent[i]]))
    && (forall i, j :: 0 <= i < j < |sent| ==> sent[i] != sent[j])
  }

  /** (Comparing with `true` keeps the verifier from splitting the conjunction at every use.) */
  ghost predicate Inv(n: nat, b: Books) {
    InvParts(n, b) == true
  }

  ghost predicate InvParts(n: nat, b: Books) {
    && RolesOK(n, b.workers, b.pcs) && CarriedOK(b.pcs, b.progress)
    && QueueOK(b.queue, b.taken, b.progress) && RecordsOK(b.workers, b.progress, b.served, b.results)
    && CountOK(b.queue, b.taken, b.workers, b.pcs) && NullsOK(n, b.queue, b.pcs, b.nulls)
    && SentOK(b.sent, b.progress)
  }

  ghost predicate Issued(progress: map<Tr, Progress>, nextTr: Tr) {
    (forall tr: Tr :: tr in progress ==> tr < nextTr) == true
  }

  /* ---- What a move of one thread does to each part ---- */

  lemma RoleAt(n: nat, workers: map<Thread, Worker>, pcs: map<Thread, Pc>, t: Thread)
    requires RolesOK(n, workers, pcs)
    ensures RoleOK(n, workers, t, PcOf(pcs, t))
  {
  }

  lemma CarryAt(pcs: map<Thread, Pc>, progress: map<Tr, Progress>, t: Thread, tr: Tr)
    requires CarriedOK(pcs, progress)
    ensures CarryOK(PcOf(pcs, t), progress, t, tr)
  {
  }

  lemma RoleKept(n: nat, workers: map<Thread, Worker>, pcs: map<Thread, Pc>, t: Thread, pc: Pc)
    requires RolesOK(n, workers, pcs) && RoleOK(n, workers, t, pc)
    ensures RolesOK(n, workers, pcs[t := pc])
  {
    var pcs' := pcs[t := pc];
    forall u: Thread ensures RoleOK(n, workers, u, PcOf(pcs', u)) {
      assert u != t ==> PcOf(pcs', u) == PcOf(pcs, u);
    }
  }

  lemma WorkerRoleKept(n: nat, workers: map<Thread, Worker>, pcs: map<Thread, Pc>, w: Thread, worker: Worker, pc: Pc)
    requires RolesOK(n, workers, pcs) && w in workers && RoleOK(n, workers[w := worker], w, pc)
    ensures w < n && RolesOK(n, workers[w := worker], pcs[w := pc])
  {
    assert RoleOK(n, workers, w, PcOf(pcs, w));
    var workers', pcs' := workers[w := worker], pcs[w := pc];
    forall u: Thread ensures RoleOK(n, workers', u, PcOf(pcs', u)) {
      assert u != w ==> PcOf(pcs', u) == PcOf(pcs, u) && RoleOK(n, workers, u, PcOf(pcs, u));
    }
  }

  predicate InOtherHands(p: Progress, t: Thread) {
    (p.Offered? && p.thread != t) || (p.Held? && p.worker != t)
  }

  /** A thread moves on with what it has in its hands. */
  lemma SameCarried(pcs: map<Thread, Pc>, progress: map<Tr, Progress>, t: Thread, pc: Pc)
    requires CarriedOK(pcs, progress)
    requires forall e: Elem ::
      (Offers(pc, e) <==> Offers(PcOf(pcs, t), e)) && (Holds(pc, e) <==> Holds(PcOf(pcs, t), e))
    ensures CarriedOK(pcs[t := pc], progress)
  {
    var pcs' := pcs[t := pc];
    forall u: Thread, v: Tr ensures CarryOK(PcOf(pcs', u), progress, u, v) {
      assert CarryOK(PcOf(pcs, u), progress, u, v);
    }
  }

  /** A thread puts a transaction into the hands it had empty, or out of them. */
  lemma HandedOn(pcs: map<Thread, Pc>, progress: map<Tr, Progress>, t: Thread, pc: Pc, tr: Tr, p: Progress)
    requires CarriedOK(pcs, progress) && !InOtherHands(p, t) && (tr in progress ==> !InOtherHands(progress[tr], t))
    requires CarryOK(pc, progress[tr := p], t, tr)
    requires forall v: Tr :: v != tr ==> !Offers(pc, Some(v)) && !Holds(pc, Some(v))
    requires forall v: Tr :: v != tr ==> !Offers(PcOf(pcs, t), Some(v)) && !Holds(PcOf(pcs, t), Some(v))
    ensures CarriedOK(pcs[t := pc], progress[tr := p])
  {
    var pcs', progress' := pcs[t := pc], progress[tr := p];
    forall u: Thread, v: Tr ensures CarryOK(PcOf(pcs', u), progress', u, v) {
      assert CarryOK(PcOf(pcs, u), progress, u, v);
    }
  }

  /** What is not in anyone's hands may be recorded anew. */
  lemma CarriedElsewhere(pcs: map<Thread, Pc>, progress: map<Tr, Progress>, tr: Tr, p: Progress)
    requires CarriedOK(pcs, progress) && !p.Offered? && !p.Held?
    requires tr in progress && !progress[tr].Offered? && !progress[tr].Held?
    ensures CarriedOK(pcs, progress[tr := p])
  {
    var progress' := progress[tr := p];
    forall u: Thread, v: Tr ensures CarryOK(PcOf(pcs, u), progress', u, v) {
      assert CarryOK(PcOf(pcs, u), progress, u, v);
    }
  }

  lemma EndedKept(workers: map<Thread, Worker>, pcs: map<Thread, Pc>, t: Thread, pc: Pc)
    requires t in workers ==> (Holds(pc, None) <==> Holds(PcOf(pcs, t), None))
    ensures Ended(workers, pcs[t := pc]) == Ended(workers, pcs)
  {
  }

  lemma FailedStays(workers: map<Thread, Worker>, w: Thread, worker: Worker)
    requires w in workers && Alive(workers[w])
    ensures AnyFailed(workers) ==> AnyFailed(workers[w := worker])
    ensures worker == Failed ==> AnyFailed(workers[w := worker])
  {
    var workers' := workers[w := worker];
    if AnyFailed(workers) {
      var v :| v in workers && workers[v] == Failed;
      assert v in workers' && workers'[v] == Failed;
    }
    assert workers'[w] == worker;
  }

  /** One worker and one transaction have moved on; the others are as they were. */
  lemma OthersKept(workers: map<Thread, Worker>, progress: map<Tr, Progress>, served: map<Tr, int>,
                   results: map<Tr, seq<int>>, w: Thread, worker: Worker, tr: Tr, p: Progress,
                   served': map<Tr, int>, result: seq<int>)
    requires RecordsOK(workers, progress, served, results) && w in workers && Alive(workers[w]) && tr in progress
    requires served' == served || (tr in served' && served' == served[tr := served'[tr]])
    requires workers[w].Running? && workers[w].pending ==> workers[w].tr == tr
    requires forall v :: v in workers && v != w ==> !Asks(workers[v], tr)
    requires WorkerOK(w, worker, progress[tr := p], served')
    requires ProgressOK(tr, p, workers[w := worker], served', result)
    ensures RecordsOK(workers[w := worker], progress[tr := p], served', results[tr := result])
  {
    var workers', progress', results' := workers[w := worker], progress[tr := p], results[tr := result];
    FailedStays(workers, w, worker);
    forall v | v in workers' ensures WorkerOK(v, workers'[v], progress', served') {
      assert v != w ==> WorkerOK(v, workers[v], progress, served) && !Asks(workers[v], tr);
    }
    forall u | u in progress' ensures ProgressOK(u, progress'[u], workers', served', results'[u]) {
      if u != tr {
        assert ProgressOK(u, progress[u], workers, served, results[u]);
      }
    }
  }

  /** Only the worker that is recorded as asking for a transaction asks for it. */
  lemma OnlyAsker(workers: map<Thread, Worker>, progress: map<Tr, Progress>, served: map<Tr, int>,
                  results: map<Tr, seq<int>>, w: Thread, tr: Tr)
    requires RecordsOK(workers, progress, served, results) && tr in progress
    requires Unsent(progress[tr]) || progress[tr] == Asked(w)
    ensures forall v :: v in workers && v != w ==> !Asks(workers[v], tr)
    ensures Unsent(progress[tr]) ==> w in workers ==> !Asks(workers[w], tr)
  {
    forall v | v in workers ensures v != w || Unsent(progress[tr]) ==> !Asks(workers[v], tr) {
      assert WorkerOK(v, workers[v], progress, served);
    }
  }

  lemma UnsentHas(workers: map<Thread, Worker>, progress: map<Tr, Progress>, served: map<Tr, int>,
                  results: map<Tr, seq<int>>, tr: Tr)
    requires RecordsOK(workers, progress, served, results) && tr in progress && Unsent(progress[tr])
    ensures tr in results && results[tr] == [] && tr !in served
  {
    assert ProgressOK(tr, progress[tr], workers, served, results[tr]);
  }

  /** A transaction not sent yet changes hands. */
  lemma UnsentRecords(workers: map<Thread, Worker>, progress: map<Tr, Progress>, served: map<Tr, int>,
                      results: map<Tr, seq<int>>, tr: Tr, p: Progress)
    requires RecordsOK(workers, progress, served, results) && Unsent(p)
    requires tr in progress ==> Unsent(progress[tr])
    ensures RecordsOK(workers, progress[tr := p], served, results[tr := []])
    ensures tr in progress ==> results[tr := []] == results
  {
    var progress', results' := progress[tr := p], results[tr := []];
    assert tr in progress ==> ProgressOK(tr, progress[tr], workers, served, results[tr]);
    forall w | w in workers ensures WorkerOK(w, workers[w], progress', served) {
      assert WorkerOK(w, workers[w], progress, served);
    }
    forall u | u in progress' ensures ProgressOK(u, progress'[u], workers, served, results'[u]) {
      assert u != tr ==> ProgressOK(u, progress[u], workers, served, results[u]);
    }
  }

  /** A worker that waits for nothing may change without anyone noticing. */
  lemma IdleReplaced(workers: map<Thread, Worker>, progress: map<Tr, Progress>, served: map<Tr, int>,
                     results: map<Tr, seq<int>>, w: Thread, worker: Worker)
    requires RecordsOK(workers, progress, served, results) && w in workers && Alive(workers[w])
    requires workers[w].Running? ==> !workers[w].pending
    requires worker.Running? ==> !worker.pending && worker.inbox == []
    ensures RecordsOK(workers[w := worker], progress, served, results)
  {
    var workers' := workers[w := worker];
    FailedStays(workers, w, worker);
    forall v | v in workers' ensures WorkerOK(v, workers'[v], progress, served) {
      assert v != w ==> WorkerOK(v, workers[v], progress, served);
    }
    forall u | u in progress ensures ProgressOK(u, progress[u], workers', served, results[u]) {
      assert ProgressOK(u, progress[u], workers, served, results[u]);
    }
  }

  lemma QueueElsewhere(queue: seq<Elem>, taken: nat, progress: map<Tr, Progress>, tr: Tr, p: Progress)
    requires QueueOK(queue, taken, progress) && !p.Queued?
    requires tr !in progress || (progress[tr] != Queued && !p.Offered?)
    ensures QueueOK(queue, taken, progress[tr := p])
  {
    forall i | 0 <= i < |queue| && queue[i].Some? ensures InRing(queue[i].value, i >= taken, progress[tr := p]) {
      assert InRing(queue[i].value, i >= taken, progress);
    }
  }

  lemma SentElsewhere(sent: seq<Tr>, progress: map<Tr, Progress>, tr: Tr, p: Progress)
    requires SentOK(sent, progress) && (Unsent(p) ==> tr in progress ==> Unsent(progress[tr]))
    ensures SentOK(sent, progress[tr := p])
  {
  }

  lemma NullsSnoc(queue: seq<Elem>, elem: Elem)
    ensures Nulls(queue + [elem]) == Nulls(queue) + if elem == None then 1 else 0
  {
    assert (queue + [elem])[..|queue + [elem]| - 1] == queue;
  }

  /* ---- The steps ---- */

  /** A client begins to push a new transaction. */
  lemma OfferStep(n: nat, b: Books, t: Thread, tr: Tr)
    requires Inv(n, b) && t > n && PcOf(b.pcs, t) == Idle && tr !in b.progress
    ensures Inv(n, b.(pcs := b.pcs[t := PushReserved(Some(tr))], progress := b.progress[tr := Offered(t)],
                      results := b.results[tr := []]))
  {
    hide RolesOK, CarriedOK, QueueOK, RecordsOK, SentOK, Nulls;
    var pc := PushReserved(Some(tr));
    RoleAt(n, b.workers, b.pcs, t);
    RoleKept(n, b.workers, b.pcs, t, pc);
    HandedOn(b.pcs, b.progress, t, pc, tr, Offered(t));
    QueueElsewhere(b.queue, b.taken, b.progress, tr, Offered(t));
    UnsentRecords(b.workers, b.progress, b.served, b.results, tr, Offered(t));
    EndedKept(b.workers, b.pcs, t, pc);
    SentElsewhere(b.sent, b.progress, tr, Offered(t));
  }

  /** The thread that shuts down begins to push a null pointer. */
  lemma OfferNullStep(n: nat, b: Books)
    requires Inv(n, b) && PcOf(b.pcs, n) == Idle && b.nulls < n
    ensures Inv(n, b.(pcs := b.pcs[n := PushReserved(None)], nulls := b.nulls + 1))
  {
    hide RolesOK, CarriedOK, QueueOK, RecordsOK, SentOK, Nulls;
    RoleAt(n, b.workers, b.pcs, n);
    RoleKept(n, b.workers, b.pcs, n, PushReserved(None));
    SameCarriedButNull(b.pcs, b.progress, n);
    EndedKept(b.workers, b.pcs, n, PushReserved(None));
  }

  lemma SameCarriedButNull(pcs: map<Thread, Pc>, progress: map<Tr, Progress>, t: Thread)
    requires CarriedOK(pcs, progress) && PcOf(pcs, t) == Idle
    ensures CarriedOK(pcs[t := PushReserved(None)], progress)
  {
    var pcs' := pcs[t := PushReserved(None)];
    forall u: Thread, v: Tr ensures CarryOK(PcOf(pcs', u), progress, u, v) {
      assert CarryOK(PcOf(pcs, u), progress, u, v);
    }
  }

  /** A thread goes on inside the buffer with what it has in its hands. */
  lemma WalkStep(n: nat, b: Books, t: Thread, pc: Pc)
    requires Inv(n, b) && RoleOK(n, b.workers, t, pc)
    requires forall e: Elem ::
      (Offers(pc, e) <==> Offers(PcOf(b.pcs, t), e)) && (Holds(pc, e) <==> Holds(PcOf(b.pcs, t), e))
    ensures Inv(n, b.(pcs := b.pcs[t := pc]))
  {
    hide RolesOK, CarriedOK, QueueOK, RecordsOK, SentOK, Nulls;
    RoleKept(n, b.workers, b.pcs, t, pc);
    SameCarried(b.pcs, b.progress, t, pc);
    EndedKept(b.workers, b.pcs, t, pc);
    assert t != n ==> PcOf(b.pcs[t := pc], n) == PcOf(b.pcs, n);
  }

  function ProgressAfter(progress: map<Tr, Progress>, elem: Elem, p: Progress): map<Tr, Progress> {
    if elem.Some? then progress[elem.value := p] else progress
  }

  lemma StoredQueue(queue: seq<Elem>, taken: nat, progress: map<Tr, Progress>, elem: Elem)
    requires QueueOK(queue, taken, progress)
    requires elem.Some? ==> elem.value in progress && progress[elem.value].Offered?
    ensures QueueOK(queue + [elem], taken, ProgressAfter(progress, elem, Queued))
    ensures (queue + [elem])[..taken] == queue[..taken]
  {
    var progress' := ProgressAfter(progress, elem, Queued);
    var queue' := queue + [elem];
    forall i | 0 <= i < |queue'| && queue'[i].Some? ensures InRing(queue'[i].value, i >= taken, progress') {
      assert i < |queue| ==> queue'[i] == queue[i] && InRing(queue[i].value, i >= taken, progress);
    }
    assert forall i :: 0 <= i < |queue| && queue[i].Some? ==> InRing(queue[i].value, i >= taken, progress);
  }

  /** An element is stored in the ring. */
  lemma StoreStep(n: nat, b: Books, t: Thread)
    requires Inv(n, b) && PcOf(b.pcs, t).PushLocked?
    ensures var elem := PcOf(b.pcs, t).elem;
      Inv(n, b.(pcs := b.pcs[t := PushStored], queue := b.queue + [elem],
                progress := ProgressAfter(b.progress, elem, Queued)))
  {
    hide RolesOK, CarriedOK, QueueOK, RecordsOK, SentOK, Nulls;
    var elem := PcOf(b.pcs, t).elem;
    RoleAt(n, b.workers, b.pcs, t);
    RoleKept(n, b.workers, b.pcs, t, PushStored);
    EndedKept(b.workers, b.pcs, t, PushStored);
    NullsSnoc(b.queue, elem);
    assert t != n ==> PcOf(b.pcs[t := PushStored], n) == PcOf(b.pcs, n);
    StoredRecords(b.workers, b.pcs, b.progress, b.served, b.results, b.sent, t);
    StoredQueue(b.queue, b.taken, b.progress, elem);
  }

  lemma StoredRecords(workers: map<Thread, Worker>, pcs: map<Thread, Pc>, progress: map<Tr, Progress>,
                      served: map<Tr, int>, results: map<Tr, seq<int>>, sent: seq<Tr>, t: Thread)
    requires CarriedOK(pcs, progress) && RecordsOK(workers, progress, served, results) && SentOK(sent, progress)
    requires PcOf(pcs, t).PushLocked?
    ensures var elem := PcOf(pcs, t).elem; var progress' := ProgressAfter(progress, elem, Queued);
      && (elem.Some? ==> elem.value in progress && progress[elem.value] == Offered(t))
      && CarriedOK(pcs[t := PushStored], progress') && RecordsOK(workers, progress', served, results)
      && SentOK(sent, progress')
  {
    var elem := PcOf(pcs, t).elem;
    if elem.Some? {
      assert CarryOK(PcOf(pcs, t), progress, t, elem.value);
      HandedOn(pcs, progress, t, PushStored, elem.value, Queued);
      UnsentRecords(workers, progress, served, results, elem.value, Queued);
      SentElsewhere(sent, progress, elem.value, Queued);
    } else {
      NullDropped(pcs, progress, t, PushStored);
    }
  }

  /** A null pointer leaves or enters a thread's hands. */
  lemma NullDropped(pcs: map<Thread, Pc>, progress: map<Tr, Progress>, t: Thread, pc: Pc)
    requires CarriedOK(pcs, progress)
    requires forall v: Tr :: !Offers(pc, Some(v)) && !Holds(pc, Some(v))
    requires forall v: Tr :: !Offers(PcOf(pcs, t), Some(v)) && !Holds(PcOf(pcs, t), Some(v))
    ensures CarriedOK(pcs[t := pc], progress)
  {
    var pcs' := pcs[t := pc];
    forall u: Thread, v: Tr ensures CarryOK(PcOf(pcs', u), progress, u, v) {
      assert CarryOK(PcOf(pcs, u), progress, u, v);
    }
  }

  /** A worker without a pending request begins to pop. */
  lemma ClaimStep(n: nat, b: Books, w: Thread)
    requires Inv(n, b) && w in b.workers && b.workers[w].Running? && !b.workers[w].pending
    ensures PcOf(b.pcs, w) == Idle
    ensures Inv(n, b.(pcs := b.pcs[w := PopReserved], workers := b.workers[w := Popping]))
  {
    hide RolesOK, CarriedOK, QueueOK, RecordsOK, SentOK, Nulls;
    RoleAt(n, b.workers, b.pcs, w);
    WorkerRoleKept(n, b.workers, b.pcs, w, Popping, PopReserved);
    NullDropped(b.pcs, b.progress, w, PopReserved);
    IdleReplaced(b.workers, b.progress, b.served, b.results, w, Popping);
    assert Ended(b.workers[w := Popping], b.pcs[w := PopReserved]) == Ended(b.workers, b.pcs);
  }

  lemma TakenQueue(queue: seq<Elem>, taken: nat, progress: map<Tr, Progress>, p: Progress)
    requires QueueOK(queue, taken, progress) && taken < |queue| && !p.Queued? && !p.Offered?
    ensures queue[taken].Some? ==> queue[taken].value in progress && progress[queue[taken].value] == Queued
    ensures QueueOK(queue, taken + 1, ProgressAfter(progress, queue[taken], p))
    ensures Nulls(queue[..taken + 1]) == Nulls(queue[..taken]) + if queue[taken].None? then 1 else 0
  {
    assert queue[..taken + 1] == queue[..taken] + [queue[taken]];
    NullsSnoc(queue[..taken], queue[taken]);
    var progress' := ProgressAfter(progress, queue[taken], p);
    assert queue[taken].Some? ==> InRing(queue[taken].value, true, progress);
    forall i | 0 <= i < |queue| && queue[i].Some? ensures InRing(queue[i].value, i >= taken + 1, progress') {
      assert InRing(queue[i].value, i >= taken, progress);
      assert i != taken ==> queue[i] != queue[taken];
    }
  }

  /** A worker loads the oldest element of the ring. */
  lemma LoadStep(n: nat, b: Books, w: Thread)
    requires Inv(n, b) && PcOf(b.pcs, w).PopLocked? && b.taken < |b.queue|
    ensures var elem := b.queue[b.taken];
      Inv(n, b.(pcs := b.pcs[w := PopLoaded(elem)], taken := b.taken + 1,
                progress := ProgressAfter(b.progress, elem, Held(w))))
  {
    hide RolesOK, CarriedOK, QueueOK, RecordsOK, SentOK, Nulls;
    var elem := b.queue[b.taken];
    var pc := PopLoaded(elem);
    RoleAt(n, b.workers, b.pcs, w);
    RoleKept(n, b.workers, b.pcs, w, pc);
    TakenQueue(b.queue, b.taken, b.progress, Held(w));
    if elem.Some? {
      HandedOn(b.pcs, b.progress, w, pc, elem.value, Held(w));
      UnsentRecords(b.workers, b.progress, b.served, b.results, elem.value, Held(w));
      SentElsewhere(b.sent, b.progress, elem.value, Held(w));
      EndedKept(b.workers, b.pcs, w, pc);
    } else {
      NullDropped(b.pcs, b.progress, w, pc);
      assert Ended(b.workers, b.pcs[w := pc]) == Ended(b.workers, b.pcs) + {w} && w !in Ended(b.workers, b.pcs);
    }
  }

  /** A worker has popped a null pointer and ends. */
  lemma EndStep(n: nat, b: Books, w: Thread)
    requires Inv(n, b) && PcOf(b.pcs, w) == PopUnlocked(None)
    ensures w in b.workers && Inv(n, b.(pcs := b.pcs[w := Idle], workers := b.workers[w := Stopped]))
  {
    hide RolesOK, CarriedOK, QueueOK, RecordsOK, SentOK, Nulls;
    RoleAt(n, b.workers, b.pcs, w);
    WorkerRoleKept(n, b.workers, b.pcs, w, Stopped, Idle);
    NullDropped(b.pcs, b.progress, w, Idle);
    IdleReplaced(b.workers, b.progress, b.served, b.results, w, Stopped);
    assert Ended(b.workers[w := Stopped], b.pcs[w := Idle]) == Ended(b.workers, b.pcs);
  }

  /** A worker has popped a transaction and sends it, or fails to. */
  lemma SendStep(n: nat, b: Books, w: Thread, tr: Tr, worker: Worker, p: Progress)
    requires Inv(n, b) && PcOf(b.pcs, w) == PopUnlocked(Some(tr))
    requires (worker == Failed && p == Lost) || (worker == Running(true, tr, []) && p == Asked(w))
    ensures w in b.workers
    ensures Inv(n, b.(pcs := b.pcs[w := Idle], workers := b.workers[w := worker], progress := b.progress[tr := p],
                      sent := b.sent + [tr]))
  {
    hide RolesOK, CarriedOK, QueueOK, RecordsOK, SentOK, Nulls;
    RoleAt(n, b.workers, b.pcs, w);
    CarryAt(b.pcs, b.progress, w, tr);
    UnsentHas(b.workers, b.progress, b.served, b.results, tr);
    WorkerRoleKept(n, b.workers, b.pcs, w, worker, Idle);
    HandedOn(b.pcs, b.progress, w, Idle, tr, p);
    QueueElsewhere(b.queue, b.taken, b.progress, tr, p);
    OnlyAsker(b.workers, b.progress, b.served, b.results, w, tr);
    FailedStays(b.workers, w, worker);
    OthersKept(b.workers, b.progress, b.served, b.results, w, worker, tr, p, b.served, b.results[tr]);
    assert b.results[tr := b.results[tr]] == b.results;
    assert Ended(b.workers[w := worker], b.pcs[w := Idle]) == Ended(b.workers, b.pcs);
    SentNow(b.sent, b.progress, tr, p);
  }

  lemma SentNow(sent: seq<Tr>, progress: map<Tr, Progress>, tr: Tr, p: Progress)
    requires SentOK(sent, progress) && !Unsent(p) && tr in progress && Unsent(progress[tr])
    ensures SentOK(sent + [tr], progress[tr := p])
  {
  }

  /** The server replies to the request it was sent. */
  lemma ServeStep(n: nat, b: Books, w: Thread, reply: int)
    requires Inv(n, b) && w in b.workers && b.workers[w].Running? && b.workers[w].pending && b.workers[w].inbox == []
    ensures b.workers[w].tr !in b.served
    ensures Inv(n, b.(workers := b.workers[w := b.workers[w].(inbox := [Message(b.workers[w].tr, reply)])],
                      served := b.served[b.workers[w].tr := reply]))
  {
    var worker := b.workers[w];
    var tr := worker.tr;
    var worker' := worker.(inbox := [Message(tr, reply)]);
    assert WorkerOK(w, worker, b.progress, b.served);
    assert ProgressOK(tr, b.progress[tr], b.workers, b.served, b.results[tr]);
    OnlyAsker(b.workers, b.progress, b.served, b.results, w, tr);
    FailedStays(b.workers, w, worker');
    OthersKept(b.workers, b.progress, b.served, b.results, w, worker', tr, b.progress[tr], b.served[tr := reply],
               b.results[tr]);
    assert b.progress[tr := b.progress[tr]] == b.progress && b.results[tr := b.results[tr]] == b.results;
    StillThere(n, b, w, worker');
  }

  /** A worker outside the buffer stays outside. */
  lemma StillThere(n: nat, b: Books, w: Thread, worker: Worker)
    requires Inv(n, b) && w in b.workers && b.workers[w].Running? && !worker.Popping? && worker != Stopped
    ensures PcOf(b.pcs, w) == Idle && RolesOK(n, b.workers[w := worker], b.pcs)
    ensures CountOK(b.queue, b.taken, b.workers[w := worker], b.pcs)
  {
    RoleAt(n, b.workers, b.pcs, w);
    var workers' := b.workers[w := worker];
    forall u: Thread ensures RoleOK(n, workers', u, PcOf(b.pcs, u)) {
      RoleAt(n, b.workers, b.pcs, u);
    }
    assert Ended(workers', b.pcs) == Ended(b.workers, b.pcs);
  }

  /** A reply goes to the result buffer of the transaction the worker asks for. */
  lemma DeliverStep(n: nat, b: Books, w: Thread)
    requires Inv(n, b) && w in b.workers && b.workers[w].Running? && b.workers[w].inbox != []
    ensures var worker := b.workers[w]; var tr := worker.tr;
      && worker.pending && tr in b.progress && tr in b.served && worker.inbox == [Message(tr, b.served[tr])]
      && tr in b.results && b.results[tr] == []
      && Inv(n, b.(workers := b.workers[w := worker.(pending := false, inbox := [])],
                   progress := b.progress[tr := Answered(b.served[tr])], results := b.results[tr := [b.served[tr]]]))
  {
    var worker := b.workers[w];
    var tr := worker.tr;
    var worker' := worker.(pending := false, inbox := []);
    assert WorkerOK(w, worker, b.progress, b.served);
    assert ProgressOK(tr, b.progress[tr], b.workers, b.served, b.results[tr]);
    OnlyAsker(b.workers, b.progress, b.served, b.results, w, tr);
    FailedStays(b.workers, w, worker');
    OthersKept(b.workers, b.progress, b.served, b.results, w, worker', tr, Answered(b.served[tr]), b.served,
               [b.served[tr]]);
    CarriedElsewhere(b.pcs, b.progress, tr, Answered(b.served[tr]));
    QueueElsewhere(b.queue, b.taken, b.progress, tr, Answered(b.served[tr]));
    SentElsewhere(b.sent, b.progress, tr, Answered(b.served[tr]));
    StillThere(n, b, w, worker');
  }

  /** A worker breaks off; the transaction it was waiting for, if any, is lost. */
  lemma FailStep(n: nat, b: Books, w: Thread)
    requires Inv(n, b) && w in b.workers && b.workers[w].Running?
    ensures var worker := b.workers[w];
      && (worker.pending ==> worker.tr in b.progress && b.progress[worker.tr] == Asked(w))
      && Inv(n, b.(workers := b.workers[w := Failed],
                   progress := if worker.pending then b.progress[worker.tr := Lost] else b.progress))
  {
    var worker := b.workers[w];
    StillThere(n, b, w, Failed);
    assert WorkerOK(w, worker, b.progress, b.served);
    FailedStays(b.workers, w, Failed);
    if worker.pending {
      var tr := worker.tr;
      assert ProgressOK(tr, b.progress[tr], b.workers, b.served, b.results[tr]);
      OnlyAsker(b.workers, b.progress, b.served, b.results, w, tr);
      OthersKept(b.workers, b.progress, b.served, b.results, w, Failed, tr, Lost, b.served, b.results[tr]);
      assert b.results[tr := b.results[tr]] == b.results;
      CarriedElsewhere(b.pcs, b.progress, tr, Lost);
      QueueElsewhere(b.queue, b.taken, b.progress, tr, Lost);
      SentElsewhere(b.sent, b.progress, tr, Lost);
    } else {
      IdleReplaced(b.workers, b.progress, b.served, b.results, w, Failed);
    }
  }

  /* ---- The client and its threads ---- */

  function Numbers(n: nat): (s: set<nat>)
    ensures forall x: nat :: x in s <==> x < n
    ensures |s| == n
  {
    if n == 0 then {}
    else
      var r := Numbers(n - 1);
      assert n - 1 !in r;
      r + {n - 1}
  }

  lemma InvStarts(n: nat, workers: map<Thread, Worker>)
    requires forall w: Thread :: w in workers <==> w < n
    requires forall w :: w in workers ==> workers[w] == Running(false, 0, [])
    ensures Inv(n, Books([], 0, map[], workers, map[], map[], map[], 0, []))
  {
    assert Ended(workers, map[]) == {};
    assert Nulls([]) == 0;
  }

  class Srdb {
    const ntransacts: nat
    const transactions: Sbuf
    var workers: map<Thread, Worker>
    var results: map<Tr, seq<int>>
    var nextTr: Tr
    var nulls: nat
    ghost var progress: map<Tr, Progress>
    ghost var served: map<Tr, int>
    ghost var sent: seq<Tr>

    ghost function Snapshot(): Books
      reads this, transactions
    {
      Books(transactions.pushed, |transactions.popped|, transactions.pcs, workers, progress, served, results, nulls,
            sent)
    }

    ghost predicate Valid()
      reads this, transactions, transactions.data
    {
      Parts() == true
    }

    ghost predicate Parts()
      reads this, transactions, transactions.data
    {
      && transactions.Valid() && transactions.capacity == 2 * ntransacts && PowerOfTwo(ntransacts) == true
      && Issued(progress, nextTr)
      && Inv(ntransacts, Snapshot())
    }

    /** The queue of transactions is a ring with two places per worker: it needs a number of
        workers that is a power of two. */
    constructor (n: nat)
      requires PowerOfTwo(n) && 2 * n <= WORD
      ensures Valid() && ntransacts == n && fresh(transactions) && fresh(transactions.data)
      ensures Snapshot() == Books([], 0, map[], workers, map[], map[], map[], 0, [])
    {
      ntransacts := n;
      transactions := new Sbuf(2 * n);
      workers := map w: Thread | w in Numbers(n) :: Running(false, 0, []);
      results := map[];
      nextTr := 0;
      nulls := 0;
      progress := map[];
      served := map[];
      sent := [];
      new;
      InvStarts(n, workers);
    }

    /** A client thread begins to push a new transaction; it waits while no place is free. */
    method Submit(t: Thread) returns (tr: Option<Tr>)
      requires Valid() && t > ntransacts && PcOf(transactions.pcs, t) == Idle
      modifies this`results, this`nextTr, this`progress, transactions
      ensures Valid() && (tr.Some? <==> old(transactions.empty) > 0)
      ensures tr.Some? ==> tr.value !in old(progress) && PcOf(transactions.pcs, t) == PushReserved(tr)
      ensures tr.Some? ==> results == old(results)[tr.value := []]
      ensures tr.None? ==> Snapshot() == old(Snapshot())
      ensures transactions.pushed == old(transactions.pushed) && transactions.popped == old(transactions.popped)
    {
      hide Inv, Sbuf.Valid;
      OfferIfFree(t);
      var ok := transactions.Reserve(t, Some(nextTr));
      if !ok {
        return None;
      }
      tr := Some(nextTr);
      results := results[nextTr := []];
      progress := progress[nextTr := Offered(t)];
      nextTr := nextTr + 1;
    }

    lemma OfferIfFree(t: Thread)
      requires Valid() && t > ntransacts && PcOf(transactions.pcs, t) == Idle
      ensures Inv(ntransacts, Snapshot().(pcs := transactions.pcs[t := PushReserved(Some(nextTr))],
                                          progress := progress[nextTr := Offered(t)], results := results[nextTr := []]))
    {
      hide Sbuf.Valid;
      OfferStep(ntransacts, Snapshot(), t, nextTr);
    }

    /** On shutdown a null pointer is pushed for every worker, one after the other. */
    method PushNull() returns (ok: bool)
      requires Valid() && PcOf(transactions.pcs, ntransacts) == Idle && nulls < ntransacts
      modifies this`nulls, transactions
      ensures Valid() && (ok <==> old(transactions.empty) > 0)
      ensures ok ==> nulls == old(nulls) + 1 && PcOf(transactions.pcs, ntransacts) == PushReserved(None)
      ensures !ok ==> Snapshot() == old(Snapshot())
      ensures transactions.pushed == old(transactions.pushed) && transactions.popped == old(transactions.popped)
    {
      hide Inv, Sbuf.Valid;
      OfferNullStep(ntransacts, Snapshot());
      ok := transactions.Reserve(ntransacts, None);
      if ok {
        nulls := nulls + 1;
      }
    }

    /** A thread that pushes takes its next step in the buffer; waiting for the lock leaves
        everything as it is. */
    method Push(t: Thread)
      requires Valid() && t >= ntransacts && PcOf(transactions.pcs, t) != Idle
      modifies this`progress, transactions, transactions.data
      ensures Valid() && transactions.popped == old(transactions.popped)
      ensures var pc := old(PcOf(transactions.pcs, t));
        transactions.pushed == old(transactions.pushed) + if pc.PushLocked? then [pc.elem] else []
    {
      hide Inv, Sbuf.Valid;
      var pc := PcOf(transactions.pcs, t);
      RoleHere(t);
      match pc {
        case PushReserved(elem) =>
          WalkStep(ntransacts, Snapshot(), t, PushLocked(elem));
          var _ := transactions.Lock(t);
        case PushLocked(_) =>
          Store(t);
        case PushStored =>
          WalkStep(ntransacts, Snapshot(), t, PushUnlocked);
          transactions.Unlock(t);
        case PushUnlocked =>
          WalkStep(ntransacts, Snapshot(), t, Idle);
          var _ := transactions.Post(t);
      }
    }

    method Store(t: Thread)
      requires Valid() && PcOf(transactions.pcs, t).PushLocked?
      modifies this`progress, transactions, transactions.data
      ensures Valid() && transactions.popped == old(transactions.popped)
      ensures transactions.pushed == old(transactions.pushed) + [old(PcOf(transactions.pcs, t)).elem]
    {
      hide Inv, Sbuf.Valid;
      var elem := PcOf(transactions.pcs, t).elem;
      StoreStep(ntransacts, Snapshot(), t);
      InHands(t, elem);
      transactions.Store(t);
      progress := ProgressAfter(progress, elem, Queued);
    }

    lemma RoleHere(t: Thread)
      requires Valid()
      ensures RoleOK(ntransacts, workers, t, PcOf(transactions.pcs, t))
    {
    }

    lemma InHands(t: Thread, elem: Elem)
      requires Valid() && (Offers(PcOf(transactions.pcs, t), elem) || Holds(PcOf(transactions.pcs, t), elem))
      ensures elem.Some? ==> elem.value in progress
    {
      hide Sbuf.Valid;
      if elem.Some? {
        assert CarryOK(PcOf(transactions.pcs, t), progress, t, elem.value);
      }
    }

    /** The server replies once to a request it was sent. */
    method Serve(w: Thread, reply: int)
      requires Valid() && w in workers && workers[w].Running? && workers[w].pending && workers[w].inbox == []
      modifies this`workers, this`served
      ensures Valid() && old(workers)[w].tr !in old(served) && served == old(served)[old(workers)[w].tr := reply]
      ensures workers == old(workers)[w := old(workers)[w].(inbox := [Message(old(workers)[w].tr, reply)])]
    {
      hide Inv, Sbuf.Valid;
      ServeStep(ntransacts, Snapshot(), w, reply);
      var worker := workers[w];
      workers := workers[w := worker.(inbox := [Message(worker.tr, reply)])];
      served := served[worker.tr := reply];
    }

    /** A reply is read from the worker's socket and goes to the result buffer of the
        transaction the worker remembers. */
    method Deliver(w: Thread)
      requires Valid() && w in workers && workers[w].Running? && workers[w].inbox != []
      modifies this`workers, this`results, this`progress
      ensures Valid() && workers == old(workers)[w := old(workers)[w].(pending := false, inbox := [])]
      ensures var tr := old(workers)[w].tr;
        tr in old(results) && tr in served && old(results)[tr] == [] && results == old(results)[tr := [served[tr]]]
    {
      hide Inv, Sbuf.Valid;
      DeliverStep(ntransacts, Snapshot(), w);
      var worker := workers[w];
      var tr, reply := worker.tr, worker.inbox[0].reply;
      assert results[tr] + [reply] == [served[tr]];
      if worker.pending {
        results := results[tr := results[tr] + [reply]];
        worker := worker.(pending := false);
      }
      workers := workers[w := worker.(inbox := [])];
      progress := progress[tr := Answered(reply)];
    }

    /** A worker breaks off; the transaction it was waiting for, if any, is lost. */
    method Fail(w: Thread)
      requires Valid() && w in workers && workers[w].Running?
      modifies this`workers, this`progress
      ensures Valid() && workers == old(workers)[w := Failed]
    {
      hide Inv, Sbuf.Valid;
      FailStep(ntransacts, Snapshot(), w);
      var worker := workers[w];
      if worker.pending {
        progress := progress[worker.tr := Lost];
      }
      workers := workers[w := Failed];
    }

    lemma SentOnce()
      requires Valid()
      ensures transactions.popped <= transactions.pushed
      ensures forall i, j :: 0 <= i < j < |sent| ==> sent[i] != sent[j]
    {
      assert (2 * ntransacts) / 2 == ntransacts;
    }

    /** One round of a worker's loop, up to its pop of the next transaction. */
    method Round(w: Thread, luck: Luck)
      requires Valid() && w in workers && workers[w].Running?
      modifies this`workers, this`results, this`progress, transactions
      ensures Valid() && transactions.pushed == old(transactions.pushed)
      ensures transactions.popped == old(transactions.popped)
      ensures luck.pollFails ==> workers == old(workers)[w := Failed]
      ensures !luck.pollFails && !luck.echo ==> !(workers[w].Running? && workers[w].inbox != [])
      ensures !luck.pollFails ==>
        (workers[w].Popping? <==>
          old(transactions.full) > 0 && (old(workers)[w].pending ==> !luck.echo && old(workers)[w].inbox != []))
    {
      hide Inv, Sbuf.Valid;
      if luck.pollFails {
        Fail(w);
        return;
      }
      if !luck.echo && workers[w].inbox != [] {
        Deliver(w);
      }
      if !workers[w].pending {
        TryPop(w);
      }
    }

    /** An idle worker begins to pop, if there is something to pop. */
    method TryPop(w: Thread)
      requires Valid() && w in workers && workers[w].Running? && !workers[w].pending
      modifies this`workers, transactions
      ensures Valid() && transactions.pushed == old(transactions.pushed)
      ensures transactions.popped == old(transactions.popped)
      ensures workers == if old(transactions.full) > 0 then old(workers)[w := Popping] else old(workers)
    {
      hide Inv, Sbuf.Valid;
      ClaimStep(ntransacts, Snapshot(), w);
      var ok := transactions.Claim(w);
      if ok {
        workers := workers[w := Popping];
      }
    }

    /** A worker inside the buffer takes its next step there; at the end a null pointer ends
        it, and a transaction is sent. */
    method Pop(w: Thread, luck: Luck)
      requires Valid() && w in workers && workers[w].Popping?
      modifies this`workers, this`progress, this`sent, transactions
      ensures Valid() && transactions.pushed == old(transactions.pushed)
      ensures var pc := old(PcOf(transactions.pcs, w));
        && (pc.PopUnlocked? ==> workers == old(workers)[w :=
              if pc.elem.None? then Stopped else if luck.sendFails then Failed else Running(true, pc.elem.value, [])])
        && (!pc.PopUnlocked? ==> workers == old(workers))
        && sent == old(sent) + (if pc.PopUnlocked? && pc.elem.Some? then [pc.elem.value] else [])
    {
      hide Inv, Sbuf.Valid;
      var pc := PcOf(transactions.pcs, w);
      RoleHere(w);
      match pc {
        case PopReserved =>
          WalkStep(ntransacts, Snapshot(), w, PopLocked);
          var _ := transactions.Lock(w);
        case PopLocked =>
          Load(w);
        case PopLoaded(elem) =>
          WalkStep(ntransacts, Snapshot(), w, PopUnlocked(elem));
          transactions.Unlock(w);
        case PopUnlocked(None) =>
          PoppedNull(w);
        case PopUnlocked(Some(tr)) =>
          Send(w, tr, luck.sendFails);
      }
    }

    method Load(w: Thread)
      requires Valid() && w in workers && PcOf(transactions.pcs, w).PopLocked?
      modifies this`progress, transactions
      ensures Valid() && transactions.pushed == old(transactions.pushed)
      ensures |old(transactions.popped)| < |transactions.pushed|
      ensures transactions.popped == transactions.pushed[..|old(transactions.popped)| + 1]
    {
      hide Inv, Sbuf.Valid;
      ghost var elem, b' := Loaded(w);
      transactions.Load(w);
      progress := b'.progress;
      assert Snapshot() == b';
    }

    lemma Loaded(w: Thread) returns (elem: Elem, b': Books)
      requires Valid() && w in workers && PcOf(transactions.pcs, w).PopLocked?
      ensures PowerOfTwo(transactions.capacity) && |transactions.popped| < |transactions.pushed|
      ensures elem == transactions.pushed[|transactions.popped|]
      ensures b' == Snapshot().(pcs := transactions.pcs[w := PopLoaded(elem)], taken := |transactions.popped| + 1,
                                progress := b'.progress)
      ensures Inv(ntransacts, b') && Issued(b'.progress, nextTr)
    {
      ghost var taken, queue := |transactions.popped|, transactions.pushed;
      SomethingStored(transactions.capacity, transactions.empty, transactions.full, |queue| - taken, transactions.pcs,
                      w);
      assert (2 * ntransacts) / 2 == ntransacts;
      LoadStep(ntransacts, Snapshot(), w);
      elem := queue[taken];
      assert elem.Some? ==> InRing(elem.value, true, progress);
      b' := Snapshot().(pcs := transactions.pcs[w := PopLoaded(elem)], taken := taken + 1,
                        progress := ProgressAfter(progress, elem, Held(w)));
    }

    method PoppedNull(w: Thread)
      requires Valid() && w in workers && PcOf(transactions.pcs, w) == PopUnlocked(None)
      modifies this`workers, transactions
      ensures Valid() && workers == old(workers)[w := Stopped]
      ensures transactions.pushed == old(transactions.pushed) && transactions.popped == old(transactions.popped)
    {
      hide Inv, Sbuf.Valid;
      EndStep(ntransacts, Snapshot(), w);
      var _ := transactions.Post(w);
      workers := workers[w := Stopped];
    }

    lemma Sent(w: Thread, tr: Tr, worker: Worker, p: Progress) returns (b': Books)
      requires Valid() && w in workers && PcOf(transactions.pcs, w) == PopUnlocked(Some(tr))
      requires (worker == Failed && p == Lost) || (worker == Running(true, tr, []) && p == Asked(w))
      ensures b' == Snapshot().(pcs := transactions.pcs[w := Idle], workers := workers[w := worker],
                                progress := progress[tr := p], sent := sent + [tr])
      ensures Inv(ntransacts, b') && Issued(progress[tr := p], nextTr)
    {
      hide Sbuf.Valid;
      InHands(w, Some(tr));
      SendStep(ntransacts, Snapshot(), w, tr, worker, p);
      b' := Snapshot().(pcs := transactions.pcs[w := Idle], workers := workers[w := worker],
                        progress := progress[tr := p], sent := sent + [tr]);
    }

    method Send(w: Thread, tr: Tr, sendFails: bool)
      requires Valid() && w in workers && PcOf(transactions.pcs, w) == PopUnlocked(Some(tr))
      modifies this`workers, this`progress, this`sent, transactions
      ensures Valid() && workers == old(workers)[w := if sendFails then Failed else Running(true, tr, [])]
      ensures sent == old(sent) + [tr]
      ensures transactions.pushed == old(transactions.pushed) && transactions.popped == old(transactions.popped)
    {
      hide Inv, Sbuf.Valid;
      Enter(w, tr, if sendFails then Failed else Running(true, tr, []), if sendFails then Lost else Asked(w));
    }

    /** The transaction is recorded as sent, or as lost. */
    method Enter(w: Thread, tr: Tr, worker: Worker, ghost p: Progress)
      requires Valid() && w in workers && PcOf(transactions.pcs, w) == PopUnlocked(Some(tr))
      requires (worker == Failed && p == Lost) || (worker == Running(true, tr, []) && p == Asked(w))
      modifies this`workers, this`progress, this`sent, transactions
      ensures Valid() && workers == old(workers)[w := worker] && sent == old(sent) + [tr]
      ensures transactions.pushed == old(transactions.pushed) && transactions.popped == old(transactions.popped)
    {
      hide Inv, Sbuf.Valid;
      ghost var b' := Sent(w, tr, worker, p);
      workers := workers[w := worker];
      progress := b'.progress;
      sent := b'.sent;
      var _ := transactions.Post(w);
      assert Snapshot() == b';
    }
  }

  /* ---- Runs and shutdown ---- */

  datatype Event =
    | Submitting(thread: Thread)
    | Ending
    | Pushing(thread: Thread)
    | Serving(worker: Thread, reply: int)
    | Turn(worker: Thread, luck: Luck)

  /** Any interleaving of the steps of clients, shutdown, server and workers: every
      transaction is sent at most once and in the order of submission, a result buffer holds
      at most the server's reply to its own transaction, and once all workers have ended at
      their null pointers, every transaction pushed before one of these has its result.
      Events that cannot happen leave everything as it is. */
  method Run(n: nat, schedule: seq<Event>) returns (srdb: Srdb)
    requires PowerOfTwo(n) && 2 * n <= WORD
    ensures fresh(srdb) && srdb.Valid() && srdb.ntransacts == n
    ensures srdb.transactions.popped <= srdb.transactions.pushed
    ensures forall i, j :: 0 <= i < j < |srdb.sent| ==> srdb.sent[i] != srdb.sent[j]
    ensures forall tr :: tr in srdb.progress ==> AtMostOneResult(srdb.results, srdb.served, tr)
    ensures (forall w: Thread :: w < n ==> w in srdb.workers && srdb.workers[w] == Stopped) ==>
      forall i :: 0 <= i < |srdb.transactions.pushed| ==>
        NullAfter(srdb.transactions.pushed, i) ==> HasReply(srdb.transactions.pushed[i], srdb.results, srdb.served)
  {
    hide Inv, Sbuf.Valid;
    srdb := new Srdb(n);
    var k := 0;
    while k < |schedule|
      invariant 0 <= k <= |schedule| && fresh(srdb) && fresh(srdb.transactions) && fresh(srdb.transactions.data)
      invariant srdb.Valid() && srdb.ntransacts == n
    {
      Happen(srdb, schedule[k]);
      k := k + 1;
    }
    srdb.SentOnce();
    ResultsAreReplies(n, srdb.Snapshot());
    if forall w: Thread :: w < n ==> w in srdb.workers && srdb.workers[w] == Stopped {
      AllAnswered(n, srdb.Snapshot());
    }
  }

  method Happen(srdb: Srdb, e: Event)
    requires srdb.Valid()
    modifies srdb, srdb.transactions, srdb.transactions.data
    ensures srdb.Valid()
    ensures old(srdb.transactions.pushed) <= srdb.transactions.pushed
  {
    hide Inv, Sbuf.Valid;
    match e {
      case Submitting(t) =>
        if t > srdb.ntransacts && PcOf(srdb.transactions.pcs, t) == Idle {
          var _ := srdb.Submit(t);
        }
      case Ending =>
        if PcOf(srdb.transactions.pcs, srdb.ntransacts) == Idle && srdb.nulls < srdb.ntransacts {
          var _ := srdb.PushNull();
        }
      case Pushing(t) =>
        if t >= srdb.ntransacts && PcOf(srdb.transactions.pcs, t) != Idle {
          srdb.Push(t);
        }
      case Serving(w, reply) =>
        if w in srdb.workers && srdb.workers[w].Running? && srdb.workers[w].pending && srdb.workers[w].inbox == [] {
          srdb.Serve(w, reply);
        }
      case Turn(w, luck) =>
        if w in srdb.workers && srdb.workers[w].Running? {
          srdb.Round(w, luck);
        } else if w in srdb.workers && srdb.workers[w].Popping? {
          srdb.Pop(w, luck);
        }
    }
  }

  /** A result buffer never holds more than one result, and that is the server's reply to
      its own transaction. */
  ghost predicate AtMostOneResult(results: map<Tr, seq<int>>, served: map<Tr, int>, tr: Tr) {
    tr in results && (results[tr] == [] || (tr in served && results[tr] == [served[tr]]))
  }

  lemma ResultsAreReplies(n: nat, b: Books)
    requires Inv(n, b)
    ensures forall tr :: tr in b.progress ==> AtMostOneResult(b.results, b.served, tr)
  {
    forall tr | tr in b.progress ensures AtMostOneResult(b.results, b.served, tr) {
      assert ProgressOK(tr, b.progress[tr], b.workers, b.served, b.results[tr]);
    }
  }

  lemma {:induction false} NullsGrow(queue: seq<Elem>, m: nat, n: nat)
    requires m <= n <= |queue|
    ensures Nulls(queue[..m]) <= Nulls(queue[..n])
    ensures forall j :: m <= j < n && queue[j] == None ==> Nulls(queue[..m]) < Nulls(queue[..n])
    decreases n
  {
    if m < n {
      NullsGrow(queue, m, n - 1);
      assert queue[..n][..n-1] == queue[..n-1];
    }
  }

  /** A transaction that is before a null pointer in the order of pushes. */
  ghost predicate NullAfter(queue: seq<Elem>, i: nat) {
    i < |queue| && queue[i].Some? && exists j :: i < j < |queue| && queue[j] == None
  }

  ghost predicate HasReply(elem: Elem, results: map<Tr, seq<int>>, served: map<Tr, int>) {
    elem.Some? && elem.value in served && elem.value in results && results[elem.value] == [served[elem.value]]
  }

  lemma HeldInside(n: nat, b: Books, tr: Tr)
    requires Inv(n, b) && tr in b.progress && b.progress[tr].Held?
    ensures b.progress[tr].worker in b.workers && b.workers[b.progress[tr].worker].Popping?
  {
    var w := b.progress[tr].worker;
    assert CarryOK(PcOf(b.pcs, w), b.progress, w, tr);
    RoleAt(n, b.workers, b.pcs, w);
  }

  /** Shutdown: as no more null pointers are pushed than there are workers, once every worker
      has ended at one of them, every transaction pushed before any of them has its one
      result. */
  lemma AllAnswered(n: nat, b: Books)
    requires Inv(n, b) && forall w: Thread :: w < n ==> w in b.workers && b.workers[w] == Stopped
    ensures forall i :: 0 <= i < |b.queue| ==> NullAfter(b.queue, i) ==> HasReply(b.queue[i], b.results, b.served)
  {
    forall w | w in b.workers ensures w < n && b.workers[w] == Stopped {
      RoleAt(n, b.workers, b.pcs, w);
    }
    assert Ended(b.workers, b.pcs) == Numbers(n);
    assert b.queue[..|b.queue|] == b.queue;
    NullsGrow(b.queue, b.taken, |b.queue|);
    forall i | 0 <= i < |b.queue| && NullAfter(b.queue, i) ensures HasReply(b.queue[i], b.results, b.served) {
      var tr := b.queue[i].value;
      assert InRing(tr, i >= b.taken, b.progress);
      assert ProgressOK(tr, b.progress[tr], b.workers, b.served, b.results[tr]);
      if b.progress[tr].Held? {
        HeldInside(n, b, tr);
      }
    }
  }

  /* ---- Other numbers of workers ---- */

  /** The queue keeps what is pushed to it apart exactly when the number of workers is a
      power of two. */
  lemma QueueWorksIff(n: nat)
    requires n >= 1
    ensures PowerOfTwo(n) <==> forall i: nat, j: nat :: i < j < 2 * n ==> Mask(2 * n, i) != Mask(2 * n, j)
  {
    MaskWorksIff(2 * n);
    assert (2 * n) / 2 == n;
  }

  /** A queue that is filled by clients and then emptied by workers hands out what was pushed
      exactly when the number of workers is a power of two. */
  method FilledQueue(n: nat) returns (queue: Sbuf)
    requires n >= 1 && 2 * n <= WORD
    ensures fresh(queue) && queue.capacity == 2 * n && |queue.pushed| == |queue.popped| == 2 * n
    ensures forall i, j :: 0 <= i < j < 2 * n ==> queue.pushed[i] != queue.pushed[j]
    ensures queue.popped == queue.pushed <==> PowerOfTwo(n)
  {
    queue := FillAndDrain(2 * n);
    assert (2 * n) / 2 == n;
  }

  /** Three workers, with a queue of six places: of three transactions pushed before the
      first pop, the third overwrites the first.  The first is never popped, and the third
      is popped twice. */
  method ThreeWorkers(first: Tr, second: Tr, third: Tr) returns (queue: Sbuf)
    requires first != third
    ensures fresh(queue) && queue.capacity == 2 * 3 && !PowerOfTwo(3)
    ensures queue.pushed == [Some(first), Some(second), Some(third)]
    ensures queue.popped == [Some(third), Some(second), Some(third)]
  {
    queue := new Sbuf(6);
    SlotsOfSix();
    PushThree(queue, first, second, third);
    PopThree(queue);
  }

  lemma SlotsOfSix()
    ensures Mask(6, Wrap(0)) == 0 && Mask(6, Wrap(1)) == 1 && Mask(6, Wrap(2)) == 0 && !PowerOfTwo(3)
  {
    assert And(2, 5) == 2 * And(1, 2) && And(1, 2) == 2 * And(0, 1);
  }

  method PushThree(queue: Sbuf, first: Tr, second: Tr, third: Tr)
    requires Resting(queue, 6, 0) && queue.capacity == 6 && queue.pushed == [] && queue.popped == []
    requires Mask(6, Wrap(0)) == 0 && Mask(6, Wrap(1)) == 1 && Mask(6, Wrap(2)) == 0
    modifies queue, queue.data
    ensures Resting(queue, 3, 3) && queue.pushed == [Some(first), Some(second), Some(third)] && queue.popped == []
    ensures queue.data[0] == Some(third) && queue.data[1] == Some(second)
  {
    PushAlone(queue, Some(first));
    PushAlone(queue, Some(second));
    assert queue.data[..][1] == Some(second);
    PushAlone(queue, Some(third));
    assert queue.data[..][0] == Some(third) && queue.data[..][1] == Some(second);
  }

  method PopThree(queue: Sbuf)
    requires Resting(queue, 3, 3) && queue.capacity == 6 && queue.popped == []
    requires Mask(6, Wrap(0)) == 0 && Mask(6, Wrap(1)) == 1 && Mask(6, Wrap(2)) == 0
    modifies queue
    ensures Resting(queue, 6, 0) && queue.pushed == old(queue.pushed)
    ensures queue.popped == [queue.data[0], queue.data[1], queue.data[0]]
  {
    var a := PopAlone(queue);
    var b := PopAlone(queue);
    var c := PopAlone(queue);
  }
}
