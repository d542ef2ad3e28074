/** The state of a resolver channel and the invariant every operation keeps. */
module ResolverState {
  import opened Wrappers
  import opened QueryIndex

  datatype Time = Time(sec: nat, usec: nat)

  datatype Status = Success | ConnRefused | TimedOut

  /** A query in flight.  A zero `timeout.sec` means it has not been sent yet. */
  datatype Query = Query(qid: nat, timeout: Time, tryCount: nat, server: nat, usingTcp: bool,
                         errorStatus: Status, timeouts: nat, skip: seq<bool>, sentOn: seq<nat>)

  /** An entry of a server's TCP output queue. */
  datatype SendRequest = SendRequest(owner: Option<Id>, copied: bool)

  /** A server's sockets, its TCP output queue, and the queries whose packets have been
      written to its UDP socket so far. */
  datatype Server = Server(tcpOpen: bool, udpOpen: bool, generation: nat, isBroken: bool, queue: seq<SendRequest>,
                           written: seq<Id>)

  /** One invocation of a query's callback, with the tries counted until then. */
  datatype Answer = Answer(id: Id, status: Status, timeouts: nat, tries: nat)

  datatype Config = Config(nservers: nat, tries: nat, timeoutMs: nat, rotate: bool, useTcp: bool, ignoreTc: bool,
                           noCheckResp: bool, stayOpen: bool, ednsSize: nat)

  const QID_TABLE_SIZE: nat := 2048
  const TIMEOUT_TABLE_SIZE: nat := 1024

  /** A snapshot of the channel's fields; `home` is the server list a query is linked
      in, `sends` counts the calls that tried to send it. */
  datatype State = State(queries: map<Id, Query>, all: seq<Id>, byQid: Buckets, byTimeout: Buckets, toServer: Buckets,
                         servers: seq<Server>, generation: nat, ednsOn: bool, lastProcessed: nat, answered: seq<Answer>,
                           nextId: Id,
                         home: map<Id, nat>, sends: map<Id, nat>, switched: set<Id>, fellBack: set<Id>)

  predicate IsDue(now: Time, t: Time) {
    now.sec > t.sec || (now.sec == t.sec && now.usec >= t.usec)
  }

  /** Adds milliseconds to a time. */
  function TimeAdd(t: Time, ms: nat): (r: Time)
    requires t.usec < 1000000
    ensures r.usec < 1000000
    ensures 1000000 * r.sec + r.usec == 1000000 * t.sec + t.usec + 1000 * ms
  {
    var sec, usec := t.sec + ms / 1000, t.usec + (ms % 1000) * 1000;
    if usec >= 1000000 then Time(sec + 1, usec - 1000000) else Time(sec, usec)
  }

  ghost function QidPlace(queries: map<Id, Query>): map<Id, nat> {
    map x | x in queries :: queries[x].qid % QID_TABLE_SIZE
  }

  ghost function TimePlace(queries: map<Id, Query>): map<Id, nat> {
    map x | x in queries && queries[x].timeout.sec != 0 :: queries[x].timeout.sec % TIMEOUT_TABLE_SIZE
  }

  function Times(n: nat, k: nat): nat {
    if k == 0 then 0 else n + Times(n, k - 1)
  }

  lemma TimesIs(n: nat, k: nat)
    ensures Times(n, k) == n * k
  {
    if k > 0 {
      TimesIs(n, k - 1);
      assert n * k == n + n * (k - 1);
    }
  }

  /** The number of tries a query gets: each server in turn, `tries` times. */
  function Budget(c: Config): nat {
    Times(c.nservers, c.tries)
  }

  lemma BudgetIs(c: Config)
    ensures Budget(c) == c.nservers * c.tries
  {
    TimesIs(c.nservers, c.tries);
  }

  /** The server reached from `start` in `k` steps around the ring of `n`. */
  function RingAt(n: nat, start: nat, k: nat): nat
    requires n >= 1
  {
    if k == 0 then start else (RingAt(n, start, k - 1) + 1) % n
  }

  ghost predicate WellConfigured(c: Config) {
    c.nservers >= 1 && c.tries >= 1 && c.timeoutMs >= 2
  }

  /** Every query is in its four lists and in no other. */
  ghost predicate ListsInv(c: Config, s: State) {
    Listed(c.nservers, s.queries, s.all, s.byQid, s.byTimeout, s.toServer, s.home)
  }

  ghost predicate Listed(n: nat, queries: map<Id, Query>, all: seq<Id>, byQid: Buckets, byTimeout: Buckets,
                         toServer: Buckets,
                         home: map<Id, nat>) {
    && NoDup(all) && (forall x :: x in all <==> x in queries)
    && Indexed(byQid, QID_TABLE_SIZE, QidPlace(queries))
    && Indexed(byTimeout, TIMEOUT_TABLE_SIZE, TimePlace(queries))
    && Indexed(toServer, n + 1, home)
    && home.Keys == TimePlace(queries).Keys
  }

  ghost predicate QueryInv(c: Config, s: State, x: Id)
    requires x in s.queries
  {
    var q := s.queries[x];
    && x < s.nextId && q.server < c.nservers && |q.skip| == |q.sentOn| == c.nservers
    && q.tryCount < Budget(c) && q.errorStatus != Success
    && (forall i :: 0 <= i < |q.sentOn| ==> q.sentOn[i] <= s.generation)
    && (q.timeout.sec != 0 ==> q.timeout.sec >= s.lastProcessed)
  }

  /** Outside of `exempt`, a query is linked in the list of the server it was sent to. */
  ghost predicate RecordsInv(c: Config, s: State, exempt: set<Id>) {
    && (forall x :: x in s.queries ==> QueryInv(c, s, x))
    && (forall x :: x in s.home && x in s.queries && x !in exempt ==> s.home[x] == s.queries[x].server)
  }

  ghost predicate HasAnswer(answered: seq<Answer>, x: Id) {
    exists i :: 0 <= i < |answered| && answered[i].id == x
  }

  ghost predicate OneAnswerEach(answered: seq<Answer>) {
    forall i, j :: 0 <= i < j < |answered| ==> answered[i].id != answered[j].id
  }

  /** A query that was accepted is in flight or has been answered once, never both. */
  ghost predicate AnswersInv(s: State) {
    && OneAnswerEach(s.answered)
    && (forall x: Id :: HasAnswer(s.answered, x) <==> x < s.nextId && x !in s.queries)
  }

  function Extra(s: State, x: Id): nat {
    (if x in s.switched then 1 else 0) + (if x in s.fellBack then 1 else 0)
  }

  /** At most one send per try, plus the switch to TCP and the retreat from EDNS. */
  ghost predicate SendsInv(c: Config, s: State) {
    && (forall x: Id :: x < s.nextId <==> x in s.sends)
    && (forall x :: x in s.sends ==> s.sends[x] <= Budget(c) + 2)
    && (forall x :: x in s.queries && x in s.sends ==> s.sends[x] <= s.queries[x].tryCount + 1 + Extra(s, x))
    && (forall x :: x in s.switched && x in s.queries ==> s.queries[x].usingTcp)
    && (s.ednsOn ==> s.fellBack == {}) && s.switched <= s.sends.Keys && s.fellBack <= s.sends.Keys
  }

  /** Connections are counted from one, so that zero stands for no connection. */
  ghost predicate GenerationsInv(s: State) {
    forall i :: 0 <= i < |s.servers| ==> 1 <= s.servers[i].generation <= s.generation
  }

  /** Queued data belongs to queries that are still there. */
  ghost predicate QueuesInv(c: Config, s: State) {
    && |s.servers| == c.nservers && GenerationsInv(s)
    && forall i, j :: 0 <= i < |s.servers| && 0 <= j < |s.servers[i].queue| && s.servers[i].queue[j].owner.Some? ==>
      s.servers[i].queue[j].owner.value in s.queries && !s.servers[i].queue[j].copied
  }

  /** What every operation keeps; `exempt` are the queries being worked on.  (Comparing
      with `true` keeps the verifier from splitting the conjunction at every use.) */
  ghost predicate Inv(c: Config, s: State, exempt: set<Id>) {
    InvParts(c, s, exempt) == true
  }

  ghost predicate InvParts(c: Config, s: State, exempt: set<Id>) {
    WellConfigured(c) && ListsInv(c, s) && RecordsInv(c, s, exempt) && AnswersInv(s) && SendsInv(c, s) &&
      QueuesInv(c, s)
  }

  /* ---- What one piece of work on a query may change ---- */

  /** Only the record of `id` (not its identity or timeout), its send count and the
      servers have changed. */
  ghost predicate Prepared(s: State, t: State, id: Id) {
    && id in s.queries && id in t.queries && id in s.sends && id in t.sends
    && t == s.(queries := s.queries[id := t.queries[id]], sends := s.sends[id := t.sends[id]],
               servers := t.servers, generation := t.generation)
    && t.generation >= s.generation
    && t.queries[id].qid == s.queries[id].qid && t.queries[id].timeout == s.queries[id].timeout
  }

  ghost function LinkedAt(place: map<Id, nat>, id: Id, b: nat): seq<Id> {
    if id in place && place[id] == b then [id] else []
  }

  ghost predicate Relinked(ix: Buckets, ix': Buckets, place': map<Id, nat>, id: Id) {
    && ix'.Keys == ix.Keys
    && forall b :: b in ix ==> ix'[b] == Without(ix[b], id) + LinkedAt(place', id, b)
  }

  /** `id` has been sent again and relinked, or answered and dropped; nothing else has
      changed but the servers. */
  ghost predicate Worked(s: State, t: State, id: Id, now: Time) {
    WorkedParts(s, t, id, now) == true
  }

  ghost predicate WorkedParts(s: State, t: State, id: Id, now: Time) {
    && id in s.queries && id in s.sends && id in t.sends
    && t.nextId == s.nextId && t.lastProcessed == s.lastProcessed && t.ednsOn == s.ednsOn
    && t.switched == s.switched && t.fellBack == s.fellBack
    && t.sends == s.sends[id := t.sends[id]]
    && Relinked(s.byTimeout, t.byTimeout, TimePlace(t.queries), id)
    && Relinked(s.toServer, t.toServer, t.home, id)
    && t.home - {id} == s.home - {id}
    && if id in t.queries then
         && t.queries == s.queries[id := t.queries[id]] && t.queries[id].qid == s.queries[id].qid
         && t.answered == s.answered && t.all == s.all && t.byQid == s.byQid
         && id in t.home && t.home[id] == t.queries[id].server
         && t.queries[id].timeout.sec != 0 && !IsDue(now, t.queries[id].timeout)
         && t.queries[id].timeouts == s.queries[id].timeouts
       else
         && t.queries == s.queries - {id}
         && |t.answered| == |s.answered| + 1 && s.answered == t.answered[..|s.answered|]
         && t.answered[|s.answered|].id == id
         && t.answered[|s.answered|].timeouts == s.queries[id].timeouts
         && t.all == Without(s.all, id) && t.byQid == Unlink(s.byQid, id)
  }

  lemma PreparedTwice(s: State, t: State, u: State, id: Id)
    requires Prepared(s, t, id) && Prepared(t, u, id)
    ensures Prepared(s, u, id)
  {
    assert s.queries[id := t.queries[id]][id := u.queries[id]] == s.queries[id := u.queries[id]];
  }

  lemma PreparedWorked(s: State, t: State, u: State, id: Id, now: Time)
    requires Prepared(s, t, id) && Worked(t, u, id, now) && u.queries.Keys <= t.queries.Keys
    requires t.queries[id].timeouts == s.queries[id].timeouts
    ensures Worked(s, u, id, now)
  {
    assert s.queries[id := t.queries[id]] - {id} == s.queries - {id};
    if id in u.queries {
      assert t.queries[id := u.queries[id]] == s.queries[id := u.queries[id]];
    }
  }
}
