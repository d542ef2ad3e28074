/** New queries, answers, and whole runs of a channel. */
module ResolverRuns {
  import opened Wrappers
  import opened QueryIndex
  import opened ResolverState
  import opened ResolverSteps
  import opened Resolver
  import opened ResolverEvents

  const HEADER_SIZE: nat := 12
  const PACKET_SIZE: nat := 512

  datatype Rcode = NoError | FormErr | ServFail | NotImp | Refused | OtherCode

  /** A packet from a server: which in-flight queries ask the same questions is decided
      outside. */
  datatype Packet = Packet(qid: nat, sameQuestions: set<Id>, truncated: bool, rcode: Rcode, len: nat, server: nat,
                           tcp: bool)

  /* ---- New queries ---- */

  function NewQuery(c: Config, qid: nat, server: nat, usingTcp: bool): Query {
    Query(qid, Time(0, 0), 0, server, usingTcp, ConnRefused, 0, seq(c.nservers, _ => false), seq(c.nservers, _ => 0))
  }

  ghost predicate NeverSent(q: Query) {
    forall i :: 0 <= i < |q.sentOn| ==> q.sentOn[i] == 0
  }

  /** A new query has no tries behind it and may go to any server that is not broken: no
      connection has the number that stands for none. */
  lemma FreshTries(c: Config, s: State, qid: nat, server: nat, usingTcp: bool, k: nat)
    requires Inv(c, s, {}) && server < c.nservers
    ensures var q := NewQuery(c, qid, server, usingTcp);
      && q.tryCount == 0 && q.timeouts == 0 && q.errorStatus == ConnRefused && |s.servers| == c.nservers
      && (MayTry(s.servers, q, c.nservers, k) <==> !s.servers[(server + k) % c.nservers].isBroken)
  {
  }

  ghost predicate Created(s: State, t: State, q: Query) {
    && q.qid % QID_TABLE_SIZE in s.byQid
    && t == s.(queries := s.queries[s.nextId := q], all := s.all + [s.nextId],
               byQid := Link(s.byQid, q.qid % QID_TABLE_SIZE, s.nextId), nextId := s.nextId + 1,
               sends := s.sends[s.nextId := 0])
  }

  lemma CreatedLists(n: nat, queries: map<Id, Query>, all: seq<Id>, byQid: Buckets, byTimeout: Buckets,
                     toServer: Buckets,
                     home: map<Id, nat>, id: Id, q: Query)
    requires Listed(n, queries, all, byQid, byTimeout, toServer, home) && id !in queries && q.timeout.sec == 0
    ensures q.qid % QID_TABLE_SIZE in byQid
    ensures Listed(n, queries[id := q], all + [id], Link(byQid, q.qid % QID_TABLE_SIZE, id), byTimeout, toServer, home)
  {
    assert QidPlace(queries[id := q]) == QidPlace(queries)[id := q.qid % QID_TABLE_SIZE];
    assert TimePlace(queries[id := q]) == TimePlace(queries);
    LinkIndexed(byQid, QID_TABLE_SIZE, QidPlace(queries), q.qid % QID_TABLE_SIZE, id);
  }

  lemma CreatedInv(c: Config, s: State, t: State, q: Query)
    requires Inv(c, s, {}) && Created(s, t, q) && q.timeout.sec == 0 && q.tryCount == 0 && q.errorStatus != Success
    requires q.server < c.nservers && |q.skip| == |q.sentOn| == c.nservers && NeverSent(q)
    ensures Inv(c, t, {s.nextId}) && Prepared(t, t, s.nextId) && t.sends[s.nextId] == 0
    ensures s.nextId !in s.queries
  {
    var id := s.nextId;
    assert forall x :: x in s.queries ==> QueryInv(c, s, x) && x < id;
    CreatedLists(c.nservers, s.queries, s.all, s.byQid, s.byTimeout, s.toServer, s.home, id, q);
    CreatedRest(c, s, t, q);
    MapSame(t.queries, id);
    MapSame(t.sends, id);
  }

  lemma CreatedRest(c: Config, s: State, t: State, q: Query)
    requires WellConfigured(c) && RecordsInv(c, s, {}) && AnswersInv(s) && SendsInv(c, s) && QueuesInv(c, s)
    requires Created(s, t, q) && s.nextId !in s.queries && q.timeout.sec == 0 && q.tryCount == 0
    requires q.errorStatus != Success
    requires q.server < c.nservers && |q.skip| == |q.sentOn| == c.nservers && NeverSent(q)
    ensures RecordsInv(c, t, {s.nextId}) && AnswersInv(t) && SendsInv(c, t) && QueuesInv(c, t)
  {
    var id := s.nextId;
    forall x | x in t.queries ensures QueryInv(c, t, x) {
      if x != id {
        assert QueryInv(c, s, x);
      } else {
        TriesPositive(c);
      }
    }
    assert id !in s.sends && !HasAnswer(s.answered, id);
    FreshIsUnmarked(c, s, t, id);
  }

  lemma TriesPositive(c: Config)
    requires WellConfigured(c)
    ensures Budget(c) >= 1
  {
    BudgetIs(c);
    assert c.nservers * c.tries >= c.nservers * 1;
  }

  lemma FreshIsUnmarked(c: Config, s: State, t: State, id: Id)
    requires SendsInv(c, s) && id == s.nextId && id !in s.sends
    requires t.sends == s.sends[id := 0] && t.nextId == id + 1 && t.switched == s.switched && t.fellBack == s.fellBack
    requires t.ednsOn == s.ednsOn
    requires id !in s.queries && id in t.queries && t.queries == s.queries[id := t.queries[id]]
    ensures SendsInv(c, t)
  {
    forall x | x in t.queries && x in t.sends ensures t.sends[x] <= t.queries[x].tryCount + 1 + Extra(t, x) {
      assert x == id || (x in s.queries && t.queries[x] == s.queries[x]);
    }
  }

  /** Accepts a query and sends it; packets too short or too long are refused. */
  method Send(ch: Channel, qid: nat, qlen: nat, now: Time) returns (id: Option<Id>)
    requires ch.Valid() && Clock(ch.st, now)
    modifies ch
    ensures ch.Valid() && Clock(ch.st, now) && (Timely(old(ch.st)) ==> Timely(ch.st))
    ensures id.Some? <==> 12 <= qlen < 0x1_0000
    ensures id.None? ==> ch.st == old(ch.st)
    ensures id.Some? ==> SentFirst(ch.st, id.value, now)
    ensures id.Some? ==> id.value == old(ch.st.nextId) && ch.st.nextId == id.value + 1
    ensures id.Some? ==> OthersSame(old(ch.st), ch.st, id.value)
    ensures id.Some? && id.value in ch.st.queries ==>
      var q := ch.st.queries[id.value];
      && q.qid == qid && q.server == (old(ch.lastServer) + q.tryCount) % ch.cfg.nservers
      && (q.usingTcp <==> ch.cfg.useTcp || qlen > (if old(ch.st.ednsOn) then ch.cfg.ednsSize else 512))
    ensures id.Some? && id.value in ch.st.queries ==>
      var w := ch.st.queries[id.value].server;
      && w < |ch.st.servers| == |old(ch.st).servers|
      && if ch.st.queries[id.value].usingTcp then
           && ch.st.servers[w].tcpOpen
           && ch.st.servers[w].queue == old(ch.st).servers[w].queue + [SendRequest(id, false)]
         else
           && ch.st.servers[w].udpOpen && ch.st.servers[w].queue == old(ch.st).servers[w].queue
           && ch.st.servers[w].written == old(ch.st).servers[w].written + [id.value]
    ensures id.Some? && id.value !in ch.st.queries ==>
      |ch.st.answered| == |old(ch.st.answered)| + 1 && ch.st.answered[|old(ch.st.answered)|].status == ConnRefused
    ensures ch.lastServer == (if id.Some? && ch.cfg.rotate then (old(ch.lastServer) + 1) % ch.cfg.nservers
      else old(ch.lastServer))
  {
    hide Created, Worked, Outcome, SentVia, InvParts;
    if qlen < HEADER_SIZE || qlen >= 0x1_0000 {
      return None;
    }
    var server := ch.lastServer;
    if ch.cfg.rotate {
      ch.lastServer := (ch.lastServer + 1) % ch.cfg.nservers;
    }
    id := Some(ch.st.nextId);
    var packetSize := if ch.st.ednsOn then ch.cfg.ednsSize else PACKET_SIZE;
    var q := NewQuery(ch.cfg, qid, server, ch.cfg.useTcp || qlen > packetSize);
    ghost var s := ch.st;
    ghost var s1 := CreateAndSend(ch, q, now);
    SentNew(s, s1, ch.st, q, now);
    SentNewMeans(ch.cfg, s, s1, ch.st, q, now);
  }

  /** Where and how a new query has gone. */
  lemma SentNewMeans(c: Config, s: State, s1: State, t: State, q: Query, now: Time)
    requires Created(s, s1, q) && Worked(s1, t, s.nextId, now) && Outcome(c, s1, t, s.nextId)
    requires SentVia(s1, t, s.nextId) && q.server < c.nservers && q.tryCount == 0
    ensures var id := s.nextId;
      if id in t.queries then
        var r := t.queries[id];
        && r.qid == q.qid && r.usingTcp == q.usingTcp && r.server == (q.server + r.tryCount) % c.nservers
        && r.server < |t.servers| == |s.servers|
        && if r.usingTcp then
             && t.servers[r.server].tcpOpen
             && t.servers[r.server].queue == s.servers[r.server].queue + [SendRequest(Some(id), false)]
           else
             && t.servers[r.server].udpOpen && t.servers[r.server].queue == s.servers[r.server].queue
             && t.servers[r.server].written == s.servers[r.server].written + [id]
      else
        |t.answered| == |s.answered| + 1 && t.answered[|s.answered|].status == q.errorStatus
  {
    var id := s.nextId;
    assert s1.queries[id] == q;
    if id in t.queries {
      RingIs(c.nservers, q.server, t.queries[id].tryCount);
      SentMeans(s1, t, id);
    }
  }

  /** A new query has been sent at least once, and is armed or answered. */
  ghost predicate SentFirst(t: State, id: Id, now: Time) {
    && id in t.sends && t.sends[id] >= 1
    && if id in t.queries then !IsDue(now, t.queries[id].timeout) && t.queries[id].timeouts == 0
       else HasAnswer(t.answered, id)
  }

  /** Everything but `id` is as it was, and nothing but `id` may have been answered. */
  ghost predicate OthersSame(s: State, t: State, id: Id) {
    && (forall x :: x in s.queries && x != id ==> x in t.queries && t.queries[x] == s.queries[x])
    && t.queries.Keys <= s.queries.Keys + {id}
    && (t.answered == s.answered ||
         (|t.answered| == |s.answered| + 1 && s.answered <= t.answered && t.answered[|s.answered|].id == id))
  }

  lemma WorkedOthers(s: State, t: State, id: Id, now: Time)
    requires Worked(s, t, id, now)
    ensures OthersSame(s, t, id) && (AllSent(s.(queries := s.queries - {id})) ==> AllSent(t))
  {
    assert forall x :: x in t.queries && x != id ==> x in s.queries - {id} && t.queries[x] == (s.queries - {id})[x];
  }

  method CreateAndSend(ch: Channel, q: Query, now: Time) returns (ghost s1: State)
    requires Inv(ch.cfg, ch.st, {}) && Clock(ch.st, now)
    requires q.timeout.sec == 0 && q.tryCount == 0 && q.server < ch.cfg.nservers && q.errorStatus != Success
    requires |q.skip| == |q.sentOn| == ch.cfg.nservers && NeverSent(q)
    modifies ch`st
    ensures Inv(ch.cfg, ch.st, {}) && old(ch.st.nextId) !in old(ch.st.queries)
    ensures Created(old(ch.st), s1, q) && Worked(s1, ch.st, old(ch.st.nextId), now)
    ensures Outcome(ch.cfg, s1, ch.st, old(ch.st.nextId)) && SentVia(s1, ch.st, old(ch.st.nextId))
    ensures ch.st.sends[old(ch.st.nextId)] >= 1
  {
    var id := Enter(ch, q);
    s1 := ch.st;
    SendAlone(ch, id, now);
  }

  /** A send that is not part of work on a stolen list. */
  method SendAlone(ch: Channel, id: Id, now: Time)
    requires Inv(ch.cfg, ch.st, {id}) && Prepared(ch.st, ch.st, id) && Clock(ch.st, now)
    requires ch.st.sends[id] <= ch.st.queries[id].tryCount + Extra(ch.st, id)
    modifies ch`st
    ensures Inv(ch.cfg, ch.st, {}) && Worked(old(ch.st), ch.st, id, now)
    ensures ch.st.sends[id] > old(ch.st.sends[id]) && Forward(old(ch.st), ch.st, id)
    ensures Outcome(ch.cfg, old(ch.st), ch.st, id) && SentVia(old(ch.st), ch.st, id)
    ensures id in ch.st.queries ==> ch.st.queries[id].usingTcp == old(ch.st.queries[id]).usingTcp
  {
    ch.SendQuery(id, now, {id}, ch.st);
    NoneExempt(ch.cfg, ch.st, id);
  }

  lemma SentNew(s: State, s1: State, t: State, q: Query, now: Time)
    requires Created(s, s1, q) && s.nextId !in s.queries && AllSent(s) && Worked(s1, t, s.nextId, now)
    requires q.timeouts == 0 && t.sends[s.nextId] >= 1
    ensures OthersSame(s, t, s.nextId) && AllSent(t) && t.nextId == s.nextId + 1 && t.lastProcessed == s.lastProcessed
    ensures SentFirst(t, s.nextId, now) && (Timely(s) ==> Timely(t))
  {
    hide Worked;
    WorkedOthers(s1, t, s.nextId, now);
    WorkedSelf(s1, t, s.nextId, now);
    assert s1.queries - {s.nextId} == s.queries;
    TimelyOthers(s, t, s.nextId);
  }

  lemma WorkedSelf(s: State, t: State, id: Id, now: Time)
    requires Worked(s, t, id, now)
    ensures id in s.queries && id in t.sends && t.nextId == s.nextId && t.lastProcessed == s.lastProcessed
    ensures id in t.queries ==> !IsDue(now, t.queries[id].timeout) && t.queries[id].timeouts == s.queries[id].timeouts
    ensures id !in t.queries ==> HasAnswer(t.answered, id)
  {
    assert id !in t.queries ==> t.answered[|s.answered|].id == id;
  }

  lemma TimelyOthers(s: State, t: State, id: Id)
    requires Timely(s) ==> id in t.queries ==> t.queries[id].timeouts <= t.queries[id].tryCount
    requires forall x :: x in s.queries && x != id ==> x in t.queries && t.queries[x] == s.queries[x]
    requires t.queries.Keys <= s.queries.Keys + {id}
    ensures Timely(s) ==> Timely(t)
  {
  }

  /** Links a new query into the list of all queries and the query-id table. */
  method Enter(ch: Channel, q: Query) returns (id: Id)
    requires Inv(ch.cfg, ch.st, {})
    requires q.timeout.sec == 0 && q.tryCount == 0 && q.server < ch.cfg.nservers && q.errorStatus != Success
    requires |q.skip| == |q.sentOn| == ch.cfg.nservers && NeverSent(q)
    modifies ch`st
    ensures Inv(ch.cfg, ch.st, {id}) && Prepared(ch.st, ch.st, id) && ch.st.sends[id] == 0
    ensures id == old(ch.st.nextId) && id !in old(ch.st.queries) && Created(old(ch.st), ch.st, q)
  {
    ghost var s := ch.st;
    id := ch.st.nextId;
    assert q.qid % QID_TABLE_SIZE in ch.st.byQid;
    ch.st := ch.st.(all := ch.st.all + [id]);
    ch.st := ch.st.(byQid := Link(ch.st.byQid, q.qid % QID_TABLE_SIZE, id));
    ch.st := ch.st.(queries := ch.st.queries[id := q], nextId := id + 1, sends := ch.st.sends[id := 0]);
    CreatedInv(ch.cfg, s, ch.st, q);
  }

  /* ---- Answers ---- */

  /** Looks the query up in the query-id table. */
  method FindQuery(ch: Channel, p: Packet) returns (found: Option<Id>)
    requires Inv(ch.cfg, ch.st, {})
    ensures found.Some? ==>
      found.value in ch.st.queries && ch.st.queries[found.value].qid == p.qid && found.value in p.sameQuestions
    ensures found.None? ==> forall x :: x in ch.st.queries && ch.st.queries[x].qid == p.qid ==> x !in p.sameQuestions
  {
    var b := p.qid % QID_TABLE_SIZE;
    assert b in ch.st.byQid;
    var list := ch.st.byQid[b];
    var i := 0;
    while i < |list|
      invariant 0 <= i <= |list|
      invariant forall j :: 0 <= j < i && list[j] in ch.st.queries && ch.st.queries[list[j]].qid == p.qid ==>
        list[j] !in p.sameQuestions
    {
      assert list[i] in list;
      if ch.st.queries[list[i]].qid == p.qid && list[i] in p.sameQuestions {
        return Some(list[i]);
      }
      i := i + 1;
    }
    found := None;
    forall x | x in ch.st.queries && ch.st.queries[x].qid == p.qid ensures x !in p.sameQuestions {
      assert x in list;
    }
  }

  /** How the channel reacts to a packet for a query in flight. */
  datatype Reaction = RetreatFromEdns | SwitchToTcp | Ignore | TryElsewhere | Accept

  function React(c: Config, ednsOn: bool, usingTcp: bool, p: Packet): Reaction {
    var packetSize := if ednsOn then c.ednsSize else PACKET_SIZE;
    if ednsOn && (p.rcode == NotImp || p.rcode == FormErr || p.rcode == ServFail) then RetreatFromEdns
    else if (p.truncated || p.len > packetSize) && !p.tcp && !c.ignoreTc then (if usingTcp then Ignore else SwitchToTcp)
    else if !c.noCheckResp && (p.rcode == ServFail || p.rcode == NotImp || p.rcode == Refused) then TryElsewhere
    else Accept
  }

  function Retreated(s: State, id: Id): State {
    s.(ednsOn := false, fellBack := s.fellBack + {id})
  }

  function Switched(s: State, id: Id): State
    requires id in s.queries
  {
    s.(queries := s.queries[id := s.queries[id].(usingTcp := true)], switched := s.switched + {id})
  }

  lemma RetreatInv(c: Config, s: State, id: Id)
    requires Inv(c, s, {}) && id in s.queries && s.ednsOn
    ensures var t := Retreated(s, id); Inv(c, t, {id}) && ReadyToSend(t, id)
  {
    hide Listed, QidPlace, TimePlace, HasAnswer, OneAnswerEach;
    var t := Retreated(s, id);
    Exempted(c, s, id);
    MapSame(t.queries, id);
    MapSame(t.sends, id);
    forall x | x in t.queries ensures QueryInv(c, t, x) {
      assert QueryInv(c, s, x);
    }
    forall x | x in t.queries && x in t.sends ensures t.sends[x] <= t.queries[x].tryCount + 1 + Extra(t, x) {
      assert s.sends[x] <= s.queries[x].tryCount + 1 + Extra(s, x);
    }
  }

  ghost predicate ReadyToSend(t: State, id: Id) {
    Prepared(t, t, id) && t.sends[id] <= t.queries[id].tryCount + Extra(t, id)
  }

  lemma SwitchInv(c: Config, s: State, id: Id)
    requires Inv(c, s, {}) && id in s.queries && !s.queries[id].usingTcp
    ensures var t := Switched(s, id); Inv(c, t, {id}) && ReadyToSend(t, id)
  {
    hide ListsInv, SendsInv, AnswersInv, QueuesInv;
    var t := Switched(s, id);
    Exempted(c, s, id);
    QueryThere(c, s, {id}, id);
    MapSame(t.queries, id);
    MapSame(t.sends, id);
    SwitchLists(c, s, id);
    SwitchSends(c, s, id);
    SwitchRecords(c, s, id);
  }

  lemma SwitchRecords(c: Config, s: State, id: Id)
    requires RecordsInv(c, s, {}) && AnswersInv(s) && QueuesInv(c, s) && id in s.queries
    ensures var t := Switched(s, id); RecordsInv(c, t, {id}) && AnswersInv(t) && QueuesInv(c, t)
  {
    var t := Switched(s, id);
    forall x | x in t.queries ensures QueryInv(c, t, x) {
      assert QueryInv(c, s, x);
    }
    assert t.queries.Keys == s.queries.Keys;
  }

  lemma SwitchLists(c: Config, s: State, id: Id)
    requires ListsInv(c, s) && id in s.queries
    ensures ListsInv(c, Switched(s, id))
  {
    var t := Switched(s, id);
    QidPlaceKept(s.queries, id, t.queries[id]);
    TimePlaceKept(s.queries, id, t.queries[id]);
    assert t.queries.Keys == s.queries.Keys;
  }

  lemma SwitchSends(c: Config, s: State, id: Id)
    requires SendsInv(c, s) && id in s.queries && id in s.sends && !s.queries[id].usingTcp
    ensures SendsInv(c, Switched(s, id))
  {
    var t := Switched(s, id);
    forall x | x in t.queries && x in t.sends ensures t.sends[x] <= t.queries[x].tryCount + 1 + Extra(t, x) {
      assert s.sends[x] <= s.queries[x].tryCount + 1 + Extra(s, x);
    }
  }

  /** A packet's work is done: the channel is at rest and only `id` was concerned. */
  ghost predicate Handled(c: Config, s: State, t: State, id: Id) {
    HandledParts(c, s, t, id) == true
  }

  ghost predicate HandledParts(c: Config, s: State, t: State, id: Id) {
    Inv(c, t, {}) && AllSent(t) && t.lastProcessed == s.lastProcessed && t.nextId == s.nextId && OthersSame(s, t, id)
  }

  /** The query was sent once more at least, and is armed anew or has been answered. */
  ghost predicate SentAnew(s: State, t: State, id: Id, now: Time) {
    && id in s.queries && id in s.sends && id in t.sends && t.sends[id] > s.sends[id]
    && if id in t.queries then
         && !IsDue(now, t.queries[id].timeout) && t.queries[id].tryCount >= s.queries[id].tryCount
         && t.queries[id].timeouts == s.queries[id].timeouts
       else HasAnswer(t.answered, id)
  }

  /** No callback made since is one of success. */
  ghost predicate NoNewSuccess(s: State, t: State) {
    s.answered <= t.answered && forall i :: |s.answered| <= i < |t.answered| ==> t.answered[i].status != Success
  }

  lemma SendingFailsOnly(c: Config, s: State, s1: State, t: State, id: Id, now: Time, exempt: set<Id>)
    requires Inv(c, s, exempt) && id in s.queries && id in s1.queries && s1.answered == s.answered
    requires s1.queries[id].errorStatus == s.queries[id].errorStatus
    requires Worked(s1, t, id, now) && Outcome(c, s1, t, id)
    ensures NoNewSuccess(s, t)
  {
    assert QueryInv(c, s, id);
  }

  lemma HandledBySending(c: Config, s: State, s1: State, t: State, id: Id, now: Time)
    requires AllSent(s) && Inv(c, t, {}) && Worked(s1, t, id, now) && id in s.queries
    requires s1.queries - {id} == s.queries - {id} && s1.answered == s.answered
    requires s1.lastProcessed == s.lastProcessed && s1.nextId == s.nextId
    ensures Handled(c, s, t, id) && t.ednsOn == s1.ednsOn
    ensures id in t.queries ==> !IsDue(now, t.queries[id].timeout) && t.queries[id].timeouts == s1.queries[id].timeouts
    ensures id !in t.queries ==> HasAnswer(t.answered, id)
  {
    SentOthers(s, s1, t, id, now);
  }

  lemma SentOthers(s: State, s1: State, t: State, id: Id, now: Time)
    requires AllSent(s) && Worked(s1, t, id, now) && id in s.queries
    requires s1.queries - {id} == s.queries - {id} && s1.answered == s.answered
    ensures OthersSame(s, t, id) && AllSent(t)
    ensures id in t.queries ==> !IsDue(now, t.queries[id].timeout) && t.queries[id].timeouts == s1.queries[id].timeouts
    ensures id !in t.queries ==> HasAnswer(t.answered, id)
  {
    WorkedOthers(s1, t, id, now);
    assert id !in t.queries ==> t.answered[|s1.answered|].id == id;
    forall x | x in s.queries && x != id ensures x in t.queries && t.queries[x] == s.queries[x] {
      assert x in s.queries - {id} && x in s1.queries && s1.queries[x] == (s1.queries - {id})[x];
    }
    forall x | x in t.queries && x != id ensures x in s.queries && t.queries[x] == s.queries[x] {
      assert x in s1.queries - {id};
    }
  }

  /** The server does not understand EDNS: it is turned off for the channel, and the query
      is sent again without it. */
  method RetreatFrom(ch: Channel, id: Id, now: Time)
    requires ch.Valid() && Clock(ch.st, now) && id in ch.st.queries && ch.st.ednsOn
    modifies ch`st
    ensures Handled(ch.cfg, old(ch.st), ch.st, id) && SentAnew(old(ch.st), ch.st, id, now) && !ch.st.ednsOn
    ensures SentVia(old(ch.st), ch.st, id) && NoNewSuccess(old(ch.st), ch.st)
    ensures id in ch.st.queries ==> ch.st.queries[id].usingTcp == old(ch.st.queries[id]).usingTcp
  {
    ghost var s := ch.st;
    RetreatInv(ch.cfg, s, id);
    ch.st := ch.st.(ednsOn := false, fellBack := ch.st.fellBack + {id});
    ghost var s1 := ch.st;
    SendAlone(ch, id, now);
    HandledBySending(ch.cfg, s, s1, ch.st, id, now);
    SendingFailsOnly(ch.cfg, s, s1, ch.st, id, now, {});
    SameStart(s, s1, ch.st, id);
  }

  /** A truncated answer: the query is sent again, over TCP from now on. */
  method SwitchOver(ch: Channel, id: Id, now: Time)
    requires ch.Valid() && Clock(ch.st, now) && id in ch.st.queries && !ch.st.queries[id].usingTcp
    modifies ch`st
    ensures Handled(ch.cfg, old(ch.st), ch.st, id) && SentAnew(old(ch.st), ch.st, id, now)
    ensures ch.st.ednsOn == old(ch.st.ednsOn) && (id in ch.st.queries ==> ch.st.queries[id].usingTcp)
    ensures SentVia(old(ch.st), ch.st, id) && NoNewSuccess(old(ch.st), ch.st)
  {
    ghost var s := ch.st;
    SwitchInv(ch.cfg, s, id);
    ch.st := ch.st.(queries := ch.st.queries[id := ch.st.queries[id].(usingTcp := true)], switched := ch.st.switched +
      {id});
    ghost var s1 := ch.st;
    SendAlone(ch, id, now);
    UpdatedElsewhere(s.queries, id, s1.queries[id]);
    HandledBySending(ch.cfg, s, s1, ch.st, id, now);
    SendingFailsOnly(ch.cfg, s, s1, ch.st, id, now, {});
    SwitchedVia(s, s1, ch.st, id);
  }

  lemma SwitchedVia(s: State, s1: State, t: State, id: Id)
    requires id in s.queries && s1 == Switched(s, id) && SentVia(s1, t, id)
    ensures SentVia(s, t, id)
  {
  }

  lemma UpdatedElsewhere(queries: map<Id, Query>, id: Id, q: Query)
    ensures queries[id := q] - {id} == queries - {id}
  {
  }

  lemma SkippedOnly(c: Config, s: State, t: State, id: Id)
    requires Inv(c, s, {}) && AllSent(s) && Inv(c, t, {id}) && Prepared(s, t, id)
    requires t.queries[id].server == s.queries[id].server
    ensures Handled(c, s, t, id) && t.ednsOn == s.ednsOn && t.answered == s.answered
  {
    SkippedRecords(c, s, t, id);
    PreparedOthers(s, t, id);
  }

  lemma PreparedOthers(s: State, t: State, id: Id)
    requires Prepared(s, t, id)
    ensures OthersSame(s, t, id) && (AllSent(s) ==> AllSent(t))
  {
    assert t.queries.Keys == s.queries.Keys;
    assert forall x :: x in s.queries && x != id ==> t.queries[x] == s.queries[x];
  }

  lemma SkippedRecords(c: Config, s: State, t: State, id: Id)
    requires RecordsInv(c, s, {}) && RecordsInv(c, t, {id}) && Prepared(s, t, id)
    requires t.queries[id].server == s.queries[id].server
    ensures RecordsInv(c, t, {})
  {
    assert t.home == s.home;
  }

  /** An error answer: the query is told to skip the server it came from and, if it is in
      flight there, moves on. */
  method GoElsewhere(ch: Channel, id: Id, whichServer: nat, now: Time)
    requires ch.Valid() && Clock(ch.st, now) && id in ch.st.queries && whichServer < ch.cfg.nservers
    modifies ch`st
    ensures Handled(ch.cfg, old(ch.st), ch.st, id) && ch.st.ednsOn == old(ch.st.ednsOn)
    ensures WentElsewhere(ch.cfg, old(ch.st), ch.st, id, whichServer, now) && NoNewSuccess(old(ch.st), ch.st)
    ensures old(ch.st.queries[id]).server == whichServer ==>
      SentVia(old(ch.st), ch.st, id) && Landed(old(ch.st), ch.st, id)
  {
    hide Inv, Worked, Retried, OthersSame, SentVia, Landed, Outcome;
    ghost var s := ch.st;
    Exempted(ch.cfg, s, id);
    PreparedRefl(ch.cfg, s, id, {id});
    ch.SkipServer(id, whichServer, {id}, s);
    ghost var s1 := ch.st;
    if ch.st.queries[id].server == whichServer {
      NextAlone(ch, id, now, s);
      HandledBySending(ch.cfg, s, s, ch.st, id, now);
      OneRetried(ch.cfg, s, s1, ch.st, whichServer, id, now, {});
      SendingFailsOnly(ch.cfg, s, s, ch.st, id, now, {});
      SkippingVia(ch.cfg, s, s1, ch.st, id, whichServer);
    } else {
      SkippedOnly(ch.cfg, s, ch.st, id);
    }
  }

  ghost predicate WentElsewhere(c: Config, s: State, t: State, id: Id, w: nat, now: Time) {
    && id in s.queries
    && if s.queries[id].server == w then Retried(c, s, t, id, w, now)
       else
         && id in t.queries && Skipping(c, s.queries[id], t.queries[id], w)
         && t.answered == s.answered && t.sends == s.sends
  }

  method AcceptAnswer(ch: Channel, id: Id, now: Time)
    requires ch.Valid() && Clock(ch.st, now) && id in ch.st.queries
    modifies ch`st
    ensures Handled(ch.cfg, old(ch.st), ch.st, id) && ch.st.ednsOn == old(ch.st.ednsOn)
    ensures ch.st.answered == old(ch.st.answered) +
      [Answer(id, Success, old(ch.st.queries[id].timeouts), old(ch.st.queries[id].tryCount))]
  {
    ghost var s := ch.st;
    Exempted(ch.cfg, s, id);
    PreparedRefl(ch.cfg, s, id, {id});
    ch.EndQuery(id, Success, {id}, now, s);
    NoneExempt(ch.cfg, ch.st, id);
    HandledBySending(ch.cfg, s, s, ch.st, id, now);
  }

  /** Handles a packet: it concerns at most one query.  That is answered with success exactly
      when EDNS was not refused, the packet is complete (or cut-off ones are taken, or it
      came over TCP) and its response code is no refusal (or those are not checked). */
  method ProcessAnswer(ch: Channel, p: Packet, now: Time) returns (found: Option<Id>)
    requires ch.Valid() && Clock(ch.st, now) && p.server < ch.cfg.nservers
    modifies ch`st
    ensures ch.Valid() && Clock(ch.st, now) && (Timely(old(ch.st)) ==> Timely(ch.st))
    ensures found.None? ==> ch.st == old(ch.st)
    ensures found.None? ==> forall x :: x in ch.st.queries && ch.st.queries[x].qid == p.qid ==> x !in p.sameQuestions
    ensures found.Some? ==>
      found.value in old(ch.st).queries && old(ch.st).queries[found.value].qid == p.qid &&
      found.value in p.sameQuestions
    ensures found.Some? ==> Reacted(ch.cfg, old(ch.st), ch.st, p, found.value, now)
    ensures found.Some? ==>
      var packetSize := if old(ch.st).ednsOn then ch.cfg.ednsSize else 512;
      var q := old(ch.st).queries[found.value];
      if || (old(ch.st).ednsOn && p.rcode in {NotImp, FormErr, ServFail})
         || ((p.truncated || p.len > packetSize) && !p.tcp && !ch.cfg.ignoreTc)
         || (!ch.cfg.noCheckResp && p.rcode in {ServFail, NotImp, Refused})
      then
        old(ch.st).answered <= ch.st.answered &&
        forall i :: |old(ch.st).answered| <= i < |ch.st.answered| ==> ch.st.answered[i].status != Success
      else
        ch.st.answered == old(ch.st).answered + [Answer(found.value, Success, q.timeouts, q.tryCount)]
    ensures found.Some? ==> (ch.st.ednsOn <==> old(ch.st).ednsOn && p.rcode !in {NotImp, FormErr, ServFail})
    ensures found.Some? ==>
      var packetSize := if old(ch.st).ednsOn then ch.cfg.ednsSize else 512;
      var id, s, t := found.value, old(ch.st), ch.st;
      && id in s.sends && id in t.sends
      && if s.ednsOn && p.rcode in {NotImp, FormErr, ServFail} then
           t.sends[id] > s.sends[id]
         else if (p.truncated || p.len > packetSize) && !p.tcp && !ch.cfg.ignoreTc then
           if s.queries[id].usingTcp then t == s else t.sends[id] > s.sends[id]
         else if !ch.cfg.noCheckResp && p.rcode in {ServFail, NotImp, Refused} then
           if s.queries[id].server == p.server then
             id in t.queries ==> t.queries[id].tryCount > s.queries[id].tryCount && t.sends[id] > s.sends[id]
           else
             && id in t.queries && t.sends[id] == s.sends[id]
             && (ch.cfg.nservers > 1 ==> p.server < |t.queries[id].skip| && t.queries[id].skip[p.server])
         else id !in t.queries
    ensures found.Some? && !old(ch.st).queries[found.value].usingTcp && found.value in ch.st.queries ==>
      var packetSize := if old(ch.st).ednsOn then ch.cfg.ednsSize else 512;
      !(old(ch.st).ednsOn && p.rcode in {NotImp, FormErr, ServFail}) &&
      (p.truncated || p.len > packetSize) && !p.tcp && !ch.cfg.ignoreTc ==>
        var r := ch.st.queries[found.value];
        && r.usingTcp && r.server < |ch.st.servers| == |old(ch.st).servers| && ch.st.servers[r.server].tcpOpen
        && ch.st.servers[r.server].queue == old(ch.st).servers[r.server].queue + [SendRequest(found, false)]
  {
    hide Reacted, Inv;
    found := FindQuery(ch, p);
    if found.Some? {
      ghost var s := ch.st;
      HandleAnswer(ch, p, found.value, now);
      ReactedMeans(ch.cfg, s, ch.st, p, found.value, now);
      TimelyAfterAnswer(ch.cfg, s, ch.st, p, found.value, now);
    }
  }

  lemma SendsKnown(c: Config, s: State, t: State, id: Id)
    requires Inv(c, s, {}) && Handled(c, s, t, id) && id in s.queries
    ensures id in s.sends && id in t.sends
  {
    assert QueryInv(c, s, id);
  }

  lemma AcceptedGone(c: Config, s: State, t: State, id: Id)
    requires Handled(c, s, t, id)
    ensures |t.answered| > |s.answered| && t.answered[|s.answered|].id == id ==> id !in t.queries
  {
    if |t.answered| > |s.answered| && t.answered[|s.answered|].id == id {
      AnsweredGone(c, t, id);
    }
  }

  lemma ReactedMeans(c: Config, s: State, t: State, p: Packet, id: Id, now: Time)
    requires Reacted(c, s, t, p, id, now) && Inv(c, s, {})
    ensures Inv(c, t, {}) && AllSent(t) && t.lastProcessed == s.lastProcessed
    ensures
      var packetSize := if s.ednsOn then c.ednsSize else 512;
      if || (s.ednsOn && p.rcode in {NotImp, FormErr, ServFail})
         || ((p.truncated || p.len > packetSize) && !p.tcp && !c.ignoreTc)
         || (!c.noCheckResp && p.rcode in {ServFail, NotImp, Refused})
      then
        s.answered <= t.answered &&
        forall i :: |s.answered| <= i < |t.answered| ==> t.answered[i].status != Success
      else
        t.answered == s.answered + [Answer(id, Success, s.queries[id].timeouts, s.queries[id].tryCount)]
    ensures t.ednsOn <==> s.ednsOn && p.rcode !in {NotImp, FormErr, ServFail}
    ensures
      var packetSize := if s.ednsOn then c.ednsSize else 512;
      && id in s.sends && id in t.sends
      && if s.ednsOn && p.rcode in {NotImp, FormErr, ServFail} then
           t.sends[id] > s.sends[id]
         else if (p.truncated || p.len > packetSize) && !p.tcp && !c.ignoreTc then
           if s.queries[id].usingTcp then t == s else t.sends[id] > s.sends[id]
         else if !c.noCheckResp && p.rcode in {ServFail, NotImp, Refused} then
           if s.queries[id].server == p.server then
             id in t.queries ==> t.queries[id].tryCount > s.queries[id].tryCount && t.sends[id] > s.sends[id]
           else
             && id in t.queries && t.sends[id] == s.sends[id]
             && (c.nservers > 1 ==> p.server < |t.queries[id].skip| && t.queries[id].skip[p.server])
         else id !in t.queries
    ensures !s.queries[id].usingTcp && id in t.queries ==>
      var packetSize := if s.ednsOn then c.ednsSize else 512;
      !(s.ednsOn && p.rcode in {NotImp, FormErr, ServFail}) &&
      (p.truncated || p.len > packetSize) && !p.tcp && !c.ignoreTc ==>
        var r := t.queries[id];
        && r.usingTcp && r.server < |t.servers| == |s.servers| && t.servers[r.server].tcpOpen
        && t.servers[r.server].queue == s.servers[r.server].queue + [SendRequest(Some(id), false)]
  {
    hide Inv, SentVia, OthersSame, SkipsKept;
    SendsKnown(c, s, t, id);
    if id !in t.queries || React(c, s.ednsOn, s.queries[id].usingTcp, p) == Accept {
      AcceptedGone(c, s, t, id);
    }
    if id in t.queries && SentVia(s, t, id) {
      SentMeans(s, t, id);
    }
  }

  /** What a packet does to the query it answers. */
  ghost predicate Reacted(c: Config, s: State, t: State, p: Packet, id: Id, now: Time) {
    && id in s.queries && Handled(c, s, t, id)
    && var reaction := React(c, s.ednsOn, s.queries[id].usingTcp, p);
       && (t.ednsOn <==> s.ednsOn && reaction != RetreatFromEdns)
       && match reaction
          case Accept => t.answered == s.answered +
            [Answer(id, Success, s.queries[id].timeouts, s.queries[id].tryCount)]
          case Ignore => t == s
          case RetreatFromEdns => SentAnew(s, t, id, now) && SentVia(s, t, id) && NoNewSuccess(s, t)
          case SwitchToTcp =>
            && SentAnew(s, t, id, now) && (id in t.queries ==> t.queries[id].usingTcp)
            && SentVia(s, t, id) && NoNewSuccess(s, t)
          case TryElsewhere => WentElsewhere(c, s, t, id, p.server, now) && NoNewSuccess(s, t)
  }

  lemma AnsweredGone(c: Config, s: State, x: Id)
    requires Inv(c, s, {}) && HasAnswer(s.answered, x)
    ensures x !in s.queries
  {
  }

  lemma TimelyAfterAnswer(c: Config, s: State, t: State, p: Packet, id: Id, now: Time)
    requires Reacted(c, s, t, p, id, now) && Inv(c, t, {})
    ensures Timely(s) ==> Timely(t)
  {
    hide Inv, SkipsKept;
    if React(c, s.ednsOn, s.queries[id].usingTcp, p) == Accept {
      assert t.answered[|s.answered|].id == id;
      AnsweredGone(c, t, id);
    }
    TimelyOthers(s, t, id);
  }

  method HandleAnswer(ch: Channel, p: Packet, id: Id, now: Time)
    requires ch.Valid() && Clock(ch.st, now) && p.server < ch.cfg.nservers && id in ch.st.queries
    modifies ch`st
    ensures Reacted(ch.cfg, old(ch.st), ch.st, p, id, now)
  {
    hide Inv, OthersSame, SentAnew, WentElsewhere, SentVia, NoNewSuccess;
    var packetSize := PACKET_SIZE;
    if ch.st.ednsOn {
      packetSize := ch.cfg.ednsSize;
      if p.rcode == NotImp || p.rcode == FormErr || p.rcode == ServFail {
        RetreatFrom(ch, id, now);
        return;
      }
    }
    if (p.truncated || p.len > packetSize) && !p.tcp && !ch.cfg.ignoreTc {
      if !ch.st.queries[id].usingTcp {
        SwitchOver(ch, id, now);
      } else {
        NothingHandled(ch.cfg, ch.st, id);
      }
      return;
    }
    if !ch.cfg.noCheckResp {
      if p.rcode == ServFail || p.rcode == NotImp || p.rcode == Refused {
        GoElsewhere(ch, id, p.server, now);
        return;
      }
    }
    AcceptAnswer(ch, id, now);
  }

  lemma NothingHandled(c: Config, s: State, id: Id)
    requires Inv(c, s, {}) && AllSent(s)
    ensures Handled(c, s, s, id)
  {
  }

  /* ---- Whole runs ---- */

  /** Every query that was in flight over a broken connection has been dealt with; others
      are as they were, unless the connection they were on broke meanwhile. */
  ghost predicate BrokenDone(c: Config, s: State, t: State, x: Id, i: nat, now: Time)
    requires x in s.queries
  {
    var w := s.queries[x].server;
    && w < |s.servers| && w < |t.servers|
    && (LeftAlone(s, t, x) || Retried(c, s, t, x, w, now))
    && (s.servers[w].isBroken ==>
         if w < i then Retried(c, s, t, x, w, now) else LeftAlone(s, t, x) && t.servers[w].isBroken)
  }

  ghost predicate BrokenInv(c: Config, s: State, t: State, i: nat, now: Time) {
    BrokenParts(c, s, t, i, now) == true
  }

  ghost predicate BrokenParts(c: Config, s: State, t: State, i: nat, now: Time) {
    ErrorsOnly(s, t) && forall x :: x in s.queries ==> BrokenDone(c, s, t, x, i, now)
  }

  lemma BrokenStarts(c: Config, s: State, now: Time)
    requires Inv(c, s, {})
    ensures BrokenInv(c, s, s, 0, now)
  {
    forall x | x in s.queries ensures BrokenDone(c, s, s, x, 0, now) {
      assert QueryInv(c, s, x);
    }
  }

  lemma BrokenSkipped(c: Config, s: State, t: State, i: nat, now: Time)
    requires BrokenInv(c, s, t, i, now) && i < |t.servers| && !t.servers[i].isBroken
    ensures BrokenInv(c, s, t, i + 1, now)
  {
    forall x | x in s.queries ensures BrokenDone(c, s, t, x, i + 1, now) {
      assert BrokenDone(c, s, t, x, i, now);
    }
  }

  lemma BrokenHandled(c: Config, s: State, t: State, u: State, i: nat, now: Time)
    requires BrokenInv(c, s, t, i, now) && Inv(c, t, {}) && ErrorsOnly(t, u) && OthersKept(t, u, i)
    requires ServersAfter(c, t, u, i)
    requires forall x :: x in t.queries && t.queries[x].server == i ==> Retried(c, t, u, x, i, now)
    requires t.sends.Keys <= u.sends.Keys
    ensures BrokenInv(c, s, u, i + 1, now)
  {
    forall x | x in s.queries ensures BrokenDone(c, s, u, x, i + 1, now) {
      assert BrokenDone(c, s, t, x, i, now);
      BrokenOne(c, s, t, u, x, i, now);
    }
  }

  lemma BrokenOne(c: Config, s: State, t: State, u: State, x: Id, i: nat, now: Time)
    requires x in s.queries && BrokenDone(c, s, t, x, i, now)
    requires ErrorsOnly(t, u) && OthersKept(t, u, i) && ServersAfter(c, t, u, i) && t.sends.Keys <= u.sends.Keys
    requires x in t.queries && t.queries[x].server == i ==> Retried(c, t, u, x, i, now)
    ensures BrokenDone(c, s, u, x, i + 1, now)
  {
    var w := s.queries[x].server;
    if Retried(c, s, t, x, w, now) {
      if x !in t.queries {
        StillAnswered(t, u, x);
      } else if t.queries[x].server == i {
        RetriedTwice(c, s, t, u, x, w, i, now);
      } else {
        assert LeftAlone(t, u, x);
      }
    } else if w != i {
      assert LeftAlone(t, u, x);
    }
  }

  lemma RetriedTwice(c: Config, s: State, t: State, u: State, x: Id, w: nat, i: nat, now: Time)
    requires Retried(c, s, t, x, w, now) && Retried(c, t, u, x, i, now)
    ensures Retried(c, s, u, x, w, now)
  {
    if x in u.queries && x in t.queries {
      var q, r := t.queries[x], u.queries[x];
      assert forall k :: ToSkip(s.queries[x], k) ==> ToSkip(q, k);
      assert forall k :: ToSkip(q, k) ==> ToSkip(r, k);
    }
  }

  /** Connections found broken are closed and their queries moved on. */
  method ProcessBroken(ch: Channel, now: Time)
    requires ch.Valid() && Clock(ch.st, now)
    modifies ch`st
    ensures ch.Valid() && Clock(ch.st, now)
    ensures BrokenInv(ch.cfg, old(ch.st), ch.st, ch.cfg.nservers, now)
  {
    hide Inv, BrokenInv;
    var i := 0;
    BrokenStarts(ch.cfg, ch.st, now);
    while i < ch.cfg.nservers
      invariant 0 <= i <= ch.cfg.nservers && ch.Valid() && Clock(ch.st, now)
      invariant BrokenInv(ch.cfg, old(ch.st), ch.st, i, now)
    {
      ghost var t := ch.st;
      ServersThere(ch.cfg, t);
      if ch.st.servers[i].isBroken {
        HandleError(ch, i, now);
        SendsGrow(ch.cfg, t, ch.st);
        BrokenHandled(ch.cfg, old(ch.st), t, ch.st, i, now);
      } else {
        BrokenSkipped(ch.cfg, old(ch.st), t, i, now);
      }
      i := i + 1;
    }
  }

  lemma ServersThere(c: Config, s: State)
    requires Inv(c, s, {})
    ensures |s.servers| == c.nservers
  {
  }

  lemma SendsGrow(c: Config, s: State, t: State)
    requires Inv(c, s, {}) && Inv(c, t, {}) && t.nextId == s.nextId
    ensures s.sends.Keys <= t.sends.Keys
  {
    forall x | x in s.sends ensures x in t.sends {
      assert x < s.nextId;
    }
  }

  lemma TimelyAfterBroken(c: Config, s: State, t: State, i: nat, now: Time)
    requires BrokenInv(c, s, t, i, now)
    ensures Timely(s) ==> Timely(t)
  {
    forall x | x in t.queries && Timely(s) ensures t.queries[x].timeouts <= t.queries[x].tryCount {
      assert x in s.queries && BrokenDone(c, s, t, x, i, now);
    }
  }

  lemma TimelyAfterError(c: Config, s: State, t: State, w: nat, now: Time)
    requires ErrorsOnly(s, t) && OthersKept(s, t, w)
    requires forall x :: x in s.queries && s.queries[x].server == w ==> Retried(c, s, t, x, w, now)
    ensures Timely(s) ==> Timely(t)
  {
    forall x | x in t.queries && Timely(s) ensures t.queries[x].timeouts <= t.queries[x].tryCount {
      assert x in s.queries;
      assert s.queries[x].server != w ==> LeftAlone(s, t, x);
    }
  }

  /** Part of a server's TCP queue has been written. */
  method Flush(ch: Channel, server: nat, n: nat)
    requires ch.Valid() && server < ch.cfg.nservers
    modifies ch`st
    ensures ch.Valid() && OnlyServers(old(ch.st), ch.st) && ch.st.generation == old(ch.st).generation
    ensures |old(ch.st).servers| == ch.cfg.nservers
    ensures var sv := old(ch.st).servers[server];
      ch.st.servers == old(ch.st).servers[server := sv.(queue := sv.queue[if n <= |sv.queue| then n else |sv.queue|..])]
  {
    ghost var s := ch.st;
    var sv := ch.st.servers[server];
    var k := if n <= |sv.queue| then n else |sv.queue|;
    ch.st := ch.st.(servers := ch.st.servers[server := sv.(queue := sv.queue[k..])]);
    FlushQueues(ch.cfg, s, ch.st, server, k);
    OnlyServersInv(ch.cfg, s, ch.st, {});
  }

  lemma FlushQueues(c: Config, s: State, t: State, server: nat, k: nat)
    requires QueuesInv(c, s) && server < |s.servers| && k <= |s.servers[server].queue| && t.queries == s.queries
    requires t.servers == s.servers[server := s.servers[server].(queue := s.servers[server].queue[k..])]
    requires t.generation == s.generation
    ensures QueuesInv(c, t)
  {
    forall i, j | 0 <= i < |t.servers| && 0 <= j < |t.servers[i].queue| && t.servers[i].queue[j].owner.Some?
      ensures t.servers[i].queue[j].owner.value in t.queries && !t.servers[i].queue[j].copied
    {
      assert i == server ==> t.servers[i].queue[j] == s.servers[i].queue[k + j];
    }
  }

  datatype Event = Submit(qid: nat,
                          len: nat) | Arrives(packet: Packet) | Tick | ServerFails(server: nat) | Flushed(server: nat,
                            n: nat)

  ghost predicate Possible(c: Config, e: Event) {
    match e
    case Arrives(p) => p.server < c.nservers
    case ServerFails(i) => i < c.nservers
    case Flushed(i, _) => i < c.nservers
    case _ => true
  }

  /** A query that is due and has timed out as often as it may. */
  ghost predicate DueLast(c: Config, s: State, x: Id, now: Time) {
    x in s.queries && IsDue(now, s.queries[x].timeout) && s.queries[x].timeouts + 1 >= c.nservers * c.tries
  }

  /** The clock has moved: what is due moves on, then what is on broken connections. */
  method Tick(ch: Channel, now: Time)
    requires ch.Valid() && Clock(ch.st, now)
    modifies ch`st
    ensures ch.Valid() && Clock(ch.st, now) && (Timely(old(ch.st)) ==> Timely(ch.st))
    ensures Timely(old(ch.st)) ==> forall x :: DueLast(ch.cfg, old(ch.st), x, now) ==> HasAnswer(ch.st.answered, x)
  {
    ghost var s := ch.st;
    ProcessTimeouts(ch, now);
    ghost var t := ch.st;
    TimeoutsThenTimely(ch.cfg, s, t, now);
    ProcessBroken(ch, now);
    TimelyAfterBroken(ch.cfg, t, ch.st, ch.cfg.nservers, now);
    forall x | x in s.queries && HasAnswer(t.answered, x) ensures HasAnswer(ch.st.answered, x) {
      StillAnswered(t, ch.st, x);
    }
  }

  lemma TimeoutsThenTimely(c: Config, s: State, t: State, now: Time)
    requires Inv(c, t, {}) && DueQueries(t, now) == {} && TimeoutsOnly(s, t.(lastProcessed := s.lastProcessed), now)
    ensures Timely(s) ==> Timely(t)
    ensures Timely(s) ==> forall x :: DueLast(c, s, x, now) ==> HasAnswer(t.answered, x)
  {
    if Timely(s) {
      var t' := t.(lastProcessed := s.lastProcessed);
      TimelyAfterTimeouts(s, t', now);
      forall x | DueLast(c, s, x, now)
        ensures HasAnswer(t.answered, x)
      {
        LastTimeout(c, s, t, x, now);
      }
    }
  }

  /** One event of a run. */
  method Step(ch: Channel, e: Event, now: Time)
    requires ch.Valid() && Clock(ch.st, now) && Possible(ch.cfg, e)
    modifies ch
    ensures ch.Valid() && Clock(ch.st, now) && (Timely(old(ch.st)) ==> Timely(ch.st))
  {
    match e {
      case Submit(qid, len) =>
        var _ := Send(ch, qid, len, now);
      case Arrives(p) =>
        var _ := ProcessAnswer(ch, p, now);
      case Tick =>
        Tick(ch, now);
      case ServerFails(i) =>
        ghost var s := ch.st;
        HandleError(ch, i, now);
        TimelyAfterError(ch.cfg, s, ch.st, i, now);
      case Flushed(i, n) =>
        Flush(ch, i, n);
    }
  }

  ghost predicate Monotone(c: Config, start: nat, run: seq<(Event, Time)>) {
    && (forall i :: 0 <= i < |run| ==>
         Possible(c, run[i].0) && run[i].1.usec < 1000000 && run[i].1.sec >= 1 && run[i].1.sec >= start)
    && (forall i, j :: 0 <= i < j < |run| ==> run[i].1.sec <= run[j].1.sec)
  }

  /** Any sequence of events, with a clock that never goes back. */
  method Run(c: Config, run: seq<(Event, Time)>) returns (ch: Channel)
    requires WellConfigured(c) && Monotone(c, 0, run)
    ensures fresh(ch) && ch.cfg == c && ch.Valid() && Timely(ch.st)
    ensures forall x: Id :: x < ch.st.nextId ==> Accounted(c, ch.st, x)
  {
    ch := new Channel(c);
    var i := 0;
    while i < |run|
      invariant 0 <= i <= |run| && ch.cfg == c && ch.Valid() && Timely(ch.st)
      invariant forall j :: i <= j < |run| ==> Clock(ch.st, run[j].1)
    {
      Step(ch, run[i].0, run[i].1);
      i := i + 1;
    }
    forall x: Id | x < ch.st.nextId ensures Accounted(c, ch.st, x) {
      AllAccounted(c, ch.st, x);
    }
  }

  /** What is known of every query ever accepted: its callback has been made exactly
      once, or it has not been made and the query is linked in its four lists and in no
      other; and it has been sent at most once per try, plus twice. */
  ghost predicate Accounted(c: Config, s: State, x: Id) {
    && x in s.sends && s.sends[x] <= c.nservers * c.tries + 2
    && (forall i, j :: 0 <= i < j < |s.answered| && s.answered[i].id == x ==> s.answered[j].id != x)
    && (HasAnswer(s.answered, x) <==> x !in s.queries)
    && (x in s.all <==> x in s.queries)
    && (forall b: nat :: b in s.byQid ==>
         (x in s.byQid[b] <==> x in s.queries && b == s.queries[x].qid % QID_TABLE_SIZE))
    && (forall b: nat :: b in s.byTimeout ==>
         (x in s.byTimeout[b] <==> x in s.queries && b == s.queries[x].timeout.sec % TIMEOUT_TABLE_SIZE))
    && (forall b: nat :: b in s.toServer ==> (x in s.toServer[b] <==> x in s.queries && b == s.queries[x].server))
    && (x in s.queries ==> s.queries[x].timeout.sec >= s.lastProcessed)
    && (x in s.queries ==> s.queries[x].timeouts <= s.queries[x].tryCount < c.nservers * c.tries)
  }

  lemma AllAccounted(c: Config, s: State, x: Id)
    requires Inv(c, s, {}) && AllSent(s) && Timely(s) && x < s.nextId
    ensures Accounted(c, s, x)
  {
    BudgetIs(c);
    assert x in s.queries ==> QueryInv(c, s, x);
    assert x in s.home <==> x in TimePlace(s.queries);
    forall b: nat | b in s.byQid ensures x in s.byQid[b] <==> x in s.queries && b == s.queries[x].qid % QID_TABLE_SIZE {
      assert x in s.byQid[b] <==> x in QidPlace(s.queries) && QidPlace(s.queries)[x] == b;
    }
    forall b: nat | b in s.byTimeout
      ensures x in s.byTimeout[b] <==> x in s.queries && b == s.queries[x].timeout.sec % TIMEOUT_TABLE_SIZE
    {
      assert x in s.byTimeout[b] <==> x in TimePlace(s.queries) && TimePlace(s.queries)[x] == b;
    }
    forall b: nat | b in s.toServer ensures x in s.toServer[b] <==> x in s.queries && b == s.queries[x].server {
      assert x in s.toServer[b] <==> x in s.home && s.home[x] == b;
    }
  }
}
