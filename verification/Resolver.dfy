/** The resolver channel: sending, retrying, timing out and ending queries. */
module Resolver {
  import RingIndex
  import opened Wrappers
  import opened QueryIndex
  import opened ResolverState
  import opened ResolverSteps

  function Pow2(k: nat): (r: nat)
    ensures r >= 1
  {
    if k == 0 then 1 else 2 * Pow2(k - 1)
  }

  /** The wait before a try is given up: doubled every round over the servers, then
      spread by a random draw of 0 to 7. */
  function TryDelay(timeoutMs: nat, round: nat, draw: nat): (ms: nat) {
    timeoutMs * Pow2(round) * (9 + draw) / 16
  }

  /** The longest wait is the configured one in the first round and doubles with every
      round; the random draw takes it down to no less than nine sixteenths of that. */
  lemma TryDelayIs(timeoutMs: nat, round: nat, draw: nat)
    requires draw < 8
    ensures TryDelay(timeoutMs, 0, 7) == timeoutMs
    ensures TryDelay(timeoutMs, round + 1, 7) == 2 * TryDelay(timeoutMs, round, 7)
    ensures 16 * TryDelay(timeoutMs, round, draw) <= (9 + draw) * TryDelay(timeoutMs, round, 7)
    ensures (9 + draw) * TryDelay(timeoutMs, round, 7) < 16 * TryDelay(timeoutMs, round, draw) + 16
    ensures 9 * TryDelay(timeoutMs, round, 7) < 16 * TryDelay(timeoutMs, round, draw) + 16
    ensures TryDelay(timeoutMs, round, draw) <= TryDelay(timeoutMs, round, 7)
  {
    FullDelay(timeoutMs, 0);
    FullDelay(timeoutMs, round);
    FullDelay(timeoutMs, round + 1);
    var w := timeoutMs * Pow2(round);
    assert timeoutMs * Pow2(round + 1) == 2 * w;
    Sixteenths(w, 9 + draw);
  }

  lemma FullDelay(timeoutMs: nat, round: nat)
    ensures TryDelay(timeoutMs, round, 7) == timeoutMs * Pow2(round)
  {
    assert timeoutMs * Pow2(round) * 16 / 16 == timeoutMs * Pow2(round);
  }

  lemma Sixteenths(w: nat, part: nat)
    requires 9 <= part <= 16
    ensures 16 * (w * part / 16) <= part * w < 16 * (w * part / 16) + 16
    ensures w * part / 16 <= w && 9 * w < 16 * (w * part / 16) + 16
  {
    assert 9 * w <= w * part <= w * 16;
  }

  /** Due is what lies no later than now. */
  lemma DueIs(now: Time, t: Time)
    requires now.usec < 1000000 && t.usec < 1000000
    ensures IsDue(now, t) <==> 1000000 * t.sec + t.usec <= 1000000 * now.sec + now.usec
  {
  }

  lemma TryDelayPositive(timeoutMs: nat, round: nat, draw: nat)
    requires timeoutMs >= 2
    ensures TryDelay(timeoutMs, round, draw) >= 1
  {
    var w := timeoutMs * Pow2(round);
    assert w >= 2 by {
      assert timeoutMs * Pow2(round) >= timeoutMs * 1;
    }
    assert w * (9 + draw) >= 2 * 9;
  }

  lemma ModSucc(a: nat, n: nat)
    requires n >= 1
    ensures (a % n + 1) % n == (a + 1) % n
  {
    SuccIs(a, n, a / n, a % n);
  }

  lemma SuccIs(a: nat, n: nat, q: nat, r: nat)
    requires a == q * n + r && r < n
    ensures (r + 1) % n == (a + 1) % n
  {
    if r + 1 == n {
      assert a + 1 == (q + 1) * n + 0;
      RingIndex.ModuloIs(a + 1, n, q + 1, 0);
      RingIndex.ModuloIs(n, n, 1, 0);
    } else {
      RingIndex.ModuloIs(a + 1, n, q, r + 1);
      RingIndex.ModuloIs(r + 1, n, 0, r + 1);
    }
  }

  /** Around the ring is counting modulo the number of servers. */
  lemma {:induction false} RingIs(n: nat, start: nat, k: nat)
    requires start < n
    ensures RingAt(n, start, k) == (start + k) % n
    decreases k
  {
    if k > 0 {
      RingIs(n, start, k - 1);
      ModSucc(start + k - 1, n);
    }
  }

  /** What happens to a server's output queue when the query `id` goes. */
  function Disown(queue: seq<SendRequest>, id: Id, copied: bool): (r: seq<SendRequest>)
    ensures |r| == |queue|
    ensures forall j :: 0 <= j < |r| ==>
      r[j] == if queue[j].owner == Some(id) then SendRequest(None, copied) else queue[j]
  {
    if queue == [] then []
    else Disown(queue[..|queue|-1], id, copied) +
         [if queue[|queue|-1].owner == Some(id) then SendRequest(None, copied) else queue[|queue|-1]]
  }

  predicate Owns(queue: seq<SendRequest>, id: Id) {
    exists j :: 0 <= j < |queue| && queue[j].owner == Some(id)
  }

  ghost predicate SameTry(q: Query, r: Query) {
    r.tryCount == q.tryCount && r.server == q.server && r.usingTcp == q.usingTcp && r.timeouts == q.timeouts &&
      r.errorStatus == q.errorStatus
  }

  /** Later tries go around the ring of servers, one step a try. */
  ghost predicate Ring(c: Config, q: Query, r: Query) {
    RingParts(c, q, r) == true
  }

  ghost predicate RingParts(c: Config, q: Query, r: Query) {
    && c.nservers >= 1 && r.tryCount >= q.tryCount && r.server == RingAt(c.nservers, q.server, r.tryCount - q.tryCount)
    && r.usingTcp == q.usingTcp && r.timeouts == q.timeouts && r.errorStatus == q.errorStatus
  }

  lemma RingOn(c: Config, q: Query, r: Query, u: Query)
    requires Ring(c, q, r) && SameTry(r, u)
    ensures Ring(c, q, u)
  {
  }

  /** May the query be sent to this server?  Not when the connection is broken, when
      the query was told to skip it, or when it already went over this connection. */
  predicate Usable(q: Query, server: Server, i: nat)
    requires i < |q.skip| && i < |q.sentOn|
  {
    !server.isBroken && !q.skip[i] && !(q.usingTcp && q.sentOn[i] == server.generation)
  }

  /** Is the server `k` tries ahead usable? */
  ghost predicate UsableAhead(n: nat, servers: seq<Server>, q: Query, k: nat) {
    && n >= 1
    && var i := RingAt(n, q.server, k);
       i < |servers| && i < |q.skip| && i < |q.sentOn| && Usable(q, servers[i], i)
  }

  /** Is any server usable in the tries that are left? */
  ghost predicate AnyUsable(c: Config, servers: seq<Server>, q: Query) {
    exists k: nat :: 1 <= k && q.tryCount + k < Budget(c) && UsableAhead(c.nservers, servers, q, k)
  }

  /** The query may go to the server `k` places ahead: it is not broken, was not to be
      skipped, and the query was not sent over its present TCP connection before. */
  ghost predicate MayTry(servers: seq<Server>, q: Query, n: nat, k: nat) {
    && n >= 1 && |servers| == |q.skip| == |q.sentOn| == n
    && var i := (q.server + k) % n;
       !servers[i].isBroken && !q.skip[i] && !(q.usingTcp && q.sentOn[i] == servers[i].generation)
  }

  lemma AnyUsableIs(c: Config, servers: seq<Server>, q: Query)
    requires |servers| == |q.skip| == |q.sentOn| == c.nservers && q.server < c.nservers
    ensures AnyUsable(c, servers, q) <==>
      exists k: nat :: 1 <= k && q.tryCount + k < c.nservers * c.tries && MayTry(servers, q, c.nservers, k)
  {
    BudgetIs(c);
    forall k: nat ensures UsableAhead(c.nservers, servers, q, k) <==> MayTry(servers, q, c.nservers, k) {
      RingIs(c.nservers, q.server, k);
    }
  }

  /** A server whose connections were closed and not used since. */
  predicate Closed(server: Server) {
    server.queue == [] && !server.isBroken && !server.tcpOpen && !server.udpOpen
  }

  /** A query at a server it was not told to skip. */
  predicate Placed(q: Query) {
    q.server < |q.skip| && !q.skip[q.server]
  }

  predicate ToSkip(q: Query, i: nat) {
    i < |q.skip| && q.skip[i]
  }

  /** What a query was told to skip it goes on skipping. */
  ghost predicate SkipsKept(q: Query, r: Query) {
    |r.skip| == |q.skip| && forall i :: ToSkip(q, i) ==> ToSkip(r, i)
  }

  /** Broken connections stay marked until all queries are gone. */
  ghost predicate BrokenKept(s: State, t: State) {
    && |t.servers| == |s.servers|
    && (t.queries == map[] || forall i :: 0 <= i < |s.servers| && s.servers[i].isBroken ==> t.servers[i].isBroken)
  }

  /** An attempt to send a query has not used the servers it was told to skip. */
  ghost predicate Forward(s: State, t: State, id: Id) {
    ForwardParts(s, t, id) == true
  }

  ghost predicate ForwardParts(s: State, t: State, id: Id) {
    && id in s.queries && BrokenKept(s, t)
    && (id in t.queries ==> var q, r := s.queries[id], t.queries[id];
          r.tryCount >= q.tryCount && SkipsKept(q, r) && (Placed(q) ==> Placed(r)))
    && (forall i ::
          0 <= i < |s.servers| && ToSkip(s.queries[id], i) && i != s.queries[id].server && Closed(s.servers[i]) ==>
          Closed(t.servers[i]))
  }

  /** A query has moved on: it was sent in a later try to a server that it was not told to
      skip, or is no longer in flight. */
  ghost predicate Onward(s: State, t: State, id: Id) {
    OnwardParts(s, t, id) == true
  }

  ghost predicate OnwardParts(s: State, t: State, id: Id) {
    && id in s.queries && id in s.sends && id in t.sends && BrokenKept(s, t)
    && (id in t.queries ==> var q, r := s.queries[id], t.queries[id];
          r.tryCount > q.tryCount && t.sends[id] > s.sends[id] && SkipsKept(q, r) && Placed(r))
    && (forall i :: 0 <= i < |s.servers| && ToSkip(s.queries[id], i) && Closed(s.servers[i]) ==> Closed(t.servers[i]))
  }

  /** The query is told to skip a server, if there are others. */
  ghost predicate Skipping(c: Config, q: Query, r: Query, i: nat) {
    && i < |q.skip| && r == q.(skip := if c.nservers > 1 then q.skip[i := true] else q.skip)
    && SkipsKept(q, r) && (c.nservers > 1 ==> ToSkip(r, i))
  }

  /** A packet was handed to the transport of the query's own server. */
  ghost predicate Touched(s: State, t: State, id: Id) {
    && id in s.queries && id in t.queries && |t.servers| == |s.servers| && s.queries[id].server < |s.servers|
    && t.queries[id].server == s.queries[id].server && t.queries[id].tryCount == s.queries[id].tryCount
    && SkipsKept(s.queries[id], t.queries[id])
    && (forall i :: 0 <= i < |s.servers| ==> t.servers[i].isBroken == s.servers[i].isBroken)
    && (forall i :: 0 <= i < |s.servers| && i != s.queries[id].server ==> t.servers[i] == s.servers[i])
  }

  /** How the packet of a query in flight has gone out.  Over TCP it was queued at the
      query's server, whose connection is open, and the query remembers over which
      connection it went.  Over UDP it was written to the server's socket, and neither the
      queues nor the connections have changed. */
  ghost predicate SentVia(s: State, t: State, id: Id) {
    SentViaParts(s, t, id) == true
  }

  ghost predicate SentViaParts(s: State, t: State, id: Id) {
    && id in s.queries && |t.servers| == |s.servers|
    && (id in t.queries ==>
         var w := t.queries[id].server;
         && w < |s.servers| && w < |s.queries[id].sentOn|
         && if t.queries[id].usingTcp then
              && t.servers[w].tcpOpen && t.servers[w].queue == s.servers[w].queue + [SendRequest(Some(id), false)]
              && t.servers[w].generation ==
                   (if s.servers[w].tcpOpen then s.servers[w].generation else s.generation + 1)
              && t.generation == (if s.servers[w].tcpOpen then s.generation else s.generation + 1)
              && t.queries[id].sentOn == s.queries[id].sentOn[w := t.servers[w].generation]
              && t.servers[w].udpOpen == s.servers[w].udpOpen && t.servers[w].written == s.servers[w].written
              && forall i :: 0 <= i < |s.servers| && i != w ==> t.servers[i] == s.servers[i]
            else
              && t.servers[w].udpOpen && t.servers[w].written == s.servers[w].written + [id]
              && t.generation == s.generation && t.queries[id].sentOn == s.queries[id].sentOn
              && forall i :: 0 <= i < |s.servers| ==>
                && t.servers[i].tcpOpen == s.servers[i].tcpOpen && t.servers[i].generation == s.servers[i].generation
                && t.servers[i].queue == s.servers[i].queue
                && (i != w ==> t.servers[i].written == s.servers[i].written))
  }

  /** A packet that could not be sent leaves no trace but an opened UDP socket. */
  ghost predicate SendFailed(s: State, t: State, id: Id) {
    && id in s.queries && id in t.queries && |t.servers| == |s.servers| && t.generation == s.generation
    && t.queries[id].usingTcp == s.queries[id].usingTcp && t.queries[id].sentOn == s.queries[id].sentOn
    && (if s.queries[id].usingTcp then t.servers == s.servers
        else forall i :: 0 <= i < |s.servers| ==> t.servers[i] == s.servers[i].(udpOpen := t.servers[i].udpOpen))
  }

  lemma FailedThenSent(s: State, s1: State, t: State, id: Id)
    requires SendFailed(s, s1, id) && SentVia(s1, t, id)
    requires id in t.queries ==> t.queries[id].usingTcp == s.queries[id].usingTcp
    ensures SentVia(s, t, id)
  {
  }

  /** The query is at a server that was not broken, that it was not told to skip, and that
      it had not been sent to over the same TCP connection before. */
  ghost predicate Landed(s: State, t: State, id: Id) {
    id in s.queries && (id in t.queries ==> FreeAt(s, id, t.queries[id].server))
  }

  ghost predicate FreeAt(s: State, id: Id, w: nat)
    requires id in s.queries
  {
    var q := s.queries[id];
    && w < |s.servers| && w < |q.skip| && w < |q.sentOn|
    && !s.servers[w].isBroken && !q.skip[w] && !(q.usingTcp && q.sentOn[w] == s.servers[w].generation)
  }

  lemma FailedThenLanded(s: State, s1: State, t: State, id: Id)
    requires SendFailed(s, s1, id) && Landed(s1, t, id) && SkipsKept(s.queries[id], s1.queries[id])
    ensures Landed(s, t, id)
  {
    if id in t.queries {
      var w := t.queries[id].server;
      assert ToSkip(s.queries[id], w) ==> ToSkip(s1.queries[id], w);
      assert s1.servers[w].isBroken == s.servers[w].isBroken && s1.servers[w].generation == s.servers[w].generation;
    }
  }

  /** The way a packet goes depends on the servers and the query's own record. */
  lemma SameStart(s: State, s1: State, t: State, id: Id)
    requires id in s.queries && id in s1.queries && s1.queries[id] == s.queries[id]
    requires s1.servers == s.servers && s1.generation == s.generation
    ensures SentVia(s1, t, id) ==> SentVia(s, t, id)
    ensures SendFailed(s1, t, id) ==> SendFailed(s, t, id)
  {
  }

  lemma FailedThenSkips(s: State, s1: State, t: State, id: Id)
    requires SendFailed(s, s1, id) && id in t.queries && t.queries[id] == s1.queries[id].(skip := t.queries[id].skip)
    requires t.servers == s1.servers && t.generation == s1.generation
    ensures SendFailed(s, t, id)
  {
  }

  lemma SentMeans(s: State, t: State, id: Id)
    requires SentVia(s, t, id) && id in t.queries
    ensures t.queries[id].usingTcp ==>
      var w := t.queries[id].server;
      && w < |t.servers| == |s.servers| && w < |t.queries[id].sentOn| && t.servers[w].tcpOpen
      && t.servers[w].queue == s.servers[w].queue + [SendRequest(Some(id), false)]
      && t.queries[id].sentOn[w] == t.servers[w].generation && t.servers[w].written == s.servers[w].written
    ensures !t.queries[id].usingTcp ==>
      var w := t.queries[id].server;
      && w < |t.servers| == |s.servers| && t.servers[w].udpOpen
      && t.servers[w].written == s.servers[w].written + [id]
      && t.generation == s.generation && id in s.queries && t.queries[id].sentOn == s.queries[id].sentOn
      && forall i :: 0 <= i < |t.servers| ==>
        && t.servers[i].queue == s.servers[i].queue && t.servers[i].tcpOpen == s.servers[i].tcpOpen
        && t.servers[i].generation == s.servers[i].generation
  {
  }

  lemma NextStarts(c: Config, s: State, id: Id, exempt: set<Id>)
    requires Inv(c, s, exempt) && id in s.queries
    ensures QueryFits(c, s, id)
    ensures AnyUsable(c, s.servers, s.queries[id]) <==>
      exists k: nat :: 1 <= k && s.queries[id].tryCount + k < c.nservers * c.tries &&
        MayTry(s.servers, s.queries[id], c.nservers, k)
  {
    assert QueryInv(c, s, id);
    AnyUsableIs(c, s.servers, s.queries[id]);
  }

  ghost predicate QueryFits(c: Config, s: State, id: Id) {
    && id in s.queries && s.queries[id].server < c.nservers
    && |s.servers| == |s.queries[id].skip| == |s.queries[id].sentOn| == c.nservers
  }

  lemma NextMeans(c: Config, s0: State, s: State, t: State, id: Id)
    requires id in s0.queries && QueryFits(c, s, id)
    requires Ring(c, s0.queries[id], s.queries[id]) && Outcome(c, s0, t, id)
    requires Onward(s, t, id) && Landed(s, t, id)
    ensures id in t.queries ==>
      var q, r := s.queries[id], t.queries[id];
      && r.tryCount > q.tryCount && r.server == (q.server + (r.tryCount - q.tryCount)) % c.nservers
      && MayTry(s.servers, q, c.nservers, r.tryCount - q.tryCount)
    ensures id !in t.queries ==>
      |t.answered| >= 1 && t.answered[|t.answered|-1].id == id &&
      t.answered[|t.answered|-1].status == s.queries[id].errorStatus
  {
    if id in t.queries {
      var q0, q, r := s0.queries[id], s.queries[id], t.queries[id];
      RingAtAdds(c.nservers, q0.server, q.tryCount - q0.tryCount, r.tryCount - q.tryCount);
      RingIs(c.nservers, q.server, r.tryCount - q.tryCount);
    }
  }

  lemma SentThenFiled(s: State, s1: State, t: State, id: Id)
    requires SentVia(s, s1, id) && id in s1.queries && id in t.queries
    requires t.queries[id] == s1.queries[id].(timeout := t.queries[id].timeout)
    requires t.servers == s1.servers && t.generation == s1.generation
    ensures SentVia(s, t, id)
  {
  }

  lemma SameTransport(c: Config, s0: State, s: State, t: State, id: Id)
    requires id in s0.queries && id in s.queries && Ring(c, s0.queries[id], s.queries[id]) && Outcome(c, s0, t, id)
    ensures id in t.queries ==> t.queries[id].usingTcp == s.queries[id].usingTcp
  {
  }

  /** The query has been moved around the ring, to a server that may be used if there is one. */
  ghost predicate Advanced(s: State, t: State, id: Id, found: bool) {
    && id in s.queries && id in t.queries && t.servers == s.servers && t.generation == s.generation
    && t.queries[id] == s.queries[id].(tryCount := t.queries[id].tryCount, server := t.queries[id].server)
    && (found ==> FreeAt(s, id, t.queries[id].server))
  }

  lemma NextSent(s: State, s1: State, t: State, id: Id)
    requires Advanced(s, s1, id, true) && SentVia(s1, t, id)
    requires id in t.queries && t.queries[id].server != s1.queries[id].server ==> Landed(s1, t, id)
    ensures SentVia(s, t, id) && Landed(s, t, id)
  {
  }

  lemma EndedVia(s: State, t: State, id: Id)
    requires id in s.queries && id !in t.queries && |t.servers| == |s.servers|
    ensures SentVia(s, t, id) && Landed(s, t, id)
  {
  }

  /** The packet has been sent and the query filed. */
  lemma ForwardSent(s: State, s1: State, t: State, id: Id)
    requires Touched(s, s1, id) && s1.queries[id].skip == s.queries[id].skip
    requires id in t.queries && t.servers == s1.servers
    requires t.queries[id] == s1.queries[id].(timeout := t.queries[id].timeout)
    ensures Forward(s, t, id)
  {
  }

  /** The packet could not be sent, and the query has moved on. */
  lemma ForwardFailed(s: State, s1: State, t: State, id: Id)
    requires Touched(s, s1, id) && Onward(s1, t, id)
    ensures Forward(s, t, id)
  {
    assert forall i :: ToSkip(s.queries[id], i) ==> ToSkip(s1.queries[id], i);
    if id in t.queries {
      assert SkipsKept(s1.queries[id], t.queries[id]);
      assert forall i :: ToSkip(s.queries[id], i) ==> ToSkip(t.queries[id], i);
    }
  }

  lemma OnwardSent(s: State, s1: State, t: State, id: Id)
    requires id in s.queries && id in s1.queries && id in s.sends && id in s1.sends && id in t.sends
    requires s1.servers == s.servers && s1.queries[id].skip == s.queries[id].skip
    requires s1.queries[id].tryCount > s.queries[id].tryCount && Placed(s1.queries[id])
    requires Forward(s1, t, id) && t.sends[id] > s1.sends[id] == s.sends[id]
    ensures Onward(s, t, id)
  {
    assert forall i :: ToSkip(s.queries[id], i) <==> ToSkip(s1.queries[id], i);
    if id in t.queries {
      assert SkipsKept(s1.queries[id], t.queries[id]);
    }
  }

  /** What the end of a query does to the servers: closed ones stay closed. */
  ghost predicate Settled(s: State, t: State) {
    && BrokenKept(s, t)
    && forall i :: 0 <= i < |s.servers| && Closed(s.servers[i]) ==> Closed(t.servers[i])
  }

  lemma SettledServers(s: State, t: State)
    requires Settled(s, t)
    ensures |t.servers| == |s.servers|
  {
  }

  lemma OnwardEnded(s: State, s1: State, t: State, id: Id)
    requires id in s.queries && id in s.sends && id in t.sends && id !in t.queries
    requires s1.servers == s.servers && Settled(s1, t)
    ensures Onward(s, t, id)
  {
  }

  /** A server after the query `id` has gone: its requests are no longer the query's, and if
      it went with an error the connection counts as broken. */
  function Orphaned(server: Server, id: Id, status: Status): Server {
    server.(queue := Disown(server.queue, id, status == Success),
            isBroken := server.isBroken || (Owns(server.queue, id) && status != Success))
  }

  lemma OrphanedGenerations(s: State, t: State, id: Id, status: Status)
    requires GenerationsInv(s) && t.generation == s.generation && |t.servers| == |s.servers|
    requires forall i :: 0 <= i < |t.servers| ==> t.servers[i] == Orphaned(s.servers[i], id, status)
    ensures GenerationsInv(t)
  {
  }

  lemma EndSettled(c: Config, s: State, t: State, id: Id, status: Status)
    requires |s.servers| == |t.servers| == c.nservers && ListsInv(c, t)
    requires
      || (forall i :: 0 <= i < c.nservers ==> t.servers[i] == Orphaned(s.servers[i], id, status))
      || (t.all == [] && forall i :: 0 <= i < c.nservers ==> Closed(t.servers[i]))
    ensures Settled(s, t)
  {
    if t.all == [] {
      assert forall x :: x in t.queries ==> x in t.all;
      assert t.queries == map[];
    }
  }

  /** How work on a query ends: it is on its way to a server around the ring, or it was
      given up, with its last error, after the last try. */
  ghost predicate Outcome(c: Config, s: State, t: State, id: Id) {
    OutcomeParts(c, s, t, id) == true
  }

  ghost predicate OutcomeParts(c: Config, s: State, t: State, id: Id) {
    && id in s.queries
    && if id in t.queries then Ring(c, s.queries[id], t.queries[id])
       else |t.answered| >= 1 && var a := t.answered[|t.answered|-1];
            a.id == id && a.status == s.queries[id].errorStatus && a.tries + 1 >= Budget(c)
  }

  predicate Below(b: nat, n: nat) {
    b < n
  }

  function EmptyBuckets(n: nat): Buckets {
    map b: nat | b < n && Below(b, n) :: []
  }

  function FreshState(c: Config): State {
    State(map[], [], EmptyBuckets(QID_TABLE_SIZE), EmptyBuckets(TIMEOUT_TABLE_SIZE), EmptyBuckets(c.nservers + 1),
          seq(c.nservers, (i: nat) => Server(false, false, i + 1, false, [], [])), c.nservers, c.ednsSize > 0, 0, [], 0,
          map[], map[], {}, {})
  }

  lemma EmptyIndexed(n: nat)
    ensures Indexed(EmptyBuckets(n), n, map[])
  {
    forall b: nat ensures b in EmptyBuckets(n) <==> b < n {
      assert Below(b, n) <==> b < n;
    }
  }

  lemma FreshInv(c: Config)
    requires WellConfigured(c)
    ensures Inv(c, FreshState(c), {})
  {
    var s := FreshState(c);
    FreshLists(c, s);
    FreshRecords(c, s);
    assert s.servers == seq(c.nservers, (i: nat) => Server(false, false, i + 1, false, [], []));
  }

  lemma FreshLists(c: Config, s: State)
    requires s.queries == map[] && s.home == map[] && s.all == []
    requires s.byQid == EmptyBuckets(QID_TABLE_SIZE) && s.byTimeout == EmptyBuckets(TIMEOUT_TABLE_SIZE)
    requires s.toServer == EmptyBuckets(c.nservers + 1)
    ensures ListsInv(c, s)
  {
    EmptyIndexed(QID_TABLE_SIZE);
    EmptyIndexed(TIMEOUT_TABLE_SIZE);
    EmptyIndexed(c.nservers + 1);
    EmptyListed(c.nservers, s.byQid, s.byTimeout, s.toServer);
  }

  lemma EmptyListed(n: nat, byQid: Buckets, byTimeout: Buckets, toServer: Buckets)
    requires Indexed(byQid, QID_TABLE_SIZE, map[]) && Indexed(byTimeout, TIMEOUT_TABLE_SIZE, map[])
    requires Indexed(toServer, n + 1, map[])
    ensures Listed(n, map[], [], byQid, byTimeout, toServer, map[])
  {
    assert QidPlace(map[]) == map[] && TimePlace(map[]) == map[];
  }

  lemma FreshRecords(c: Config, s: State)
    requires s.queries == map[] && s.home == map[] && s.sends == map[] && s.answered == [] && s.nextId == 0
    requires s.switched == {} && s.fellBack == {}
    ensures RecordsInv(c, s, {}) && AnswersInv(s) && SendsInv(c, s)
  {
  }

  lemma OnItsWay(c: Config, s: State, t: State, id: Id)
    requires id in s.queries && id in t.queries && Ring(c, s.queries[id], t.queries[id])
    ensures Outcome(c, s, t, id)
  {
  }

  lemma GivenUp(c: Config, s: State, q: Query, t: State, id: Id, before: seq<Answer>, timeouts: nat)
    requires id in s.queries && id !in t.queries && Ring(c, s.queries[id], q) && q.tryCount + 1 >= Budget(c)
    requires t.answered == before + [Answer(id, q.errorStatus, timeouts, q.tryCount)]
    ensures Outcome(c, s, t, id)
  {
    assert t.answered[|before|] == Answer(id, q.errorStatus, timeouts, q.tryCount);
  }

  /** A search around the ring that began with the record `q` and ended with `r`: it
      stops at the first usable server, or before the tries run out. */
  ghost predicate Searched(c: Config, servers: seq<Server>, q: Query, r: Query, found: bool) {
    SearchedParts(c, servers, q, r, found) == true
  }

  ghost predicate SearchedParts(c: Config, servers: seq<Server>, q: Query, r: Query, found: bool) {
    && c.nservers >= 1 && q.tryCount <= r.tryCount < Budget(c) && r.server < c.nservers
    && r == q.(tryCount := r.tryCount, server := RingAt(c.nservers, q.server, r.tryCount - q.tryCount))
    && (found <==> AnyUsable(c, servers, q))
    && (forall k: nat :: 1 <= k < r.tryCount - q.tryCount ==> !UsableAhead(c.nservers, servers, q, k))
    && (if found then r.tryCount > q.tryCount && UsableAhead(c.nservers, servers, r, 0)
         else r.tryCount + 1 == Budget(c))
  }

  lemma SearchedFacts(c: Config, servers: seq<Server>, q: Query, r: Query, found: bool)
    requires Searched(c, servers, q, r, found)
    ensures Ring(c, q, r) && q.tryCount <= r.tryCount < Budget(c) && r.server < c.nservers
    ensures r == q.(tryCount := r.tryCount, server := r.server)
    ensures found <==> AnyUsable(c, servers, q)
    ensures if found then r.tryCount > q.tryCount && Placed(r) else r.tryCount + 1 == Budget(c)
    ensures found ==> r.server < |servers| && r.server < |r.sentOn| && !servers[r.server].isBroken
    ensures found ==> !(r.usingTcp && r.sentOn[r.server] == servers[r.server].generation)
  {
  }

  lemma AdvancedInv(c: Config, s0: State, s: State, t: State, id: Id, exempt: set<Id>, found: bool)
    requires Inv(c, s, exempt) && Prepared(s0, s, id) && id in exempt && id in t.queries
    requires t == s.(queries := s.queries[id := t.queries[id]])
    requires Searched(c, s.servers, s.queries[id], t.queries[id], found)
    ensures Inv(c, t, exempt) && Prepared(s0, t, id) && Ring(c, s.queries[id], t.queries[id])
    ensures found ==> t.queries[id].tryCount > s.queries[id].tryCount
    ensures found ==> t.sends[id] <= t.queries[id].tryCount + Extra(t, id)
    ensures if found then t.queries[id].tryCount < Budget(c) else t.queries[id].tryCount + 1 == Budget(c)
    ensures found <==> AnyUsable(c, s.servers, s.queries[id])
    ensures t.queries[id].skip == s.queries[id].skip && (found ==> Placed(t.queries[id]))
    ensures Advanced(s, t, id, found)
  {
    SearchedFacts(c, s.servers, s.queries[id], t.queries[id], found);
    assert QueryInv(c, s, id);
    SentSoFar(c, s, id);
    RecordSet(c, s0, s, t, id, exempt);
  }

  /** A new position of a query around the ring. */
  lemma RecordSet(c: Config, s0: State, s: State, t: State, id: Id, exempt: set<Id>)
    requires Inv(c, s, exempt) && Prepared(s0, s, id) && id in exempt && id in t.queries
    requires t == s.(queries := s.queries[id := t.queries[id]]) && QueryInv(c, t, id)
    requires t.queries[id] == s.queries[id].(tryCount := t.queries[id].tryCount, server := t.queries[id].server)
    requires t.queries[id].tryCount >= s.queries[id].tryCount
    ensures Inv(c, t, exempt) && Prepared(s0, t, id)
  {
    SentSoFar(c, s, id);
    MapSame(s.sends, id);
    PreparedInv(c, s, t, id, exempt);
    PreparedTwice(s0, s, t, id);
  }

  /** What the invariant says of one query. */
  lemma QueryThere(c: Config, s: State, exempt: set<Id>, id: Id)
    requires Inv(c, s, exempt) && id in s.queries && id in s.sends
    ensures QueryInv(c, s, id) && QueuesInv(c, s)
    ensures s.sends[id] <= s.queries[id].tryCount + 1 + Extra(s, id)
    ensures id in s.switched ==> s.queries[id].usingTcp
    ensures s.sends[id] <= Budget(c) + 2
  {
    assert QueryInv(c, s, id);
  }

  lemma SentSoFar(c: Config, s: State, id: Id)
    requires SendsInv(c, s) && id in s.queries && id in s.sends
    ensures s.sends[id] <= s.queries[id].tryCount + 1 + Extra(s, id)
    ensures id in s.switched ==> s.queries[id].usingTcp
    ensures s.sends[id] <= Budget(c) + 2
  {
  }

  class Channel {
    const cfg: Config
    var st: State
    var lastServer: nat

    /** A channel with no query yet and all sockets closed. */
    constructor (c: Config)
      requires WellConfigured(c)
      ensures cfg == c && Valid() && st.queries == map[] && st.nextId == 0 && st.answered == [] && st.lastProcessed == 0
    {
      cfg := c;
      lastServer := 0;
      st := FreshState(c);
      FreshInv(c);
    }

    /** Between operations no query is in the middle of being worked on. */
    ghost predicate Valid()
      reads this
    {
      && Inv(cfg, st, {}) && lastServer < cfg.nservers
      && (forall x :: x in st.queries ==> st.queries[x].timeout.sec != 0)
    }

    /** In the middle of work on `id`, which started in state `s`. */
    ghost predicate Working(s: State, id: Id, exempt: set<Id>, now: Time)
      reads this
    {
      && Inv(cfg, st, exempt) && Prepared(s, st, id) && id in exempt
      && Ring(cfg, s.queries[id], st.queries[id])
      && now.usec < 1000000 && now.sec >= 1 && now.sec >= st.lastProcessed
    }

    method CloseSockets(i: nat)
      requires |st.servers| == cfg.nservers && i < |st.servers|
      modifies this`st
      ensures OnlyServers(old(st), st)
      ensures |st.servers| == cfg.nservers
      ensures forall j :: 0 <= j < |st.servers| && j != i ==> st.servers[j] == old(st.servers)[j]
      ensures Closed(st.servers[i]) && st.servers[i].queue == [] && !st.servers[i].isBroken
      ensures !st.servers[i].tcpOpen && !st.servers[i].udpOpen && st.servers[i].written == old(st).servers[i].written
      ensures if old(st).servers[i].tcpOpen then st.generation == old(st).generation + 1 == st.servers[i].generation
        else st.generation == old(st).generation && st.servers[i].generation == old(st).servers[i].generation
      ensures GenerationsInv(old(st)) ==> GenerationsInv(st)
    {
      var server := st.servers[i].(queue := [], isBroken := false);
      if server.tcpOpen {
        st := st.(generation := st.generation + 1);
        server := server.(tcpOpen := false, generation := st.generation);
      }
      st := st.(servers := st.servers[i := server.(udpOpen := false)]);
    }

    /** Tells a query to skip a server that gave it trouble, if there are others. */
    method SkipServer(id: Id, whichServer: nat, ghost exempt: set<Id>, ghost s0: State)
      requires Inv(cfg, st, exempt) && Prepared(s0, st, id) && id in exempt && whichServer < cfg.nservers
      modifies this`st
      ensures Inv(cfg, st, exempt) && Prepared(s0, st, id) && st.lastProcessed == old(st.lastProcessed)
      ensures SameTry(old(st.queries[id]), st.queries[id]) && st.sends == old(st.sends)
      ensures st.servers == old(st.servers) && st.generation == old(st.generation)
      ensures Skipping(cfg, old(st.queries[id]), st.queries[id], whichServer)
    {
      hide Inv;
      ghost var s := st;
      QueryThere(cfg, s, exempt, id);
      if cfg.nservers > 1 {
        var q := st.queries[id];
        st := st.(queries := st.queries[id := q.(skip := q.skip[whichServer := true])]);
      }
      MapSame(s.queries, id);
      MapSame(s.sends, id);
      PreparedInv(cfg, s, st, id, exempt);
      PreparedTwice(s0, s, st, id);
    }

    /** Opens the TCP connection if need be and queues the packet. */
    method QueueTcp(id: Id, q: Query, server: Server, generation: nat)
      returns (ok: bool, q': Query, server': Server, generation': nat)
      requires q.server < |q.sentOn|
      ensures ok ==> generation' == (if server.tcpOpen then generation else generation + 1)
      ensures ok ==>
        server' == server.(tcpOpen := true, queue := server.queue + [SendRequest(Some(id), false)],
                           generation := if server.tcpOpen then server.generation else generation + 1)
      ensures ok ==> q' == q.(sentOn := q.sentOn[q.server := server'.generation])
      ensures !ok ==> q' == q && server' == server && generation' == generation
    {
      ok, q', server', generation' := true, q, server, generation;
      if !server.tcpOpen {
        ok := *;
        if !ok {
          return;
        }
        generation' := generation + 1;
        server' := server'.(tcpOpen := true, generation := generation');
      }
      server' := server'.(queue := server.queue + [SendRequest(Some(id), false)]);
      q' := q.(sentOn := q.sentOn[q.server := server'.generation]);
    }

    /** Opens the UDP socket if need be and writes the packet. */
    method WriteUdp(id: Id, server: Server) returns (ok: bool, server': Server)
      ensures ok ==> server' == server.(udpOpen := true, written := server.written + [id])
      ensures !ok ==> server' == server.(udpOpen := server'.udpOpen)
    {
      ok, server' := true, server;
      if !server.udpOpen {
        ok := *;
        server' := server.(udpOpen := ok);
      }
      if ok {
        ok := *;
        if ok {
          server' := server'.(written := server'.written + [id]);
        }
      }
    }

    /** Hands the packet to the transport, which may fail. */
    method Transmit(id: Id, ghost exempt: set<Id>, ghost s0: State) returns (ok: bool)
      requires Inv(cfg, st, exempt) && Prepared(s0, st, id) && id in exempt
      modifies this`st
      ensures Inv(cfg, st, exempt) && Prepared(s0, st, id) && st.lastProcessed == old(st.lastProcessed)
      ensures SameTry(old(st.queries[id]), st.queries[id]) && st.queries[id].server < cfg.nservers
      ensures st.sends[id] == old(st.sends[id])
      ensures Touched(old(st), st, id) && st.queries[id].skip == old(st.queries[id].skip)
      ensures if ok then SentVia(old(st), st, id) else SendFailed(old(st), st, id)
    {
      hide Inv, QueuesInv, Touched, SentVia, SendFailed, Prepared;
      ghost var s := st;
      PreparedThere(s0, s, id);
      QueryAt(cfg, s, exempt, id);
      var q := st.queries[id];
      var server, generation := st.servers[q.server], st.generation;
      if q.usingTcp {
        ok, q, server, generation := QueueTcp(id, q, server, generation);
      } else {
        ok, server := WriteUdp(id, server);
      }
      st := st.(servers := st.servers[q.server := server], generation := generation, queries := st.queries[id := q]);
      HandedOver(cfg, s, st, id, exempt, server, generation, q, ok);
      PreparedTwice(s0, s, st, id);
    }

    /** When the try that was just made will be given up. */
    method NextTimeout(q: Query, now: Time) returns (timeout: Time)
      requires WellConfigured(cfg) && now.usec < 1000000
      ensures timeout.sec >= now.sec && !IsDue(now, timeout)
      ensures exists draw: nat ::
        draw < 8 && timeout.usec < 1000000 &&
        1000000 * timeout.sec + timeout.usec ==
          1000000 * now.sec + now.usec + 1000 * TryDelay(cfg.timeoutMs, q.tryCount / cfg.nservers, draw)
    {
      var draw: nat :| draw < 8;
      var ms := TryDelay(cfg.timeoutMs, q.tryCount / cfg.nservers, draw);
      TryDelayPositive(cfg.timeoutMs, q.tryCount / cfg.nservers, draw);
      LaterThan(now, ms);
      timeout := TimeAdd(now, ms);
      assert timeout == TimeAdd(now, TryDelay(cfg.timeoutMs, q.tryCount / cfg.nservers, draw));
    }

    /** Files a query under its new timeout and its server. */
    method File(id: Id, timeout: Time)
      requires id in st.queries && timeout.sec % TIMEOUT_TABLE_SIZE in st.byTimeout
      requires st.queries[id].server in st.toServer
      modifies this`st
      ensures Resent(old(st), st, id, timeout)
    {
      var q := st.queries[id];
      st := st.(queries := st.queries[id := q.(timeout := timeout)]);
      st := st.(byTimeout := Unlink(st.byTimeout, id));
      st := st.(byTimeout := Link(st.byTimeout, timeout.sec % TIMEOUT_TABLE_SIZE, id));
      st := st.(toServer := Unlink(st.toServer, id));
      st := st.(toServer := Link(st.toServer, q.server, id));
      st := st.(home := st.home[id := q.server]);
    }

    /** Sets the timeout of a query that was just sent and files it accordingly. */
    method Arm(id: Id, now: Time, ghost exempt: set<Id>, ghost s0: State)
      requires Working(s0, id, exempt, now)
      modifies this`st
      ensures Inv(cfg, st, exempt - {id}) && Worked(s0, st, id, now) && Outcome(cfg, s0, st, id)
      ensures st.sends == old(st.sends) && st.servers == old(st.servers) && st.generation == old(st.generation)
      ensures id in st.queries && st.queries[id] == old(st.queries[id]).(timeout := st.queries[id].timeout)
    {
      ghost var s := st;
      assert QueryInv(cfg, s, id);
      var timeout := NextTimeout(st.queries[id], now);
      ListsThere(cfg, s, timeout.sec % TIMEOUT_TABLE_SIZE, st.queries[id].server);
      File(id, timeout);
      ResentWork(cfg, s0, s, st, id, timeout, exempt, now);
      RingOn(cfg, s0.queries[id], s.queries[id], st.queries[id]);
      OnItsWay(cfg, s0, st, id);
    }

    /** Sends the query to its server; if that fails, it moves on to the next one. */
    method SendQuery(id: Id, now: Time, ghost exempt: set<Id>, ghost s0: State)
      requires Working(s0, id, exempt, now)
      requires st.sends[id] <= st.queries[id].tryCount + Extra(st, id)
      modifies this`st
      ensures Inv(cfg, st, exempt - {id}) && Worked(s0, st, id, now) && Outcome(cfg, s0, st, id)
      ensures id in st.sends && st.sends[id] > old(st.sends[id]) && Forward(old(st), st, id)
      ensures SentVia(old(st), st, id)
      ensures id in st.queries && st.queries[id].usingTcp ==>
        var w := st.queries[id].server;
        && w < |st.servers| == |old(st).servers| && w < |st.queries[id].sentOn| && st.servers[w].tcpOpen
        && st.servers[w].queue == old(st).servers[w].queue + [SendRequest(Some(id), false)]
        && st.queries[id].sentOn[w] == st.servers[w].generation && st.servers[w].written == old(st).servers[w].written
      ensures id in st.queries && !st.queries[id].usingTcp ==>
        var w := st.queries[id].server;
        && w < |st.servers| == |old(st).servers| && st.servers[w].udpOpen
        && st.servers[w].written == old(st).servers[w].written + [id]
        && st.generation == old(st).generation && st.queries[id].sentOn == old(st).queries[id].sentOn
        && forall i :: 0 <= i < |st.servers| ==>
          && st.servers[i].queue == old(st).servers[i].queue && st.servers[i].tcpOpen == old(st).servers[i].tcpOpen
          && st.servers[i].generation == old(st).servers[i].generation
      ensures id in st.queries && st.queries[id].server != old(st.queries[id].server) ==> Landed(old(st), st, id)
      decreases Budget(cfg) - st.queries[id].tryCount, 1
    {
      hide SentVia, SendFailed, Landed, Inv, Worked, Forward, Onward;
      ghost var s := st;
      var ok := Attempt(id, now, exempt, s0);
      ghost var s1 := st;
      if !ok {
        NextServer(id, now, exempt, s0);
        ForwardFailed(s, s1, st, id);
        SameTransport(cfg, s0, s, st, id);
        FailedThenSent(s, s1, st, id);
        FailedThenLanded(s, s1, st, id);
        if id in st.queries {
          SentMeans(s, st, id);
        }
        return;
      }
      Arm(id, now, exempt, s0);
      ForwardSent(s, s1, st, id);
      SentThenFiled(s, s1, st, id);
      SentMeans(s, st, id);
    }

    /** One attempt to hand the packet to the transport; a server that fails is skipped from
        then on. */
    method Attempt(id: Id, now: Time, ghost exempt: set<Id>, ghost s0: State) returns (ok: bool)
      requires Working(s0, id, exempt, now)
      requires st.sends[id] <= st.queries[id].tryCount + Extra(st, id)
      modifies this`st
      ensures Working(s0, id, exempt, now) && st.sends[id] == old(st.sends[id]) + 1
      ensures Touched(old(st), st, id) && (ok ==> st.queries[id].skip == old(st.queries[id].skip))
      ensures !ok && cfg.nservers > 1 ==> !Placed(st.queries[id])
      ensures if ok then SentVia(old(st), st, id) else SendFailed(old(st), st, id)
    {
      hide SentVia, SendFailed, Inv;
      ghost var before, s := st.queries[id], st;
      CountSend(id, exempt, s0);
      ghost var s1 := st;
      ok := Transmit(id, exempt, s0);
      SameStart(s, s1, st, id);
      RingOn(cfg, s0.queries[id], before, st.queries[id]);
      if !ok {
        before := st.queries[id];
        ghost var s2 := st;
        SkipServer(id, st.queries[id].server, exempt, s0);
        RingOn(cfg, s0.queries[id], before, st.queries[id]);
        FailedThenSkips(s, s2, st, id);
      }
    }

    /** Keeps the books on how often a query was sent. */
    method CountSend(id: Id, ghost exempt: set<Id>, ghost s0: State)
      requires Inv(cfg, st, exempt) && Prepared(s0, st, id) && id in exempt
      requires st.sends[id] <= st.queries[id].tryCount + Extra(st, id)
      modifies this`st
      ensures Inv(cfg, st, exempt) && Prepared(s0, st, id) && st.lastProcessed == old(st.lastProcessed)
      ensures st.queries[id] == old(st.queries[id]) && st.sends[id] == old(st.sends[id]) + 1
      ensures st.servers == old(st.servers) && st.generation == old(st.generation)
    {
      ghost var s := st;
      assert QueryInv(cfg, s, id);
      st := st.(sends := st.sends[id := st.sends[id] + 1]);
      MapSame(s.queries, id);
      PreparedInv(cfg, s, st, id, exempt);
      PreparedTwice(s0, s, st, id);
    }

    /** Goes around the ring for a server the query may be sent to. */
    method FindServer(q: Query, servers: seq<Server>) returns (found: bool, r: Query)
      requires WellConfigured(cfg) && |servers| == |q.skip| == |q.sentOn| == cfg.nservers && q.tryCount < Budget(cfg)
      requires q.server < cfg.nservers
      ensures Searched(cfg, servers, q, r, found)
    {
      r := q;
      while r.tryCount + 1 < Budget(cfg)
        invariant r.tryCount < Budget(cfg) && r.server < cfg.nservers && Looking(cfg.nservers, servers, q, r)
        decreases Budget(cfg) - r.tryCount
      {
        ghost var before := r;
        r := r.(tryCount := r.tryCount + 1, server := (r.server + 1) % cfg.nservers);
        LookingOn(cfg.nservers, servers, q, before, r);
        if Usable(r, servers[r.server], r.server) {
          found := true;
          return;
        }
      }
      found := false;
    }

    /** Moves a query on to the next usable server, if there is one. */
    method Advance(id: Id, ghost exempt: set<Id>, ghost s0: State) returns (found: bool)
      requires Inv(cfg, st, exempt) && Prepared(s0, st, id) && id in exempt
      modifies this`st
      ensures Inv(cfg, st, exempt) && Prepared(s0, st, id) && st.lastProcessed == old(st.lastProcessed)
      ensures Ring(cfg, old(st.queries[id]), st.queries[id]) && st.sends[id] == old(st.sends[id])
      ensures found ==> st.queries[id].tryCount > old(st.queries[id].tryCount)
      ensures found ==> st.sends[id] <= st.queries[id].tryCount + Extra(st, id)
      ensures if found then st.queries[id].tryCount < Budget(cfg) else st.queries[id].tryCount + 1 == Budget(cfg)
      ensures found <==> AnyUsable(cfg, old(st.servers), old(st.queries[id]))
      ensures st.servers == old(st.servers) && st.queries[id].skip == old(st.queries[id].skip)
      ensures (found ==> Placed(st.queries[id]))
      ensures Advanced(old(st), st, id, found)
    {
      ghost var s := st;
      assert QueryInv(cfg, s, id);
      var q;
      found, q := FindServer(st.queries[id], st.servers);
      st := st.(queries := st.queries[id := q]);
      AdvancedInv(cfg, s0, s, st, id, exempt, found);
    }

    /** Moves a query on to the next usable server, or ends it when all tries are used. */
    method NextServer(id: Id, now: Time, ghost exempt: set<Id>, ghost s0: State)
      requires Working(s0, id, exempt, now)
      modifies this`st
      ensures Inv(cfg, st, exempt - {id}) && Worked(s0, st, id, now) && Outcome(cfg, s0, st, id)
      ensures id in st.sends && st.sends[id] >= old(st.sends[id])
      ensures (st.sends[id] > old(st.sends[id]) <==> AnyUsable(cfg, old(st.servers), old(st.queries[id])))
      ensures st.sends[id] > old(st.sends[id]) <==>
        exists k: nat :: 1 <= k && old(st.queries[id]).tryCount + k < cfg.nservers * cfg.tries &&
          MayTry(old(st.servers), old(st.queries[id]), cfg.nservers, k)
      ensures id in st.queries ==>
        var q, r := old(st.queries[id]), st.queries[id];
        && r.tryCount > q.tryCount && r.server == (q.server + (r.tryCount - q.tryCount)) % cfg.nservers
        && MayTry(old(st.servers), q, cfg.nservers, r.tryCount - q.tryCount)
      ensures id !in st.queries ==>
        |st.answered| >= 1 && st.answered[|st.answered|-1].id == id &&
        st.answered[|st.answered|-1].status == old(st.queries[id]).errorStatus
      ensures Onward(old(st), st, id) && SentVia(old(st), st, id) && Landed(old(st), st, id)
      decreases Budget(cfg) - st.queries[id].tryCount, 0
    {
      hide SentVia, Landed, FreeAt, Inv, Worked, Forward, Onward, Settled, Outcome, AnyUsable;
      ghost var s := st;
      NextStarts(cfg, s, id, exempt);
      var found := Advance(id, exempt, s0);
      RingTwice(cfg, s0.queries[id], s.queries[id], st.queries[id]);
      ghost var s1 := st;
      if found {
        SendQuery(id, now, exempt, s0);
        OnwardSent(s, s1, st, id);
        NextSent(s, s1, st, id);
      } else {
        EndQuery(id, st.queries[id].errorStatus, exempt, now, s0);
        GivenUp(cfg, s0, s1.queries[id], st, id, s1.answered, s1.queries[id].timeouts);
        OnwardEnded(s, s1, st, id);
        SettledServers(s1, st);
        EndedVia(s, st, id);
      }
      NextMeans(cfg, s0, s, st, id);
    }

    /** Detaches the query from the output queues, calls back, frees it, and closes idle
        sockets. */
    method EndQuery(id: Id, status: Status, ghost exempt: set<Id>, ghost now: Time, ghost s0: State)
      requires Inv(cfg, st, exempt) && Prepared(s0, st, id) && st.queries[id].timeouts == s0.queries[id].timeouts
      modifies this`st
      ensures Inv(cfg, st, exempt - {id}) && Worked(s0, st, id, now)
      ensures id !in st.queries && id in st.sends && st.sends[id] == old(st.sends[id])
      ensures st.answered == old(st.answered) +
        [Answer(id, status, old(st.queries[id].timeouts), old(st.queries[id].tryCount))]
      ensures Settled(old(st), st) && |st.servers| == |old(st).servers|
      ensures if !cfg.stayOpen && st.all == [] then forall i :: 0 <= i < |st.servers| ==> Closed(st.servers[i])
        else forall i :: 0 <= i < |st.servers| ==> st.servers[i] == Orphaned(old(st).servers[i], id, status)
    {
      hide ListsInv, RecordsInv, AnswersInv, SendsInv;
      ghost var s := st;
      DisownAll(id, status);
      ghost var s1 := st;
      FreeQuery(id, status);
      ghost var s2 := st;
      OrphanedGenerations(s, s2, id, status);
      if !cfg.stayOpen && st.all == [] {
        CloseAll();
      }
      QueuesCleared(cfg, s, s1, s2, st, id, status == Success);
      EndedWork(cfg, s0, s, st, Answer(id, status, s.queries[id].timeouts, s.queries[id].tryCount), exempt, now);
      EndSettled(cfg, s, st, id, status);
    }

    /** Calls back and takes the query out of every list. */
    method FreeQuery(id: Id, status: Status)
      requires id in st.queries
      modifies this`st
      ensures Ended(old(st), st, Answer(id, status, old(st.queries[id].timeouts), old(st.queries[id].tryCount)))
      ensures OnlyServersEqual(old(st), st)
    {
      st := st.(answered := st.answered + [Answer(id, status, st.queries[id].timeouts, st.queries[id].tryCount)]);
      st := st.(byQid := Unlink(st.byQid, id));
      st := st.(byTimeout := Unlink(st.byTimeout, id));
      st := st.(toServer := Unlink(st.toServer, id));
      st := st.(all := Without(st.all, id));
      st := st.(home := st.home - {id}, queries := st.queries - {id});
    }

    /** No output queue refers to the query any more; if it ends with an error, the
        connections it was queued on count as broken. */
    method DisownAll(id: Id, status: Status)
      requires |st.servers| == cfg.nservers
      modifies this`st
      ensures OnlyServers(old(st), st) && |st.servers| == cfg.nservers && st.generation == old(st).generation
      ensures forall i :: 0 <= i < |st.servers| ==> st.servers[i] == Orphaned(old(st).servers[i], id, status)
      ensures |old(st).servers| == |st.servers| && forall i :: 0 <= i < |st.servers| ==>
        var sv, r := old(st).servers[i], st.servers[i];
        && |r.queue| == |sv.queue|
        && (forall j :: 0 <= j < |r.queue| ==>
              r.queue[j] == if sv.queue[j].owner == Some(id) then SendRequest(None, status == Success) else sv.queue[j])
        && (r.isBroken <==> sv.isBroken || (status != Success && Owns(sv.queue, id)))
    {
      var i := 0;
      while i < cfg.nservers
        invariant 0 <= i <= cfg.nservers && |st.servers| == cfg.nservers && OnlyServers(old(st), st)
        invariant st.generation == old(st).generation
        invariant forall j :: 0 <= j < i ==> st.servers[j] == Orphaned(old(st).servers[j], id, status)
        invariant forall j :: i <= j < |st.servers| ==> st.servers[j] == old(st).servers[j]
      {
        DisownAt(i, id, status);
        i := i + 1;
      }
    }

    method DisownAt(i: nat, id: Id, status: Status)
      requires i < |st.servers|
      modifies this`st
      ensures st == old(st).(servers := old(st).servers[i := Orphaned(old(st).servers[i], id, status)])
    {
      var server := st.servers[i];
      if Owns(server.queue, id) && status != Success {
        server := server.(isBroken := true);
      }
      st := st.(servers := st.servers[i := server.(queue := Disown(server.queue, id, status == Success))]);
    }

    method CloseAll()
      requires |st.servers| == cfg.nservers
      modifies this`st
      ensures OnlyServers(old(st), st)
      ensures |st.servers| == cfg.nservers && forall j :: 0 <= j < |st.servers| ==> Closed(st.servers[j])
      ensures GenerationsInv(old(st)) ==> GenerationsInv(st)
    {
      var i := 0;
      while i < cfg.nservers
        invariant 0 <= i <= cfg.nservers && |st.servers| == cfg.nservers && OnlyServers(old(st), st)
        invariant forall j :: 0 <= j < i ==> Closed(st.servers[j])
        invariant GenerationsInv(old(st)) ==> GenerationsInv(st)
      {
        CloseSockets(i);
        i := i + 1;
      }
    }
  }

  /** The search for a server: only the query's position has changed, and no server
      passed so far is usable. */
  ghost predicate Looking(n: nat, servers: seq<Server>, q: Query, r: Query) {
    && n >= 1 && r.tryCount >= q.tryCount
    && r == q.(tryCount := r.tryCount, server := RingAt(n, q.server, r.tryCount - q.tryCount))
    && forall k: nat :: 1 <= k <= r.tryCount - q.tryCount ==> !UsableAhead(n, servers, q, k)
  }

  lemma LookingOn(n: nat, servers: seq<Server>, q: Query, r: Query, u: Query)
    requires Looking(n, servers, q, r)
    requires u == r.(tryCount := r.tryCount + 1, server := (r.server + 1) % n)
    ensures UsableAhead(n, servers, q, u.tryCount - q.tryCount) <==> UsableAhead(n, servers, u, 0)
    ensures u == q.(tryCount := u.tryCount, server := RingAt(n, q.server, u.tryCount - q.tryCount))
    ensures !UsableAhead(n, servers, u, 0) ==> Looking(n, servers, q, u)
  {
    assert u.server == RingAt(n, q.server, u.tryCount - q.tryCount);
  }

  lemma {:induction false} RingAtAdds(n: nat, start: nat, j: nat, k: nat)
    requires n >= 1
    ensures RingAt(n, RingAt(n, start, j), k) == RingAt(n, start, j + k)
  {
    hide RingAt;
    if k == 0 {
      RingStart(n, RingAt(n, start, j));
    } else {
      RingAtAdds(n, start, j, k - 1);
      RingStep(n, RingAt(n, start, j), k);
      RingStep(n, start, j + k);
    }
  }

  lemma RingStart(n: nat, start: nat)
    requires n >= 1
    ensures RingAt(n, start, 0) == start
  {
  }

  lemma RingStep(n: nat, start: nat, k: nat)
    requires n >= 1 && k > 0
    ensures RingAt(n, start, k) == (RingAt(n, start, k - 1) + 1) % n
  {
  }

  lemma RingTwice(c: Config, q: Query, r: Query, u: Query)
    requires Ring(c, q, r) && Ring(c, r, u)
    ensures Ring(c, q, u)
  {
    RingAtAdds(c.nservers, q.server, r.tryCount - q.tryCount, u.tryCount - r.tryCount);
  }

  lemma LaterThan(now: Time, ms: nat)
    requires now.usec < 1000000 && ms >= 1
    ensures var t := TimeAdd(now, ms); t.sec >= now.sec && !IsDue(now, t)
  {
  }

  lemma ListsThere(c: Config, s: State, b: nat, server: nat)
    requires ListsInv(c, s) && b < TIMEOUT_TABLE_SIZE && server < c.nservers
    ensures b in s.byTimeout && server in s.toServer
    ensures forall id :: b in Unlink(s.byTimeout, id) && server in Unlink(s.toServer, id)
  {
  }

  lemma ResentWork(c: Config, s0: State, s: State, t: State, id: Id, timeout: Time, exempt: set<Id>, now: Time)
    requires Inv(c, s, exempt) && Prepared(s0, s, id) && Resent(s, t, id, timeout)
    requires s.queries[id].timeouts == s0.queries[id].timeouts
    requires timeout.sec != 0 && timeout.sec >= s.lastProcessed && !IsDue(now, timeout)
    ensures Inv(c, t, exempt - {id}) && Worked(s0, t, id, now)
  {
    ResentInv(c, s, t, id, timeout, exempt, now);
    PreparedWorked(s0, s, t, id, now);
  }

  lemma EndedWork(c: Config, s0: State, s: State, t: State, a: Answer, exempt: set<Id>, now: Time)
    requires Inv(c, s, exempt) && Prepared(s0, s, a.id) && Ended(s, t, a) && QueuesInv(c, t)
    requires a.timeouts == s.queries[a.id].timeouts == s0.queries[a.id].timeouts
    ensures Inv(c, t, exempt - {a.id}) && Worked(s0, t, a.id, now)
  {
    EndedInv(c, s, t, a, exempt, now);
    PreparedWorked(s0, s, t, a.id, now);
  }

  ghost predicate OnlyServersEqual(s: State, t: State) {
    t.servers == s.servers && t.generation == s.generation
  }

  lemma PreparedRefl(c: Config, s: State, id: Id, exempt: set<Id>)
    requires Inv(c, s, exempt) && id in s.queries
    ensures Prepared(s, s, id)
  {
    assert QueryInv(c, s, id) && id in s.sends;
    MapSame(s.sends, id);
    MapSame(s.queries, id);
  }

  lemma PreparedThere(s0: State, s: State, id: Id)
    requires Prepared(s0, s, id)
    ensures id in s.queries && id in s.sends
  {
  }

  lemma QueryAt(c: Config, s: State, exempt: set<Id>, id: Id)
    requires Inv(c, s, exempt) && id in s.queries
    ensures QueryFits(c, s, id)
  {
    assert QueryInv(c, s, id);
  }

  /** What either transport has done to its server and to the query's record. */
  ghost predicate ByTransport(s: State, id: Id, server: Server, generation: nat, r: Query, ok: bool)
    requires id in s.queries && s.queries[id].server < |s.servers| && s.queries[id].server < |s.queries[id].sentOn|
  {
    var q := s.queries[id];
    var sv := s.servers[q.server];
    if q.usingTcp then
      if ok then
        && generation == (if sv.tcpOpen then s.generation else s.generation + 1)
        && server == sv.(tcpOpen := true, queue := sv.queue + [SendRequest(Some(id), false)],
                         generation := if sv.tcpOpen then sv.generation else s.generation + 1)
        && r == q.(sentOn := q.sentOn[q.server := server.generation])
      else server == sv && generation == s.generation && r == q
    else
      && generation == s.generation && r == q
      && server == if ok then sv.(udpOpen := true, written := sv.written + [id]) else sv.(udpOpen := server.udpOpen)
  }

  /** A packet handed over: the server and the query's record are entered in the channel. */
  lemma HandedOver(c: Config, s: State, t: State, id: Id, exempt: set<Id>, server: Server, generation: nat, r: Query,
                   ok: bool)
    requires Inv(c, s, exempt) && id in exempt && QueryFits(c, s, id) && id in s.sends
    requires ByTransport(s, id, server, generation, r, ok)
    requires t == s.(servers := s.servers[s.queries[id].server := server], generation := generation,
                     queries := s.queries[id := r])
    ensures Inv(c, t, exempt) && Prepared(s, t, id) && Touched(s, t, id)
    ensures SameTry(s.queries[id], t.queries[id]) && t.queries[id].skip == s.queries[id].skip
    ensures if ok then SentVia(s, t, id) else SendFailed(s, t, id)
  {
    hide Inv;
    QueryThere(c, s, exempt, id);
    MapSame(s.sends, id);
    HandedQueues(c, s, t, id, server, generation, r, ok);
    HandedRecord(c, s, t, id, server, generation, r, ok);
    PreparedInv(c, s, t, id, exempt);
  }

  lemma HandedQueues(c: Config, s: State, t: State, id: Id, server: Server, generation: nat, r: Query, ok: bool)
    requires QueuesInv(c, s) && QueryFits(c, s, id) && ByTransport(s, id, server, generation, r, ok)
    requires t == s.(servers := s.servers[s.queries[id].server := server], generation := generation,
                     queries := s.queries[id := r])
    ensures QueuesInv(c, t)
  {
    QueueGrown(c, s, t, id);
  }

  lemma HandedRecord(c: Config, s: State, t: State, id: Id, server: Server, generation: nat, r: Query, ok: bool)
    requires QueuesInv(c, s) && QueryFits(c, s, id) && QueryInv(c, s, id)
    requires ByTransport(s, id, server, generation, r, ok)
    requires t == s.(servers := s.servers[s.queries[id].server := server], generation := generation,
                     queries := s.queries[id := r])
    ensures QueryInv(c, t, id)
  {
  }

  /** Appending a request of the query itself keeps the queues in order. */
  lemma QueueGrown(c: Config, s: State, t: State, id: Id)
    requires QueuesInv(c, s) && id in s.queries && t.queries.Keys == s.queries.Keys && |t.servers| == |s.servers|
    requires forall i :: 0 <= i < |s.servers| ==>
      t.servers[i].queue == s.servers[i].queue ||
        t.servers[i].queue == s.servers[i].queue + [SendRequest(Some(id), false)]
    requires GenerationsInv(t)
    ensures QueuesInv(c, t)
  {
    forall i, j | 0 <= i < |t.servers| && 0 <= j < |t.servers[i].queue| && t.servers[i].queue[j].owner.Some?
      ensures t.servers[i].queue[j].owner.value in t.queries && !t.servers[i].queue[j].copied
    {
      if j < |s.servers[i].queue| {
        assert t.servers[i].queue[j] == s.servers[i].queue[j];
      }
    }
  }

  /** After a query has gone no output queue refers to it. */
  lemma QueuesCleared(c: Config, s: State, s1: State, s2: State, t: State, id: Id, copied: bool)
    requires QueuesInv(c, s) && |s1.servers| == c.nservers && s2.servers == s1.servers && |t.servers| == c.nservers
    requires forall i :: 0 <= i < c.nservers ==> s1.servers[i].queue == Disown(s.servers[i].queue, id, copied)
    requires forall i :: 0 <= i < c.nservers ==> t.servers[i].queue == s2.servers[i].queue || t.servers[i].queue == []
    requires t.queries.Keys == s.queries.Keys - {id} && GenerationsInv(t)
    ensures QueuesInv(c, t)
  {
    forall i, j | 0 <= i < |t.servers| && 0 <= j < |t.servers[i].queue| && t.servers[i].queue[j].owner.Some?
      ensures t.servers[i].queue[j].owner.value in t.queries && !t.servers[i].queue[j].copied
    {
      assert t.servers[i].queue[j] == s.servers[i].queue[j];
    }
  }
}
