/** Each primitive change of the channel keeps the invariant. */
module ResolverSteps {
  import opened QueryIndex
  import opened ResolverState

  lemma QidPlaceKept(queries: map<Id, Query>, id: Id, q: Query)
    requires id in queries && q.qid == queries[id].qid
    ensures QidPlace(queries[id := q]) == QidPlace(queries)
  {
  }

  lemma TimePlaceKept(queries: map<Id, Query>, id: Id, q: Query)
    requires id in queries && q.timeout == queries[id].timeout
    ensures TimePlace(queries[id := q]) == TimePlace(queries)
  {
  }

  lemma TimePlaceMoved(queries: map<Id, Query>, id: Id, q: Query)
    requires id in queries && q.timeout.sec != 0
    ensures TimePlace(queries[id := q]) == (TimePlace(queries) - {id})[id := q.timeout.sec % TIMEOUT_TABLE_SIZE]
  {
  }

  lemma PlacesDropped(queries: map<Id, Query>, id: Id)
    ensures QidPlace(queries - {id}) == QidPlace(queries) - {id}
    ensures TimePlace(queries - {id}) == TimePlace(queries) - {id}
  {
  }

  lemma PreparedInv(c: Config, s: State, t: State, id: Id, exempt: set<Id>)
    requires Inv(c, s, exempt) && Prepared(s, t, id) && id in exempt
    requires QueryInv(c, t, id) && QueuesInv(c, t)
    requires t.sends[id] <= Budget(c) + 2 && t.sends[id] <= t.queries[id].tryCount + 1 + Extra(t, id)
    requires id in t.switched ==> t.queries[id].usingTcp
    ensures Inv(c, t, exempt)
  {
    PreparedLists(c, s, t, id);
    PreparedRecords(c, s, t, id, exempt);
    PreparedSends(c, s, t, id);
    assert t.answered == s.answered && t.nextId == s.nextId && t.queries.Keys == s.queries.Keys;
  }

  lemma PreparedLists(c: Config, s: State, t: State, id: Id)
    requires ListsInv(c, s) && Prepared(s, t, id)
    ensures ListsInv(c, t)
  {
    QidPlaceKept(s.queries, id, t.queries[id]);
    TimePlaceKept(s.queries, id, t.queries[id]);
    assert t.queries.Keys == s.queries.Keys;
  }

  lemma PreparedRecords(c: Config, s: State, t: State, id: Id, exempt: set<Id>)
    requires RecordsInv(c, s, exempt) && Prepared(s, t, id) && id in exempt && QueryInv(c, t, id)
    ensures RecordsInv(c, t, exempt)
  {
    forall x | x in t.queries ensures QueryInv(c, t, x) {
      if x != id {
        assert QueryInv(c, s, x) && t.queries[x] == s.queries[x];
      }
    }
  }

  lemma PreparedSends(c: Config, s: State, t: State, id: Id)
    requires SendsInv(c, s) && Prepared(s, t, id)
    requires t.sends[id] <= Budget(c) + 2 && t.sends[id] <= t.queries[id].tryCount + 1 + Extra(t, id)
    requires id in t.switched ==> t.queries[id].usingTcp
    ensures SendsInv(c, t)
  {
    forall x | x in t.sends ensures t.sends[x] <= Budget(c) + 2 {
      assert x == id || t.sends[x] == s.sends[x];
    }
    forall x | x in t.queries && x in t.sends ensures t.sends[x] <= t.queries[x].tryCount + 1 + Extra(t, x) {
      assert x == id || (t.sends[x] == s.sends[x] && t.queries[x] == s.queries[x]);
    }
  }

  /** The end of a successful send: a new timeout and new places in two lists. */
  ghost predicate Resent(s: State, t: State, id: Id, timeout: Time) {
    && id in s.queries && s.queries[id].server in s.toServer && timeout.sec % TIMEOUT_TABLE_SIZE in s.byTimeout
    && t == s.(queries := s.queries[id := s.queries[id].(timeout := timeout)],
               byTimeout := Link(Unlink(s.byTimeout, id), timeout.sec % TIMEOUT_TABLE_SIZE, id),
               toServer := Link(Unlink(s.toServer, id), s.queries[id].server, id),
               home := s.home[id := s.queries[id].server])
  }

  lemma RelinkedIs(ix: Buckets, n: nat, place: map<Id, nat>, place': map<Id, nat>, b: nat, id: Id)
    requires Indexed(ix, n, place) && b < n && place' == (place - {id})[id := b]
    ensures b in ix && Indexed(Link(Unlink(ix, id), b, id), n, place')
    ensures Relinked(ix, Link(Unlink(ix, id), b, id), place', id)
  {
    UnlinkIndexed(ix, n, place, id);
    LinkIndexed(Unlink(ix, id), n, place - {id}, b, id);
  }

  lemma DroppedIs(ix: Buckets, n: nat, place: map<Id, nat>, place': map<Id, nat>, id: Id)
    requires Indexed(ix, n, place) && place' == place - {id}
    ensures Indexed(Unlink(ix, id), n, place') && Relinked(ix, Unlink(ix, id), place', id)
  {
    UnlinkIndexed(ix, n, place, id);
  }

  lemma ResentInv(c: Config, s: State, t: State, id: Id, timeout: Time, exempt: set<Id>, now: Time)
    requires Inv(c, s, exempt) && Resent(s, t, id, timeout)
    requires timeout.sec != 0 && timeout.sec >= s.lastProcessed && !IsDue(now, timeout)
    ensures Inv(c, t, exempt - {id}) && Worked(s, t, id, now)
  {
    hide QueryInv, AnswersInv, SendsInv, QueuesInv, RecordsInv, Listed, Relinked;
    ServerThere(c, s, id, exempt);
    ResentLists(c.nservers, s.queries, s.all, s.byQid, s.byTimeout, s.toServer, s.home, id, timeout);
    ResentRecords(c, s, t, id, timeout, exempt);
    ResentCalls(c, s, t, id, timeout);
    HomeMoved(s.home, id, s.queries[id].server);
    MapSame(s.sends, id);
  }

  lemma ServerThere(c: Config, s: State, id: Id, exempt: set<Id>)
    requires RecordsInv(c, s, exempt) && SendsInv(c, s) && id in s.queries
    ensures s.queries[id].server < c.nservers && id in s.sends
  {
    assert QueryInv(c, s, id);
  }

  lemma ResentLists(n: nat, queries: map<Id, Query>, all: seq<Id>, byQid: Buckets, byTimeout: Buckets,
                    toServer: Buckets,
                    home: map<Id, nat>, id: Id, timeout: Time)
    requires Listed(n, queries, all, byQid, byTimeout, toServer, home)
    requires id in queries && timeout.sec != 0 && queries[id].server < n
    ensures var q := queries[id].(timeout := timeout);
      var b := timeout.sec % TIMEOUT_TABLE_SIZE;
      var queries', home' := queries[id := q], home[id := q.server];
      && b in byTimeout && q.server in toServer
      && Listed(n, queries', all, byQid, Link(Unlink(byTimeout, id), b, id), Link(Unlink(toServer, id), q.server, id),
                home')
      && Relinked(byTimeout, Link(Unlink(byTimeout, id), b, id), TimePlace(queries'), id)
      && Relinked(toServer, Link(Unlink(toServer, id), q.server, id), home', id)
  {
    var q := queries[id].(timeout := timeout);
    var b := timeout.sec % TIMEOUT_TABLE_SIZE;
    QidPlaceKept(queries, id, q);
    TimePlaceMoved(queries, id, q);
    HomeMoved(home, id, q.server);
    RelinkedIs(byTimeout, TIMEOUT_TABLE_SIZE, TimePlace(queries), TimePlace(queries[id := q]), b, id);
    RelinkedIs(toServer, n + 1, home, home[id := q.server], q.server, id);
  }

  lemma HomeMoved(home: map<Id, nat>, id: Id, b: nat)
    ensures home[id := b] == (home - {id})[id := b] && home[id := b] - {id} == home - {id}
  {
  }

  lemma DropTwice(home: map<Id, nat>, id: Id)
    ensures (home - {id}) - {id} == home - {id}
  {
  }

  lemma MapSame<T>(m: map<Id, T>, id: Id)
    requires id in m
    ensures m[id := m[id]] == m
  {
  }

  lemma ResentRecords(c: Config, s: State, t: State, id: Id, timeout: Time, exempt: set<Id>)
    requires RecordsInv(c, s, exempt) && Resent(s, t, id, timeout)
    requires timeout.sec != 0 && timeout.sec >= s.lastProcessed
    ensures RecordsInv(c, t, exempt - {id})
  {
    forall x | x in t.queries ensures QueryInv(c, t, x) {
      assert QueryInv(c, s, x);
    }
  }

  lemma ResentCalls(c: Config, s: State, t: State, id: Id, timeout: Time)
    requires SendsInv(c, s) && AnswersInv(s) && QueuesInv(c, s) && Resent(s, t, id, timeout)
    ensures SendsInv(c, t) && AnswersInv(t) && QueuesInv(c, t)
  {
    assert t.queries.Keys == s.queries.Keys;
    assert t.sends == s.sends && t.servers == s.servers && t.answered == s.answered;
    forall x | x in t.queries && x in t.sends ensures t.sends[x] <= t.queries[x].tryCount + 1 + Extra(t, x) {
      assert s.sends[x] <= s.queries[x].tryCount + 1 + Extra(s, x);
    }
  }

  /** A query's end: its callback is made and it leaves every list. */
  ghost predicate Ended(s: State, t: State, a: Answer) {
    && a.id in s.queries
    && t == s.(queries := s.queries - {a.id}, all := Without(s.all, a.id),
               byQid := Unlink(s.byQid, a.id), byTimeout := Unlink(s.byTimeout, a.id), toServer :=
                 Unlink(s.toServer, a.id),
               home := s.home - {a.id}, answered := s.answered + [a], servers := t.servers, generation := t.generation)
    && t.generation >= s.generation
  }

  lemma AnswerAdded(answered: seq<Answer>, a: Answer)
    requires OneAnswerEach(answered) && !HasAnswer(answered, a.id)
    ensures OneAnswerEach(answered + [a])
    ensures forall x :: HasAnswer(answered + [a], x) <==> HasAnswer(answered, x) || x == a.id
  {
    var l := answered + [a];
    forall x ensures HasAnswer(l, x) <==> HasAnswer(answered, x) || x == a.id {
      if HasAnswer(answered, x) {
        var i :| 0 <= i < |answered| && answered[i].id == x;
        assert l[i].id == x;
      }
      if x == a.id {
        assert l[|answered|].id == x;
      }
    }
    forall i, j | 0 <= i < j < |l| ensures l[i].id != l[j].id {
      if j == |answered| {
        assert HasAnswer(answered, answered[i].id);
      }
    }
  }

  lemma EndedInv(c: Config, s: State, t: State, a: Answer, exempt: set<Id>, now: Time)
    requires Inv(c, s, exempt) && Ended(s, t, a) && QueuesInv(c, t) && a.timeouts == s.queries[a.id].timeouts
    ensures Inv(c, t, exempt - {a.id}) && Worked(s, t, a.id, now)
  {
    assert QueryInv(c, s, a.id);
    EndedLists(c, s, t, a);
    EndedRecords(c, s, t, a, exempt);
    EndedCalls(c, s, t, a);
    DropTwice(s.home, a.id);
    MapSame(s.sends, a.id);
  }

  lemma EndedLists(c: Config, s: State, t: State, a: Answer)
    requires ListsInv(c, s) && Ended(s, t, a)
    ensures ListsInv(c, t)
    ensures Relinked(s.byTimeout, t.byTimeout, TimePlace(t.queries), a.id)
    ensures Relinked(s.toServer, t.toServer, t.home, a.id)
  {
    var id := a.id;
    WithoutIs(s.all, id);
    PlacesDropped(s.queries, id);
    UnlinkIndexed(s.byQid, QID_TABLE_SIZE, QidPlace(s.queries), id);
    DroppedIs(s.byTimeout, TIMEOUT_TABLE_SIZE, TimePlace(s.queries), TimePlace(t.queries), id);
    DroppedIs(s.toServer, c.nservers + 1, s.home, t.home, id);
  }

  lemma EndedRecords(c: Config, s: State, t: State, a: Answer, exempt: set<Id>)
    requires RecordsInv(c, s, exempt) && Ended(s, t, a)
    ensures RecordsInv(c, t, exempt - {a.id})
  {
    forall x | x in t.queries ensures QueryInv(c, t, x) {
      assert QueryInv(c, s, x);
    }
  }

  lemma EndedCalls(c: Config, s: State, t: State, a: Answer)
    requires SendsInv(c, s) && AnswersInv(s) && Ended(s, t, a) && a.id < s.nextId
    ensures SendsInv(c, t) && AnswersInv(t)
  {
    AnswerAdded(s.answered, a);
    assert t.queries.Keys == s.queries.Keys - {a.id};
    forall x | x in t.queries && x in t.sends ensures t.sends[x] <= t.queries[x].tryCount + 1 + Extra(t, x) {
      assert s.sends[x] <= s.queries[x].tryCount + 1 + Extra(s, x);
    }
  }

  /** Nothing but the servers has changed. */
  ghost predicate OnlyServers(s: State, t: State) {
    t == s.(servers := t.servers, generation := t.generation) && t.generation >= s.generation
  }

  lemma OnlyServersInv(c: Config, s: State, t: State, exempt: set<Id>)
    requires Inv(c, s, exempt) && OnlyServers(s, t) && QueuesInv(c, t)
    ensures Inv(c, t, exempt)
  {
    forall x | x in t.queries ensures QueryInv(c, t, x) {
      assert QueryInv(c, s, x);
    }
  }
}
