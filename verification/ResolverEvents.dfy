/** The events a channel reacts to: new queries, timeouts, answers and server errors. */
module ResolverEvents {
  import opened Wrappers
  import opened QueryIndex
  import opened ResolverState
  import opened ResolverSteps
  import opened Resolver

  /** The list node behind `x`. */
  function After(list: seq<Id>, x: Id): Option<Id> {
    if list == [] then None
    else if list[0] == x then (if |list| == 1 then None else Some(list[1]))
    else After(list[1..], x)
  }

  function First(list: seq<Id>): Option<Id> {
    if list == [] then None else Some(list[0])
  }

  lemma {:induction false} AfterIs(pre: seq<Id>, rest: seq<Id>)
    requires NoDup(pre + rest) && rest != []
    ensures After(pre + rest, rest[0]) == First(rest[1..])
    decreases pre
  {
    var l := pre + rest;
    if pre != [] {
      assert l[0] != l[|pre|];
      assert l[1..] == pre[1..] + rest;
      forall i, j | 0 <= i < j < |l[1..]| ensures l[1..][i] != l[1..][j] {
        assert l[i+1] != l[j+1];
      }
      AfterIs(pre[1..], rest);
    } else {
      assert l == rest;
    }
  }

  lemma OnlyOnce(pre: seq<Id>, x: Id, post: seq<Id>)
    requires NoDup(pre + [x] + post)
    ensures x !in pre && x !in post
  {
    var l := pre + [x] + post;
    assert l[|pre|] == x;
    forall i | 0 <= i < |pre| ensures pre[i] != x {
      assert l[i] == pre[i];
    }
    forall i | 0 <= i < |post| ensures post[i] != x {
      assert l[|pre| + 1 + i] == post[i];
    }
  }

  lemma WithoutSnoc(pre: seq<Id>, x: Id)
    requires x !in pre
    ensures Without(pre + [x], x) == pre
  {
    WithoutIs(pre, x);
    assert (pre + [x])[..|pre|] == pre;
  }

  lemma WithoutAt(pre: seq<Id>, x: Id, post: seq<Id>)
    requires x !in pre && x !in post
    ensures Without(pre + [x] + post, x) == pre + post
  {
    WithoutLast(pre + [x], post, x);
    WithoutSnoc(pre, x);
    WithoutIs(post, x);
  }

  /* ---- Timeouts ---- */

  ghost function DueQueries(s: State, now: Time): set<Id> {
    set x | x in s.queries && IsDue(now, s.queries[x].timeout)
  }

  /** `x` was left alone since `s`. */
  ghost predicate LeftAlone(s: State, t: State, x: Id)
    requires x in s.queries
  {
    && x in t.queries && t.queries[x] == s.queries[x]
    && x in s.sends && x in t.sends && t.sends[x] == s.sends[x]
  }

  /** `x` was due, its timeout was counted once, and it was sent again in a later try or
      answered. */
  ghost predicate MovedOn(s: State, t: State, x: Id, now: Time)
    requires x in s.queries
  {
    && IsDue(now, s.queries[x].timeout)
    && if x in t.queries then
         && !IsDue(now, t.queries[x].timeout) && t.queries[x].timeouts == s.queries[x].timeouts + 1
         && t.queries[x].tryCount > s.queries[x].tryCount
         && t.queries[x].errorStatus == TimedOut
         && x in s.sends && x in t.sends && t.sends[x] > s.sends[x]
       else exists i ::
         0 <= i < |t.answered| && t.answered[i].id == x && t.answered[i].timeouts == s.queries[x].timeouts + 1 &&
         t.answered[i].status == TimedOut
  }

  ghost predicate TimeoutsOnly(s: State, t: State, now: Time) {
    && t.queries.Keys <= s.queries.Keys && s.answered <= t.answered
    && t.nextId == s.nextId && t.lastProcessed == s.lastProcessed && t.ednsOn == s.ednsOn
    && forall x :: x in s.queries ==> LeftAlone(s, t, x) || MovedOn(s, t, x, now)
  }

  lemma TimeoutsRefl(c: Config, s: State, now: Time)
    requires Inv(c, s, {})
    ensures TimeoutsOnly(s, s, now)
  {
    forall x | x in s.queries ensures LeftAlone(s, s, x) {
      assert QueryInv(c, s, x);
    }
  }

  /** One timed-out query has been dealt with. */
  lemma TimeoutsStep(c: Config, s: State, t: State, t1: State, u: State, id: Id, now: Time)
    requires TimeoutsOnly(s, t, now) && id in t.queries && IsDue(now, t.queries[id].timeout)
    requires CountedIn(t, t1, id) && Worked(t1, u, id, now) && Onward(t1, u, id) && Outcome(c, t1, u, id)
    ensures TimeoutsOnly(s, u, now)
    ensures DueQueries(u, now) == DueQueries(t, now) - {id}
  {
    hide Worked, Onward, Outcome;
    TimeoutDone(c, t1, u, id, now);
    OthersOn(t, t1, u, id, now);
    assert LeftAlone(s, t, id) || MovedOn(s, t, id, now);
    forall x | x in s.queries ensures LeftAlone(s, u, x) || MovedOn(s, u, x, now) {
      if x == id {
        MovedNow(c, s, t1, u, id, now);
      } else if LeftAlone(s, t, x) {
        assert LeftAlone(s, u, x);
      } else {
        StillMovedOn(s, t, u, x, now);
      }
    }
  }

  lemma MovedNow(c: Config, s: State, t1: State, u: State, id: Id, now: Time)
    requires id in s.queries && IsDue(now, s.queries[id].timeout) && id in s.sends && id in t1.queries && id in t1.sends
    requires t1.queries[id].timeouts == s.queries[id].timeouts + 1 && t1.queries[id].tryCount == s.queries[id].tryCount
    requires t1.queries[id].errorStatus == TimedOut
    requires t1.sends[id] == s.sends[id] && Worked(t1, u, id, now) && Onward(t1, u, id) && Outcome(c, t1, u, id)
    ensures MovedOn(s, u, id, now)
  {
    TimeoutDone(c, t1, u, id, now);
  }

  /** What counting a timeout and moving on leave alone. */
  lemma OthersOn(t: State, t1: State, u: State, id: Id, now: Time)
    requires CountedIn(t, t1, id) && Worked(t1, u, id, now)
    ensures u.queries.Keys <= t.queries.Keys && t.answered <= u.answered && t.sends.Keys <= u.sends.Keys
    ensures u.nextId == t.nextId && u.lastProcessed == t.lastProcessed && u.ednsOn == t.ednsOn
    ensures forall x :: x in t.queries && x != id ==> x in u.queries && u.queries[x] == t.queries[x]
    ensures forall x :: x in t.sends && x != id ==> u.sends[x] == t.sends[x]
  {
  }

  /** A query that has moved on is armed anew or answered. */
  lemma TimeoutDone(c: Config, s: State, t: State, id: Id, now: Time)
    requires Worked(s, t, id, now) && Onward(s, t, id) && Outcome(c, s, t, id)
    ensures id in t.queries ==> !IsDue(now, t.queries[id].timeout) && t.queries[id].tryCount > s.queries[id].tryCount
    ensures id in t.queries ==> t.sends[id] > s.sends[id]
    ensures id in t.queries ==> t.queries[id].errorStatus == s.queries[id].errorStatus
    ensures id !in t.queries ==>
      exists i :: 0 <= i < |t.answered| && t.answered[i].id == id && t.answered[i].timeouts == s.queries[id].timeouts &&
        t.answered[i].status == s.queries[id].errorStatus
  {
    if id !in t.queries {
      assert t.answered[|s.answered|].id == id;
    }
  }

  lemma StillMovedOn(s: State, t: State, u: State, x: Id, now: Time)
    requires x in s.queries && MovedOn(s, t, x, now) && t.answered <= u.answered
    requires x in t.queries ==>
      x in u.queries && u.queries[x] == t.queries[x] && x in u.sends && (x in t.sends ==> u.sends[x] == t.sends[x])
    requires x !in t.queries ==> x !in u.queries
    ensures MovedOn(s, u, x, now)
  {
    if x !in t.queries {
      var i :| 0 <= i < |t.answered| && t.answered[i].id == x && t.answered[i].timeouts == s.queries[x].timeouts + 1 &&
        t.answered[i].status == TimedOut;
      assert u.answered[i] == t.answered[i];
    }
  }

  ghost predicate AllSent(s: State) {
    forall x :: x in s.queries ==> s.queries[x].timeout.sec != 0
  }

  ghost predicate Clock(s: State, now: Time) {
    now.usec < 1000000 && now.sec >= 1 && now.sec >= s.lastProcessed
  }

  lemma Exempted(c: Config, s: State, id: Id)
    requires Inv(c, s, {}) && id in s.queries
    ensures Inv(c, s, {id}) && id in s.sends && QueryInv(c, s, id)
  {
    assert QueryInv(c, s, id);
  }

  lemma NoneExempt(c: Config, s: State, id: Id)
    requires Inv(c, s, {id} - {id})
    ensures Inv(c, s, {})
  {
    assert {id} - {id} == {};
  }

  /** The query's record once a timeout has been counted. */
  function Counted(q: Query): Query {
    q.(errorStatus := TimedOut, timeouts := q.timeouts + 1)
  }

  lemma CountedInv(c: Config, s: State, id: Id)
    requires Inv(c, s, {}) && id in s.queries
    ensures var s1 := s.(queries := s.queries[id := Counted(s.queries[id])]);
      Inv(c, s1, {id}) && Prepared(s, s1, id) && Prepared(s1, s1, id) && Ring(c, s1.queries[id], s1.queries[id])
  {
    var s1 := s.(queries := s.queries[id := Counted(s.queries[id])]);
    Exempted(c, s, id);
    MapSame(s.sends, id);
    PreparedInv(c, s, s1, id, {id});
    PreparedRefl(c, s1, id, {id});
    StartsThere(c, s1.queries[id]);
  }

  lemma StartsThere(c: Config, q: Query)
    requires c.nservers >= 1
    ensures Ring(c, q, q)
  {
  }

  ghost predicate CountedIn(s: State, s1: State, id: Id) {
    && Prepared(s, s1, id) && s1.queries[id].timeouts == s.queries[id].timeouts + 1
    && s1.queries[id].tryCount == s.queries[id].tryCount && s1.sends == s.sends
    && s1.queries[id].errorStatus == TimedOut
  }

  lemma StillSent(c: Config, s: State, s1: State, t: State, id: Id, now: Time)
    requires AllSent(s) && CountedIn(s, s1, id) && Worked(s1, t, id, now)
    ensures AllSent(t)
  {
    assert forall x :: x in t.queries && x != id ==> t.queries[x] == s.queries[x];
  }

  lemma CountedVia(s: State, s1: State, t: State, id: Id)
    requires id in s.queries && s1 == s.(queries := s.queries[id := Counted(s.queries[id])])
    ensures SentVia(s1, t, id) ==> SentVia(s, t, id)
    ensures Landed(s1, t, id) ==> Landed(s, t, id)
  {
  }

  lemma CountedStatus(c: Config, s1: State, t: State, id: Id, now: Time)
    requires Worked(s1, t, id, now) && Outcome(c, s1, t, id) && s1.queries[id].errorStatus == TimedOut
    ensures id !in t.queries ==>
      |t.answered| == |s1.answered| + 1 && t.answered[|s1.answered|].id == id &&
      t.answered[|s1.answered|].status == TimedOut && t.answered[|s1.answered|].timeouts == s1.queries[id].timeouts
  {
  }

  /** A query moves on outside of work on a stolen list. */
  method NextAlone(ch: Channel, id: Id, now: Time, ghost s: State)
    requires ch.Working(s, id, {id}, now)
    modifies ch`st
    ensures Inv(ch.cfg, ch.st, {}) && Worked(s, ch.st, id, now) && Onward(old(ch.st), ch.st, id)
    ensures Outcome(ch.cfg, s, ch.st, id) && SentVia(old(ch.st), ch.st, id) && Landed(old(ch.st), ch.st, id)
  {
    ch.NextServer(id, now, {id}, s);
    NoneExempt(ch.cfg, ch.st, id);
  }

  /** A timed-out query: the timeout is counted and the query moves on. */
  method TimeOut(ch: Channel, id: Id, now: Time) returns (ghost s1: State)
    requires Inv(ch.cfg, ch.st, {}) && AllSent(ch.st) && Clock(ch.st, now) && id in ch.st.queries
    modifies ch`st
    ensures Inv(ch.cfg, ch.st, {}) && AllSent(ch.st) && Clock(ch.st, now)
    ensures CountedIn(old(ch.st), s1, id) && Worked(s1, ch.st, id, now) && Onward(s1, ch.st, id)
    ensures Outcome(ch.cfg, s1, ch.st, id) && SentVia(old(ch.st), ch.st, id) && Landed(old(ch.st), ch.st, id)
    ensures id !in ch.st.queries ==>
      |ch.st.answered| == |old(ch.st.answered)| + 1 &&
      ch.st.answered[|old(ch.st.answered)|] ==
        Answer(id, TimedOut, old(ch.st.queries[id].timeouts) + 1, ch.st.answered[|old(ch.st.answered)|].tries)
  {
    ghost var s := ch.st;
    CountedInv(ch.cfg, s, id);
    ch.st := ch.st.(queries := ch.st.queries[id := Counted(ch.st.queries[id])]);
    s1 := ch.st;
    NextAlone(ch, id, now, s1);
    CountedVia(s, s1, ch.st, id);
    CountedStatus(ch.cfg, s1, ch.st, id, now);
    StillSent(ch.cfg, s, s1, ch.st, id, now);
  }

  /** Walks one list of the timing wheel.  The next node is read before the query is
      touched, since that may relink it at the tail or free it. */
  method ProcessBucket(ch: Channel, b: nat, now: Time, ghost s0: State)
    requires Inv(ch.cfg, ch.st, {}) && AllSent(ch.st) && Clock(ch.st, now) && b < TIMEOUT_TABLE_SIZE
    requires TimeoutsOnly(s0, ch.st, now)
    modifies ch`st
    ensures Inv(ch.cfg, ch.st, {}) && AllSent(ch.st) && Clock(ch.st, now)
    ensures TimeoutsOnly(s0, ch.st, now) && DueQueries(ch.st, now) <= DueQueries(old(ch.st), now)
    ensures b in ch.st.byTimeout && forall x :: x in ch.st.byTimeout[b] ==> x !in DueQueries(ch.st, now)
  {
    BucketThere(ch.cfg, ch.st, b);
    var node := First(ch.st.byTimeout[b]);
    ghost var pre: seq<Id>, rest := [], ch.st.byTimeout[b];
    assert pre + rest == rest;
    while node.Some?
      invariant Inv(ch.cfg, ch.st, {}) && AllSent(ch.st) && Clock(ch.st, now)
      invariant TimeoutsOnly(s0, ch.st, now) && DueQueries(ch.st, now) <= DueQueries(old(ch.st), now)
      invariant AtNode(ch.st, b, node, pre, rest, now)
      decreases DueQueries(ch.st, now), |rest|
    {
      node, pre, rest := VisitNode(ch, b, node.value, now, s0, pre, rest);
    }
    assert pre + rest == pre;
  }

  method VisitNode(ch: Channel, b: nat, id: Id, now: Time, ghost s0: State, ghost pre: seq<Id>, ghost rest: seq<Id>)
    returns (next: Option<Id>, ghost pre': seq<Id>, ghost rest': seq<Id>)
    requires Inv(ch.cfg, ch.st, {}) && AllSent(ch.st) && Clock(ch.st, now)
    requires TimeoutsOnly(s0, ch.st, now) && AtNode(ch.st, b, Some(id), pre, rest, now)
    modifies ch`st
    ensures Inv(ch.cfg, ch.st, {}) && AllSent(ch.st) && Clock(ch.st, now)
    ensures TimeoutsOnly(s0, ch.st, now) && AtNode(ch.st, b, next, pre', rest', now)
    ensures DueQueries(ch.st, now) < DueQueries(old(ch.st), now) || (ch.st == old(ch.st) && |rest'| < |rest|)
  {
    hide Inv, TimeoutsOnly;
    ghost var s := ch.st;
    ServerLists(ch.cfg, s, {});
    AtNodeFacts(ch.cfg, ch.st, b, Some(id), pre, rest, now);
    next := After(ch.st.byTimeout[b], id);
    if ch.st.queries[id].timeout.sec != 0 && IsDue(now, ch.st.queries[id].timeout) {
      ghost var s1 := TimeOut(ch, id, now);
      pre', rest' := Visited(ch.cfg, s0, s, s1, ch.st, b, pre, rest, now);
    } else {
      pre', rest' := pre + [id], rest[1..];
      Shifted(pre, rest);
    }
  }

  lemma BucketThere(c: Config, s: State, b: nat)
    requires ListsInv(c, s) && b < TIMEOUT_TABLE_SIZE
    ensures b in s.byTimeout
  {
  }

  /** The cursor: what lies before it is not due. */
  ghost predicate AtNode(s: State, b: nat, node: Option<Id>, pre: seq<Id>, rest: seq<Id>, now: Time) {
    && b in s.byTimeout && s.byTimeout[b] == pre + rest && node == First(rest)
    && forall x :: x in pre ==> x !in DueQueries(s, now)
  }

  lemma AtNodeFacts(c: Config, s: State, b: nat, node: Option<Id>, pre: seq<Id>, rest: seq<Id>, now: Time)
    requires ListsInv(c, s) && AtNode(s, b, node, pre, rest, now) && rest != []
    ensures rest[0] in s.queries && NoDup(s.byTimeout[b])
    ensures After(s.byTimeout[b], rest[0]) == First(rest[1..])
    ensures rest[0] !in pre && rest[0] !in rest[1..]
  {
    assert rest[0] in s.byTimeout[b];
    AfterIs(pre, rest);
    assert pre + rest == pre + [rest[0]] + rest[1..];
    OnlyOnce(pre, rest[0], rest[1..]);
  }

  /** Where the cursor stands after the query under it has been relinked or freed. */
  lemma Relinking(pre: seq<Id>, post: seq<Id>, tail: seq<Id>) returns (pre': seq<Id>, rest': seq<Id>)
    ensures (pre + post) + tail == pre' + rest' && First(rest') == First(post)
    ensures forall x :: x in pre' ==> x in pre || x in tail
  {
    if post == [] {
      pre', rest' := pre + tail, [];
    } else {
      pre', rest' := pre, post + tail;
    }
    assert (pre + post) + tail == pre' + rest';
  }

  lemma Visited(c: Config, s0: State, s: State, s1: State, t: State, b: nat, pre: seq<Id>, rest: seq<Id>, now: Time)
    returns (pre': seq<Id>, rest': seq<Id>)
    requires TimeoutsOnly(s0, s, now) && rest != [] && AtNode(s, b, First(rest), pre, rest, now)
    requires rest[0] !in pre && rest[0] !in rest[1..]
    requires CountedIn(s, s1, rest[0]) && Onward(s1, t, rest[0]) && Outcome(c, s1, t, rest[0])
    requires IsDue(now, s.queries[rest[0]].timeout) && Worked(s1, t, rest[0], now)
    ensures TimeoutsOnly(s0, t, now) && AtNode(t, b, First(rest[1..]), pre', rest', now)
    ensures DueQueries(t, now) < DueQueries(s, now)
  {
    var id := rest[0];
    TimeoutsStep(c, s0, s, s1, t, id, now);
    var tail := LinkedAt(TimePlace(t.queries), id, b);
    WithoutHead(pre, rest);
    assert t.byTimeout[b] == Without(s.byTimeout[b], id) + tail;
    pre', rest' := Relinking(pre, rest[1..], tail);
    assert id in DueQueries(s, now) && id !in DueQueries(t, now);
  }

  lemma Shifted(pre: seq<Id>, rest: seq<Id>)
    requires rest != []
    ensures pre + rest == (pre + [rest[0]]) + rest[1..]
  {
  }

  lemma WithoutHead(pre: seq<Id>, rest: seq<Id>)
    requires rest != [] && rest[0] !in pre && rest[0] !in rest[1..]
    ensures Without(pre + rest, rest[0]) == pre + rest[1..]
  {
    WithoutAt(pre, rest[0], rest[1..]);
    assert pre + rest == pre + [rest[0]] + rest[1..];
  }

  /** With its list walked, the second `t` is over: what is still due is due later. */
  lemma SecondDone(c: Config, s0: State, s: State, u: State, t: nat, now: Time)
    requires ListsInv(c, u) && AllSent(u) && TimeoutsOnly(s0, s, now) && TimeoutsOnly(s0, u, now)
    requires DueQueries(u, now) <= DueQueries(s, now)
    requires forall x :: x in DueQueries(s, now) ==> s.queries[x].timeout.sec >= t
    requires var b := t % TIMEOUT_TABLE_SIZE;
      b in u.byTimeout && forall x :: x in u.byTimeout[b] ==> x !in DueQueries(u, now)
    ensures forall x :: x in DueQueries(u, now) ==> u.queries[x].timeout.sec >= t + 1
  {
    hide ListsInv;
    forall x | x in DueQueries(u, now) ensures u.queries[x].timeout.sec >= t + 1 {
      assert x in s0.queries && LeftAlone(s0, u, x);
      assert x in DueQueries(s, now) && LeftAlone(s0, s, x);
      InItsList(c, u, x);
    }
  }

  lemma InItsList(c: Config, s: State, x: Id)
    requires ListsInv(c, s) && x in s.queries && s.queries[x].timeout.sec != 0
    ensures var k := s.queries[x].timeout.sec % TIMEOUT_TABLE_SIZE; k in s.byTimeout && x in s.byTimeout[k]
  {
  }

  lemma NothingDue(s: State, now: Time)
    requires forall x :: x in DueQueries(s, now) ==> s.queries[x].timeout.sec >= now.sec + 1
    ensures DueQueries(s, now) == {}
  {
  }

  lemma TimeoutsFinish(c: Config, s: State, now: Time)
    requires Inv(c, s, {}) && DueQueries(s, now) == {}
    ensures Inv(c, s.(lastProcessed := now.sec), {})
    ensures DueQueries(s.(lastProcessed := now.sec), now) == {}
  {
    hide QueryInv, RecordsInv, HasAnswer, OneAnswerEach, Listed, Budget;
    RecordsLater(c, s, now);
  }

  lemma RecordsLater(c: Config, s: State, now: Time)
    requires RecordsInv(c, s, {}) && DueQueries(s, now) == {}
    ensures RecordsInv(c, s.(lastProcessed := now.sec), {})
  {
    var t := s.(lastProcessed := now.sec);
    forall x | x in t.queries ensures QueryInv(c, t, x) {
      assert QueryInv(c, s, x);
      assert x !in DueQueries(s, now);
    }
  }

  /** The queries filed under the second `t` and the seconds that share its list. */
  method ProcessSecond(ch: Channel, t: nat, now: Time, ghost s0: State)
    requires Inv(ch.cfg, ch.st, {}) && AllSent(ch.st) && Clock(ch.st, now) && TimeoutsOnly(s0, ch.st, now)
    requires forall x :: x in DueQueries(ch.st, now) ==> ch.st.queries[x].timeout.sec >= t
    modifies ch`st
    ensures Inv(ch.cfg, ch.st, {}) && AllSent(ch.st) && Clock(ch.st, now) && TimeoutsOnly(s0, ch.st, now)
    ensures forall x :: x in DueQueries(ch.st, now) ==> ch.st.queries[x].timeout.sec >= t + 1
  {
    ghost var s := ch.st;
    ProcessBucket(ch, t % TIMEOUT_TABLE_SIZE, now, s0);
    SecondDone(ch.cfg, s0, s, ch.st, t, now);
  }

  /** Everything whose time has come by `now` moves on; nothing else is touched. */
  method ProcessTimeouts(ch: Channel, now: Time)
    requires ch.Valid() && Clock(ch.st, now)
    modifies ch`st
    ensures ch.Valid() && ch.st.lastProcessed == now.sec
    ensures DueQueries(ch.st, now) == {}
    ensures TimeoutsOnly(old(ch.st), ch.st.(lastProcessed := old(ch.st.lastProcessed)), now)
  {
    ghost var s0 := ch.st;
    TimeoutsRefl(ch.cfg, s0, now);
    var t := ch.st.lastProcessed;
    while t <= now.sec
      invariant s0.lastProcessed <= t <= now.sec + 1
      invariant Inv(ch.cfg, ch.st, {}) && AllSent(ch.st) && Clock(ch.st, now)
      invariant TimeoutsOnly(s0, ch.st, now)
      invariant forall x :: x in DueQueries(ch.st, now) ==> ch.st.queries[x].timeout.sec >= t
    {
      ProcessSecond(ch, t, now, s0);
      t := t + 1;
    }
    NothingDue(ch.st, now);
    TimeoutsFinish(ch.cfg, ch.st, now);
    ch.st := ch.st.(lastProcessed := now.sec);
  }

  /** The timeouts of a query never outnumber its tries, so that a query whose tries are all
      used up is answered when it is due once more. */
  ghost predicate Timely(s: State) {
    forall x :: x in s.queries ==> s.queries[x].timeouts <= s.queries[x].tryCount
  }

  lemma TimelyAfterTimeouts(s: State, t: State, now: Time)
    requires Timely(s) && TimeoutsOnly(s, t, now)
    ensures Timely(t)
  {
    forall x | x in t.queries ensures t.queries[x].timeouts <= t.queries[x].tryCount {
      assert x in s.queries && (LeftAlone(s, t, x) || MovedOn(s, t, x, now));
    }
  }

  lemma StillCounting(c: Config, s: State, t: State, x: Id, now: Time)
    requires Inv(c, t, {}) && Timely(t) && TimeoutsOnly(s, t.(lastProcessed := s.lastProcessed), now)
    requires x in s.queries && IsDue(now, s.queries[x].timeout) && DueQueries(t, now) == {} && x in t.queries
    ensures s.queries[x].timeouts + 1 < c.nservers * c.tries
  {
    BudgetIs(c);
    var t' := t.(lastProcessed := s.lastProcessed);
    assert x !in DueQueries(t, now);
    assert LeftAlone(s, t', x) || MovedOn(s, t', x, now);
    assert QueryInv(c, t, x);
  }

  /** A due query that had timed out one time less than there are tries is answered. */
  lemma LastTimeout(c: Config, s: State, t: State, x: Id, now: Time)
    requires Inv(c, t, {}) && Timely(t) && TimeoutsOnly(s, t.(lastProcessed := s.lastProcessed), now)
    requires x in s.queries && IsDue(now, s.queries[x].timeout) && DueQueries(t, now) == {}
    requires s.queries[x].timeouts + 1 >= c.nservers * c.tries
    ensures x !in t.queries && HasAnswer(t.answered, x)
  {
    if x in t.queries {
      StillCounting(c, s, t, x, now);
    } else {
      assert MovedOn(s, t.(lastProcessed := s.lastProcessed), x, now);
    }
  }

  /* ---- Server errors ---- */

  /** No query is in the middle of being stolen from a server. */
  lemma NoneStolen(c: Config, s: State)
    requires Inv(c, s, {})
    ensures c.nservers in s.toServer && s.toServer[c.nservers] == []
  {
    forall x | x in s.home ensures s.home[x] != c.nservers {
      assert x in TimePlace(s.queries) && QueryInv(c, s, x);
    }
    NoMember(s.toServer[c.nservers]);
  }

  lemma NoMember(l: seq<Id>)
    ensures l == [] <==> forall x :: x !in l
  {
    if l != [] {
      assert l[0] in l;
    }
  }

  /** Takes over the whole list of a server, leaving that list empty. */
  ghost predicate Stolen(c: Config, s: State, t: State, server: nat) {
    && server < c.nservers && server in s.toServer && c.nservers in s.toServer
    && t == s.(toServer := s.toServer[c.nservers := s.toServer[server]][server := []],
               home := map x | x in s.home :: if s.home[x] == server then c.nservers else s.home[x])
  }

  ghost function StolenSet(c: Config, s: State): set<Id> {
    set x | x in s.home && s.home[x] == c.nservers
  }

  lemma StolenInv(c: Config, s: State, t: State, server: nat)
    requires Inv(c, s, {}) && Stolen(c, s, t, server)
    ensures Inv(c, t, StolenSet(c, t))
    ensures forall x :: x in t.toServer[c.nservers] ==> x in t.queries && t.queries[x].server == server
    ensures DueSame(s, t)
  {
    NoneStolen(c, s);
    StolenLists(c, s, t, server);
    StolenRecords(c, s, t, server);
    StolenMembers(c, s, t, server);
  }

  lemma StolenRecords(c: Config, s: State, t: State, server: nat)
    requires RecordsInv(c, s, {}) && AnswersInv(s) && SendsInv(c, s) && QueuesInv(c, s) && Stolen(c, s, t, server)
    ensures RecordsInv(c, t, StolenSet(c, t)) && AnswersInv(t) && SendsInv(c, t) && QueuesInv(c, t)
  {
    hide HasAnswer, OneAnswerEach, Budget;
    forall x | x in t.queries ensures QueryInv(c, t, x) {
      assert QueryInv(c, s, x);
    }
  }

  lemma StolenMembers(c: Config, s: State, t: State, server: nat)
    requires ListsInv(c, s) && RecordsInv(c, s, {}) && Stolen(c, s, t, server)
    ensures forall x :: x in t.toServer[c.nservers] ==> x in t.queries && t.queries[x].server == server
  {
    forall x | x in t.toServer[c.nservers] ensures x in t.queries && t.queries[x].server == server {
      assert x in s.toServer[server];
      assert x in s.home && x in TimePlace(s.queries);
    }
  }

  ghost predicate DueSame(s: State, t: State) {
    && t.queries == s.queries && t.answered == s.answered && t.nextId == s.nextId && t.lastProcessed == s.lastProcessed
    && t.ednsOn == s.ednsOn && t.sends == s.sends
  }

  lemma StolenLists(c: Config, s: State, t: State, server: nat)
    requires ListsInv(c, s) && Stolen(c, s, t, server) && s.toServer[c.nservers] == []
    ensures ListsInv(c, t)
  {
    forall b: nat, x: Id | b in t.toServer ensures x in t.toServer[b] <==> x in t.home && t.home[x] == b {
      assert x in s.toServer[server] <==> x in s.home && s.home[x] == server;
      assert x in s.toServer[b] <==> x in s.home && s.home[x] == b;
    }
  }

  /** The queries stolen so far have been moved on; the others are as they were. */
  ghost predicate ErrorsOnly(s: State, t: State) {
    && t.queries.Keys <= s.queries.Keys && s.answered <= t.answered
    && t.nextId == s.nextId && t.lastProcessed == s.lastProcessed && t.ednsOn == s.ednsOn
  }

  /** What happened to a query that was at server `w` when that failed: it was sent anew, in
      a later try and, if there are other servers, to another one, and goes on skipping `w`;
      or it was answered. */
  ghost predicate Retried(c: Config, s: State, t: State, x: Id, w: nat, now: Time) {
    && x in s.queries && x in s.sends && x in t.sends
    && if x in t.queries then
         && RetriedRecord(c, s.queries[x], t.queries[x], w)
         && t.sends[x] > s.sends[x] && !IsDue(now, t.queries[x].timeout)
       else HasAnswer(t.answered, x)
  }

  ghost predicate RetriedRecord(c: Config, q: Query, r: Query, w: nat) {
    && r.tryCount > q.tryCount && r.timeouts == q.timeouts && SkipsKept(q, r) && Placed(r)
    && (c.nservers > 1 ==> ToSkip(r, w) && r.server != w)
  }

  /** The servers after server `w` has failed: it is closed if there are others to use, and
      other broken connections stay marked until all queries are gone. */
  ghost predicate ServersAfter(c: Config, s: State, t: State, w: nat) {
    && |t.servers| == |s.servers| == c.nservers && w < c.nservers
    && (t.queries == map[] || forall i :: 0 <= i < |s.servers| && i != w && s.servers[i].isBroken ==>
         t.servers[i].isBroken)
    && (c.nservers > 1 ==> Closed(t.servers[w]))
  }

  /** All queries in flight to a failed server move on.  The list is stolen first: a
      query may be sent to the same server again and then enters its list anew. */
  method HandleError(ch: Channel, whichServer: nat, now: Time)
    requires ch.Valid() && Clock(ch.st, now) && whichServer < ch.cfg.nservers
    modifies ch`st
    ensures ch.Valid() && ErrorsOnly(old(ch.st), ch.st)
    ensures OthersKept(old(ch.st), ch.st, whichServer)
    ensures forall x :: x in old(ch.st).queries && old(ch.st).queries[x].server == whichServer ==>
      Retried(ch.cfg, old(ch.st), ch.st, x, whichServer, now)
    ensures ServersAfter(ch.cfg, old(ch.st), ch.st, whichServer)
  {
    hide Inv;
    ghost var s0 := ch.st;
    ServerLists(ch.cfg, s0, {});
    ListsThere(ch.cfg, s0, 0, whichServer);
    ResetServer(ch, whichServer);
    StealList(ch, whichServer);
    AllHome(ch.cfg, s0, whichServer);
    ErrorStarts(ch.cfg, s0, ch.st, whichServer, now);
    var node := First(ch.st.toServer[ch.cfg.nservers]);
    while node.Some?
      invariant StealingInv(ch.cfg, ch.st, whichServer, node) && AllSent(ch.st) && Clock(ch.st, now)
      invariant ErrorInv(ch.cfg, s0, ch.st, whichServer, now)
      decreases |ch.st.toServer[ch.cfg.nservers]|
    {
      node := RetryStolen(ch, whichServer, node.value, now, s0);
    }
    assert ch.st.toServer[ch.cfg.nservers] == [];
    StealingOver(ch.cfg, ch.st, whichServer);
  }

  /** How far the work on a failed server has come. */
  ghost predicate ErrorInv(c: Config, s0: State, s: State, w: nat, now: Time) {
    ErrorParts(c, s0, s, w, now) == true
  }

  ghost predicate ErrorParts(c: Config, s0: State, s: State, w: nat, now: Time) {
    && c.nservers in s.toServer && ErrorsOnly(s0, s) && OthersKept(s0, s, w) && ServersAfter(c, s0, s, w)
    && RestRetried(c, s0, s, w, s.toServer[c.nservers], now)
  }

  /** Every query that was at the server has been dealt with, but for those still in
      `list`, which are as they were. */
  ghost predicate RestRetried(c: Config, s0: State, s: State, w: nat, list: seq<Id>, now: Time) {
    forall x :: x in s0.queries && s0.queries[x].server == w ==>
      if x in list then LeftAlone(s0, s, x) else Retried(c, s0, s, x, w, now)
  }

  lemma ErrorStarts(c: Config, s0: State, s: State, w: nat, now: Time)
    requires Inv(c, s0, {}) && w < c.nservers && DueSame(s0, s) && c.nservers in s.toServer
    requires |s.servers| == c.nservers && Closed(s.servers[w])
    requires forall i :: 0 <= i < c.nservers && i != w ==> s.servers[i] == s0.servers[i]
    requires forall x :: x in s0.queries && s0.queries[x].server == w ==> x in s.toServer[c.nservers]
    ensures ErrorInv(c, s0, s, w, now)
  {
    forall x | x in s0.queries ensures LeftAlone(s0, s, x) {
      assert QueryInv(c, s0, x);
    }
  }

  /** The stolen list, its cursor at the head, and the queries in it. */
  ghost predicate StealingInv(c: Config, s: State, server: nat, node: Option<Id>) {
    && Inv(c, s, StolenSet(c, s)) && c.nservers in s.toServer && server < c.nservers
    && node == First(s.toServer[c.nservers])
    && forall x :: x in s.toServer[c.nservers] ==> x in s.queries && s.queries[x].server == server
  }

  ghost predicate OthersKept(s: State, t: State, server: nat) {
    forall x :: x in s.queries && s.queries[x].server != server ==> LeftAlone(s, t, x)
  }

  lemma StealingOver(c: Config, s: State, server: nat)
    requires StealingInv(c, s, server, None) && s.toServer[c.nservers] == []
    ensures Inv(c, s, {})
  {
    forall x | x in s.home ensures s.home[x] != c.nservers {
      assert x in s.toServer[s.home[x]];
    }
    assert StolenSet(c, s) == {};
  }

  /** Communication with the server is reset: its sockets are closed and nothing is queued
      for it any more. */
  method ResetServer(ch: Channel, whichServer: nat)
    requires Inv(ch.cfg, ch.st, {}) && whichServer < ch.cfg.nservers
    modifies ch`st
    ensures Inv(ch.cfg, ch.st, {}) && OnlyServers(old(ch.st), ch.st)
    ensures |ch.st.servers| == |old(ch.st).servers| == ch.cfg.nservers && Closed(ch.st.servers[whichServer])
    ensures forall i :: 0 <= i < ch.cfg.nservers && i != whichServer ==> ch.st.servers[i] == old(ch.st).servers[i]
  {
    ghost var s := ch.st;
    ch.CloseSockets(whichServer);
    OnlyServersInv(ch.cfg, s, ch.st, {});
  }

  method StealList(ch: Channel, whichServer: nat)
    requires Inv(ch.cfg, ch.st, {}) && whichServer < ch.cfg.nservers
    modifies ch`st
    ensures ch.cfg.nservers in ch.st.toServer
    ensures StealingInv(ch.cfg, ch.st, whichServer, First(ch.st.toServer[ch.cfg.nservers]))
    ensures DueSame(old(ch.st), ch.st)
    ensures forall x :: x in old(ch.st.home) && old(ch.st.home[x]) == whichServer ==>
      x in ch.st.toServer[ch.cfg.nservers]
    ensures ch.st.servers == old(ch.st.servers)
  {
    ghost var s := ch.st;
    NoneStolen(ch.cfg, s);
    ListsThere(ch.cfg, s, 0, whichServer);
    ch.st := ch.st.(toServer := ch.st.toServer[ch.cfg.nservers := ch.st.toServer[whichServer]][whichServer := []],
                    home := map x | x in ch.st.home :: if ch.st.home[x] == whichServer then ch.cfg.nservers
                      else ch.st.home[x]);
    StolenInv(ch.cfg, s, ch.st, whichServer);
  }

  /** One stolen query is told to skip the failed server and moves on. */
  method RetryStolen(ch: Channel, whichServer: nat, id: Id, now: Time, ghost s0: State) returns (next: Option<Id>)
    requires StealingInv(ch.cfg, ch.st, whichServer, Some(id)) && AllSent(ch.st) && Clock(ch.st, now)
    requires ErrorInv(ch.cfg, s0, ch.st, whichServer, now)
    modifies ch`st
    ensures StealingInv(ch.cfg, ch.st, whichServer, next) && AllSent(ch.st) && Clock(ch.st, now)
    ensures ErrorInv(ch.cfg, s0, ch.st, whichServer, now)
    ensures |ch.st.toServer[ch.cfg.nservers]| < |old(ch.st.toServer[ch.cfg.nservers])|
  {
    ghost var s := ch.st;
    next := After(ch.st.toServer[ch.cfg.nservers], id);
    StolenFacts(ch.cfg, s, whichServer, id);
    assert ch.st.queries[id].server == whichServer;
    MoveOn(ch, whichServer, id, now, StolenSet(ch.cfg, s));
    RetriedInv(ch.cfg, s, ch.st, whichServer, id, now);
    ErrorStep(ch.cfg, s0, s, ch.st, whichServer, id, now);
  }

  /** A query at a failed server is told to skip it and moves on. */
  method MoveOn(ch: Channel, whichServer: nat, id: Id, now: Time, ghost exempt: set<Id>)
    requires Inv(ch.cfg, ch.st, exempt) && id in exempt && Prepared(ch.st, ch.st, id) && Clock(ch.st, now)
    requires whichServer < ch.cfg.nservers
    modifies ch`st
    ensures Inv(ch.cfg, ch.st, exempt - {id}) && Worked(old(ch.st), ch.st, id, now)
    ensures Outcome(ch.cfg, old(ch.st), ch.st, id)
    ensures SentVia(old(ch.st), ch.st, id) && Landed(old(ch.st), ch.st, id)
    ensures Retried(ch.cfg, old(ch.st), ch.st, id, whichServer, now)
    ensures BrokenKept(old(ch.st), ch.st)
    ensures ch.cfg.nservers > 1 && whichServer < |old(ch.st).servers| && Closed(old(ch.st).servers[whichServer]) ==>
      Closed(ch.st.servers[whichServer])
  {
    hide InvParts, SentVia, Landed, FreeAt, Outcome, Retried, AnyUsable, MayTry;
    ghost var s := ch.st;
    ch.SkipServer(id, whichServer, exempt, s);
    ghost var s1 := ch.st;
    ch.NextServer(id, now, exempt, s);
    OneRetried(ch.cfg, s, s1, ch.st, whichServer, id, now, exempt - {id});
    SkippingVia(ch.cfg, s, s1, ch.st, id, whichServer);
  }

  /** Being told to skip a server changes nothing about the way a packet goes. */
  lemma SkippingVia(c: Config, s: State, s1: State, t: State, id: Id, w: nat)
    requires id in s.queries && id in s1.queries && Skipping(c, s.queries[id], s1.queries[id], w)
    requires s1.servers == s.servers && s1.generation == s.generation
    ensures SentVia(s1, t, id) ==> SentVia(s, t, id)
    ensures Landed(s1, t, id) ==> Landed(s, t, id)
  {
    if Landed(s1, t, id) && id in t.queries {
      assert ToSkip(s.queries[id], t.queries[id].server) ==> ToSkip(s1.queries[id], t.queries[id].server);
    }
  }

  lemma OneRetried(c: Config, s: State, s1: State, t: State, w: nat, id: Id, now: Time, exempt: set<Id>)
    requires id in s.queries && id in s1.queries && s1.sends == s.sends && s1.servers == s.servers
    requires Skipping(c, s.queries[id], s1.queries[id], w) && Onward(s1, t, id) && Worked(s, t, id, now)
    ensures Retried(c, s, t, id, w, now) && BrokenKept(s, t)
    ensures c.nservers > 1 && w < |s.servers| && Closed(s.servers[w]) ==> Closed(t.servers[w])
  {
    if id in t.queries {
      assert SkipsKept(s1.queries[id], t.queries[id]);
      assert forall i :: ToSkip(s.queries[id], i) ==> ToSkip(s1.queries[id], i);
      assert c.nservers > 1 ==> ToSkip(s1.queries[id], w);
    } else {
      assert t.answered[|s.answered|].id == id;
    }
  }

  /** Work on one query leaves the others alone. */
  lemma WorkedAlone(s: State, t: State, id: Id, now: Time)
    requires Worked(s, t, id, now)
    ensures forall x :: x in s.queries && x != id && x in s.sends ==> LeftAlone(s, t, x)
    ensures t.queries.Keys <= s.queries.Keys && s.answered <= t.answered && s.sends.Keys <= t.sends.Keys
    ensures AllSent(s) ==> AllSent(t)
    ensures t.nextId == s.nextId && t.lastProcessed == s.lastProcessed && t.ednsOn == s.ednsOn
    ensures id in t.queries ==> t.queries[id].timeouts == s.queries[id].timeouts
  {
  }

  /** The others are as they were, and one query more has been dealt with. */
  lemma ErrorStep(c: Config, s0: State, s: State, t: State, w: nat, id: Id, now: Time)
    requires ErrorInv(c, s0, s, w, now) && id in s.queries && s.queries[id].server == w
    requires s.toServer[c.nservers] != [] && s.toServer[c.nservers][0] == id && NoDup(s.toServer[c.nservers])
    requires c.nservers in t.toServer && t.toServer[c.nservers] == s.toServer[c.nservers][1..]
    requires Worked(s, t, id, now) && Retried(c, s, t, id, w, now) && BrokenKept(s, t)
    requires c.nservers > 1 && Closed(s.servers[w]) ==> Closed(t.servers[w])
    ensures ErrorInv(c, s0, t, w, now)
  {
    hide Worked, Retried, ServersAfter, BrokenKept;
    WorkedAlone(s, t, id, now);
    ErrorOthers(s0, s, t, w, id);
    ErrorRest(c, s0, s, t, w, id, s.toServer[c.nservers], now);
    ServersOn(c, s0, s, t, w, id);
  }

  lemma ErrorOthers(s0: State, s: State, t: State, w: nat, id: Id)
    requires OthersKept(s0, s, w) && id in s.queries && s.queries[id].server == w
    requires forall x :: x in s.queries && x != id && x in s.sends ==> LeftAlone(s, t, x)
    ensures OthersKept(s0, t, w)
  {
    forall x | x in s0.queries && s0.queries[x].server != w ensures LeftAlone(s0, t, x) {
      assert LeftAlone(s0, s, x) && x != id;
      assert LeftAlone(s, t, x);
    }
  }

  lemma ErrorRest(c: Config, s0: State, s: State, t: State, w: nat, id: Id, list: seq<Id>, now: Time)
    requires RestRetried(c, s0, s, w, list, now) && ErrorsOnly(s0, s)
    requires list != [] && list[0] == id && NoDup(list) && Retried(c, s, t, id, w, now)
    requires t.queries.Keys <= s.queries.Keys && s.answered <= t.answered && s.sends.Keys <= t.sends.Keys
    requires forall x :: x in s.queries && x != id && x in s.sends ==> LeftAlone(s, t, x)
    ensures RestRetried(c, s0, t, w, list[1..], now)
  {
    OnlyOnceAtHead(list);
    assert list == [id] + list[1..];
    forall x | x in s0.queries && s0.queries[x].server == w
      ensures if x in list[1..] then LeftAlone(s0, t, x) else Retried(c, s0, t, x, w, now)
    {
      if x == id {
        assert LeftAlone(s0, s, x);
      } else if x in list {
        assert LeftAlone(s0, s, x) && LeftAlone(s, t, x);
      } else {
        assert Retried(c, s0, s, x, w, now);
        StillAnswered(s, t, x);
        assert x in s.queries ==> x in s.sends && LeftAlone(s, t, x);
      }
    }
  }

  lemma StillAnswered(s: State, t: State, x: Id)
    requires s.answered <= t.answered
    ensures HasAnswer(s.answered, x) ==> HasAnswer(t.answered, x)
  {
    if HasAnswer(s.answered, x) {
      var i :| 0 <= i < |s.answered| && s.answered[i].id == x;
      assert t.answered[i].id == x;
    }
  }

  lemma ServersOn(c: Config, s0: State, s: State, t: State, w: nat, id: Id)
    requires ServersAfter(c, s0, s, w) && BrokenKept(s, t) && id in s.queries
    requires c.nservers > 1 && Closed(s.servers[w]) ==> Closed(t.servers[w])
    ensures ServersAfter(c, s0, t, w)
  {
  }

  lemma StolenFacts(c: Config, s: State, server: nat, id: Id)
    requires StealingInv(c, s, server, Some(id))
    ensures id in s.queries && id in StolenSet(c, s) && Prepared(s, s, id)
    ensures After(s.toServer[c.nservers], id) == First(s.toServer[c.nservers][1..])
  {
    var l := s.toServer[c.nservers];
    assert l[0] in l;
    PreparedRefl(c, s, id, StolenSet(c, s));
    assert [] + l == l;
    AfterIs([], l);
  }

  lemma RetriedInv(c: Config, s: State, t: State, server: nat, id: Id, now: Time)
    requires StealingInv(c, s, server, Some(id)) && AllSent(s)
    requires Inv(c, t, StolenSet(c, s) - {id}) && Worked(s, t, id, now)
    ensures StealingInv(c, t, server, First(s.toServer[c.nservers][1..])) && AllSent(t)
    ensures t.toServer[c.nservers] == s.toServer[c.nservers][1..] && NoDup(s.toServer[c.nservers])
  {
    hide Worked, InvParts;
    SentSomewhere(c, t, StolenSet(c, s) - {id}, id);
    ServerLists(c, s, StolenSet(c, s));
    ServerLists(c, t, StolenSet(c, s) - {id});
    RetriedList(c, s, t, id, now);
    RetriedSet(c, s, t, id, now);
    RetriedMembers(c, s, t, server, id, now);
    WorkedAlone(s, t, id, now);
  }

  lemma SentSomewhere(c: Config, t: State, exempt: set<Id>, id: Id)
    requires Inv(c, t, exempt) && id !in exempt
    ensures id in t.home ==> t.home[id] != c.nservers
  {
    assert id in t.home ==> id in TimePlace(t.queries) && QueryInv(c, t, id);
  }

  lemma ServerLists(c: Config, s: State, exempt: set<Id>)
    requires Inv(c, s, exempt)
    ensures ListsInv(c, s) && c.nservers in s.toServer && NoDup(s.toServer[c.nservers])
  {
  }

  lemma RetriedMembers(c: Config, s: State, t: State, server: nat, id: Id, now: Time)
    requires Worked(s, t, id, now) && ListsInv(c, t) && c.nservers in s.toServer && c.nservers in t.toServer
    requires s.toServer[c.nservers] != [] && s.toServer[c.nservers][0] == id && NoDup(s.toServer[c.nservers])
    requires t.toServer[c.nservers] == s.toServer[c.nservers][1..]
    requires forall x :: x in s.toServer[c.nservers] ==> x in s.queries && s.queries[x].server == server
    ensures forall x :: x in t.toServer[c.nservers] ==> x in t.queries && t.queries[x].server == server
  {
    OnlyOnceAtHead(s.toServer[c.nservers]);
    forall x | x in t.toServer[c.nservers] ensures x in t.queries && t.queries[x].server == server {
      assert x in s.toServer[c.nservers] && x != id && x in t.home;
      assert x in TimePlace(t.queries);
    }
  }

  lemma RetriedList(c: Config, s: State, t: State, id: Id, now: Time)
    requires c.nservers in s.toServer && s.toServer[c.nservers] != [] && s.toServer[c.nservers][0] == id
    requires NoDup(s.toServer[c.nservers])
    requires Worked(s, t, id, now) && (id in t.home ==> t.home[id] != c.nservers)
    ensures c.nservers in t.toServer && t.toServer[c.nservers] == s.toServer[c.nservers][1..]
  {
    var n, l := c.nservers, s.toServer[c.nservers];
    OnlyOnceAtHead(l);
    assert [] + l == l;
    WithoutHead([], l);
    assert LinkedAt(t.home, id, n) == [];
  }

  lemma RetriedSet(c: Config, s: State, t: State, id: Id, now: Time)
    requires Worked(s, t, id, now) && (id in t.home ==> t.home[id] != c.nservers)
    ensures StolenSet(c, t) == StolenSet(c, s) - {id}
  {
    forall x ensures x in StolenSet(c, t) <==> x in StolenSet(c, s) - {id} {
      if x != id {
        assert x in t.home - {id} <==> x in s.home - {id};
        assert x in s.home ==> (t.home - {id})[x] == (s.home - {id})[x];
      }
    }
  }

  lemma AllHome(c: Config, s: State, server: nat)
    requires Inv(c, s, {}) && AllSent(s)
    ensures forall x :: x in s.queries && s.queries[x].server == server ==> x in s.home && s.home[x] == server
  {
    assert s.home.Keys == TimePlace(s.queries).Keys;
  }

  lemma OnlyOnceAtHead(l: seq<Id>)
    requires NoDup(l) && l != []
    ensures l[0] !in l[1..]
  {
  }
}
