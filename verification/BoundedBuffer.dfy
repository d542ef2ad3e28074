/** The bounded buffer: two semaphores, a lock and a ring, used by any number of threads
    whose steps interleave in any order. */
module BoundedBuffer {
  import opened Wrappers
  import opened RingIndex

  type Thread = nat

  /** What a buffer holds are pointers, possibly null. */
  type Elem = Option<nat>

  /** Where a thread is inside push or pop; threads outside are idle. */
  datatype Pc =
    | Idle
    | PushReserved(elem: Elem)
    | PushLocked(elem: Elem)
    | PushStored
    | PushUnlocked
    | PopReserved
    | PopLocked
    | PopLoaded(elem: Elem)
    | PopUnlocked(elem: Elem)

  /** What a thread owes: a place it will fill or has filled, an element it will take or
      has taken. */
  datatype Debt = NoDebt | Filling | Filled | Taking | Taken

  function DebtOf(pc: Pc): Debt {
    match pc
    case Idle => NoDebt
    case PushReserved(_) => Filling
    case PushLocked(_) => Filling
    case PushStored => Filled
    case PushUnlocked => Filled
    case PopReserved => Taking
    case PopLocked => Taking
    case PopLoaded(_) => Taken
    case PopUnlocked(_) => Taken
  }

  predicate HoldsLock(pc: Pc) {
    pc.PushLocked? || pc.PushStored? || pc.PopLocked? || pc.PopLoaded?
  }

  function PcOf(pcs: map<Thread, Pc>, t: Thread): Pc {
    if t in pcs then pcs[t] else Idle
  }

  ghost function Owing(pcs: map<Thread, Pc>, d: Debt): set<Thread> {
    set t | t in pcs && DebtOf(pcs[t]) == d
  }

  /** A step of `t` moves it from one set of debtors to another. */
  lemma OwingMoves(pcs: map<Thread, Pc>, t: Thread, pc: Pc, d: Debt)
    requires d != NoDebt
    ensures var b, a := DebtOf(PcOf(pcs, t)), DebtOf(pc);
      |Owing(pcs[t := pc], d)| == |Owing(pcs, d)| + (if a == d then 1 else 0) - (if b == d then 1 else 0)
  {
    var s, s' := Owing(pcs, d), Owing(pcs[t := pc], d);
    assert forall u :: u != t ==> (u in s' <==> u in s);
    assert s' - {t} == s - {t};
    WithoutOne(s, t);
    WithoutOne(s', t);
  }

  lemma WithoutOne(s: set<Thread>, t: Thread)
    ensures |s - {t}| == |s| - if t in s then 1 else 0
  {
    if t !in s {
      assert s - {t} == s;
    }
  }

  /** The two semaphores account for every place of the ring. */
  ghost predicate Balanced(capacity: nat, empty: nat, full: nat, size: int, pcs: map<Thread, Pc>) {
    && size == full + |Owing(pcs, Filled)| + |Owing(pcs, Taking)|
    && capacity - size == empty + |Owing(pcs, Filling)| + |Owing(pcs, Taken)|
  }

  lemma BalanceStep(capacity: nat, empty: nat, full: nat, size: int, pcs: map<Thread, Pc>, t: Thread, pc: Pc)
    requires Balanced(capacity, empty, full, size, pcs)
    ensures 0 <= size <= capacity
    ensures DebtOf(PcOf(pcs, t)) == Filling ==> size < capacity
    ensures DebtOf(PcOf(pcs, t)) == Taking ==> size > 0
    ensures var b, a := DebtOf(PcOf(pcs, t)), DebtOf(pc);
      && (b == a ==> Balanced(capacity, empty, full, size, pcs[t := pc]))
      && (b == NoDebt && a == Filling && empty > 0 ==> Balanced(capacity, empty - 1, full, size, pcs[t := pc]))
      && (b == Filling && a == Filled ==> Balanced(capacity, empty, full, size + 1, pcs[t := pc]))
      && (b == Filled && a == NoDebt ==> Balanced(capacity, empty, full + 1, size, pcs[t := pc]))
      && (b == NoDebt && a == Taking && full > 0 ==> Balanced(capacity, empty, full - 1, size, pcs[t := pc]))
      && (b == Taking && a == Taken ==> Balanced(capacity, empty, full, size - 1, pcs[t := pc]))
      && (b == Taken && a == NoDebt ==> Balanced(capacity, empty + 1, full, size, pcs[t := pc]))
  {
    OwingMoves(pcs, t, pc, Filling);
    OwingMoves(pcs, t, pc, Filled);
    OwingMoves(pcs, t, pc, Taking);
    OwingMoves(pcs, t, pc, Taken);
    assert DebtOf(PcOf(pcs, t)) == Filling ==> t in Owing(pcs, Filling);
    assert DebtOf(PcOf(pcs, t)) == Taking ==> t in Owing(pcs, Taking);
  }

  lemma SomethingStored(capacity: nat, empty: nat, full: nat, size: int, pcs: map<Thread, Pc>, t: Thread)
    requires Balanced(capacity, empty, full, size, pcs) && DebtOf(PcOf(pcs, t)) == Taking
    ensures size > 0
  {
    assert t in Owing(pcs, Taking);
  }

  /** Exactly the owner of the lock is between locking and unlocking. */
  ghost predicate LockOK(lock: Option<Thread>, pcs: map<Thread, Pc>) {
    forall t: Thread :: HoldsLock(PcOf(pcs, t)) <==> lock == Some(t)
  }

  lemma LockStep(lock: Option<Thread>, lock': Option<Thread>, pcs: map<Thread, Pc>, t: Thread, pc: Pc)
    requires LockOK(lock, pcs)
    requires (lock == lock' && (HoldsLock(pc) <==> HoldsLock(PcOf(pcs, t))))
             || (lock == None && lock' == Some(t) && HoldsLock(pc))
             || (lock == Some(t) && lock' == None && !HoldsLock(pc))
    ensures LockOK(lock', pcs[t := pc])
  {
    forall u: Thread ensures HoldsLock(PcOf(pcs[t := pc], u)) <==> lock' == Some(u) {
      assert u != t ==> PcOf(pcs[t := pc], u) == PcOf(pcs, u);
    }
  }

  /** The ring holds what was pushed and not yet popped, each element in its slot. */
  ghost predicate Stored(capacity: nat, data: seq<Elem>, pushed: seq<Elem>, read: nat)
    requires capacity >= 1 && |data| == capacity
  {
    read <= |pushed| && forall i: nat {:trigger pushed[i]} :: read <= i < |pushed| ==>
      data[Mask(capacity, i)] == pushed[i]
  }

  lemma StorePushed(capacity: nat, data: seq<Elem>, pushed: seq<Elem>, read: nat, elem: Elem)
    requires PowerOfTwo(capacity) && |data| == capacity && Stored(capacity, data, pushed, read)
    requires |pushed| - read < capacity
    ensures Mask(capacity, |pushed|) < capacity
    ensures Stored(capacity, data[Mask(capacity, |pushed|) := elem], pushed + [elem], read)
  {
    var n := |pushed|;
    forall i: nat | read <= i < n + 1
      ensures data[Mask(capacity, n) := elem][Mask(capacity, i)] == (pushed + [elem])[i]
    {
      if i < n {
        SlotsApart(capacity, i, n);
      }
    }
  }

  /** First in, first out: what was popped is the first part of what was pushed, and the
      rest is stored. */
  ghost predicate Fifo(capacity: nat, data: seq<Elem>, pushed: seq<Elem>, popped: seq<Elem>)
    requires capacity >= 1 && |data| == capacity
  {
    popped <= pushed && Stored(capacity, data, pushed, |popped|)
  }

  lemma LoadPopped(capacity: nat, data: seq<Elem>, pushed: seq<Elem>, popped: seq<Elem>)
    requires capacity >= 1 && |data| == capacity && Fifo(capacity, data, pushed, popped) && |popped| < |pushed|
    requires Mask(capacity, |popped|) < capacity
    ensures data[Mask(capacity, |popped|)] == pushed[|popped|]
    ensures Fifo(capacity, data, pushed, popped + [pushed[|popped|]])
    ensures popped + [pushed[|popped|]] == pushed[..|popped| + 1]
  {
  }

  /** What a thread does next: start a push or a pop, or go on with one. */
  datatype Action = StartPush(elem: Elem) | StartPop | Go

  class Sbuf {
    const capacity: nat
    const data: array<Elem>
    var empty: nat
    var full: nat
    var lock: Option<Thread>
    var read: nat
    var write: nat
    var pcs: map<Thread, Pc>
    ghost var pushed: seq<Elem>
    ghost var popped: seq<Elem>

    /** (Comparing with `true` keeps the verifier from splitting the conjunction at every use.) */
    ghost predicate Valid()
      reads this, data
    {
      Parts() == true
    }

    ghost predicate Parts()
      reads this, data
    {
      && 1 <= capacity <= WORD && data.Length == capacity
      && read == Wrap(|popped|) && write == Wrap(|pushed|)
      && (PowerOfTwo(capacity) ==> Fifo(capacity, data[..], pushed, popped))
      && Balanced(capacity, empty, full, |pushed| - |popped|, pcs)
      && LockOK(lock, pcs)
    }

    constructor (bufsize: nat)
      requires 1 <= bufsize <= WORD
      ensures Valid() && fresh(data) && capacity == bufsize
      ensures pushed == [] && popped == [] && pcs == map[] && lock == None && empty == bufsize && full == 0
    {
      capacity := bufsize;
      data := new Elem[bufsize];
      empty := bufsize;
      full := 0;
      lock := None;
      read := 0;
      write := 0;
      pcs := map[];
      pushed := [];
      popped := [];
    }

    /** The slot of a counter, as computed from its wrapped value. */
    lemma SlotOf(v: nat)
      requires PowerOfTwo(capacity) && capacity <= WORD
      ensures Mask(capacity, Wrap(v)) == Mask(capacity, v)
    {
      WordIsPower();
      WrapSlot(capacity, WORD, v);
    }

    lemma Shape()
      requires Valid()
      ensures 1 <= capacity <= WORD && data.Length == capacity && read == Wrap(|popped|) && write == Wrap(|pushed|)
    {
    }

    /** Waiting for a free place, or trying to get one. */
    method Reserve(t: Thread, elem: Elem) returns (ok: bool)
      requires Valid() && PcOf(pcs, t) == Idle
      modifies this`empty, this`pcs
      ensures Valid() && (ok <==> old(empty) > 0)
      ensures !ok ==> pcs == old(pcs) && empty == old(empty)
      ensures ok ==> empty == old(empty) - 1 && pcs == old(pcs)[t := PushReserved(elem)]
    {
      if empty == 0 {
        return false;
      }
      BalanceStep(capacity, empty, full, |pushed| - |popped|, pcs, t, PushReserved(elem));
      LockStep(lock, lock, pcs, t, PushReserved(elem));
      empty := empty - 1;
      pcs := pcs[t := PushReserved(elem)];
      ok := true;
    }

    /** Waiting for an element, or trying to get one. */
    method Claim(t: Thread) returns (ok: bool)
      requires Valid() && PcOf(pcs, t) == Idle
      modifies this`full, this`pcs
      ensures Valid() && (ok <==> old(full) > 0)
      ensures !ok ==> pcs == old(pcs) && full == old(full)
      ensures ok ==> full == old(full) - 1 && pcs == old(pcs)[t := PopReserved]
    {
      if full == 0 {
        return false;
      }
      BalanceStep(capacity, empty, full, |pushed| - |popped|, pcs, t, PopReserved);
      LockStep(lock, lock, pcs, t, PopReserved);
      full := full - 1;
      pcs := pcs[t := PopReserved];
      ok := true;
    }

    /** Taking the lock, if it is free. */
    method Lock(t: Thread) returns (ok: bool)
      requires Valid() && (PcOf(pcs, t).PushReserved? || PcOf(pcs, t).PopReserved?)
      modifies this`lock, this`pcs
      ensures Valid() && (ok <==> old(lock) == None)
      ensures !ok ==> pcs == old(pcs) && lock == old(lock)
      ensures ok ==> lock == Some(t)
      ensures ok ==>
        pcs == old(pcs)[t := if old(PcOf(pcs, t)).PushReserved? then PushLocked(old(PcOf(pcs, t)).elem) else PopLocked]
    {
      if lock != None {
        return false;
      }
      var pc := if pcs[t].PushReserved? then PushLocked(pcs[t].elem) else PopLocked;
      BalanceStep(capacity, empty, full, |pushed| - |popped|, pcs, t, pc);
      LockStep(lock, Some(t), pcs, t, pc);
      lock := Some(t);
      pcs := pcs[t := pc];
      ok := true;
    }

    /** Giving the lock back. */
    method Unlock(t: Thread)
      requires Valid() && (PcOf(pcs, t).PushStored? || PcOf(pcs, t).PopLoaded?)
      modifies this`lock, this`pcs
      ensures Valid() && lock == None
      ensures pcs == old(pcs)[t := if old(PcOf(pcs, t)).PushStored? then PushUnlocked
        else PopUnlocked(old(PcOf(pcs, t)).elem)]
    {
      var pc := if pcs[t].PushStored? then PushUnlocked else PopUnlocked(pcs[t].elem);
      BalanceStep(capacity, empty, full, |pushed| - |popped|, pcs, t, pc);
      assert HoldsLock(PcOf(pcs, t));
      LockStep(lock, None, pcs, t, pc);
      lock := None;
      pcs := pcs[t := pc];
    }

    /** The last step: the other semaphore is raised.  A pop hands out its element. */
    method Post(t: Thread) returns (elem: Option<Elem>)
      requires Valid() && (PcOf(pcs, t).PushUnlocked? || PcOf(pcs, t).PopUnlocked?)
      modifies this`empty, this`full, this`pcs
      ensures Valid() && pcs == old(pcs)[t := Idle]
      ensures if old(PcOf(pcs, t)).PushUnlocked?
        then elem == None && full == old(full) + 1 && empty == old(empty)
        else elem == Some(old(PcOf(pcs, t)).elem) && empty == old(empty) + 1 && full == old(full)
    {
      BalanceStep(capacity, empty, full, |pushed| - |popped|, pcs, t, Idle);
      LockStep(lock, lock, pcs, t, Idle);
      if pcs[t].PushUnlocked? {
        full := full + 1;
        elem := None;
      } else {
        empty := empty + 1;
        elem := Some(pcs[t].elem);
      }
      pcs := pcs[t := Idle];
    }

    /** Loading an element, with the lock held: in a ring whose capacity is a power of two it
        is the oldest one still stored. */
    method Load(t: Thread)
      requires Valid() && PcOf(pcs, t).PopLocked?
      modifies this`read, this`pcs, this`popped
      ensures Valid() && |popped| == |old(popped)| + 1 <= |pushed|
      ensures popped == old(popped) + [data[Mask(capacity, old(read))]]
      ensures PowerOfTwo(capacity) ==> popped == pushed[..|popped|]
      ensures pcs == old(pcs)[t := PopLoaded(popped[|popped|-1])]
    {
      hide PowerOfTwo, And, Balanced, LockOK;
      SomethingStored(capacity, empty, full, |pushed| - |popped|, pcs, t);
      if PowerOfTwo(capacity) {
        SlotOf(|popped|);
        LoadPopped(capacity, data[..], pushed, popped);
      }
      WrapNext(|popped|);
      var elem := data[Mask(capacity, read)];
      BalanceStep(capacity, empty, full, |pushed| - |popped|, pcs, t, PopLoaded(elem));
      LockStep(lock, lock, pcs, t, PopLoaded(elem));
      read := (read + 1) % WORD;
      popped := popped + [elem];
      pcs := pcs[t := PopLoaded(elem)];
    }

    /** Storing an element, with the lock held. */
    method Store(t: Thread)
      requires Valid() && PcOf(pcs, t).PushLocked?
      modifies this`write, this`pcs, this`pushed, data
      ensures Valid() && pushed == old(pushed) + [old(PcOf(pcs, t)).elem] && pcs == old(pcs)[t := PushStored]
      ensures data[..] == old(data[..])[Mask(capacity, old(write)) := old(PcOf(pcs, t)).elem]
    {
      hide PowerOfTwo, And, Balanced, LockOK;
      var elem := pcs[t].elem;
      BalanceStep(capacity, empty, full, |pushed| - |popped|, pcs, t, PushStored);
      LockStep(lock, lock, pcs, t, PushStored);
      if PowerOfTwo(capacity) {
        StorePushed(capacity, data[..], pushed, |popped|, elem);
        SlotOf(|pushed|);
      }
      data[Mask(capacity, write)] := elem;
      WrapNext(|pushed|);
      write := (write + 1) % WORD;
      pushed := pushed + [elem];
      pcs := pcs[t := PushStored];
    }

    /** One step of one thread; a step that is not possible now leaves everything as it
        is. */
    method Step(t: Thread, action: Action) returns (elem: Option<Elem>)
      requires Valid()
      modifies this, data
      ensures Valid() && old(popped) <= popped && old(pushed) <= pushed
      ensures forall u :: u != t ==> PcOf(pcs, u) == old(PcOf(pcs, u))
      ensures elem.Some? ==> old(PcOf(pcs, t)) == PopUnlocked(elem.value)
    {
      var pc := PcOf(pcs, t);
      elem := None;
      match pc {
        case Idle =>
          if action.StartPush? {
            var _ := Reserve(t, action.elem);
          } else if action.StartPop? {
            var _ := Claim(t);
          }
        case PushReserved(_) =>
          var _ := Lock(t);
        case PopReserved =>
          var _ := Lock(t);
        case PushLocked(_) =>
          Store(t);
        case PopLocked =>
          Load(t);
        case PushStored =>
          Unlock(t);
        case PopLoaded(_) =>
          Unlock(t);
        case _ =>
          elem := Post(t);
      }
    }
  }

  /** Any interleaving of any threads: never more than the capacity is stored, and with a
      capacity that is a power of two what was popped is at every moment the first part of
      what was pushed, in order. */
  method Run(bufsize: nat, schedule: seq<(Thread, Action)>) returns (buffer: Sbuf)
    requires 1 <= bufsize <= WORD
    ensures fresh(buffer) && buffer.Valid() && buffer.capacity == bufsize
    ensures 0 <= |buffer.pushed| - |buffer.popped| <= bufsize
    ensures PowerOfTwo(bufsize) ==> buffer.popped <= buffer.pushed
    ensures (forall t: Thread :: PcOf(buffer.pcs, t) == Idle) ==>
      buffer.full == |buffer.pushed| - |buffer.popped| && buffer.empty == bufsize - buffer.full && buffer.lock == None
  {
    buffer := new Sbuf(bufsize);
    var i := 0;
    while i < |schedule|
      invariant 0 <= i <= |schedule| && fresh(buffer) && fresh(buffer.data) && buffer.Valid()
      invariant buffer.capacity == bufsize
    {
      var _ := buffer.Step(schedule[i].0, schedule[i].1);
      i := i + 1;
    }
    AtRest(bufsize, buffer.empty, buffer.full, |buffer.pushed| - |buffer.popped|, buffer.pcs, buffer.lock);
  }

  /** When no thread is inside, the semaphores count exactly what is stored and what is
      free. */
  lemma AtRest(capacity: nat, empty: nat, full: nat, size: int, pcs: map<Thread, Pc>, lock: Option<Thread>)
    requires Balanced(capacity, empty, full, size, pcs) && LockOK(lock, pcs)
    ensures 0 <= size <= capacity
    ensures (forall t: Thread :: PcOf(pcs, t) == Idle) ==> full == size && empty == capacity - size && lock == None
  {
    assert lock.Some? ==> HoldsLock(PcOf(pcs, lock.value));
    if forall t: Thread :: PcOf(pcs, t) == Idle {
      assert forall t :: t in pcs ==> PcOf(pcs, t) == Idle;
      assert Owing(pcs, Filling) == {} && Owing(pcs, Filled) == {} && Owing(pcs, Taking) == {} &&
        Owing(pcs, Taken) == {};
    }
  }

  /* ---- A capacity that is no power of two ---- */

  /** One thread pushes, alone. */
  method PushAlone(buffer: Sbuf, elem: Elem)
    requires buffer.Valid() && buffer.lock == None && PcOf(buffer.pcs, 0) == Idle && buffer.empty > 0
    modifies buffer, buffer.data
    ensures buffer.Valid() && buffer.lock == None && PcOf(buffer.pcs, 0) == Idle
    ensures buffer.empty == old(buffer.empty) - 1 && buffer.full == old(buffer.full) + 1
    ensures buffer.pushed == old(buffer.pushed) + [elem] && buffer.popped == old(buffer.popped)
    ensures buffer.data[..] == old(buffer.data[..])[Mask(buffer.capacity, Wrap(|old(buffer.pushed)|)) := elem]
  {
    hide Sbuf.Valid;
    buffer.Shape();
    var _ := buffer.Reserve(0, elem);
    var _ := buffer.Lock(0);
    buffer.Store(0);
    buffer.Unlock(0);
    var _ := buffer.Post(0);
  }

  /** One thread pops, alone. */
  method PopAlone(buffer: Sbuf) returns (elem: Elem)
    requires buffer.Valid() && buffer.lock == None && PcOf(buffer.pcs, 0) == Idle && buffer.full > 0
    modifies buffer
    ensures buffer.Valid() && buffer.lock == None && PcOf(buffer.pcs, 0) == Idle
    ensures buffer.empty == old(buffer.empty) + 1 && buffer.full == old(buffer.full) - 1
    ensures elem == buffer.data[Mask(buffer.capacity, Wrap(|old(buffer.popped)|))]
    ensures buffer.pushed == old(buffer.pushed) && buffer.popped == old(buffer.popped) + [elem]
  {
    hide Sbuf.Valid;
    buffer.Shape();
    var _ := buffer.Claim(0);
    var _ := buffer.Lock(0);
    buffer.Load(0);
    buffer.Unlock(0);
    var e := buffer.Post(0);
    elem := e.value;
  }

  ghost function Numbered(m: nat): (s: seq<Elem>)
    ensures |s| == m && forall k: nat :: k < m ==> s[k] == Some(k)
  {
    seq(m, k requires k >= 0 => Some(k))
  }

  /** Every slot written so far holds the number of its last writer, which is not before any
      other of its writers. */
  ghost predicate Overwritten(capacity: nat, data: seq<Elem>, m: nat)
    requires capacity >= 1 && |data| == capacity
  {
    forall k: nat {:trigger Mask(capacity, k)} :: k < m ==>
      data[Mask(capacity, k)].Some? && data[Mask(capacity, k)].value >= k
  }

  lemma OverwrittenStep(capacity: nat, data: seq<Elem>, m: nat)
    requires capacity >= 1 && |data| == capacity && Overwritten(capacity, data, m)
    ensures Overwritten(capacity, data[Mask(capacity, m) := Some(m)], m + 1)
  {
  }

  /** No thread is inside, and so many places are free and so many elements can be had. */
  ghost predicate Resting(buffer: Sbuf, empty: nat, full: nat)
    reads buffer, buffer.data
  {
    && buffer.Valid() && buffer.lock == None && PcOf(buffer.pcs, 0) == Idle && buffer.empty == empty
    && buffer.full == full
    && 1 <= buffer.capacity <= WORD && buffer.data.Length == buffer.capacity
  }

  method FillOne(buffer: Sbuf, m: nat)
    requires m < buffer.capacity && Resting(buffer, buffer.capacity - m, m)
    requires buffer.pushed == Numbered(m) && buffer.popped == []
    requires Overwritten(buffer.capacity, buffer.data[..], m)
    modifies buffer, buffer.data
    ensures Resting(buffer, buffer.capacity - m - 1, m + 1) && buffer.pushed == Numbered(m + 1) && buffer.popped == []
    ensures Overwritten(buffer.capacity, buffer.data[..], m + 1)
  {
    hide Sbuf.Valid;
    OverwrittenStep(buffer.capacity, buffer.data[..], m);
    PushAlone(buffer, Some(m));
    assert Wrap(m) == m;
    assert Numbered(m) + [Some(m)] == Numbered(m + 1);
  }

  /** A fresh buffer is filled. */
  method Fill(bufsize: nat) returns (buffer: Sbuf)
    requires 1 <= bufsize <= WORD
    ensures fresh(buffer) && fresh(buffer.data) && buffer.capacity == bufsize && Resting(buffer, 0, bufsize)
    ensures buffer.pushed == Numbered(bufsize) && buffer.popped == [] && Overwritten(bufsize, buffer.data[..], bufsize)
  {
    hide Sbuf.Valid;
    buffer := new Sbuf(bufsize);
    buffer.Shape();
    var m := 0;
    while m < bufsize
      invariant 0 <= m <= bufsize && fresh(buffer) && fresh(buffer.data)
      invariant buffer.capacity == bufsize && Resting(buffer, bufsize - m, m)
      invariant buffer.pushed == Numbered(m) && buffer.popped == [] && Overwritten(bufsize, buffer.data[..], m)
    {
      FillOne(buffer, m);
      m := m + 1;
    }
  }

  /** A full buffer is emptied: its slots are read one after the other. */
  method Drain(buffer: Sbuf)
    requires Resting(buffer, 0, buffer.capacity) && buffer.popped == []
    modifies buffer
    ensures Resting(buffer, buffer.capacity, 0) && buffer.pushed == old(buffer.pushed)
    ensures |buffer.popped| == buffer.capacity
    ensures forall k: nat :: k < buffer.capacity ==> buffer.popped[k] == buffer.data[Mask(buffer.capacity, k)]
  {
    hide Sbuf.Valid;
    var m := 0;
    while m < buffer.capacity
      invariant 0 <= m <= buffer.capacity && Resting(buffer, m, buffer.capacity - m)
      invariant buffer.pushed == old(buffer.pushed) && |buffer.popped| == m
      invariant forall k: nat :: k < m ==> buffer.popped[k] == buffer.data[Mask(buffer.capacity, k)]
    {
      var _ := PopAlone(buffer);
      m := m + 1;
    }
  }

  /** A fresh buffer is filled and then emptied.  What comes out is what went in exactly when
      the capacity is a power of two. */
  method FillAndDrain(bufsize: nat) returns (buffer: Sbuf)
    requires 1 <= bufsize <= WORD
    ensures fresh(buffer) && buffer.Valid() && buffer.capacity == bufsize
    ensures buffer.pushed == Numbered(bufsize) && |buffer.popped| == bufsize
    ensures buffer.popped == buffer.pushed <==> PowerOfTwo(bufsize)
  {
    buffer := Fill(bufsize);
    ghost var data := buffer.data[..];
    Drain(buffer);
    if PowerOfTwo(bufsize) {
      assert buffer.popped <= buffer.pushed;
    } else {
      LastWriterRead(bufsize, data, buffer.popped);
    }
  }

  lemma LastWriterRead(capacity: nat, data: seq<Elem>, popped: seq<Elem>)
    requires capacity >= 1 && |data| == capacity && |popped| == capacity && !PowerOfTwo(capacity)
    requires Overwritten(capacity, data, capacity)
    requires forall k: nat :: k < capacity ==> popped[k] == data[Mask(capacity, k)]
    ensures popped != Numbered(capacity)
  {
    var i, j := OthersCollide(capacity);
    assert popped[i] == popped[j] != Numbered(capacity)[i];
  }
}
