// CachePool and CDBPool: connections shared by threads under a mutex and a
// condition variable. Between locking and either unlocking or waiting a thread
// runs alone, so each such stretch is one step of a state machine.
module ConnPool {

  const MIN_CONN_COUNT := 2

  type Thread = nat
  type Conn = nat

  /** `asleep` threads wait for a signal; `woken` ones have been woken and will
      look again once they have the mutex. */
  datatype Pool = Pool(free: seq<Conn>, count: nat, max: int, nextConn: Conn,
                       held: set<(Thread, Conn)>, asleep: set<Thread>, woken: set<Thread>)

  // `created` says whether opening a new connection works, should one be needed;
  // `signalled` is the sleeper that a signal wakes, if there is any.
  datatype Step =
    | Get(t: Thread, created: bool)
    | Resume(t: Thread, created: bool)
    | SpuriousWake(t: Thread)
    | Release(t: Thread, c: Conn, signalled: Thread)

  /** What can happen next: a blocked thread does nothing but wake and resume,
      and a thread releases only a connection that it holds. */
  predicate Enabled(p: Pool, step: Step) {
    match step
    case Get(t, _) => t !in p.asleep && t !in p.woken
    case Resume(t, _) => t in p.woken
    case SpuriousWake(t) => t in p.asleep
    case Release(t, c, s) => t !in p.asleep && t !in p.woken && (t, c) in p.held && (p.asleep != {} ==> s in p.asleep)
  }

  /** The wait loop, from the moment a thread has the mutex. */
  function Seek(p: Pool, t: Thread, created: bool): Pool {
    if p.free != [] then p.(free := p.free[1..], held := p.held + {(t, p.free[0])})
    else if p.count >= p.max then p.(asleep := p.asleep + {t})
    else if !created then p
    else p.(count := p.count + 1, nextConn := p.nextConn + 1, held := p.held + {(t, p.nextConn)})
  }

  function Signal(p: Pool, s: Thread): Pool {
    if s in p.asleep then p.(asleep := p.asleep - {s}, woken := p.woken + {s}) else p
  }

  function Apply(p: Pool, step: Step): Pool {
    match step
    case Get(t, created) => Seek(p, t, created)
    case Resume(t, created) => Seek(p.(woken := p.woken - {t}), t, created)
    case SpuriousWake(t) => Signal(p, t)
    case Release(t, c, s) =>
      Signal(p.(free := if c in p.free then p.free else p.free + [c], held := p.held - {(t, c)}), s)
  }

  ghost predicate Run(p: Pool, steps: seq<Step>, q: Pool)
    decreases |steps|
  {
    if steps == [] then q == p else Enabled(p, steps[0]) && Run(Apply(p, steps[0]), steps[1..], q)
  }

  function Opened(max: int): Pool {
    Pool([0, 1], MIN_CONN_COUNT, max, MIN_CONN_COUNT, {}, {}, {})
  }

  // --------------------------------------------------------------- invariant

  function Limit(max: int): int {
    if max < MIN_CONN_COUNT then MIN_CONN_COUNT else max
  }

  /** Every connection is in exactly one place, and they are all counted. */
  ghost predicate Accounted(p: Pool) {
    && p.count == |p.free| + |p.held| <= Limit(p.max)
    && (forall i, j :: 0 <= i < j < |p.free| ==> p.free[i] != p.free[j])
    && (forall x, y :: x in p.held && y in p.held && x.1 == y.1 ==> x == y)
    && (forall x :: x in p.held ==> x.1 !in p.free && x.1 < p.nextConn)
    && (forall i :: 0 <= i < |p.free| ==> p.free[i] < p.nextConn)
  }

  /** No wake-up is lost: while a thread sleeps, there is a woken thread for each
      free connection, and the pool is at its full size. */
  ghost predicate NoLostWakeup(p: Pool) {
    && p.asleep !! p.woken
    && (p.asleep != {} ==> |p.free| <= |p.woken| && p.count >= p.max)
  }

  ghost predicate Inv(p: Pool) {
    Accounted(p) && NoLostWakeup(p)
  }

  lemma HandOut(p: Pool, t: Thread)
    requires Accounted(p) && p.free != []
    ensures Accounted(p.(free := p.free[1..], held := p.held + {(t, p.free[0])}))
    ensures forall u :: (u, p.free[0]) !in p.held
  {
    assert p.free == [p.free[0]] + p.free[1..];
    assert (t, p.free[0]) !in p.held;
  }

  lemma HandOutNew(p: Pool, t: Thread)
    requires Accounted(p) && p.free == [] && p.count < p.max
    ensures Accounted(p.(count := p.count + 1, nextConn := p.nextConn + 1, held := p.held + {(t, p.nextConn)}))
    ensures forall u :: (u, p.nextConn) !in p.held
  {
    assert (t, p.nextConn) !in p.held;
  }

  lemma SeekKeepsInv(p: Pool, t: Thread, created: bool)
    requires Accounted(p) && p.asleep !! p.woken && t !in p.asleep && t !in p.woken
    requires p.asleep != {} ==> |p.free| <= |p.woken| + 1 && p.count >= p.max
    ensures Inv(Seek(p, t, created))
  {
    hide Accounted;
    if p.free != [] {
      HandOut(p, t);
    } else if p.count < p.max {
      HandOutNew(p, t);
    } else {
      SleepingCounts(p, t);
    }
  }

  lemma SleepingCounts(p: Pool, t: Thread)
    requires Accounted(p)
    ensures Accounted(p.(asleep := p.asleep + {t}))
  {
  }

  lemma SeekGetsNew(p: Pool, t: Thread)
    requires Inv(p)
    ensures p.free != [] ==> forall u :: (u, p.free[0]) !in p.held
    ensures forall u :: (u, p.nextConn) !in p.held
  {
  }

  lemma StepKeepsInv(p: Pool, step: Step)
    requires Inv(p) && Enabled(p, step)
    ensures Inv(Apply(p, step)) && Apply(p, step).max == p.max
  {
    hide Accounted;
    match step
    case Get(t, created) =>
      SeekKeepsInv(p, t, created);
    case Resume(t, created) =>
      ResumingCounts(p, t);
      SeekKeepsInv(p.(woken := p.woken - {t}), t, created);
    case SpuriousWake(t) =>
      WakeKeeps(p, t);
    case Release(t, c, s) =>
      ReleaseKeeps(p, t, c, s);
  }

  lemma ResumingCounts(p: Pool, t: Thread)
    requires Accounted(p)
    ensures Accounted(p.(woken := p.woken - {t}))
  {
  }

  lemma WakeKeeps(p: Pool, t: Thread)
    requires Inv(p) && t in p.asleep
    ensures Inv(Signal(p, t))
  {
    SignalKeepsAccounts(p, t);
    hide Accounted;
  }

  lemma SignalKeepsAccounts(p: Pool, s: Thread)
    requires Accounted(p)
    ensures Accounted(Signal(p, s))
  {
  }

  lemma GiveBack(p: Pool, t: Thread, c: Conn)
    requires Accounted(p) && (t, c) in p.held
    ensures c !in p.free && Accounted(p.(free := p.free + [c], held := p.held - {(t, c)}))
  {
    assert c == (t, c).1 && c !in p.free;
    var held := p.held - {(t, c)};
    assert |held| == |p.held| - 1;
    forall x | x in held ensures x.1 != c {
      assert x in p.held;
    }
  }

  lemma ReleaseKeeps(p: Pool, t: Thread, c: Conn, s: Thread)
    requires Inv(p) && Enabled(p, Release(t, c, s))
    ensures Inv(Apply(p, Release(t, c, s)))
  {
    GiveBack(p, t, c);
    var q := p.(free := p.free + [c], held := p.held - {(t, c)});
    SignalKeepsAccounts(q, s);
    hide Accounted;
  }

  /** Safety of every run from a freshly opened pool. */
  lemma {:induction false} RunIsSafe(p: Pool, steps: seq<Step>, q: Pool)
    requires Inv(p) && Run(p, steps, q)
    ensures Inv(q) && q.max == p.max
    decreases |steps|
  {
    if steps != [] {
      StepKeepsInv(p, steps[0]);
      RunIsSafe(Apply(p, steps[0]), steps[1..], q);
    }
  }

  lemma PoolIsSafe(max: int, steps: seq<Step>, q: Pool)
    requires Run(Opened(max), steps, q)
    ensures q.count == |q.free| + |q.held| <= Limit(max)
    ensures forall x, y :: x in q.held && y in q.held && x.1 == y.1 ==> x == y
    ensures q.asleep != {} ==> |q.free| <= |q.woken|
    // A thread is stuck for good only if the others keep every connection there is.
    ensures q.asleep != {} && q.woken == {} ==> q.free == [] && |q.held| == q.count >= max
  {
    RunIsSafe(Opened(max), steps, q);
  }

  // ------------------------------------------------------------ the pool class

  class CachePool {
    var freeList: seq<Conn>
    var curConnCount: nat
    const maxConnCount: int
    var nextConn: Conn
    // Who holds what, and who waits; known to the threads, not to the pool.
    ghost var held: set<(Thread, Conn)>
    ghost var asleep: set<Thread>
    ghost var woken: set<Thread>

    ghost function State(): Pool
      reads this
    {
      Pool(freeList, curConnCount, maxConnCount, nextConn, held, asleep, woken)
    }

    /** A new pool counts the minimum number of connections before it has opened one. */
    constructor (max: int)
      ensures State() == Pool([], MIN_CONN_COUNT, max, 0, {}, {}, {})
    {
      curConnCount, maxConnCount := MIN_CONN_COUNT, max;
      freeList, nextConn := [], 0;
      held, asleep, woken := {}, {}, {};
    }

    /** Init, where the first `opens` connections can be opened: with enough of them
        the pool is open, and otherwise it is left counting more than it has. */
    method Init(opens: nat) returns (rv: int)
      requires State() == Pool([], MIN_CONN_COUNT, maxConnCount, 0, {}, {}, {})
      modifies this`freeList, this`nextConn
      ensures rv == if opens >= MIN_CONN_COUNT then 0 else 1
      ensures rv == 0 ==> State() == Opened(maxConnCount)
      ensures rv != 0 ==> |freeList| == opens < curConnCount && !Inv(State())
    {
      for i := 0 to curConnCount
        invariant i == nextConn && i <= opens && i <= 2 && freeList == [0, 1][..i]
        invariant curConnCount == MIN_CONN_COUNT && held == {} && asleep == {} && woken == {}
      {
        if i >= opens {
          return 1;
        }
        freeList := freeList + [nextConn];
        nextConn := nextConn + 1;
      }
      rv := 0;
    }

    /** GetCacheConn from where the mutex is taken, at first or after a wait: the
        loop runs until it has a connection, fails to open one, or waits. */
    method GetCacheConn(t: Thread, afterWait: bool, created: bool) returns (r: Outcome)
      requires Inv(State()) && Enabled(State(), if afterWait then Resume(t, created) else Get(t, created))
      modifies this`freeList, this`curConnCount, this`nextConn, this`held, this`asleep, this`woken
      ensures Inv(State())
      ensures State() == Apply(old(State()), if afterWait then Resume(t, created) else Get(t, created))
      ensures r.MustWait? <==> old(freeList) == [] && old(curConnCount) >= maxConnCount
      ensures r.NoConn? <==> old(freeList) == [] && old(curConnCount) < maxConnCount && !created
      ensures r.Got? ==> held == old(held) + {(t, r.conn)} && forall u :: (u, r.conn) !in old(held)
    {
      hide Inv, Accounted, NoLostWakeup;
      ghost var step := if afterWait then Resume(t, created) else Get(t, created);
      ghost var before := State();
      StepKeepsInv(before, step);
      SeekGetsNew(before, t);
      if afterWait {
        woken := woken - {t};
      }
      while freeList == []
        invariant if freeList == old(freeList)
                  then curConnCount == old(curConnCount) && nextConn == old(nextConn)
                  else
                    && created && old(freeList) == [] && freeList == [old(nextConn)]
                    && old(curConnCount) < maxConnCount
                    && curConnCount == old(curConnCount) + 1 && nextConn == old(nextConn) + 1
        invariant held == old(held) && asleep == old(asleep)
        invariant woken == if afterWait then old(woken) - {t} else old(woken)
        decreases freeList == []
      {
        if curConnCount >= maxConnCount {
          asleep := asleep + {t};
          return MustWait;
        }
        if !created {
          return NoConn;
        }
        freeList := freeList + [nextConn];
        nextConn := nextConn + 1;
        curConnCount := curConnCount + 1;
      }
      var conn := freeList[0];
      freeList := freeList[1..];
      held := held + {(t, conn)};
      r := Got(conn);
    }

    /** RelCacheConn: a connection that is already free is not added twice. */
    method RelCacheConn(t: Thread, conn: Conn, ghost signalled: Thread)
      requires Inv(State()) && Enabled(State(), Release(t, conn, signalled))
      modifies this`freeList, this`held, this`asleep, this`woken
      ensures Inv(State()) && State() == Apply(old(State()), Release(t, conn, signalled))
    {
      StepKeepsInv(State(), Release(t, conn, signalled));
      var i := 0;
      while i < |freeList|
        invariant 0 <= i <= |freeList| && forall k :: 0 <= k < i ==> freeList[k] != conn
      {
        if freeList[i] == conn {
          break;
        }
        i := i + 1;
      }
      if i == |freeList| {
        freeList := freeList + [conn];
      }
      held := held - {(t, conn)};
      if signalled in asleep {
        asleep, woken := asleep - {signalled}, woken + {signalled};
      }
    }
  }

  datatype Outcome = Got(conn: Conn) | NoConn | MustWait
}
