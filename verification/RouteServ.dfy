// The route-server connections of a message server: which one is the master, and
// when a lost one is tried again.
module RouteServ {

  const MIN_RECONNECT_CNT := 4
  const MAX_RECONNECT_CNT := 64
  const NEVER := 0xFFFF_FFFF_FFFF_FFFF

  class Conn {
    const servIdx: nat
    // Whether the connect call gave a handle. Without one nothing ever happens on
    // the connection.
    const linked: bool
    var isOpen: bool
    var connectTime: nat

    constructor (servIdx: nat, linked: bool)
      ensures this.servIdx == servIdx && this.linked == linked && !isOpen
    {
      this.servIdx, this.linked, isOpen := servIdx, linked, false;
    }
  }

  datatype ServInfo = ServInfo(idleCnt: nat, reconnectCnt: nat, conn: Conn?)

  // ------------------------------------------------------------------ backoff

  /** The part of serv_reset that sets the next waiting time. */
  function NextWait(reconnectCnt: nat): nat {
    if reconnectCnt * 2 > MAX_RECONNECT_CNT then MIN_RECONNECT_CNT else reconnectCnt * 2
  }

  function WaitAfter(failures: nat): nat {
    if failures == 0 then MIN_RECONNECT_CNT / 2 else NextWait(WaitAfter(failures - 1))
  }

  /** Since it was last confirmed, a server that keeps failing waits 4, 8, 16, 32
      and 64 ticks, and then starts over. */
  lemma {:induction false} WaitingTimesCycle(failures: nat)
    requires failures > 0
    ensures WaitAfter(failures) == [4, 8, 16, 32, 64][(failures - 1) % 5]
  {
    if failures > 1 {
      WaitingTimesCycle(failures - 1);
    }
  }

  predicate IsWait(n: nat) {
    n == 4 || n == 8 || n == 16 || n == 32 || n == 64
  }

  predicate SlotValid(s: ServInfo) {
    && (IsWait(s.reconnectCnt) || (s.conn != null && s.reconnectCnt == MIN_RECONNECT_CNT / 2))
    && (s.conn == null ==> s.idleCnt < s.reconnectCnt)
  }

  // ------------------------------------------------------------------- router

  ghost function ConnsOf(slots: seq<ServInfo>): set<Conn> {
    set i | 0 <= i < |slots| && slots[i].conn != null :: slots[i].conn
  }

  lemma SlotFilled(slots: seq<ServInfo>, i: nat, s: ServInfo)
    requires i < |slots| && (slots[i].conn == null || slots[i].conn == s.conn)
    ensures ConnsOf(slots[i := s]) == ConnsOf(slots) + (if s.conn == null then {} else {s.conn})
  {
    var now := slots[i := s];
    forall c | c in ConnsOf(slots) ensures c in ConnsOf(now) {
      var k :| 0 <= k < |slots| && slots[k].conn == c;
      assert now[k].conn == c;
    }
    if s.conn != null {
      assert now[i].conn == s.conn;
    }
  }

  lemma SameConns(a: seq<ServInfo>, b: seq<ServInfo>)
    requires |a| == |b| && forall i :: 0 <= i < |a| ==> a[i].conn == b[i].conn
    ensures ConnsOf(a) == ConnsOf(b)
  {
    forall c | c in ConnsOf(a) ensures c in ConnsOf(b) {
      var i :| 0 <= i < |a| && a[i].conn == c;
      assert b[i].conn == c;
    }
    forall c | c in ConnsOf(b) ensures c in ConnsOf(a) {
      var i :| 0 <= i < |b| && b[i].conn == c;
      assert a[i].conn == c;
    }
  }

  lemma Holder(slots: seq<ServInfo>, c: Conn)
    requires c in ConnsOf(slots) && forall i :: 0 <= i < |slots| && slots[i].conn != null ==> slots[i].conn.servIdx == i
    ensures c.servIdx < |slots| && slots[c.servIdx].conn == c
  {
  }

  class Router {
    const slots: array<ServInfo>
    var master: Conn?
    // The latest clock reading; the clock never goes back.
    var clock: nat

    ghost function Conns(): set<Conn>
      reads this, slots
    {
      ConnsOf(slots[..])
    }

    ghost predicate Valid()
      reads this, slots, Conns()
    {
      && clock < NEVER
      && (forall i :: 0 <= i < slots.Length ==> SlotValid(slots[i]))
      && (forall i :: 0 <= i < slots.Length && slots[i].conn != null ==>
            && slots[i].conn.servIdx == i
            && (slots[i].conn.isOpen ==> slots[i].conn.linked && slots[i].conn.connectTime <= clock))
    }

    /** There is a master just when some connection is open, and then it is one
        that has been open longest. */
    ghost predicate MasterIsOldest()
      reads this, slots, Conns()
    {
      && (master == null <==> forall c :: c in Conns() ==> !c.isOpen)
      && (master != null ==> IsOldest(master))
    }

    ghost predicate IsOldest(c: Conn)
      reads this, slots, Conns()
    {
      c in Conns() && c.isOpen && forall d :: d in Conns() && d.isOpen ==> c.connectTime <= d.connectTime
    }

    /** The scan of update_master_route_serv_conn keeps the first of the oldest. */
    ghost predicate IsFirstOldest(c: Conn)
      requires Valid()
      reads this, slots, Conns()
    {
      && IsOldest(c)
      && forall k :: 0 <= k < c.servIdx && k < slots.Length && slots[k].conn != null && slots[k].conn.isOpen ==>
           c.connectTime < slots[k].conn.connectTime
    }

    /** serv_init: every server is tried at once; `up` are those whose connect call
        does not fail at once. */
    constructor (count: nat, up: set<nat>)
      ensures Valid() && MasterIsOldest() && slots.Length == count && fresh(slots) && fresh(Conns())
      ensures master == null && clock == 0
      ensures forall i :: 0 <= i < count ==>
                && slots[i].conn != null && slots[i].conn.linked == (i in up) && !slots[i].conn.isOpen
                && slots[i] == ServInfo(0, MIN_RECONNECT_CNT / 2, slots[i].conn)
    {
      slots := new ServInfo[count](_ => ServInfo(0, MIN_RECONNECT_CNT, null));
      master, clock := null, 0;
      new;
      for i := 0 to count
        invariant forall k :: 0 <= k < i ==>
          && slots[k].conn != null && fresh(slots[k].conn) && slots[k].conn.servIdx == k
          && !slots[k].conn.isOpen && slots[k].conn.linked == (k in up)
          && slots[k] == ServInfo(0, MIN_RECONNECT_CNT / 2, slots[k].conn)
        invariant master == null && clock == 0
      {
        var c := new Conn(i, i in up);
        slots[i] := ServInfo(0, MIN_RECONNECT_CNT / 2, c);
      }
    }

    /** update_master_route_serv_conn: the scan keeps the first of the oldest. */
    method UpdateMaster()
      requires Valid()
      modifies this`master
      ensures Valid() && MasterIsOldest() && (master != null ==> IsFirstOldest(master))
    {
      var oldestTime := NEVER;
      var oldest: Conn? := null;
      var i := 0;
      while i < slots.Length
        invariant 0 <= i <= slots.Length
        invariant oldest == null ==> oldestTime == NEVER
        invariant oldest != null ==> oldest in Conns() && oldest.isOpen && oldest.connectTime == oldestTime
        invariant oldest != null ==> forall k ::
                    0 <= k < oldest.servIdx && k < i && slots[k].conn != null && slots[k].conn.isOpen ==>
                    oldestTime < slots[k].conn.connectTime
        invariant oldest != null ==> oldest.servIdx < i
        invariant forall k :: 0 <= k < i && slots[k].conn != null && slots[k].conn.isOpen ==>
                    oldest != null && oldestTime <= slots[k].conn.connectTime
      {
        var c := slots[i].conn;
        if c != null && c.isOpen && c.connectTime < oldestTime {
          oldest, oldestTime := c, c.connectTime;
        }
        i := i + 1;
      }
      master := oldest;
    }

    /** A connection that was being made is confirmed. */
    method OnConfirm(c: Conn, now: nat)
      requires Valid() && MasterIsOldest() && c in Conns() && c.linked && !c.isOpen && clock <= now < NEVER
      modifies this`master, this`clock, c, slots
      ensures Valid() && MasterIsOldest() && Conns() == old(Conns()) && clock == now
      ensures c.isOpen && c.connectTime == now
      ensures forall i :: 0 <= i < slots.Length ==>
                slots[i] == if i == c.servIdx then old(slots[i]).(reconnectCnt := MIN_RECONNECT_CNT / 2) else old(slots[i])
      ensures master == if old(master) != null then old(master) else c
    {
      Holder(slots[..], c);
      clock := now;
      c.isOpen := true;
      c.connectTime := now;
      slots[c.servIdx] := slots[c.servIdx].(reconnectCnt := MIN_RECONNECT_CNT / 2);
      SameConns(old(slots[..]), slots[..]);
      if master == null {
        UpdateMaster();
      }
    }

    /** The connection is lost, or given up. */
    method Close(c: Conn)
      requires Valid() && MasterIsOldest() && c in Conns() && c.linked
      modifies this`master, c`isOpen, slots
      ensures Valid() && MasterIsOldest() && Conns() == old(Conns()) - {c}
      ensures forall i :: 0 <= i < slots.Length ==>
                slots[i] == if i == c.servIdx then ServInfo(0, NextWait(old(slots[i]).reconnectCnt), null) else old(slots[i])
      ensures if old(master) != c then master == old(master) else master != null ==> IsFirstOldest(master)
    {
      slots[c.servIdx] := Reset(slots[c.servIdx]);
      c.isOpen := false;
      assert forall i :: 0 <= i < slots.Length ==> slots[i].conn == if i == c.servIdx then null else old(slots[i].conn);
      assert Conns() == old(Conns()) - {c};
      if master == c {
        UpdateMaster();
      }
    }

    /** serv_check_reconnect, once per timer tick: an empty slot waits, and when
        it has waited long enough it is tried again. */
    method CheckReconnect(up: set<nat>)
      requires Valid() && MasterIsOldest()
      modifies slots
      ensures Valid() && MasterIsOldest()
      ensures forall i :: 0 <= i < slots.Length ==>
                Ticked(old(slots[i]), slots[i]) && Tried(old(slots[i]), slots[i], i in up)
      ensures fresh(Conns() - old(Conns())) && old(Conns()) <= Conns()
    {
      var i := 0;
      while i < slots.Length
        invariant 0 <= i <= slots.Length
        invariant Valid() && MasterIsOldest()
        invariant forall k :: 0 <= k < i ==> Ticked(old(slots[k]), slots[k]) && Tried(old(slots[k]), slots[k], k in up)
        invariant forall k :: i <= k < slots.Length ==> slots[k] == old(slots[k])
        invariant fresh(Conns() - old(Conns())) && old(Conns()) <= Conns()
      {
        TickSlot(i, i in up);
        i := i + 1;
      }
    }

    method TickSlot(i: nat, up: bool)
      requires Valid() && MasterIsOldest() && i < slots.Length
      modifies slots
      ensures Valid() && MasterIsOldest() && Ticked(old(slots[i]), slots[i]) && Tried(old(slots[i]), slots[i], up)
      ensures forall k :: 0 <= k < slots.Length && k != i ==> slots[k] == old(slots[k])
      ensures fresh(Conns() - old(Conns())) && old(Conns()) <= Conns()
    {
      if slots[i].conn != null {
        return;
      }
      ghost var was := slots[..];
      var s := slots[i].(idleCnt := slots[i].idleCnt + 1);
      if s.idleCnt >= s.reconnectCnt {
        var c := new Conn(i, up);
        s := s.(conn := c);
      }
      SlotFilled(was, i, s);
      slots[i] := s;
      assert slots[..] == was[i := s];
    }
  }

  /** serv_reset. */
  function Reset(s: ServInfo): ServInfo {
    ServInfo(0, NextWait(s.reconnectCnt), null)
  }

  /** What a tick does to one slot. */
  predicate Ticked(was: ServInfo, now: ServInfo) {
    if was.conn != null then now == was
    else
      && now.idleCnt == was.idleCnt + 1
      && now.reconnectCnt == was.reconnectCnt
      && (now.conn == null <==> was.idleCnt + 1 < was.reconnectCnt)
  }

  /** A connection made by a tick is new, and linked if the connect call worked. */
  ghost predicate Tried(was: ServInfo, now: ServInfo, up: bool)
    reads now.conn
  {
    was.conn == null && now.conn != null ==> now.conn.linked == up && !now.conn.isOpen
  }

  /** A slot that stays empty is retried after exactly the ticks its wait still
      has to run, and never more than 64. */
  lemma {:induction false} RetriedInTime(history: seq<ServInfo>)
    requires history != [] && SlotValid(history[0]) && history[0].conn == null
    requires forall k :: 0 < k < |history| ==> Ticked(history[k - 1], history[k])
    ensures
      var due := history[0].reconnectCnt - history[0].idleCnt;
      && 0 < due <= MAX_RECONNECT_CNT
      && forall k :: 0 <= k < |history| ==> (history[k].conn != null <==> k >= due)
    decreases |history|
  {
    if |history| > 1 {
      var most := history[..|history| - 1];
      RetriedInTime(most);
      CountsUp(history, |history| - 2);
    }
  }

  lemma {:induction false} CountsUp(history: seq<ServInfo>, k: nat)
    requires history != [] && k < |history| && history[0].conn == null
    requires forall j :: 0 < j < |history| ==> Ticked(history[j - 1], history[j])
    ensures history[k].conn == null ==>
              history[k].idleCnt == history[0].idleCnt + k && history[k].reconnectCnt == history[0].reconnectCnt
    decreases k
  {
    if k > 0 {
      CountsUp(history, k - 1);
    }
  }

  // -------------------------------------------------------------------- runs

  // A connection by what can happen to it: none, one without a handle, one that
  // may be confirmed, one open since a time.
  datatype Link = NoConn | Stuck | Connecting | Open(since: nat)

  datatype Slot = Slot(idle: nat, wait: nat, link: Link)

  // All slots, with the index of the master or -1.
  datatype System = System(slots: seq<Slot>, master: int, clock: nat)

  // What reaches the router. `up` are the servers whose connect call does not fail
  // at once. Only an unconfirmed connection is confirmed, and nothing happens to
  // one without a handle.
  datatype Event = Confirmed(i: nat, now: nat) | Closed(i: nat) | Tick(up: set<nat>)

  function Dialled(up: bool): Link {
    if up then Connecting else Stuck
  }

  /** The first of the oldest open slots, or -1. */
  function Oldest(slots: seq<Slot>): (m: int)
    ensures -1 <= m < |slots| && (m >= 0 ==> slots[m].link.Open?)
    ensures forall k :: 0 <= k < |slots| && slots[k].link.Open? ==>
              && m >= 0 && slots[m].link.since <= slots[k].link.since
              && (k < m ==> slots[m].link.since < slots[k].link.since)
  {
    if slots == [] then -1
    else
      var n := |slots| - 1;
      var m := Oldest(slots[..n]);
      if slots[n].link.Open? && (m == -1 || slots[n].link.since < slots[m].link.since) then n else m
  }

  function TickedSlot(s: Slot, up: bool): Slot {
    if s.link != NoConn then s
    else Slot(s.idle + 1, s.wait, if s.idle + 1 >= s.wait then Dialled(up) else NoConn)
  }

  function Next(sys: System, event: Event): System {
    match event
    case Confirmed(i, now) =>
      if i < |sys.slots| && sys.slots[i].link == Connecting && sys.clock <= now < NEVER then
        System(sys.slots[i := Slot(sys.slots[i].idle, MIN_RECONNECT_CNT / 2, Open(now))],
               if sys.master == -1 then i else sys.master, now)
      else sys
    case Closed(i) =>
      if i < |sys.slots| && (sys.slots[i].link.Connecting? || sys.slots[i].link.Open?) then
        var slots := sys.slots[i := Slot(0, NextWait(sys.slots[i].wait), NoConn)];
        System(slots, if sys.master == i then Oldest(slots) else sys.master, sys.clock)
      else sys
    case Tick(up) =>
      sys.(slots := seq(|sys.slots|, i requires 0 <= i < |sys.slots| => TickedSlot(sys.slots[i], i in up)))
  }

  function Started(count: nat, up: set<nat>): System {
    System(seq(count, i => Slot(0, MIN_RECONNECT_CNT / 2, Dialled(i in up))), -1, 0)
  }

  function After(sys: System, events: seq<Event>): System {
    if events == [] then sys else Next(After(sys, events[..|events| - 1]), events[|events| - 1])
  }

  /** The failed liveness: a slot whose connect call failed at once holds a
      connection that nothing ever confirms, closes or replaces. */
  lemma {:induction false} StuckForever(sys: System, events: seq<Event>, i: nat)
    requires i < |sys.slots| && sys.slots[i].link == Stuck
    ensures |After(sys, events).slots| == |sys.slots| && After(sys, events).slots[i] == sys.slots[i]
    decreases |events|
  {
    if events != [] {
      StuckForever(sys, events[..|events| - 1], i);
    }
  }

  /** Tick `k` of a run makes a connect call for slot `i`, and it fails at once. */
  predicate FailedCall(count: nat, up: set<nat>, events: seq<Event>, k: nat, i: nat)
    requires k < |events| && i < count
  {
    && events[k].Tick? && i !in events[k].up
    && CallsAt(After(Started(count, up), events[..k]), i)
  }

  /** The next tick makes a connect call for slot `i`. */
  predicate CallsAt(sys: System, i: nat) {
    i < |sys.slots| && sys.slots[i].link == NoConn && sys.slots[i].idle + 1 >= sys.slots[i].wait
  }

  ghost predicate SomeCallFailed(count: nat, up: set<nat>, events: seq<Event>, i: nat)
    requires i < count
  {
    i !in up || exists k :: 0 <= k < |events| && FailedCall(count, up, events, k, i)
  }

  /** A slot is stuck after a run, and so for ever, if and only if its first connect
      call or one that a tick of the run made for it failed at once. */
  lemma {:induction false} StuckExactly(count: nat, up: set<nat>, events: seq<Event>, i: nat)
    requires i < count
    ensures
      var slots := After(Started(count, up), events).slots;
      |slots| == count && (slots[i].link == Stuck <==> SomeCallFailed(count, up, events, i))
    decreases |events|
  {
    hide FailedCall, After, Started, SomeCallFailed, Next, Oldest;
    if events == [] {
      StuckAtStart(count, up, i);
    } else {
      var n := |events| - 1;
      StuckExactly(count, up, events[..n], i);
      OneTickMore(count, up, events, i);
      StuckStep(After(Started(count, up), events[..n]), events[n], i);
      LastEvent(count, up, events);
    }
  }

  lemma StuckAtStart(count: nat, up: set<nat>, i: nat)
    requires i < count
    ensures
      var slots := After(Started(count, up), []).slots;
      |slots| == count && (slots[i].link == Stuck <==> SomeCallFailed(count, up, [], i))
  {
  }

  lemma LastEvent(count: nat, up: set<nat>, events: seq<Event>)
    requires events != []
    ensures
      var n := |events| - 1;
      After(Started(count, up), events) == Next(After(Started(count, up), events[..n]), events[n])
  {
    hide Started, Next;
  }

  /** A step makes a slot stuck only by a call that fails, and releases none. */
  lemma StuckStep(sys: System, event: Event, i: nat)
    requires i < |sys.slots|
    ensures
      var slots := Next(sys, event).slots;
      && |slots| == |sys.slots|
      && (slots[i].link == Stuck
          <==> sys.slots[i].link == Stuck || (event.Tick? && i !in event.up && CallsAt(sys, i)))
  {
    hide Oldest;
  }

  lemma OneTickMore(count: nat, up: set<nat>, events: seq<Event>, i: nat)
    requires events != [] && i < count
    ensures
      var n := |events| - 1;
      SomeCallFailed(count, up, events, i)
      <==> SomeCallFailed(count, up, events[..n], i)
           || (events[n].Tick? && i !in events[n].up && CallsAt(After(Started(count, up), events[..n]), i))
  {
    hide After, Started, CallsAt;
    var n := |events| - 1;
    assert forall k :: 0 <= k < n ==> events[..n][..k] == events[..k];
    assert forall k :: 0 <= k < n ==> FailedCall(count, up, events[..n], k, i) == FailedCall(count, up, events, k, i);
    assert FailedCall(count, up, events, n, i)
      == (events[n].Tick? && i !in events[n].up && CallsAt(After(Started(count, up), events[..n]), i));
  }

  /** One server whose first connect call fails is never connected again, although
      every later call would work. */
  lemma {:induction false} DeadFromTheStart(events: seq<Event>)
    ensures After(Started(1, {}), events).slots == [Slot(0, MIN_RECONNECT_CNT / 2, Stuck)]
  {
    StuckForever(Started(1, {}), events, 0);
  }

  ghost predicate ShowsSlot(s: ServInfo, v: Slot)
    reads s.conn
  {
    && s.idleCnt == v.idle && s.reconnectCnt == v.wait
    && match v.link
       case NoConn => s.conn == null
       case Stuck => s.conn != null && !s.conn.linked && !s.conn.isOpen
       case Connecting => s.conn != null && s.conn.linked && !s.conn.isOpen
       case Open(since) => s.conn != null && s.conn.linked && s.conn.isOpen && s.conn.connectTime == since
  }

  /** The router's fields are those of the system. */
  ghost predicate Shows(r: Router, sys: System)
    reads r, r.slots, r.Conns()
  {
    && |sys.slots| == r.slots.Length && sys.clock == r.clock
    && (forall i :: 0 <= i < r.slots.Length ==> ShowsSlot(r.slots[i], sys.slots[i]))
    && ShowsMaster(r, sys.master)
  }

  ghost predicate ShowsMaster(r: Router, master: int)
    reads r, r.slots
  {
    if master == -1 then r.master == null
    else 0 <= master < r.slots.Length && r.master != null && r.slots[master].conn == r.master
  }

  lemma StartIsShown(r: Router, count: nat, up: set<nat>)
    requires r.slots.Length == count && r.master == null && r.clock == 0
    requires forall i :: 0 <= i < count ==>
               && r.slots[i].conn != null && r.slots[i].conn.linked == (i in up) && !r.slots[i].conn.isOpen
               && r.slots[i] == ServInfo(0, MIN_RECONNECT_CNT / 2, r.slots[i].conn)
    ensures Shows(r, Started(count, up))
  {
  }

  /** Every run keeps the oldest open connection as master, and every slot, the
      master and the clock are what the events make of them. */
  method AnyRun(count: nat, up: set<nat>, events: seq<Event>) returns (r: Router)
    ensures r.slots.Length == count && r.Valid() && r.MasterIsOldest()
    ensures Shows(r, After(Started(count, up), events))
  {
    hide Next, Oldest, Started, ShowsSlot, SlotValid, ConnsOf;
    r := new Router(count, up);
    ghost var sys := Started(count, up);
    StartIsShown(r, count, up);
    assert events[..0] == [];
    for k := 0 to |events|
      invariant r.slots.Length == count && r.Valid() && r.MasterIsOldest()
      invariant Shows(r, sys) && sys == After(Started(count, up), events[..k])
      invariant fresh(r) && fresh(r.slots) && fresh(r.Conns())
    {
      assert events[..k + 1][..k] == events[..k];
      OneEvent(r, sys, events[k]);
      sys := Next(sys, events[k]);
    }
    assert events[..|events|] == events;
  }

  method OneEvent(r: Router, ghost sys: System, event: Event)
    requires r.Valid() && r.MasterIsOldest() && Shows(r, sys)
    modifies r, r.slots, r.Conns()
    ensures r.Valid() && r.MasterIsOldest() && Shows(r, Next(sys, event))
    ensures fresh(r.Conns() - old(r.Conns()))
  {
    match event {
      case Confirmed(i, now) => Confirm(r, sys, i, now);
      case Closed(i) => CloseSlot(r, sys, i);
      case Tick(up) => TickAll(r, sys, up);
    }
  }

  method Confirm(r: Router, ghost sys: System, i: nat, now: nat)
    requires r.Valid() && r.MasterIsOldest() && Shows(r, sys)
    modifies r, r.slots, r.Conns()
    ensures r.Valid() && r.MasterIsOldest() && Shows(r, Next(sys, Confirmed(i, now)))
    ensures r.Conns() == old(r.Conns())
  {
    hide SlotValid, ConnsOf, Oldest;
    ghost var next := Next(sys, Confirmed(i, now));
    if i < r.slots.Length {
      assert ShowsSlot(r.slots[i], sys.slots[i]);
      var c := r.slots[i].conn;
      if c != null && c.linked && !c.isOpen && r.clock <= now < NEVER {
        assert c in r.Conns() by { InSlot(r.slots[..], i); }
        r.OnConfirm(c, now);
        assert ShowsSlot(r.slots[i], next.slots[i]);
        forall k | 0 <= k < r.slots.Length && k != i ensures ShowsSlot(r.slots[k], next.slots[k]) {
          assert old(ShowsSlot(r.slots[k], sys.slots[k]));
          assert r.slots[k].conn != c;
        }
      }
    }
  }

  lemma InSlot(slots: seq<ServInfo>, i: nat)
    requires i < |slots| && slots[i].conn != null
    ensures slots[i].conn in ConnsOf(slots)
  {
  }

  method CloseSlot(r: Router, ghost sys: System, i: nat)
    requires r.Valid() && r.MasterIsOldest() && Shows(r, sys)
    modifies r, r.slots, r.Conns()
    ensures r.Valid() && r.MasterIsOldest() && Shows(r, Next(sys, Closed(i)))
    ensures r.Conns() <= old(r.Conns())
  {
    hide SlotValid, ConnsOf, Oldest;
    ghost var next := Next(sys, Closed(i));
    if i < r.slots.Length {
      assert ShowsSlot(r.slots[i], sys.slots[i]);
      var c := r.slots[i].conn;
      if c != null && c.linked {
        assert c in r.Conns() by { InSlot(r.slots[..], i); }
        r.Close(c);
        assert ShowsSlot(r.slots[i], next.slots[i]);
        forall k | 0 <= k < r.slots.Length && k != i ensures ShowsSlot(r.slots[k], next.slots[k]) {
          assert old(ShowsSlot(r.slots[k], sys.slots[k]));
          assert r.slots[k].conn != c;
        }
        if sys.master == i {
          MasterIsFirst(r, next.slots);
        }
      }
    }
  }

  lemma MasterIsFirst(r: Router, slots: seq<Slot>)
    requires r.Valid() && r.MasterIsOldest() && (r.master != null ==> r.IsFirstOldest(r.master))
    requires |slots| == r.slots.Length && forall k :: 0 <= k < r.slots.Length ==> ShowsSlot(r.slots[k], slots[k])
    ensures ShowsMaster(r, Oldest(slots))
  {
    var m := Oldest(slots);
    if m == -1 {
      forall c | c in r.Conns() ensures !c.isOpen {
        var k :| 0 <= k < r.slots.Length && r.slots[k].conn == c;
        assert !slots[k].link.Open?;
      }
    } else {
      assert r.slots[m].conn in r.Conns();
    }
  }

  method TickAll(r: Router, ghost sys: System, up: set<nat>)
    requires r.Valid() && r.MasterIsOldest() && Shows(r, sys)
    modifies r.slots
    ensures r.Valid() && r.MasterIsOldest() && Shows(r, Next(sys, Tick(up)))
    ensures fresh(r.Conns() - old(r.Conns()))
  {
    hide SlotValid, ConnsOf, Oldest;
    ghost var next := Next(sys, Tick(up));
    r.CheckReconnect(up);
    forall k | 0 <= k < r.slots.Length ensures ShowsSlot(r.slots[k], next.slots[k]) {
      assert old(ShowsSlot(r.slots[k], sys.slots[k]));
      assert next.slots[k] == TickedSlot(sys.slots[k], k in up);
    }
  }
}
