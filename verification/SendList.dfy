// The messages a CMsgConn has sent down and that are not acknowledged yet.
module SendList {

  const ACK_TIMEOUT := 15000

  // Tick counts are milliseconds since the epoch, far from 64 bits.
  datatype MsgAck = MsgAck(msgId: nat, fromId: nat, timestamp: nat)

  predicate Sorted(s: seq<MsgAck>) {
    forall i, j :: 0 <= i < j < |s| ==> s[i].timestamp <= s[j].timestamp
  }

  predicate Expired(m: MsgAck, now: nat) {
    now >= m.timestamp + ACK_TIMEOUT
  }

  /** The full scan that the early break saves. */
  function Alive(s: seq<MsgAck>, now: nat): seq<MsgAck> {
    if s == [] then []
    else (if Expired(s[0], now) then [] else [s[0]]) + Alive(s[1..], now)
  }

  function Dead(s: seq<MsgAck>, now: nat): seq<MsgAck> {
    if s == [] then []
    else (if Expired(s[0], now) then [s[0]] else []) + Dead(s[1..], now)
  }

  predicate Matches(m: MsgAck, msgId: nat, fromId: nat) {
    m.msgId == msgId && m.fromId == fromId
  }

  /** The list without the first message that matches. */
  function WithoutFirst(s: seq<MsgAck>, msgId: nat, fromId: nat): seq<MsgAck> {
    if s == [] then []
    else if Matches(s[0], msgId, fromId) then s[1..]
    else [s[0]] + WithoutFirst(s[1..], msgId, fromId)
  }

  function FirstMatch(s: seq<MsgAck>, msgId: nat, fromId: nat): seq<MsgAck> {
    if s == [] then []
    else if Matches(s[0], msgId, fromId) then [s[0]]
    else FirstMatch(s[1..], msgId, fromId)
  }

  /** Once one message of a sorted list is alive, so is every later one. */
  lemma {:induction false} AllAlive(s: seq<MsgAck>, now: nat)
    requires Sorted(s) && (s != [] ==> !Expired(s[0], now))
    ensures Alive(s, now) == s && Dead(s, now) == []
    decreases |s|
  {
    if s != [] {
      AllAlive(s[1..], now);
    }
  }

  lemma {:induction false} FindInMiddle(before: seq<MsgAck>, s: seq<MsgAck>, msgId: nat, fromId: nat)
    requires forall i :: 0 <= i < |before| ==> !Matches(before[i], msgId, fromId)
    ensures WithoutFirst(before + s, msgId, fromId) == before + WithoutFirst(s, msgId, fromId)
    ensures FirstMatch(before + s, msgId, fromId) == FirstMatch(s, msgId, fromId)
    decreases |before|
  {
    if before != [] {
      FindInMiddle(before[1..], s, msgId, fromId);
      assert (before + s)[1..] == before[1..] + s;
    } else {
      assert before + s == s;
    }
  }

  lemma TakeAt(s: seq<MsgAck>, i: nat, msgId: nat, fromId: nat)
    requires i < |s| && Matches(s[i], msgId, fromId) && forall k :: 0 <= k < i ==> !Matches(s[k], msgId, fromId)
    ensures WithoutFirst(s, msgId, fromId) == s[..i] + s[i + 1..] && FirstMatch(s, msgId, fromId) == [s[i]]
    ensures Sorted(s) ==> Sorted(s[..i] + s[i + 1..])
  {
    FindInMiddle(s[..i], s[i..], msgId, fromId);
    assert s == s[..i] + s[i..] && s[i..][1..] == s[i + 1..];
  }

  lemma TakeNone(s: seq<MsgAck>, msgId: nat, fromId: nat)
    requires forall k :: 0 <= k < |s| ==> !Matches(s[k], msgId, fromId)
    ensures WithoutFirst(s, msgId, fromId) == s && FirstMatch(s, msgId, fromId) == []
  {
    FindInMiddle(s, [], msgId, fromId);
    assert s + [] == s;
  }

  /** Every message added is in exactly one of the three, as often as it was
      added. */
  ghost predicate Conserved(added: seq<MsgAck>, pending: seq<MsgAck>, acked: seq<MsgAck>, missed: seq<MsgAck>) {
    multiset(added) == multiset(pending) + multiset(acked) + multiset(missed)
  }

  lemma AddingConserves(added: seq<MsgAck>, pending: seq<MsgAck>, acked: seq<MsgAck>, missed: seq<MsgAck>, m: MsgAck)
    requires Conserved(added, pending, acked, missed)
    ensures Conserved(added + [m], pending + [m], acked, missed)
  {
  }

  lemma AckingConserves(added: seq<MsgAck>, a: seq<MsgAck>, m: MsgAck, b: seq<MsgAck>, acked: seq<MsgAck>, missed: seq<MsgAck>)
    requires Conserved(added, a + [m] + b, acked, missed)
    ensures Conserved(added, a + b, acked + [m], missed)
  {
  }

  lemma MissingConserves(added: seq<MsgAck>, m: MsgAck, rest: seq<MsgAck>, acked: seq<MsgAck>, missed: seq<MsgAck>)
    requires Conserved(added, [m] + rest, acked, missed)
    ensures Conserved(added, rest, acked, missed + [m])
  {
  }

  lemma Counted(added: seq<MsgAck>, pending: seq<MsgAck>, acked: seq<MsgAck>, missed: seq<MsgAck>)
    requires Conserved(added, pending, acked, missed)
    ensures |added| == |pending| + |acked| + |missed|
  {
    assert |multiset(added)| == |multiset(pending)| + |multiset(acked)| + |multiset(missed)|;
  }

  class MsgConn {
    var sendList: seq<MsgAck>
    var totalCount: nat
    var missCount: nat
    ghost var clock: nat
    // Everything ever added, acknowledged, and given up, with the time of giving up.
    ghost var added: seq<MsgAck>
    ghost var acked: seq<MsgAck>
    ghost var missed: seq<MsgAck>

    /** Every message added is pending, acknowledged or missed, and none twice. */
    ghost predicate Valid()
      reads this
    {
      && Sorted(sendList)
      && (forall i :: 0 <= i < |sendList| ==> sendList[i].timestamp <= clock)
      && Conserved(added, sendList, acked, missed)
      && totalCount == |added| && missCount == |missed|
      && (forall i :: 0 <= i < |missed| ==> Expired(missed[i], clock))
    }

    constructor ()
      ensures Valid() && added == sendList == acked == missed == [] && clock == 0
    {
      sendList, totalCount, missCount, clock := [], 0, 0, 0;
      added, acked, missed := [], [], [];
    }

    method AddToSendList(msgId: nat, fromId: nat, now: nat)
      requires Valid() && now >= clock
      modifies this
      ensures Valid() && clock == now
      ensures sendList == old(sendList) + [MsgAck(msgId, fromId, now)]
      ensures added == old(added) + [MsgAck(msgId, fromId, now)] && acked == old(acked) && missed == old(missed)
    {
      hide Conserved;
      var msg := MsgAck(msgId, fromId, now);
      AddingConserves(added, sendList, acked, missed, msg);
      sendList := sendList + [msg];
      totalCount := totalCount + 1;
      added := added + [msg];
      clock := now;
    }

    /** An acknowledgement takes the first matching message, if there is one. */
    method DelFromSendList(msgId: nat, fromId: nat)
      requires Valid()
      modifies this`sendList, this`acked
      ensures Valid()
      ensures sendList == WithoutFirst(old(sendList), msgId, fromId)
      ensures acked == old(acked) + FirstMatch(old(sendList), msgId, fromId)
    {
      hide Conserved, Sorted, WithoutFirst, FirstMatch;
      var i := 0;
      while i < |sendList|
        invariant 0 <= i <= |sendList| && sendList == old(sendList) && acked == old(acked)
        invariant forall k :: 0 <= k < i ==> !Matches(sendList[k], msgId, fromId)
      {
        if Matches(sendList[i], msgId, fromId) {
          TakeAt(sendList, i, msgId, fromId);
          ghost var before, m, rest := sendList[..i], sendList[i], sendList[i + 1..];
          assert sendList == before + [m] + rest;
          AckingConserves(added, before, m, rest, acked, missed);
          acked := acked + [m];
          sendList := sendList[..i] + sendList[i + 1..];
          return;
        }
        i := i + 1;
      }
      TakeNone(sendList, msgId, fromId);
    }

    /** The oldest message is counted as missed. */
    method MissFirst()
      requires Valid() && sendList != [] && Expired(sendList[0], clock)
      modifies this`sendList, this`missCount, this`missed
      ensures Valid() && sendList == old(sendList)[1..] && missed == old(missed) + [old(sendList)[0]]
    {
      hide Conserved;
      missCount := missCount + 1;
      ghost var rest := sendList[1..];
      assert sendList == [sendList[0]] + rest;
      MissingConserves(added, sendList[0], rest, acked, missed);
      missed := missed + [sendList[0]];
      sendList := sendList[1..];
    }

    /** The timer loop stops at the first message that is still in time, and yet
        has removed every expired one and no other. */
    method OnTimer(now: nat)
      requires Valid() && now >= clock
      modifies this
      ensures Valid() && clock == now
      ensures sendList == Alive(old(sendList), now)
      ensures missed == old(missed) + Dead(old(sendList), now)
      ensures added == old(added) && acked == old(acked)
    {
      hide Conserved;
      clock := now;
      while sendList != []
        invariant Valid() && clock == now && added == old(added) && acked == old(acked)
        invariant Alive(sendList, now) == Alive(old(sendList), now)
        invariant missed + Dead(sendList, now) == old(missed) + Dead(old(sendList), now)
        decreases |sendList|
      {
        var msg := sendList[0];
        if now >= msg.timestamp + ACK_TIMEOUT {
          assert missed + ([msg] + Dead(sendList[1..], now)) == missed + [msg] + Dead(sendList[1..], now);
          MissFirst();
        } else {
          break;
        }
      }
      AllAlive(sendList, now);
    }
  }

  // --------------------------------------------------------------------- runs

  datatype Event = Add(msgId: nat, fromId: nat) | Ack(msgId: nat, fromId: nat) | Timer

  // The four lists as one value.
  datatype Lists = Lists(added: seq<MsgAck>, pending: seq<MsgAck>, acked: seq<MsgAck>, missed: seq<MsgAck>)

  function Next(l: Lists, now: nat, event: Event): Lists {
    match event
    case Add(msgId, fromId) =>
      var m := MsgAck(msgId, fromId, now);
      l.(added := l.added + [m], pending := l.pending + [m])
    case Ack(msgId, fromId) =>
      l.(pending := WithoutFirst(l.pending, msgId, fromId), acked := l.acked + FirstMatch(l.pending, msgId, fromId))
    case Timer =>
      l.(pending := Alive(l.pending, now), missed := l.missed + Dead(l.pending, now))
  }

  function After(events: seq<(nat, Event)>): Lists {
    if events == [] then Lists([], [], [], [])
    else
      var last := events[|events| - 1];
      Next(After(events[..|events| - 1]), last.0, last.1)
  }

  /** The messages that the events of a run add. */
  function AddsOf(events: seq<(nat, Event)>): seq<MsgAck> {
    if events == [] then []
    else
      var (now, event) := events[0];
      (if event.Add? then [MsgAck(event.msgId, event.fromId, now)] else []) + AddsOf(events[1..])
  }

  /** Any run on a clock that never goes back. */
  method AnyRun(events: seq<(nat, Event)>) returns (c: MsgConn)
    requires forall i, j :: 0 <= i < j < |events| ==> events[i].0 <= events[j].0
    ensures c.Valid() && c.added == AddsOf(events)
    ensures After(events) == Lists(c.added, c.sendList, c.acked, c.missed)
    ensures c.totalCount == |AddsOf(events)| == |c.sendList| + |c.acked| + c.missCount
    ensures |events| > 0 && events[|events| - 1].1.Timer? ==>
              forall m :: m in c.sendList ==> !Expired(m, events[|events| - 1].0)
  {
    hide Conserved, Sorted, Alive, Dead, WithoutFirst, FirstMatch;
    c := new MsgConn();
    assert events[..0] == [];
    for k := 0 to |events|
      invariant c.Valid() && fresh(c) && (k > 0 ==> c.clock <= events[k - 1].0) && (k == 0 ==> c.clock == 0)
      invariant After(events[..k]) == Lists(c.added, c.sendList, c.acked, c.missed)
      invariant k > 0 && events[k - 1].1.Timer? ==> forall m :: m in c.sendList ==> !Expired(m, events[k - 1].0)
    {
      var (now, event) := events[k];
      assert events[..k + 1][..k] == events[..k];
      match event {
        case Add(msgId, fromId) =>
          c.AddToSendList(msgId, fromId, now);
        case Ack(msgId, fromId) =>
          c.DelFromSendList(msgId, fromId);
        case Timer =>
          ghost var was := c.sendList;
          c.OnTimer(now);
          AliveAreAlive(was, now);
      }
    }
    assert events[..|events|] == events;
    AddsAreAdded(events);
    Counted(c.added, c.sendList, c.acked, c.missed);
  }

  lemma {:induction false} AddsAreAdded(events: seq<(nat, Event)>)
    ensures After(events).added == AddsOf(events)
    decreases |events|
  {
    if events != [] {
      var n := |events| - 1;
      AddsAreAdded(events[..n]);
      AddsJoin(events[..n], events[n..]);
      assert events[..n] + events[n..] == events;
    }
  }

  lemma {:induction false} AddsJoin(a: seq<(nat, Event)>, b: seq<(nat, Event)>)
    ensures AddsOf(a + b) == AddsOf(a) + AddsOf(b)
    decreases |a|
  {
    if a == [] {
      assert a + b == b;
    } else {
      AddsJoin(a[1..], b);
      assert (a + b)[1..] == a[1..] + b;
    }
  }

  // ------------------------------------------------------------ one message's fate

  /** Event `j` ends the wait of message `m`: its acknowledgement, or a timer that
      finds it expired. */
  predicate Ends(events: seq<(nat, Event)>, j: nat, m: MsgAck)
    requires j < |events|
  {
    events[j].1 == Ack(m.msgId, m.fromId) || (events[j].1.Timer? && Expired(m, events[j].0))
  }

  /** The first event from `j` on that ends the wait of `m`. */
  function FirstEnd(events: seq<(nat, Event)>, j: nat, m: MsgAck): (e: nat)
    requires j <= |events|
    ensures j <= e <= |events| && (e < |events| ==> Ends(events, e, m))
    ensures forall k :: j <= k < e ==> !Ends(events, k, m)
    decreases |events| - j
  {
    if j == |events| || Ends(events, j, m) then j else FirstEnd(events, j + 1, m)
  }

  predicate AddsAt(events: seq<(nat, Event)>, i: nat, msgId: nat, fromId: nat)
    requires i < |events|
  {
    events[i].1 == Add(msgId, fromId)
  }

  predicate AddedOnceAt(events: seq<(nat, Event)>, i: nat, msgId: nat, fromId: nat) {
    && i < |events| && AddsAt(events, i, msgId, fromId)
    && forall k :: 0 <= k < |events| && k != i ==> !AddsAt(events, k, msgId, fromId)
  }

  /** Where the message is after the events, told from the events: pending until
      the first event that ends its wait, and then acknowledged or missed, as that
      first event was its acknowledgement or a timer; and never in two lists. */
  lemma {:induction false} Fate(events: seq<(nat, Event)>, i: nat, msgId: nat, fromId: nat)
    requires i < |events| && AddedOnceAt(events, i, msgId, fromId)
    ensures
      var m := MsgAck(msgId, fromId, events[i].0);
      var l := After(events);
      var e := FirstEnd(events, i + 1, m);
      && (m in l.pending <==> e == |events|)
      && (m in l.acked <==> e < |events| && events[e].1.Ack?)
      && (m in l.missed <==> e < |events| && events[e].1.Timer?)
    decreases |events|
  {
    hide AddedOnceAt, Alive, Dead, WithoutFirst, FirstMatch, After, Expired;
    var n := |events| - 1;
    var m := MsgAck(msgId, fromId, events[i].0);
    var before := After(events[..n]);
    assert After(events) == Next(before, events[n].0, events[n].1) by { OneMore(events); }
    if i == n {
      OnlyThis(events, i, msgId, fromId);
      NoneBefore(events[..n], msgId, fromId);
      assert Matches(m, msgId, fromId);
    } else {
      OnlyThis(events, i, msgId, fromId);
      Fate(events[..n], i, msgId, fromId);
      OneEndMore(events, i + 1, m);
      SameId(events[..n], i, msgId, fromId);
      match events[n].1 {
        case Add(_, _) =>
        case Ack(id, from) =>
          Taken(before.pending, m, id, from);
        case Timer =>
          AliveAreAlive(before.pending, events[n].0);
          DeadAreDead(before.pending, events[n].0);
      }
    }
  }

  lemma OneMore(events: seq<(nat, Event)>)
    requires events != []
    ensures After(events) == Next(After(events[..|events| - 1]), events[|events| - 1].0, events[|events| - 1].1)
  {
  }

  lemma OnlyThis(events: seq<(nat, Event)>, i: nat, msgId: nat, fromId: nat)
    requires AddedOnceAt(events, i, msgId, fromId)
    ensures
      var n := |events| - 1;
      && i <= n
      && events[i].1 == Add(msgId, fromId)
      && (i < n ==> AddedOnceAt(events[..n], i, msgId, fromId) && events[n].1 != Add(msgId, fromId))
      && (i == n ==> forall k :: 0 <= k < n ==> !AddsAt(events[..n], k, msgId, fromId))
  {
    var n := |events| - 1;
    assert forall k :: 0 <= k < n ==> AddsAt(events[..n], k, msgId, fromId) == AddsAt(events, k, msgId, fromId);
    assert AddsAt(events, n, msgId, fromId) == (events[n].1 == Add(msgId, fromId));
  }

  /** One event more can end a wait only if nothing ended it before. */
  lemma {:induction false} OneEndMore(events: seq<(nat, Event)>, j: nat, m: MsgAck)
    requires events != [] && j < |events|
    ensures
      var n := |events| - 1;
      var e := FirstEnd(events[..n], j, m);
      FirstEnd(events, j, m) == if e < n then e else if Ends(events, n, m) then n else |events|
  {
    var n := |events| - 1;
    assert forall k :: 0 <= k < n ==> Ends(events[..n], k, m) == Ends(events, k, m);
    var e, f := FirstEnd(events[..n], j, m), FirstEnd(events, j, m);
    assert forall k :: j <= k < e ==> !Ends(events, k, m);
    if e < n {
      assert Ends(events, e, m);
    }
  }

  /** A message with an id that nothing added is in no list. */
  lemma {:induction false} NoneBefore(events: seq<(nat, Event)>, msgId: nat, fromId: nat)
    requires forall k :: 0 <= k < |events| ==> !AddsAt(events, k, msgId, fromId)
    ensures forall x :: x in After(events).pending + After(events).acked + After(events).missed ==>
              !Matches(x, msgId, fromId)
    decreases |events|
  {
    hide Alive, Dead, WithoutFirst, FirstMatch, Expired;
    if events != [] {
      var n := |events| - 1;
      assert forall k :: 0 <= k < n ==> AddsAt(events[..n], k, msgId, fromId) == AddsAt(events, k, msgId, fromId);
      assert !AddsAt(events, n, msgId, fromId);
      NoneBefore(events[..n], msgId, fromId);
      MovedOnly(After(events[..n]), events[n].0, events[n].1);
    }
  }

  /** The messages in the three lists after an event were there before it, or are
      the one it adds. */
  lemma MovedOnly(l: Lists, now: nat, event: Event)
    ensures
      var r := Next(l, now, event);
      forall x :: x in r.pending + r.acked + r.missed ==>
        x in l.pending + l.acked + l.missed || (event.Add? && x == MsgAck(event.msgId, event.fromId, now))
  {
    match event {
      case Add(_, _) =>
      case Ack(msgId, fromId) => PartsOf(l.pending, msgId, fromId);
      case Timer =>
        AliveAreAlive(l.pending, now);
        DeadAreDead(l.pending, now);
    }
  }

  lemma {:induction false} PartsOf(s: seq<MsgAck>, msgId: nat, fromId: nat)
    ensures forall x :: x in s <==> x in WithoutFirst(s, msgId, fromId) || x in FirstMatch(s, msgId, fromId)
    ensures forall x :: x in FirstMatch(s, msgId, fromId) ==> Matches(x, msgId, fromId)
    decreases |s|
  {
    if s != [] {
      PartsOf(s[1..], msgId, fromId);
    }
  }

  /** A message whose id was added once is the only one with that id, and it is
      pending at most once. */
  lemma {:induction false} SameId(events: seq<(nat, Event)>, i: nat, msgId: nat, fromId: nat)
    requires i < |events| && AddedOnceAt(events, i, msgId, fromId)
    ensures Single(After(events).pending, MsgAck(msgId, fromId, events[i].0))
    decreases |events|
  {
    hide AddedOnceAt, Alive, Dead, WithoutFirst, FirstMatch, Expired;
    var n := |events| - 1;
    var m := MsgAck(msgId, fromId, events[i].0);
    OnlyThis(events, i, msgId, fromId);
    var before := After(events[..n]).pending;
    if i == n {
      NoneBefore(events[..n], msgId, fromId);
      assert forall k :: 0 <= k < |before| ==>
          before[k] in before + After(events[..n]).acked + After(events[..n]).missed;
    } else {
      SameId(events[..n], i, msgId, fromId);
      match events[n].1 {
        case Add(_, _) =>
        case Ack(id, from) => SingleTaken(before, m, id, from);
        case Timer => SingleAlive(before, m, events[n].0);
      }
    }
  }

  /** No other message in the list has the id of `m`, and `m` is there at most once. */
  ghost predicate Single(s: seq<MsgAck>, m: MsgAck) {
    && (forall k :: 0 <= k < |s| && Matches(s[k], m.msgId, m.fromId) ==> s[k] == m)
    && (forall k, l :: 0 <= k < l < |s| ==> !(s[k] == m && s[l] == m))
  }

  lemma {:induction false} SingleTaken(s: seq<MsgAck>, m: MsgAck, msgId: nat, fromId: nat)
    requires Single(s, m)
    ensures Single(WithoutFirst(s, msgId, fromId), m)
    decreases |s|
  {
    if s != [] {
      PartsOf(s[1..], msgId, fromId);
      SingleTaken(s[1..], m, msgId, fromId);
    }
  }

  lemma {:induction false} SingleAlive(s: seq<MsgAck>, m: MsgAck, now: nat)
    requires Single(s, m)
    ensures Single(Alive(s, now), m)
    decreases |s|
  {
    if s != [] {
      AliveAreAlive(s[1..], now);
      SingleAlive(s[1..], m, now);
    }
  }

  /** Taking the first message with an id takes `m` exactly if it is its id. */
  lemma {:induction false} Taken(s: seq<MsgAck>, m: MsgAck, msgId: nat, fromId: nat)
    requires Single(s, m)
    ensures m in FirstMatch(s, msgId, fromId) <==> m in s && Matches(m, msgId, fromId)
    ensures m in WithoutFirst(s, msgId, fromId) <==> m in s && !Matches(m, msgId, fromId)
    decreases |s|
  {
    if s != [] {
      Taken(s[1..], m, msgId, fromId);
      PartsOf(s, msgId, fromId);
    }
  }

  lemma {:induction false} DeadAreDead(s: seq<MsgAck>, now: nat)
    ensures forall m :: m in Dead(s, now) <==> m in s && Expired(m, now)
    decreases |s|
  {
    if s != [] {
      DeadAreDead(s[1..], now);
    }
  }

  lemma {:induction false} AliveAreAlive(s: seq<MsgAck>, now: nat)
    ensures forall m :: m in Alive(s, now) <==> m in s && !Expired(m, now)
    decreases |s|
  {
    if s != [] {
      AliveAreAlive(s[1..], now);
    }
  }
}
