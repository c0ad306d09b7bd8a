// OnlineTransferTask: the rendezvous of a sender and a receiver.
module OnlineTask {
  import opened Bytes
  import opened TransferTypes

  // Everything that reaches a task, accepted or not.
  datatype Event =
    | Join(userId: uint32, role: Role)
    | Data(userId: uint32)
    | Pull
    | ConnClosed

  datatype Users = Users(fromUser: uint32, toUser: uint32) {

    /** CheckByUserIDAndFileRole. */
    predicate MayJoin(userId: uint32, role: Role) {
      match role
      case RealtimeSender => userId == fromUser
      case RealtimeReceiver => userId == toUser
      case _ => false
    }
  }

  // ---------------------------------------------- the history, looked back on

  predicate SenderCame(u: Users, events: seq<Event>) {
    Join(u.fromUser, RealtimeSender) in events
  }

  predicate ReceiverCame(u: Users, events: seq<Event>) {
    Join(u.toUser, RealtimeReceiver) in events
  }

  predicate BothCame(u: Users, events: seq<Event>) {
    SenderCame(u, events) && ReceiverCame(u, events)
  }

  /** Data moved: the sender pushed, or somebody pulled, after both had come. */
  ghost predicate Moved(u: Users, events: seq<Event>) {
    exists i :: 0 <= i < |events| && MovesAt(u, events, i)
  }

  predicate MovesAt(u: Users, events: seq<Event>, i: nat)
    requires i < |events|
  {
    (events[i] == Data(u.fromUser) || events[i] == Pull) && BothCame(u, events[..i])
  }

  /** The state, told from the history alone and not step by step. */
  ghost function StateAfter(u: Users, events: seq<Event>): State {
    if ConnClosed in events then Invalid
    else if BothCame(u, events) then (if Moved(u, events) then Transferring else WaitingTransfer)
    else if SenderCame(u, events) then WaitingReceiver
    else if ReceiverCame(u, events) then WaitingSender
    else Ready
  }

  lemma OneMore(u: Users, events: seq<Event>, e: Event)
    ensures forall x :: x in events + [e] <==> x in events || x == e
    ensures Moved(u, events + [e]) <==> Moved(u, events) || ((e == Data(u.fromUser) || e == Pull) && BothCame(u, events))
  {
    var longer := events + [e];
    if Moved(u, events) {
      var i :| 0 <= i < |events| && MovesAt(u, events, i);
      assert longer[..i] == events[..i];
      assert MovesAt(u, longer, i);
    }
    if Moved(u, longer) {
      var i :| 0 <= i < |longer| && MovesAt(u, longer, i);
      if i < |events| {
        assert longer[..i] == events[..i];
        assert MovesAt(u, events, i);
      }
    }
    assert longer[..|events|] == events;
    if (e == Data(u.fromUser) || e == Pull) && BothCame(u, events) {
      assert MovesAt(u, longer, |events|);
    }
  }

  /** Without both joins nothing is ever accepted. */
  lemma TransferNeedsBoth(u: Users, events: seq<Event>)
    ensures StateAfter(u, events) in {WaitingTransfer, Transferring} <==> BothCame(u, events) && ConnClosed !in events
  {
  }

  predicate WaitsFor(s: State, role: Role) {
    || s == Ready
    || (s == WaitingReceiver && role == RealtimeReceiver)
    || (s == WaitingSender && role == RealtimeSender)
  }

  /** A join is answered with true and changes the state exactly if nobody came
      before, or the one who came before waits for just this role. */
  lemma JoinTakesEffect(u: Users, events: seq<Event>, userId: uint32, role: Role)
    ensures
      var was := StateAfter(u, events);
      u.MayJoin(userId, role) && StateAfter(u, events + [Join(userId, role)]) != was
      <==> u.MayJoin(userId, role) && WaitsFor(was, role)
  {
    OneMore(u, events, Join(userId, role));
  }

  /** The sender who joins twice is told yes twice, and the second time nothing
      changes. */
  lemma SecondJoinIsAnsweredTrue(u: Users)
    ensures
      var join := Join(u.fromUser, RealtimeSender);
      && u.MayJoin(u.fromUser, RealtimeSender)
      && StateAfter(u, [join]) == WaitingReceiver == StateAfter(u, [join] + [join])
  {
    OneMore(u, [Join(u.fromUser, RealtimeSender)], Join(u.fromUser, RealtimeSender));
  }

  /** A closed task stays closed whatever happens next. */
  lemma ClosedForGood(u: Users, events: seq<Event>, more: seq<Event>)
    requires StateAfter(u, events) == Invalid
    ensures StateAfter(u, events + more) == Invalid
  {
    assert ConnClosed in events ==> ConnClosed in events + more;
  }

  class Task {
    const users: Users
    var state: State
    ghost var events: seq<Event>

    ghost predicate Valid()
      reads this
    {
      state == StateAfter(users, events)
    }

    constructor (users: Users)
      ensures Valid() && this.users == users && events == []
    {
      this.users, state, events := users, Ready, [];
    }

    /** The answer only says that the role fits the user; the state need not
        have changed. */
    method ChangePullState(userId: uint32, role: Role) returns (rv: bool)
      requires Valid()
      modifies this
      ensures Valid() && events == old(events) + [Join(userId, role)]
      ensures rv == users.MayJoin(userId, role)
      ensures rv && state != old(state) <==> users.MayJoin(userId, role) && WaitsFor(old(state), role)
    {
      JoinTakesEffect(users, events, userId, role);
      OneMore(users, events, Join(userId, role));
      events := events + [Join(userId, role)];
      rv := users.MayJoin(userId, role);
      if !rv {
        return;
      }
      if state != Ready && state != WaitingSender && state != WaitingReceiver {
        return;
      }
      if state == Ready {
        if role == RealtimeSender {
          state := WaitingReceiver;
        } else {
          state := WaitingSender;
        }
      } else {
        if state == WaitingReceiver {
          if role != RealtimeReceiver {
            return;
          }
        } else if state == WaitingSender {
          if role != RealtimeSender {
            return;
          }
        }
        state := WaitingTransfer;
      }
      rv := true;
    }

    method DoRecvData(userId: uint32) returns (rv: int)
      requires Valid()
      modifies this
      ensures Valid() && events == old(events) + [Data(userId)]
      ensures rv == if userId == users.fromUser && BothCame(users, old(events)) && ConnClosed !in old(events) then 0 else -1
    {
      TransferNeedsBoth(users, events);
      OneMore(users, events, Data(userId));
      events := events + [Data(userId)];
      rv := -1;
      if userId != users.fromUser {
        return;
      }
      if state != WaitingTransfer && state != Transferring {
        return;
      }
      if state == WaitingTransfer {
        state := Transferring;
      }
      rv := 0;
    }

    /** Nothing here checks who pulls. */
    method DoPullFileRequest() returns (rv: int)
      requires Valid()
      modifies this
      ensures Valid() && events == old(events) + [Pull]
      ensures rv == if BothCame(users, old(events)) && ConnClosed !in old(events) then 0 else -1
    {
      TransferNeedsBoth(users, events);
      OneMore(users, events, Pull);
      events := events + [Pull];
      rv := -1;
      if state != WaitingTransfer && state != Transferring {
        return;
      }
      if state == WaitingTransfer {
        state := Transferring;
      }
      rv := 0;
    }

    /** FileClientConn::Close on an online task. */
    method Close()
      requires Valid()
      modifies this
      ensures Valid() && events == old(events) + [ConnClosed]
    {
      OneMore(users, events, ConnClosed);
      events := events + [ConnClosed];
      state := Invalid;
    }
  }
}
