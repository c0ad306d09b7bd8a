// CProxyConn: requests are handled on worker threads, and each response finds its
// connection again by a 32-bit uuid.
module ProxyConn {
  import opened Bytes

  // A connection is known here by its place in the order of creation, from 1.
  type Conn = nat
  type Handle = int
  type Pdu = nat

  const UUIDS := TWO_32 - 1

  const CID_OTHER_HEARTBEAT := 0x0701

  /** The uuid of connection `n`: a 32-bit counter that skips zero. */
  function Uuid(n: Conn): uint32 {
    if n == 0 then 0 else (n - 1) % UUIDS + 1
  }

  lemma RemainderIs(x: int, q: int, r: int)
    requires x == q * UUIDS + r && 0 <= r < UUIDS
    ensures x % UUIDS == r
  {
  }

  /** Connections share a uuid exactly when their places differ by a multiple
      of 2^32 - 1. */
  lemma SameUuid(n: Conn, m: Conn)
    requires n > 0 && m > 0
    ensures Uuid(n) == Uuid(m) <==> (n - m) % UUIDS == 0
    ensures n <= UUIDS && m <= UUIDS && Uuid(n) == Uuid(m) ==> n == m
  {
    var q, r, q', r' := (n - 1) / UUIDS, (n - 1) % UUIDS, (m - 1) / UUIDS, (m - 1) % UUIDS;
    assert n - m == (q - q') * UUIDS + (r - r');
    if r == r' {
      assert (n - m) % UUIDS == 0;
    } else if r > r' {
      RemainderIs(n - m, q - q', r - r');
    } else {
      RemainderIs(n - m, q - q' - 1, r - r' + UUIDS);
    }
  }

  /** The limit is sharp: one more connection and the first uuid comes again. */
  lemma FirstUuidComesAgain()
    ensures Uuid(1) == Uuid(UUIDS + 1) && 1 != UUIDS + 1
  {
  }

  datatype Option<T> = None | Some(value: T)

  // `issuer` is the connection that sent the request. The program does not keep
  // it, and no step decides anything by it.
  datatype Task = Task(uuid: uint32, pdu: Pdu, issuer: Conn)

  // A response without a pdu asks for the connection to be closed.
  datatype Response = Response(uuid: uint32, pdu: Option<Pdu>, issuer: Conn)

  datatype Delivery = Delivery(conn: Conn, response: Response)

  predicate Issued(created: nat, r: Response) {
    0 < r.issuer <= created && r.uuid == Uuid(r.issuer)
  }

  predicate Matches(created: nat, d: Delivery) {
    0 < d.conn <= created && Uuid(d.conn) == d.response.uuid && Issued(created, d.response)
  }

  /** What a list of responses sends when each goes to its issuer, if that is open
      when its turn comes. */
  function Sent(rs: seq<Response>, open: set<Conn>): seq<Delivery> {
    if rs == [] then []
    else if rs[0].pdu.None? then Sent(rs[1..], open - {rs[0].issuer})
    else (if rs[0].issuer in open then [Delivery(rs[0].issuer, rs[0])] else []) + Sent(rs[1..], open)
  }

  function StillOpen(rs: seq<Response>, open: set<Conn>): set<Conn> {
    if rs == [] then open
    else StillOpen(rs[1..], if rs[0].pdu.None? then open - {rs[0].issuer} else open)
  }

  /** The open connections that a list of responses leaves. */
  function Kept(rs: seq<Response>, handles: map<Conn, Handle>): map<Conn, Handle> {
    if rs == [] then handles
    else Kept(rs[1..], if rs[0].pdu.None? then handles - {rs[0].issuer} else handles)
  }

  /** The uuid map leads to open connections with that uuid, and to all of them
      while no uuid has come again. */
  ghost predicate UuidsAgree(created: nat, uuids: map<Conn, uint32>, uuidMap: map<uint32, Conn>) {
    && (forall c :: c in uuids ==> 0 < c <= created && uuids[c] == Uuid(c))
    && (forall u :: u in uuidMap ==> uuidMap[u] in uuids && Uuid(uuidMap[u]) == u)
    && (created <= UUIDS ==> forall c :: c in uuids ==> uuids[c] in uuidMap && uuidMap[uuids[c]] == c)
  }

  ghost predicate HandlesAgree(uuids: map<Conn, uint32>, handles: map<Conn, Handle>, handleMap: map<Handle, Conn>) {
    && (forall c :: c in uuids <==> c in handles)
    && (forall h :: h in handleMap ==> handleMap[h] in handles && handles[handleMap[h]] == h)
    && (forall c :: c in handles ==> handles[c] in handleMap && handleMap[handles[c]] == c)
  }

  lemma SameOpen(uuids: map<Conn, uint32>, handles: map<Conn, Handle>, handleMap: map<Handle, Conn>)
    requires HandlesAgree(uuids, handles, handleMap)
    ensures uuids.Keys == handles.Keys
    ensures forall c :: c in handles ==> handles[c] in handleMap && handleMap[handles[c]] == c
  {
  }

  ghost predicate TasksAgree(created: nat, tasks: multiset<Task>) {
    forall t :: t in tasks ==> 0 < t.issuer <= created && t.uuid == Uuid(t.issuer)
  }

  ghost predicate HistoryAgrees(created: nat, responses: seq<Response>, delivered: seq<Delivery>) {
    && (forall i :: 0 <= i < |responses| ==> Issued(created, responses[i]))
    && (forall i :: 0 <= i < |delivered| ==> Matches(created, delivered[i]))
  }

  lemma ConnectKeepsUuids(created: nat, uuids: map<Conn, uint32>, uuidMap: map<uint32, Conn>)
    requires UuidsAgree(created, uuids, uuidMap)
    ensures
      var u := Uuid(created + 1);
      UuidsAgree(created + 1, uuids[created + 1 := u], if u in uuidMap then uuidMap else uuidMap[u := created + 1])
  {
    var c := created + 1;
    if created + 1 <= UUIDS && Uuid(c) in uuidMap {
      SameUuid(uuidMap[Uuid(c)], c);
    }
    hide Uuid;
  }

  lemma CloseKeepsUuids(created: nat, uuids: map<Conn, uint32>, uuidMap: map<uint32, Conn>, c: Conn)
    requires UuidsAgree(created, uuids, uuidMap) && c in uuids
    ensures UuidsAgree(created, uuids - {c}, uuidMap - {uuids[c]})
  {
    if created <= UUIDS {
      forall d | d in uuids && d != c ensures uuids[d] != uuids[c] {
        SameUuid(c, d);
      }
    }
    hide Uuid;
  }

  lemma ConnectKeepsHandles(uuids: map<Conn, uint32>, handles: map<Conn, Handle>, handleMap: map<Handle, Conn>,
                            c: Conn, u: uint32, h: Handle)
    requires HandlesAgree(uuids, handles, handleMap) && c !in uuids && h !in handles.Values
    ensures h !in handleMap
    ensures HandlesAgree(uuids[c := u], handles[c := h], handleMap[h := c])
  {
    forall g | g in handleMap ensures g in handles.Values {
      assert handles[handleMap[g]] == g;
    }
  }

  lemma NewConn(created: nat, uuids: map<Conn, uint32>, uuidMap: map<uint32, Conn>)
    requires UuidsAgree(created, uuids, uuidMap)
    ensures created + 1 !in uuids
  {
  }

  lemma MoreCreated(created: nat, tasks: multiset<Task>, responses: seq<Response>, delivered: seq<Delivery>)
    requires TasksAgree(created, tasks) && HistoryAgrees(created, responses, delivered)
    ensures TasksAgree(created + 1, tasks) && HistoryAgrees(created + 1, responses, delivered)
  {
    hide Uuid;
  }

  lemma FewerTasks(created: nat, tasks: multiset<Task>, task: Task)
    requires TasksAgree(created, tasks)
    ensures TasksAgree(created, tasks - multiset{task})
  {
    hide Uuid;
  }

  lemma NextUuid(n: nat)
    ensures Uuid(n + 1) == (if (Uuid(n) + 1) % TWO_32 == 0 then 1 else (Uuid(n) + 1) % TWO_32)
  {
  }

  /** What a worker that answers a task adds to the response list. */
  function Answers(task: Task, pdus: seq<Option<Pdu>>): seq<Response> {
    if pdus == [] then []
    else Answers(task, pdus[..|pdus| - 1]) + [Response(task.uuid, pdus[|pdus| - 1], task.issuer)]
  }

  class Proxy {
    // The commands that s_handler_map has a handler for.
    const handled: set<nat>
    var allocator: uint32
    var uuidMap: map<uint32, Conn>
    var handleMap: map<Handle, Conn>
    // The open connections, with their own m_uuid and m_handle.
    var uuids: map<Conn, uint32>
    var handles: map<Conn, Handle>
    // Requests in the workers' hands, in whatever order, and the response list.
    var tasks: multiset<Task>
    var responses: seq<Response>
    // How many connection objects there have been; it names them.
    var created: nat
    ghost var delivered: seq<Delivery>

    ghost predicate Valid()
      reads this
    {
      && allocator == Uuid(created)
      && UuidsAgree(created, uuids, uuidMap)
      && HandlesAgree(uuids, handles, handleMap)
      && TasksAgree(created, tasks)
      && HistoryAgrees(created, responses, delivered)
    }

    constructor (handled: set<nat>)
      ensures Valid() && created == 0 && delivered == [] && this.handled == handled
      ensures handles == map[] && tasks == multiset{} && responses == []
    {
      this.handled := handled;
      allocator, created := 0, 0;
      uuidMap, handleMap, uuids, handles := map[], map[], map[], map[];
      tasks, responses, delivered := multiset{}, [], [];
    }

    /** The allocator never gives zero. */
    method AllocateUuid()
      requires created > 0 && allocator == Uuid(created - 1)
      modifies this`allocator
      ensures allocator == Uuid(created)
    {
      hide Uuid;
      NextUuid(created - 1);
      allocator := (allocator + 1) % TWO_32;
      if allocator == 0 {
        allocator := (allocator + 1) % TWO_32;
      }
    }

    /** A connection is accepted on a handle that the system is not using; map
        insertion never replaces an entry. */
    method Connect(handle: Handle) returns (c: Conn)
      requires Valid() && handle !in handles.Values
      modifies this
      ensures Valid() && created == old(created) + 1 && c == created
      ensures uuids == old(uuids)[c := Uuid(c)] && handleMap == old(handleMap)[handle := c]
      ensures handles == old(handles)[c := handle]
      ensures delivered == old(delivered) && responses == old(responses) && tasks == old(tasks)
    {
      hide Uuid, UuidsAgree, HandlesAgree, TasksAgree, HistoryAgrees;
      NewConn(created, uuids, uuidMap);
      ConnectKeepsUuids(created, uuids, uuidMap);
      ConnectKeepsHandles(uuids, handles, handleMap, created + 1, Uuid(created + 1), handle);
      MoreCreated(created, tasks, responses, delivered);
      created := created + 1;
      c := created;
      AllocateUuid();
      if allocator !in uuidMap {
        uuidMap := uuidMap[allocator := c];
      }
      uuids := uuids[c := allocator];
      if handle !in handleMap {
        handleMap := handleMap[handle := c];
      }
      handles := handles[c := handle];
    }
  
    /** Close, on a connection that is open. */
    method Close(c: Conn)
      requires Valid() && c in uuids
      modifies this
      ensures Valid() && uuids == old(uuids) - {c} && handles == old(handles) - {c}
      ensures created == old(created) && delivered == old(delivered) && responses == old(responses) && tasks == old(tasks)
    {
      hide Uuid, UuidsAgree, TasksAgree, HistoryAgrees;
      CloseKeepsUuids(created, uuids, uuidMap, c);
      handleMap := handleMap - {handles[c]};
      uuidMap := uuidMap - {uuids[c]};
      uuids, handles := uuids - {c}, handles - {c};
    }

    /** A pdu read from a handle becomes a task under its connection's uuid, unless
        it is a heartbeat or nothing handles its command. */
    method HandlePduBuf(handle: Handle, commandId: nat, pdu: Pdu)
      requires Valid() && handle in handleMap
      modifies this`tasks
      ensures Valid()
      ensures tasks == if commandId == CID_OTHER_HEARTBEAT || commandId !in handled then old(tasks)
                       else old(tasks) + multiset{Task(Uuid(handleMap[handle]), pdu, handleMap[handle])}
    {
      hide Uuid;
      if commandId == CID_OTHER_HEARTBEAT {
        return;
      }
      if commandId !in handled {
        return;
      }
      var c := handleMap[handle];
      tasks := tasks + multiset{Task(uuids[c], pdu, c)};
    }

    /** A worker answers a request, as often as its handler likes. */
    method AddResponsePdu(task: Task, pdu: Option<Pdu>)
      requires Valid() && task in tasks
      modifies this`responses
      ensures Valid() && responses == old(responses) + [Response(task.uuid, pdu, task.issuer)]
    {
      responses := responses + [Response(task.uuid, pdu, task.issuer)];
    }

    /** CProxyTask::run, with all the answers its handler gives; then the task is
        gone. */
    method RunTask(task: Task, pdus: seq<Option<Pdu>>)
      requires Valid() && task in tasks
      modifies this`tasks, this`responses
      ensures Valid() && tasks == old(tasks) - multiset{task}
      ensures responses == old(responses) + Answers(task, pdus)
    {
      hide Uuid, UuidsAgree, HandlesAgree, TasksAgree, HistoryAgrees;
      assert responses + [] == responses && pdus[..0] == [];
      for i := 0 to |pdus|
        invariant Valid() && tasks == old(tasks) && responses == old(responses) + Answers(task, pdus[..i])
      {
        assert pdus[..i + 1][..i] == pdus[..i];
        AddResponsePdu(task, pdus[i]);
      }
      assert pdus[..|pdus|] == pdus;
      FewerTasks(created, tasks, task);
      tasks := tasks - multiset{task};
    }

    /** One turn of SendResponsePduList. While no uuid has come again, a response
        goes to the connection that asked if that is still open, and to nobody
        otherwise. */
    method SendFront()
      requires Valid() && responses != []
      modifies this
      ensures Valid() && responses == old(responses)[1..] && created == old(created)
      ensures
        var r := old(responses)[0];
        created <= UUIDS ==>
          && delivered == old(delivered)
                          + (if r.issuer in old(uuids) && r.pdu.Some? then [Delivery(r.issuer, r)] else [])
          && uuids == (if r.pdu.None? then old(uuids) - {r.issuer} else old(uuids))
          && handles == (if r.pdu.None? then old(handles) - {r.issuer} else old(handles))
      ensures tasks == old(tasks)
    {
      hide Uuid, HandlesAgree, TasksAgree;
      var r := responses[0];
      assert Issued(created, r);
      SameOpen(uuids, handles, handleMap);
      assert r.issuer !in handles ==> handles - {r.issuer} == handles;
      responses := responses[1..];
      if created <= UUIDS && r.issuer in uuids {
        assert uuids[r.issuer] in uuidMap;
      }
      if r.uuid in uuidMap {
        var c := uuidMap[r.uuid];
        SameUuid(c, r.issuer);
        if r.pdu.Some? {
          delivered := delivered + [Delivery(c, r)];
        } else {
          Close(c);
        }
      }
    }

    method SendResponsePduList()
      requires Valid()
      modifies this
      ensures Valid() && responses == [] && created == old(created) && tasks == old(tasks)
      ensures created <= UUIDS ==>
                && delivered == old(delivered) + Sent(old(responses), old(uuids).Keys)
                && uuids.Keys == StillOpen(old(responses), old(uuids).Keys)
                && handles == Kept(old(responses), old(handles))
    {
      hide Uuid, UuidsAgree, HandlesAgree, TasksAgree, HistoryAgrees;
      while responses != []
        invariant Valid() && created == old(created) && tasks == old(tasks)
        invariant created <= UUIDS ==> Kept(responses, handles) == Kept(old(responses), old(handles))
        invariant created <= UUIDS ==>
                    && delivered + Sent(responses, uuids.Keys) == old(delivered) + Sent(old(responses), old(uuids).Keys)
                    && StillOpen(responses, uuids.Keys) == StillOpen(old(responses), old(uuids).Keys)
        decreases |responses|
      {
        ghost var r, rest, open, before := responses[0], responses[1..], uuids.Keys, delivered;
        SendFront();
        if created <= UUIDS {
          assert uuids.Keys == if r.pdu.None? then open - {r.issuer} else open;
          assert r.issuer !in open ==> open - {r.issuer} == open;
          assert before + ([Delivery(r.issuer, r)] + Sent(rest, open)) == before + [Delivery(r.issuer, r)] + Sent(rest, open);
        }
      }
    }

    /** Whatever happened before, with up to 2^32 - 1 connections over the life of
        the server every response ever sent went to the connection that asked. */
    lemma ResponsesReachTheirIssuer(i: nat)
      requires Valid() && i < |delivered|
      ensures (delivered[i].conn - delivered[i].response.issuer) % UUIDS == 0
      ensures created <= UUIDS ==> delivered[i].conn == delivered[i].response.issuer
    {
      var d := delivered[i];
      assert Matches(created, d);
      SameUuid(d.conn, d.response.issuer);
    }
  }

  // --------------------------------------------------------------------- runs

  // What happens to the server: a connection is accepted, or closes; a pdu arrives
  // on one; a worker runs a task; the response list is sent.
  datatype Event =
    | Connected(handle: Handle)
    | Closed(conn: Conn)
    | Request(conn: Conn, commandId: nat, pdu: Pdu)
    | Answered(task: Task, pdus: seq<Option<Pdu>>)
    | Flush

  // A server that knows each response's issuer itself and needs no uuids.
  datatype Ideal = Ideal(created: nat, handles: map<Conn, Handle>, tasks: multiset<Task>, responses: seq<Response>,
                         delivered: seq<Delivery>)

  function Next(handled: set<nat>, s: Ideal, event: Event): Ideal {
    match event
    case Connected(handle) =>
      if handle in s.handles.Values then s
      else s.(created := s.created + 1, handles := s.handles[s.created + 1 := handle])
    case Closed(c) => if c in s.handles then s.(handles := s.handles - {c}) else s
    case Request(c, commandId, pdu) =>
      if c in s.handles && commandId != CID_OTHER_HEARTBEAT && commandId in handled
      then s.(tasks := s.tasks + multiset{Task(Uuid(c), pdu, c)})
      else s
    case Answered(task, pdus) =>
      if task in s.tasks
      then s.(tasks := s.tasks - multiset{task}, responses := s.responses + Answers(task, pdus))
      else s
    case Flush =>
      s.(delivered := s.delivered + Sent(s.responses, s.handles.Keys), handles := Kept(s.responses, s.handles),
         responses := [])
  }

  function After(handled: set<nat>, events: seq<Event>): Ideal {
    if events == [] then Ideal(0, map[], multiset{}, [], [])
    else Next(handled, After(handled, events[..|events| - 1]), events[|events| - 1])
  }

  ghost predicate Shows(r: Proxy, s: Ideal)
    reads r
  {
    r.created == s.created && r.handles == s.handles && r.tasks == s.tasks && r.responses == s.responses
    && r.delivered == s.delivered
  }

  /** Any run: with up to 2^32 - 1 connections over its life the server does just
      what the one without uuids does; and however many there are, a response only
      ever goes to its issuer or a multiple of 2^32 - 1 places away. */
  method AnyRun(handled: set<nat>, events: seq<Event>) returns (r: Proxy)
    ensures r.Valid() && r.handled == handled
    ensures After(handled, events).created <= UUIDS ==> Shows(r, After(handled, events))
    ensures forall i :: 0 <= i < |r.delivered| ==> (r.delivered[i].conn - r.delivered[i].response.issuer) % UUIDS == 0
  {
    hide Uuid, Next, UuidsAgree, HandlesAgree, TasksAgree, HistoryAgrees;
    r := new Proxy(handled);
    assert events[..0] == [];
    for k := 0 to |events|
      invariant fresh(r) && r.Valid() && r.handled == handled
      invariant After(handled, events[..k]).created <= UUIDS ==> Shows(r, After(handled, events[..k]))
    {
      assert events[..k + 1][..k] == events[..k];
      OneEvent(r, After(handled, events[..k]), events[k]);
    }
    assert events[..|events|] == events;
    forall i | 0 <= i < |r.delivered|
      ensures (r.delivered[i].conn - r.delivered[i].response.issuer) % UUIDS == 0
    {
      r.ResponsesReachTheirIssuer(i);
    }
  }

  method OneEvent(r: Proxy, ghost s: Ideal, event: Event)
    requires r.Valid() && (s.created <= UUIDS ==> Shows(r, s))
    modifies r
    ensures r.Valid()
    ensures Next(r.handled, s, event).created <= UUIDS ==> Shows(r, Next(r.handled, s, event))
  {
    hide Uuid, UuidsAgree, HandlesAgree, TasksAgree, HistoryAgrees;
    SameOpen(r.uuids, r.handles, r.handleMap);
    match event {
      case Connected(handle) =>
        if handle !in r.handles.Values {
          var c := r.Connect(handle);
        }
      case Closed(c) =>
        if c in r.uuids {
          r.Close(c);
        }
      case Request(c, commandId, pdu) =>
        if c in r.handles {
          r.HandlePduBuf(r.handles[c], commandId, pdu);
        }
      case Answered(task, pdus) =>
        if task in r.tasks {
          r.RunTask(task, pdus);
        }
      case Flush =>
        r.SendResponsePduList();
    }
  }

  /** Connection `c` sent a request. */
  predicate Asked(events: seq<Event>, c: Conn) {
    exists k :: 0 <= k < |events| && AsksAt(events, k, c)
  }

  predicate AsksAt(events: seq<Event>, k: nat, c: Conn)
    requires k < |events|
  {
    events[k].Request? && events[k].conn == c
  }

  /** Everything under way, or sent, goes back to one that asked. */
  ghost predicate OnlyAsked(events: seq<Event>, s: Ideal) {
    && (forall t :: t in s.tasks ==> Asked(events, t.issuer))
    && (forall i :: 0 <= i < |s.responses| ==> Asked(events, s.responses[i].issuer))
    && (forall i :: 0 <= i < |s.delivered| ==>
          s.delivered[i].conn == s.delivered[i].response.issuer && Asked(events, s.delivered[i].conn))
  }

  lemma AskedBefore(events: seq<Event>, e: Event, c: Conn)
    ensures Asked(events, c) ==> Asked(events + [e], c)
    ensures e.Request? && e.conn == c ==> Asked(events + [e], c)
  {
    if Asked(events, c) {
      var k :| 0 <= k < |events| && AsksAt(events, k, c);
      assert AsksAt(events + [e], k, c);
    }
    assert AsksAt(events + [e], |events|, c) == (e.Request? && e.conn == c);
  }

  lemma {:induction false} SentToIssuers(rs: seq<Response>, open: set<Conn>)
    ensures forall i :: 0 <= i < |Sent(rs, open)| ==>
              Sent(rs, open)[i].conn == Sent(rs, open)[i].response.issuer && Sent(rs, open)[i].response in rs
    decreases |rs|
  {
    if rs != [] {
      var left := if rs[0].pdu.None? then open - {rs[0].issuer} else open;
      SentToIssuers(rs[1..], left);
      var more := Sent(rs[1..], left);
      assert forall i :: 0 <= i < |more| ==> more[i].response in rs[1..];
    }
  }

  lemma {:induction false} AnswersIssuer(task: Task, pdus: seq<Option<Pdu>>)
    ensures forall i :: 0 <= i < |Answers(task, pdus)| ==> Answers(task, pdus)[i].issuer == task.issuer
    decreases |pdus|
  {
    if pdus != [] {
      AnswersIssuer(task, pdus[..|pdus| - 1]);
    }
  }

  /** The server without uuids delivers to issuers only, and only to connections
      that asked. */
  lemma {:induction false} DeliversToAskers(handled: set<nat>, events: seq<Event>)
    ensures OnlyAsked(events, After(handled, events))
    decreases |events|
  {
    if events != [] {
      var n := |events| - 1;
      DeliversToAskers(handled, events[..n]);
      assert events == events[..n] + [events[n]];
      StepDeliversToAskers(handled, events[..n], After(handled, events[..n]), events[n]);
    }
  }

  lemma StepDeliversToAskers(handled: set<nat>, events: seq<Event>, s: Ideal, e: Event)
    requires OnlyAsked(events, s)
    ensures OnlyAsked(events + [e], Next(handled, s, e))
  {
    hide Uuid, Sent, Kept, Answers, Asked;
    forall c: Conn
      ensures Asked(events, c) || (e.Request? && e.conn == c) ==> Asked(events + [e], c)
    {
      AskedBefore(events, e, c);
    }
    StillAsked(events, e, s);
    match e {
      case Answered(task, pdus) =>
        hide OnlyAsked;
        if task in s.tasks {
          AnsweredToAskers(events + [e], s, task, pdus);
        }
      case Flush =>
        hide OnlyAsked;
        SentToAskers(events + [e], s);
      case _ =>
    }
  }

  lemma StillAsked(events: seq<Event>, e: Event, s: Ideal)
    requires OnlyAsked(events, s) && forall c: Conn :: Asked(events, c) ==> Asked(events + [e], c)
    ensures OnlyAsked(events + [e], s)
  {
    hide Asked;
  }

  lemma AnsweredToAskers(events: seq<Event>, s: Ideal, task: Task, pdus: seq<Option<Pdu>>)
    requires OnlyAsked(events, s) && task in s.tasks
    ensures OnlyAsked(events, s.(tasks := s.tasks - multiset{task}, responses := s.responses + Answers(task, pdus)))
  {
    AnswersIssuer(task, pdus);
    hide Asked, Answers;
  }

  lemma SentToAskers(events: seq<Event>, s: Ideal)
    requires OnlyAsked(events, s)
    ensures OnlyAsked(events, s.(delivered := s.delivered + Sent(s.responses, s.handles.Keys),
                                 handles := Kept(s.responses, s.handles), responses := []))
  {
    SentToIssuers(s.responses, s.handles.Keys);
    hide Asked, Sent, Kept;
  }
}
