/** The WebSocket hub: users to live connections, rooms to users, two separately locked maps,
    with an unregister that releases the first lock before taking the second. */
module Hub {
  datatype User = User(id: string)
  datatype Room = Room(name: string)
  type Conn = nat
  type Msg = int

  // ---------- the maps ----------

  function Without(conns: seq<Conn>, c: Conn): seq<Conn> {
    if conns == [] then []
    else if conns[0] == c then Without(conns[1..], c)
    else [conns[0]] + Without(conns[1..], c)
  }

  function Attached(clients: map<User, seq<Conn>>, u: User, c: Conn): map<User, seq<Conn>> {
    clients[u := (if u in clients then clients[u] else []) + [c]]
  }

  function Detached(clients: map<User, seq<Conn>>, u: User, c: Conn): map<User, seq<Conn>> {
    if u !in clients then clients
    else if Without(clients[u], c) == [] then clients - {u}
    else clients[u := Without(clients[u], c)]
  }

  function Joined(rooms: map<Room, set<User>>, r: Room, u: User): map<Room, set<User>> {
    rooms[r := (if r in rooms then rooms[r] else {}) + {u}]
  }

  function Left(rooms: map<Room, set<User>>, r: Room, u: User): map<Room, set<User>> {
    if r !in rooms then rooms
    else if rooms[r] - {u} == {} then rooms - {r}
    else rooms[r := rooms[r] - {u}]
  }

  function RemovedEverywhere(rooms: map<Room, set<User>>, u: User): map<Room, set<User>> {
    map r | r in rooms :: rooms[r] - {u}
  }

  function NonEmpty(rooms: map<Room, set<User>>): map<Room, set<User>> {
    map r | r in rooms && rooms[r] != {} :: rooms[r]
  }

  function Swept(rooms: map<Room, set<User>>, u: User): map<Room, set<User>> {
    NonEmpty(RemovedEverywhere(rooms, u))
  }

  lemma KeepOne(conns: seq<Conn>, k: nat, c: Conn, kept: seq<Conn>)
    requires k < |conns|
    ensures kept + Without(conns[k..], c) ==
      (if conns[k] == c then kept else kept + [conns[k]]) + Without(conns[k + 1..], c)
  {
    assert conns[k..][0] == conns[k] && conns[k..][1..] == conns[k + 1..];
  }

  method Retain(conns: seq<Conn>, c: Conn) returns (kept: seq<Conn>)
    ensures kept == Without(conns, c)
  {
    kept := [];
    var k := 0;
    assert conns[0..] == conns;
    while k < |conns|
      invariant k <= |conns| && kept + Without(conns[k..], c) == Without(conns, c)
    {
      KeepOne(conns, k, c, kept);
      if conns[k] != c { kept := kept + [conns[k]]; }
      k := k + 1;
    }
    assert Without(conns[k..], c) == [] && kept + [] == kept;
  }

  lemma {:induction false} WithoutKeepsRest(conns: seq<Conn>, c: Conn)
    ensures forall x :: x in Without(conns, c) <==> x in conns && x != c
    ensures Distinct(conns) ==> Distinct(Without(conns, c))
  {
    if conns != [] {
      WithoutKeepsRest(conns[1..], c);
      assert conns == [conns[0]] + conns[1..];
      if Distinct(conns) {
        assert forall i :: 0 <= i < |conns[1..]| ==> conns[1..][i] == conns[i + 1];
        assert conns[0] !in conns[1..];
        assert Distinct(conns[1..]);
      }
    }
  }

  predicate Distinct(conns: seq<Conn>) {
    forall i, j :: 0 <= i < j < |conns| ==> conns[i] != conns[j]
  }

  class Hub {
    var clients: map<User, seq<Conn>>
    var rooms: map<Room, set<User>>
    var nextConn: nat
    /** The outbound queues whose receiving end is still open. */
    var queues: map<Conn, seq<Msg>>

    constructor ()
      ensures clients == map[] && rooms == map[] && nextConn == 0 && queues == map[]
    {
      clients, rooms, nextConn, queues := map[], map[], 0, map[];
    }

    /** First half of `register`: a fresh id and an open queue. */
    method Allocate() returns (id: Conn)
      modifies this`nextConn, this`queues
      ensures id == old(nextConn) && nextConn == id + 1 && queues == old(queues)[id := []]
    {
      id := nextConn;
      nextConn := nextConn + 1;
      queues := queues[id := []];
    }

    /** Second half of `register`, under the clients lock. */
    method Attach(u: User, id: Conn)
      modifies this`clients
      ensures clients == Attached(old(clients), u, id)
    {
      if u !in clients { clients := clients[u := []]; }
      clients := clients[u := clients[u] + [id]];
    }

    /** First phase of `unregister`, under the clients lock. */
    method Detach(u: User, id: Conn) returns (gone: bool)
      modifies this`clients
      ensures clients == Detached(old(clients), u, id)
      ensures gone <==> u in old(clients) && u !in clients
    {
      gone := false;
      if u in clients {
        var kept := Retain(clients[u], id);
        if kept == [] {
          clients := clients - {u};
          gone := true;
        } else {
          clients := clients[u := kept];
        }
      }
    }

    /** Second phase of `unregister`, under the rooms lock, run only if the user is gone. */
    method Sweep(u: User)
      modifies this`rooms
      ensures rooms == Swept(old(rooms), u)
    {
      ghost var goal := RemovedEverywhere(rooms, u);
      var left := rooms.Keys;
      while left != {}
        invariant left <= goal.Keys == rooms.Keys
        invariant forall r :: r in rooms && r !in left ==> rooms[r] == goal[r]
        invariant forall r :: r in left ==> rooms[r] - {u} == goal[r]
        decreases |left|
      {
        var r :| r in left;
        left := left - {r};
        rooms := rooms[r := rooms[r] - {u}];
      }
      assert rooms == goal;
      rooms := map r | r in rooms && rooms[r] != {} :: rooms[r];
    }

    method JoinRoom(r: Room, u: User)
      modifies this`rooms
      ensures rooms == Joined(old(rooms), r, u)
    {
      if r !in rooms { rooms := rooms[r := {}]; }
      rooms := rooms[r := rooms[r] + {u}];
    }

    method LeaveRoom(r: Room, u: User)
      modifies this`rooms
      ensures rooms == Left(old(rooms), r, u)
    {
      if r in rooms {
        rooms := rooms[r := rooms[r] - {u}];
        if rooms[r] == {} { rooms := rooms - {r}; }
      }
    }

    method CloseRoom(r: Room)
      modifies this`rooms
      ensures rooms == old(rooms) - {r}
    {
      rooms := rooms - {r};
    }

    /** Each open connection of the user gets the message once; the answer says if any did. */
    method SendToUser(u: User, msg: Msg) returns (delivered: bool)
      requires u in clients ==> Distinct(clients[u])
      modifies this`queues
      ensures queues.Keys == old(queues).Keys
      ensures forall c :: c in queues ==>
        queues[c] == if u in clients && c in clients[u] then old(queues)[c] + [msg] else old(queues)[c]
      ensures queues == Delivered(old(queues), ConnsOf(clients, u), msg)
      ensures delivered <==> ConnsOf(clients, u) * queues.Keys != {}
    {
      delivered := false;
      ghost var done: set<Conn> := {};
      assert queues == Delivered(queues, {}, msg);
      if u !in clients { return; }
      var conns, k := clients[u], 0;
      while k < |conns|
        invariant k <= |conns| && (forall c :: c in done <==> c in conns[..k])
        invariant queues == Delivered(old(queues), done, msg)
        invariant delivered <==> done * queues.Keys != {}
      {
        var c := conns[k];
        assert c !in done by { assert c !in conns[..k]; }
        assert conns[..k + 1] == conns[..k] + [c];
        DeliveredOne(queues, c, msg);
        DeliveredTwice(old(queues), done, {c}, msg);
        assert (done + {c}) * queues.Keys == done * queues.Keys + if c in queues then {c} else {};
        done := done + {c};
        if c in queues {
          queues := queues[c := queues[c] + [msg]];
          delivered := true;
        }
        k := k + 1;
      }
      assert conns[..k] == conns;
      assert done == ConnsOf(clients, u);
    }

    /** Every open connection of every member except `except` gets the message once. */
    method BroadcastRoom(r: Room, msg: Msg, except: set<User>)
      requires forall x :: x in clients ==> Distinct(clients[x])
      requires Disjoint(clients)
      modifies this`queues
      ensures queues == Delivered(old(queues), Audience(clients, if r in rooms then rooms[r] - except else {}), msg)
    {
      if r !in rooms {
        NobodyTold(queues, clients, msg);
        return;
      }
      var members, left := rooms[r], rooms[r];
      ghost var told := (members - left) - except;
      NobodyTold(queues, clients, msg);
      while left != {}
        invariant left <= members && told == (members - left) - except
        invariant queues == Delivered(old(queues), Audience(clients, told), msg)
        decreases |left|
      {
        var u :| u in left;
        TellNext(members, left, except, u);
        left := left - {u};
        if u !in except {
          ToldOneMore(old(queues), clients, told, u, msg);
          told := told + {u};
          var _ := SendToUser(u, msg);
        }
      }
      assert told == members - except;
    }
  }

  lemma TellNext(members: set<User>, left: set<User>, except: set<User>, u: User)
    requires u in left && left <= members
    ensures u !in (members - left) - except
    ensures (members - (left - {u})) - except == (members - left) - except + if u in except then {} else {u}
  {
  }

  lemma NobodyTold(queues: map<Conn, seq<Msg>>, clients: map<User, seq<Conn>>, msg: Msg)
    ensures Delivered(queues, Audience(clients, {}), msg) == queues
  {
    assert Audience(clients, {}) == {};
  }

  /** No connection is listed for two users. */
  ghost predicate Disjoint(clients: map<User, seq<Conn>>) {
    forall x, y :: x != y ==> ConnsOf(clients, x) !! ConnsOf(clients, y)
  }

  /** The connections of all of `users`. */
  function Audience(clients: map<User, seq<Conn>>, users: set<User>): set<Conn> {
    set u, c | u in users && c in ConnsOf(clients, u) :: c
  }

  /** One copy more for each open connection addressed, nothing for any other. */
  lemma DeliveredIs(queues: map<Conn, seq<Msg>>, to: set<Conn>, msg: Msg)
    ensures Delivered(queues, to, msg).Keys == queues.Keys
    ensures forall c :: c in queues && c in to ==> Delivered(queues, to, msg)[c] == queues[c] + [msg]
    ensures forall c :: c in queues && c !in to ==> Delivered(queues, to, msg)[c] == queues[c]
  {
  }

  /** A connection is addressed exactly if it is listed for one of the users. */
  lemma AudienceIs(clients: map<User, seq<Conn>>, users: set<User>, c: Conn)
    ensures c in Audience(clients, users) <==> exists u :: u in users && u in clients && c in clients[u]
  {
    if u :| u in users && u in clients && c in clients[u] { assert c in ConnsOf(clients, u); }
  }

  lemma AudienceGrows(clients: map<User, seq<Conn>>, users: set<User>, u: User)
    requires u !in users && Disjoint(clients)
    ensures Audience(clients, users + {u}) == Audience(clients, users) + ConnsOf(clients, u)
    ensures Audience(clients, users) !! ConnsOf(clients, u)
  {
  }

  lemma DeliveredOne(queues: map<Conn, seq<Msg>>, c: Conn, msg: Msg)
    ensures Delivered(queues, {c}, msg) == if c in queues then queues[c := queues[c] + [msg]] else queues
  {
  }

  lemma ToldOneMore(queues: map<Conn, seq<Msg>>, clients: map<User, seq<Conn>>, told: set<User>, u: User, msg: Msg)
    requires u !in told && Disjoint(clients)
    ensures Delivered(Delivered(queues, Audience(clients, told), msg), ConnsOf(clients, u), msg)
         == Delivered(queues, Audience(clients, told + {u}), msg)
  {
    AudienceGrows(clients, told, u);
    DeliveredTwice(queues, Audience(clients, told), ConnsOf(clients, u), msg);
  }

  function ConnsOf(clients: map<User, seq<Conn>>, u: User): set<Conn> {
    if u in clients then set c | c in clients[u] else {}
  }

  function Delivered(queues: map<Conn, seq<Msg>>, to: set<Conn>, msg: Msg): map<Conn, seq<Msg>> {
    map c | c in queues :: if c in to then queues[c] + [msg] else queues[c]
  }

  lemma DeliveredTwice(queues: map<Conn, seq<Msg>>, a: set<Conn>, b: set<Conn>, msg: Msg)
    requires a !! b
    ensures Delivered(Delivered(queues, a, msg), b, msg) == Delivered(queues, a + b, msg)
  {
  }

  // ---------- the hub with its sessions ----------

  /** A session is Arriving between the two halves of `register`, Open while it dispatches,
      Leaving between the two phases of an `unregister` that found its user gone. */
  datatype Phase = Arriving | Open | Leaving | Closed

  datatype Session = Session(user: User, phase: Phase)

  datatype State = State(
    clients: map<User, seq<Conn>>,
    rooms: map<Room, set<User>>,
    next: nat,
    sessions: map<Conn, Session>)

  datatype Event =
    | Allocate(user: User)
    | Attach(id: Conn)
    | Join(id: Conn, room: Room)
    | Leave(id: Conn, room: Room)
    | Detach(id: Conn)
    | Sweep(id: Conn)
    | CloseRoom(room: Room)
    | RestJoin(user: User, room: Room)

  predicate In(s: State, id: Conn, phase: Phase) {
    id in s.sessions && s.sessions[id].phase == phase
  }

  /** An event whose session is not in the phase for it does nothing. */
  function Step(s: State, e: Event): State {
    match e
    case Allocate(u) => s.(next := s.next + 1, sessions := s.sessions[s.next := Session(u, Arriving)])
    case Attach(id) =>
      if !In(s, id, Arriving) then s else
      var u := s.sessions[id].user;
      s.(clients := Attached(s.clients, u, id), sessions := s.sessions[id := Session(u, Open)])
    case Join(id, r) => if !In(s, id, Open) then s else s.(rooms := Joined(s.rooms, r, s.sessions[id].user))
    case Leave(id, r) => if !In(s, id, Open) then s else s.(rooms := Left(s.rooms, r, s.sessions[id].user))
    case Detach(id) =>
      if !In(s, id, Open) then s else
      var u := s.sessions[id].user;
      var clients := Detached(s.clients, u, id);
      var gone := u in s.clients && u !in clients;
      s.(clients := clients, sessions := s.sessions[id := Session(u, if gone then Leaving else Closed)])
    case Sweep(id) =>
      if !In(s, id, Leaving) then s else
      var u := s.sessions[id].user;
      s.(rooms := Swept(s.rooms, u), sessions := s.sessions[id := Session(u, Closed)])
    case CloseRoom(r) => s.(rooms := s.rooms - {r})
    case RestJoin(u, r) => s.(rooms := Joined(s.rooms, r, u))
  }

  function Run(s: State, es: seq<Event>): State
    decreases |es|
  {
    if es == [] then s else Run(Step(s, es[0]), es[1..])
  }

  /** Online, or an unregister of theirs has yet to sweep the rooms. */
  ghost predicate Present(s: State, u: User) {
    u in s.clients || exists id :: In(s, id, Leaving) && s.sessions[id].user == u
  }

  predicate Member(s: State, r: Room, u: User) {
    r in s.rooms && u in s.rooms[r]
  }

  /** A user's list holds exactly that user's open sessions, each once; ids are below the
      counter; nobody has an empty list. */
  ghost predicate Wired(s: State) {
    && (forall u :: u in s.clients ==> s.clients[u] != [] && Distinct(s.clients[u]))
    && (forall id :: id in s.sessions ==> id < s.next)
    && (forall u, id :: (u in s.clients && id in s.clients[u]) <==> (In(s, id, Open) && s.sessions[id].user == u))
  }

  ghost predicate Valid(s: State) {
    && Wired(s)
    && (forall r :: r in s.rooms ==> s.rooms[r] != {})
    && (forall r, u :: Member(s, r, u) ==> Present(s, u))
  }

  lemma AttachedLists(s: State, id: Conn)
    requires Wired(s) && In(s, id, Arriving)
    ensures var c, u := Step(s, Attach(id)).clients, s.sessions[id].user;
      && (forall x :: x in c ==> c[x] != [] && Distinct(c[x]))
      && (forall x, y :: (x in c && y in c[x]) <==> ((x in s.clients && y in s.clients[x]) || (x == u && y == id)))
  {
    var u := s.sessions[id].user;
    assert !In(s, id, Open);
    assert u in s.clients ==> id !in s.clients[u];
  }

  lemma DetachedLists(s: State, id: Conn)
    requires Wired(s) && In(s, id, Open)
    ensures var c := Step(s, Detach(id)).clients;
      && (forall x :: x in c ==> c[x] != [] && Distinct(c[x]))
      && (forall x, y :: (x in c && y in c[x]) <==> (x in s.clients && y in s.clients[x] && y != id))
  {
    var u := s.sessions[id].user;
    var c := Step(s, Detach(id)).clients;
    WithoutKeepsRest(s.clients[u], id);
    forall x, y ensures (x in c && y in c[x]) <==> (x in s.clients && y in s.clients[x] && y != id) {
      if x in s.clients && id in s.clients[x] { assert s.sessions[id].user == x; }
    }
  }

  lemma AttachKeepsWired(s: State, id: Conn)
    requires Wired(s) && In(s, id, Arriving)
    ensures Wired(Step(s, Attach(id)))
  {
    var s' := Step(s, Attach(id));
    AttachedLists(s, id);
    forall x, y ensures (x in s'.clients && y in s'.clients[x]) <==> (In(s', y, Open) && s'.sessions[y].user == x) {
      assert (x in s.clients && y in s.clients[x]) <==> (In(s, y, Open) && s.sessions[y].user == x);
    }
  }

  lemma DetachKeepsWired(s: State, id: Conn)
    requires Wired(s) && In(s, id, Open)
    ensures Wired(Step(s, Detach(id)))
  {
    var s' := Step(s, Detach(id));
    DetachedLists(s, id);
    forall x, y ensures (x in s'.clients && y in s'.clients[x]) <==> (In(s', y, Open) && s'.sessions[y].user == x) {
      assert (x in s.clients && y in s.clients[x]) <==> (In(s, y, Open) && s.sessions[y].user == x);
    }
  }

  /** Steps that leave the lists and the open sessions alone. */
  lemma SameOpenSessions(s: State, s': State)
    requires Wired(s) && s'.clients == s.clients && (forall id :: id in s'.sessions ==> id < s'.next)
    requires forall id :: In(s', id, Open) <==> In(s, id, Open)
    requires forall id :: In(s, id, Open) ==> id in s'.sessions && s'.sessions[id] == s.sessions[id]
    ensures Wired(s')
  {
    forall x, y ensures (x in s'.clients && y in s'.clients[x]) <==> (In(s', y, Open) && s'.sessions[y].user == x) {
      assert (x in s.clients && y in s.clients[x]) <==> (In(s, y, Open) && s.sessions[y].user == x);
    }
  }

  /** Every step keeps lists and sessions together, REST joins included. */
  lemma StepKeepsWired(s: State, e: Event)
    requires Wired(s)
    ensures Wired(Step(s, e))
  {
    match e {
      case Attach(id) => if In(s, id, Arriving) { AttachKeepsWired(s, id); }
      case Detach(id) => if In(s, id, Open) { DetachKeepsWired(s, id); }
      case _ =>
        assert s.next !in s.sessions;
        SameOpenSessions(s, Step(s, e));
    }
  }

  /** A session keeps its user. */
  lemma SessionStays(s: State, e: Event, id: Conn)
    requires Wired(s) && id in s.sessions
    ensures id in Step(s, e).sessions && Step(s, e).sessions[id].user == s.sessions[id].user
  {
    assert s.next !in s.sessions;
  }

  /** Nobody stops being present but the user of a session that sweeps. */
  lemma StaysPresent(s: State, e: Event, u: User)
    requires Wired(s) && Present(s, u)
    requires !(e.Sweep? && In(s, e.id, Leaving) && s.sessions[e.id].user == u)
    ensures Present(Step(s, e), u)
  {
    var s' := Step(s, e);
    if u in s.clients {
      if e.Detach? && In(s, e.id, Open) && u !in s'.clients {
        assert In(s', e.id, Leaving) && s'.sessions[e.id].user == u;
      }
    } else {
      var id :| In(s, id, Leaving) && s.sessions[id].user == u;
      assert s.next !in s.sessions;
      assert In(s', id, Leaving) && s'.sessions[id].user == u;
    }
  }

  lemma SweptMembers(s: State, id: Conn, r: Room, u: User)
    requires In(s, id, Leaving)
    ensures Member(Step(s, Sweep(id)), r, u) <==> Member(s, r, u) && u != s.sessions[id].user
  {
    if Member(s, r, u) && u != s.sessions[id].user { assert u in s.rooms[r] - {s.sessions[id].user}; }
  }

  /** A step that is no REST join leaves every member present. */
  lemma MembersStayPresent(s: State, e: Event, r: Room, u: User)
    requires Valid(s) && !e.RestJoin? && Member(Step(s, e), r, u)
    ensures Present(Step(s, e), u)
  {
    if e.Sweep? && In(s, e.id, Leaving) { SweptMembers(s, e.id, r, u); }
    if Member(s, r, u) {
      StaysPresent(s, e, u);
    } else {
      assert e.Join? && In(s, e.id, Open) && s.sessions[e.id].user == u;
    }
  }

  /** Every step keeps the hub consistent, except precisely a REST join by an absent user. */
  lemma StepKeepsValid(s: State, e: Event)
    requires Valid(s)
    ensures Valid(Step(s, e)) <==> (e.RestJoin? ==> Present(s, e.user))
  {
    var s' := Step(s, e);
    StepKeepsWired(s, e);
    if e.RestJoin? {
      assert Member(s', e.room, e.user);
      RestJoinPresence(s, e.user, e.room);
    } else {
      forall r, u | Member(s', r, u) ensures Present(s', u) { MembersStayPresent(s, e, r, u); }
    }
  }

  lemma RestJoinPresence(s: State, u: User, room: Room)
    requires Valid(s)
    ensures var s' := Step(s, RestJoin(u, room));
      && (forall x :: Present(s', x) <==> Present(s, x))
      && (forall r, x :: Member(s', r, x) <==> Member(s, r, x) || (r == room && x == u))
  {
    var s' := Step(s, RestJoin(u, room));
    forall x ensures Present(s', x) <==> Present(s, x) {
      if Present(s, x) { StaysPresent(s, RestJoin(u, room), x); }
      if Present(s', x) && x !in s'.clients {
        var id :| In(s', id, Leaving) && s'.sessions[id].user == x;
        assert In(s, id, Leaving) && s.sessions[id].user == x;
      }
    }
  }

  ghost predicate JoinsOnlyWhilePresent(s: State, es: seq<Event>)
    decreases |es|
  {
    es == [] || ((es[0].RestJoin? ==> Present(s, es[0].user)) && JoinsOnlyWhilePresent(Step(s, es[0]), es[1..]))
  }

  const EMPTY := State(map[], map[], 0, map[])

  lemma {:induction false} RunKeepsValid(s: State, es: seq<Event>)
    requires Valid(s) && JoinsOnlyWhilePresent(s, es)
    ensures Valid(Run(s, es))
    decreases |es|
  {
    if es != [] {
      StepKeepsValid(s, es[0]);
      RunKeepsValid(Step(s, es[0]), es[1..]);
    }
  }

  predicate Listed(s: State, u: User, i: int) {
    u in s.clients && 0 <= i < |s.clients[u]|
  }

  ghost predicate Consistent(s: State) {
    && (forall r, u :: Member(s, r, u) ==> Present(s, u))
    && (forall u, i :: Listed(s, u, i) ==>
          s.clients[u][i] < s.next && s.clients[u][i] in s.sessions && s.sessions[s.clients[u][i]] == Session(u, Open))
    && (forall u, v, i, j :: Listed(s, u, i) && Listed(s, v, j) && s.clients[u][i] == s.clients[v][j] ==> u == v && i == j)
    && (forall u :: u in s.clients ==> s.clients[u] != [])
    && (forall r :: r in s.rooms ==> s.rooms[r] != {})
  }

  lemma ValidIsConsistent(s: State)
    requires Valid(s)
    ensures Consistent(s)
  {
    forall u, i | Listed(s, u, i)
      ensures s.clients[u][i] < s.next && s.clients[u][i] in s.sessions && s.sessions[s.clients[u][i]] == Session(u, Open)
    {
      assert s.clients[u][i] in s.clients[u];
      assert In(s, s.clients[u][i], Open);
    }
  }

  /** Over every interleaving in which REST joins come from present users: each room member is
      online or about to be swept, connection ids are unique and below the counter, every
      listed connection is an open session of that very user, and nothing is stored empty. */
  lemma HubStaysConsistent(es: seq<Event>)
    requires JoinsOnlyWhilePresent(EMPTY, es)
    ensures Consistent(Run(EMPTY, es))
  {
    RunKeepsValid(EMPTY, es);
    ValidIsConsistent(Run(EMPTY, es));
  }

  // ---------- a broadcast among other events ----------

  /** One member's turn in a broadcast: `at` events of the run have happened by then. */
  datatype Turn = Turn(user: User, at: nat)

  /** A broadcast copies the members of the room and then sends to one after the other, while
      the rest of the run goes on. */
  predicate Broadcast(turns: seq<Turn>, es: seq<Event>) {
    && (forall i :: 0 <= i < |turns| ==> turns[i].at <= |es|)
    && (forall i, j :: 0 <= i < j < |turns| ==> turns[i].user != turns[j].user && turns[i].at <= turns[j].at)
  }

  /** The connections a member's turn sends to. */
  function SentTo(s: State, es: seq<Event>, t: Turn): set<Conn>
    requires t.at <= |es|
  {
    ConnsOf(Run(s, es[..t.at]).clients, t.user)
  }

  lemma {:induction false} RunKeepsWired(s: State, es: seq<Event>)
    requires Wired(s)
    ensures Wired(Run(s, es))
    decreases |es|
  {
    if es != [] {
      StepKeepsWired(s, es[0]);
      RunKeepsWired(Step(s, es[0]), es[1..]);
    }
  }

  lemma {:induction false} SessionStaysAll(s: State, es: seq<Event>, id: Conn)
    requires Wired(s) && id in s.sessions
    ensures id in Run(s, es).sessions && Run(s, es).sessions[id].user == s.sessions[id].user
    decreases |es|
  {
    if es != [] {
      StepKeepsWired(s, es[0]);
      SessionStays(s, es[0], id);
      SessionStaysAll(Step(s, es[0]), es[1..], id);
    }
  }

  lemma {:induction false} RunSplits(s: State, es: seq<Event>, n: nat)
    requires n <= |es|
    ensures Run(s, es) == Run(Run(s, es[..n]), es[n..])
    decreases |es|
  {
    if n > 0 {
      assert es[..n][1..] == es[1..][..n - 1] && es[n..] == es[1..][n - 1..];
      RunSplits(Step(s, es[0]), es[1..], n - 1);
    } else {
      assert es[0..] == es;
    }
  }

  /** The connections sent to in a turn are exactly the open sessions of its user at that
      moment, and the session keeps that user for the rest of the run. */
  lemma SentToOwn(s: State, es: seq<Event>, t: Turn, id: Conn)
    requires Wired(s) && t.at <= |es|
    ensures var now := Run(s, es[..t.at]);
      id in SentTo(s, es, t) <==> In(now, id, Open) && now.sessions[id].user == t.user
    ensures id in SentTo(s, es, t) ==> id in Run(s, es).sessions && Run(s, es).sessions[id].user == t.user
  {
    var now := Run(s, es[..t.at]);
    RunKeepsWired(s, es[..t.at]);
    RunSplits(s, es, t.at);
    if id in now.sessions { SessionStaysAll(now, es[t.at..], id); }
    assert (t.user in now.clients && id in now.clients[t.user]) <==> (In(now, id, Open) && now.sessions[id].user == t.user);
  }

  /** However the broadcast interleaves with the rest: no connection is sent to twice, a
      connection is sent to only as an open session of a member, and every session of a member
      that is open at the member's turn is sent to. */
  lemma BroadcastReachesOnce(s: State, es: seq<Event>, turns: seq<Turn>, i: nat, id: Conn)
    requires Wired(s) && Broadcast(turns, es) && i < |turns|
    ensures id in SentTo(s, es, turns[i]) ==>
      forall j :: 0 <= j < |turns| && j != i ==> id !in SentTo(s, es, turns[j])
    ensures var now := Run(s, es[..turns[i].at]);
      id in SentTo(s, es, turns[i]) <==> In(now, id, Open) && now.sessions[id].user == turns[i].user
  {
    SentToOwn(s, es, turns[i], id);
    forall j | 0 <= j < |turns| && j != i && id in SentTo(s, es, turns[i]) ensures id !in SentTo(s, es, turns[j]) {
      SentToOwn(s, es, turns[j], id);
      assert turns[if i < j then i else j].user != turns[if i < j then j else i].user;
    }
  }

  // ---------- who can lose a membership ----------

  /** The step is a leave by one of the user's own sockets, the close of the room, or the
      sweep that one of the user's earlier sessions still owed. */
  predicate Removes(s: State, e: Event, r: Room, u: User) {
    match e
    case Leave(id, r') => In(s, id, Open) && s.sessions[id].user == u && r' == r
    case CloseRoom(r') => r' == r
    case Sweep(id) => In(s, id, Leaving) && s.sessions[id].user == u
    case _ => false
  }

  /** A member loses a room exactly by one of those three. */
  lemma MembershipEnds(s: State, e: Event, r: Room, u: User)
    requires Member(s, r, u)
    ensures Member(Step(s, e), r, u) <==> !Removes(s, e, r, u)
  {
    match e {
      case Leave(id, r') =>
        if In(s, id, Open) && s.sessions[id].user != u { assert u in s.rooms[r] - {s.sessions[id].user}; }
      case Sweep(id) =>
        if In(s, id, Leaving) && s.sessions[id].user != u { assert u in s.rooms[r] - {s.sessions[id].user}; }
      case _ =>
    }
  }

  /** A user who is not in a room gets in exactly by a join from one of their own open sockets,
      or a REST join in their name. */
  lemma MembershipBegins(s: State, e: Event, r: Room, u: User)
    requires !Member(s, r, u)
    ensures Member(Step(s, e), r, u) <==>
      (e.Join? && e.room == r && In(s, e.id, Open) && s.sessions[e.id].user == u) || e == RestJoin(u, r)
  {
  }

  /** A session goes on to sweep the rooms exactly if, when it ended, its user had no other open
      session; otherwise it is closed at once. */
  lemma LeavesIffLast(s: State, id: Conn)
    requires Wired(s) && In(s, id, Open)
    ensures In(Step(s, Detach(id)), id, Leaving) <==>
      forall other :: In(s, other, Open) && s.sessions[other].user == s.sessions[id].user ==> other == id
    ensures In(Step(s, Detach(id)), id, Leaving) || In(Step(s, Detach(id)), id, Closed)
  {
    var u := s.sessions[id].user;
    WithoutKeepsRest(s.clients[u], id);
    var rest := Without(s.clients[u], id);
    if rest != [] {
      assert rest[0] in s.clients[u] && rest[0] != id;
      assert In(s, rest[0], Open) && s.sessions[rest[0]].user == u;
    }
    forall other | In(s, other, Open) && s.sessions[other].user == u && other != id ensures rest != [] {
      assert other in s.clients[u];
      assert other in rest;
    }
  }

  lemma {:induction false} SocketJoinsOnly(s: State, es: seq<Event>)
    requires forall e :: e in es ==> !e.RestJoin?
    ensures JoinsOnlyWhilePresent(s, es)
    decreases |es|
  {
    if es != [] { SocketJoinsOnly(Step(s, es[0]), es[1..]); }
  }

  function ComeAndGo(u: User): seq<Event> {
    [Allocate(u), Attach(0), Detach(0)]
  }

  function ComeBack(u: User, r: Room): seq<Event> {
    [Allocate(u), Attach(1), Join(1, r), Sweep(0)]
  }

  lemma AfterComeAndGo(u: User)
    ensures Run(EMPTY, ComeAndGo(u)) == State(map[], map[], 1, map[0 := Session(u, Leaving)])
  {
    var es := ComeAndGo(u);
    var s1, r1 := Step(EMPTY, es[0]), es[1..];
    var s2, r2 := Step(s1, r1[0]), r1[1..];
    assert [] + [0] == [0] && Without([0], 0) == [];
    assert s2 == State(map[u := [0]], map[], 1, map[0 := Session(u, Open)]);
    var s3, r3 := Step(s2, r2[0]), r2[1..];
    assert s3.clients == map[];
    assert Run(EMPTY, es) == Run(s1, r1) == Run(s2, r2) == Run(s3, r3) == s3;
  }

  /** The sweep does not look whether the user has come back: a user who reconnects and joins
      a room between the two phases is online and not in the room they joined. */
  lemma SweepDropsReturningUser(u: User, r: Room)
    ensures var joined := Run(Run(EMPTY, ComeAndGo(u)), ComeBack(u, r)[..3]);
      var s := Step(joined, ComeBack(u, r)[3]);
      u in joined.clients && Member(joined, r, u) && u in s.clients && !Member(s, r, u)
    ensures JoinsOnlyWhilePresent(EMPTY, ComeAndGo(u) + ComeBack(u, r))
  {
    AfterComeAndGo(u);
    SocketJoinsOnly(EMPTY, ComeAndGo(u) + ComeBack(u, r));
    var es := ComeBack(u, r)[..3];
    var s0 := State(map[], map[], 1, map[0 := Session(u, Leaving)]);
    var s1, r1 := Step(s0, es[0]), es[1..];
    var s2, r2 := Step(s1, r1[0]), r1[1..];
    assert [] + [1] == [1];
    assert s2.clients == map[u := [1]] && In(s2, 1, Open) && In(s2, 0, Leaving);
    var s3, r3 := Step(s2, r2[0]), r2[1..];
    var none: set<User> := {};
    assert none + {u} == {u};
    assert s3.rooms == map[r := {u}];
    assert Run(s0, es) == Run(s1, r1) == Run(s2, r2) == Run(s3, r3) == s3;
    assert {u} - {u} == {};
  }
}
