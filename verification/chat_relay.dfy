/**
 * The chat relay `setup_websocket` installs: a registry of admitted
 * connections, in admission order. A connection is admitted only when its
 * handshake carries a session cookie that identifies a user; a message from
 * an admitted connection is relayed to every registered connection, the
 * sender included; a disconnect removes the connection and tells everyone
 * left.
 *
 * The transport is reduced to what the relay does with it: the parsed
 * handshake cookies are an input, every emit is appended to an outbox log,
 * and the clock is a function from the position of the recipient in one
 * `forEach` to the timestamp it reads.
 */
module ChatRelay {
  import opened Common
  import opened UserStore
  import opened AccountManager

  /** A socket.io connection; `name` is its `socket.data.name`. */
  class Connection {
    var name: Option<string>

    constructor ()
      ensures name == None
    {
      name := None;
    }
  }

  /** One `emit("message", author, content, timestamp)` on connection `to`. */
  datatype Emit = Emit(to: Connection, author: string, content: string, timestamp: int)

  const ServerAuthor := "Server"
  const UnknownUser := "Unknown User"

  /** `socket.data.name ?? "Unknown User"`. */
  function AuthorOf(name: Option<string>): string
  {
    match name
    case Some(n) => n
    case None => UnknownUser
  }

  /** The text announcing that `author` left. */
  function DisconnectNotice(author: string): string
  {
    "User \"" + author + "\" disconnected"
  }

  /**
   * One `forEach` emitting (author, content) to each of `recipients` in
   * order; the k-th emit carries the k-th reading of the clock.
   */
  function Broadcast(recipients: seq<Connection>, author: string, content: string, clock: nat -> int): (r: seq<Emit>)
    ensures |r| == |recipients|
    ensures forall k :: 0 <= k < |r| ==> r[k] == Emit(recipients[k], author, content, clock(k))
  {
    if recipients == [] then []
    else
      var n := |recipients| - 1;
      Broadcast(recipients[..n], author, content, clock) + [Emit(recipients[n], author, content, clock(n))]
  }

  /** How many of `emits` go to `c`. */
  function CountTo(emits: seq<Emit>, c: Connection): nat
  {
    if emits == [] then 0
    else CountTo(emits[..|emits| - 1], c) + (if emits[|emits| - 1].to == c then 1 else 0)
  }

  predicate Distinct<T(==)>(s: seq<T>)
  {
    forall i, j :: 0 <= i < j < |s| ==> s[i] != s[j]
  }

  /** A broadcast to distinct recipients reaches each of them once and no one else. */
  lemma {:induction false} BroadcastReachesEachOnce(recipients: seq<Connection>, author: string, content: string,
                                                    clock: nat -> int, c: Connection)
    requires Distinct(recipients)
    ensures CountTo(Broadcast(recipients, author, content, clock), c) == if c in recipients then 1 else 0
    decreases |recipients|
  {
    if recipients != [] {
      var n := |recipients| - 1;
      var prefix := recipients[..n];
      var last := recipients[n];
      CountToSnoc(Broadcast(prefix, author, content, clock), Emit(last, author, content, clock(n)), c);
      DistinctSnoc(recipients);
      BroadcastReachesEachOnce(prefix, author, content, clock, c);
      assert recipients == prefix + [last];
    }
  }

  /** One more emit counts for its recipient only. */
  lemma CountToSnoc(emits: seq<Emit>, e: Emit, c: Connection)
    ensures CountTo(emits + [e], c) == CountTo(emits, c) + (if e.to == c then 1 else 0)
  {
    assert (emits + [e])[..|emits|] == emits;
  }

  /** Dropping the last of distinct connections leaves them distinct, and the last one not among them. */
  lemma DistinctSnoc(s: seq<Connection>)
    requires Distinct(s) && s != []
    ensures Distinct(s[..|s| - 1]) && s[|s| - 1] !in s[..|s| - 1]
  {
  }

  /** Removing the entry at `i` from distinct connections leaves them distinct, without it, and among the others. */
  lemma RemoveDistinct(s: seq<Connection>, i: int)
    requires Distinct(s) && 0 <= i < |s|
    ensures Distinct(s[..i] + s[i + 1..]) && s[i] !in s[..i] + s[i + 1..]
    ensures forall c :: c in s[..i] + s[i + 1..] ==> c in s
  {
    var t := s[..i] + s[i + 1..];
    forall a | 0 <= a < |t|
      ensures t[a] == s[if a < i then a else a + 1]
    {
    }
  }

  /** The index of the first occurrence of `c` in `s`, or -1 (`indexOf`). */
  function IndexOf(s: seq<Connection>, c: Connection): (r: int)
    ensures -1 <= r < |s|
    ensures 0 <= r ==> s[r] == c && c !in s[..r]
    ensures r < 0 <==> c !in s
  {
    if s == [] then -1
    else if s[0] == c then 0
    else
      var r := IndexOf(s[1..], c);
      assert s == [s[0]] + s[1..];
      if r < 0 then -1 else r + 1
  }

  /**
   * The username the lookup of `session` resolves to: none when the lookup
   * rejects or finds no row holding the session.
   */
  function SessionUser(session: string, auth: SQLiteAuth, fault: Fault): (r: Option<string>)
    reads auth, auth.db
    ensures r.Some? ==> exists u :: u in auth.db.rows && u.session == Some(session) && u.username == r.value
    ensures (Serves(fault, 0) && exists u :: u in auth.db.rows && u.session == Some(session)) ==> r.Some?
    ensures !Serves(fault, 0) ==> r.None?
  {
    match auth.GetUserBySession(session, fault)
    case Resolved(Ok(user)) => Some(user.username)
    case _ => None
  }

  /**
   * The user the handshake cookies identify: the session cookie must be
   * present and its lookup must resolve to a user.
   */
  function Admission(cookies: Option<map<string, string>>, auth: SQLiteAuth, fault: Fault): (r: Option<string>)
    reads auth, auth.db
    ensures r.Some? ==> cookies.Some? && "session" in cookies.value &&
                        exists u :: u in auth.db.rows && u.session == Some(cookies.value["session"]) &&
                                    u.username == r.value
    ensures (cookies.Some? && "session" in cookies.value && Serves(fault, 0) &&
             exists u :: u in auth.db.rows && u.session == Some(cookies.value["session"])) ==> r.Some?
  {
    if cookies.None? || "session" !in cookies.value then None
    else SessionUser(cookies.value["session"], auth, fault)
  }

  /**
   * The `sockets` array of `setup_websocket`, the connections whose
   * `connection` handler is suspended at its `await`, and everything emitted
   * so far. `closed` is the transport's side: the connections that have
   * disconnected (`socket.disconnected`).
   */
  class Registry {
    /** Admitted connections still registered, in admission order. */
    var sockets: seq<Connection>
    /** Connections whose `disconnect` and `message` handlers are installed. */
    var handled: set<Connection>
    /** Connections awaiting the lookup of their session cookie, with that session. */
    var pending: map<Connection, string>
    /** Connections that have disconnected. */
    var closed: set<Connection>
    /** Every emit, in order. */
    var outbox: seq<Emit>

    /**
     * Registered connections are distinct and admitted, a connection awaiting
     * its lookup has no handlers yet, and nothing was ever emitted to a
     * connection that was not admitted.
     */
    ghost predicate Valid()
      reads this
    {
      Distinct(sockets) &&
      (forall k :: 0 <= k < |sockets| ==> sockets[k] in handled) &&
      pending.Keys !! handled &&
      (forall k :: 0 <= k < |outbox| ==> outbox[k].to in handled)
    }

    /** No registered connection has disconnected. */
    ghost predicate Live()
      reads this
    {
      forall c :: c in sockets ==> c !in closed
    }

    constructor ()
      ensures Valid() && Live()
      ensures sockets == [] && handled == {} && pending == map[] && closed == {} && outbox == []
    {
      sockets := [];
      handled := {};
      pending := map[];
      closed := {};
      outbox := [];
    }

    /**
     * The `connection` handler up to its `await`: a connection without a
     * cookie header or without a session cookie is dropped; otherwise the
     * lookup of its session is started and the handler is suspended.
     */
    method BeginConnect(socket: Connection, cookies: Option<map<string, string>>)
      requires Valid() && socket !in handled && socket !in pending && socket !in closed
      modifies this
      ensures Valid() && sockets == old(sockets) && handled == old(handled)
      ensures closed == old(closed) && outbox == old(outbox)
      ensures cookies.Some? && "session" in cookies.value ==>
                pending == old(pending)[socket := cookies.value["session"]]
      ensures cookies.None? || "session" !in cookies.value ==> pending == old(pending)
    {
      if cookies.None? {
        return;
      }
      if "session" !in cookies.value {
        return;
      }
      pending := pending[socket := cookies.value["session"]];
    }

    /**
     * The `connection` handler after its `await`, as written: when the lookup
     * resolves to a user, the connection is named after the user, appended to
     * the registry and given its handlers, whether or not it disconnected in
     * the meantime; otherwise it is dropped without a trace.
     */
    method CompleteConnectAsWritten(socket: Connection, auth: SQLiteAuth, fault: Fault)
      requires Valid() && socket in pending
      modifies this, socket
      ensures Valid() && closed == old(closed) && outbox == old(outbox)
      ensures pending == old(pending) - {socket}
      ensures var user := SessionUser(old(pending)[socket], auth, fault);
              if user.Some? then
                socket.name == user && sockets == old(sockets) + [socket] && handled == old(handled) + {socket}
              else
                socket.name == old(socket.name) && sockets == old(sockets) && handled == old(handled)
    {
      var session := pending[socket];
      pending := pending - {socket};
      var found := auth.GetUserBySession(session, fault);
      if found.Rejected? || found.value.Err? {
        return;
      }
      socket.name := Some(found.value.value.username);
      sockets := sockets + [socket];
      handled := handled + {socket};
    }

    /**
     * The `connection` handler after its `await`, corrected: a connection
     * that disconnected while its lookup was pending is dropped too, so no
     * registered connection is ever a closed one.
     */
    method CompleteConnect(socket: Connection, auth: SQLiteAuth, fault: Fault)
      requires Valid() && socket in pending
      modifies this, socket
      ensures Valid() && closed == old(closed) && outbox == old(outbox)
      ensures pending == old(pending) - {socket}
      ensures old(Live()) ==> Live()
      ensures var user := SessionUser(old(pending)[socket], auth, fault);
              if user.Some? && socket !in closed then
                socket.name == user && sockets == old(sockets) + [socket] && handled == old(handled) + {socket}
              else
                socket.name == old(socket.name) && sockets == old(sockets) && handled == old(handled)
    {
      var session := pending[socket];
      pending := pending - {socket};
      var found := auth.GetUserBySession(session, fault);
      if found.Rejected? || found.value.Err? || socket in closed {
        return;
      }
      socket.name := Some(found.value.value.username);
      sockets := sockets + [socket];
      handled := handled + {socket};
    }

    /** Emits (author, content) to every registered connection, in order. */
    method Relay(author: string, content: string, clock: nat -> int)
      requires Valid()
      modifies this
      ensures Valid() && sockets == old(sockets) && handled == old(handled)
      ensures pending == old(pending) && closed == old(closed)
      ensures outbox == old(outbox) + Broadcast(sockets, author, content, clock)
    {
      var k := 0;
      while k < |sockets|
        invariant 0 <= k <= |sockets|
        invariant Valid() && sockets == old(sockets) && handled == old(handled)
        invariant pending == old(pending) && closed == old(closed)
        invariant outbox == old(outbox) + Broadcast(sockets[..k], author, content, clock)
      {
        assert sockets[..k + 1][..k] == sockets[..k];
        outbox := outbox + [Emit(sockets[k], author, content, clock(k))];
        k := k + 1;
      }
      assert sockets[..k] == sockets;
    }

    /**
     * `socket` disconnects; the transport does this once per connection. Its
     * `disconnect` handler, when installed, removes it from the registry, and
     * every connection left hears from "Server" that it disconnected. A
     * connection still awaiting its lookup has no handler, so nothing happens.
     */
    method Disconnect(socket: Connection, clock: nat -> int)
      requires Valid() && socket !in closed
      modifies this
      ensures Valid() && handled == old(handled) && pending == old(pending)
      ensures closed == old(closed) + {socket}
      ensures old(Live()) ==> Live()
      ensures forall c :: c in old(sockets) && c != socket ==> c in sockets
      ensures socket !in old(sockets) ==> sockets == old(sockets) && outbox == old(outbox)
      ensures socket in old(sockets) ==>
                var i := IndexOf(old(sockets), socket);
                sockets == old(sockets)[..i] + old(sockets)[i + 1..] && socket !in sockets &&
                outbox == old(outbox) + Broadcast(sockets, ServerAuthor, DisconnectNotice(AuthorOf(socket.name)), clock)
    {
      closed := closed + {socket};
      if socket !in handled {
        return;
      }
      var index := IndexOf(sockets, socket);
      if index < 0 {
        return;
      }
      RemoveDistinct(sockets, index);
      sockets := sockets[..index] + sockets[index + 1..];
      Relay(ServerAuthor, DisconnectNotice(AuthorOf(socket.name)), clock);
    }

    /**
     * The `message` handler of `socket`: the content goes verbatim to every
     * registered connection, the sender included, under the sender's name.
     */
    method Message(socket: Connection, content: string, clock: nat -> int)
      requires Valid()
      modifies this
      ensures Valid() && sockets == old(sockets) && handled == old(handled)
      ensures pending == old(pending) && closed == old(closed)
      ensures socket in handled ==> outbox == old(outbox) + Broadcast(sockets, AuthorOf(socket.name), content, clock)
      ensures socket !in handled ==> outbox == old(outbox)
    {
      if socket !in handled {
        return;
      }
      Relay(AuthorOf(socket.name), content, clock);
    }
  }

  /**
   * A `connection` event on a socket that stays open until its handler
   * completes: the socket is registered, under the admitted user, exactly
   * when its cookies admit it.
   */
  method ConnectWhileOpen(registry: Registry, socket: Connection, cookies: Option<map<string, string>>,
                          auth: SQLiteAuth, fault: Fault)
    requires registry.Valid()
    requires socket !in registry.handled && socket !in registry.pending && socket !in registry.closed
    modifies registry, socket
    ensures registry.Valid() && registry.pending == old(registry.pending)
    ensures registry.closed == old(registry.closed) && registry.outbox == old(registry.outbox)
    ensures var admitted := Admission(cookies, auth, fault);
            if admitted.Some? then
              socket.name == admitted && registry.sockets == old(registry.sockets) + [socket] &&
              registry.handled == old(registry.handled) + {socket}
            else
              socket.name == old(socket.name) && registry.sockets == old(registry.sockets) &&
              registry.handled == old(registry.handled)
  {
    registry.BeginConnect(socket, cookies);
    if cookies.Some? && "session" in cookies.value {
      registry.CompleteConnectAsWritten(socket, auth, fault);
      assert registry.pending == old(registry.pending);
    }
  }

  /**
   * A fresh registry in which `early` began its connection, disconnected
   * while its lookup was pending, and then had its handler completed, as
   * written or corrected.
   */
  method ClosedDuringLookup(auth: SQLiteAuth, session: string, clock: nat -> int, corrected: bool)
    returns (registry: Registry, early: Connection)
    requires SessionUser(session, auth, Healthy).Some?
    ensures fresh(registry) && registry.Valid() && registry.Live() == corrected
    ensures registry.closed == {early} && registry.pending == map[] && registry.outbox == []
    ensures registry.sockets == (if corrected then [] else [early])
    ensures registry.handled == (if corrected then {} else {early})
  {
    registry := new Registry();
    early := new Connection();
    registry.BeginConnect(early, Some(map["session" := session]));
    registry.Disconnect(early, clock);
    assert registry.sockets == [] && registry.closed == {early} && registry.pending == map[early := session];
    if corrected {
      registry.CompleteConnect(early, auth, Healthy);
    } else {
      registry.CompleteConnectAsWritten(early, auth, Healthy);
      assert registry.sockets == [early];
    }
  }

  /**
   * A connection that disconnects while the lookup of its session is
   * pending: the handler as written still registers it, it can never
   * disconnect again, and a later message from a second tab of the same
   * user is relayed to it first.
   */
  method ClosedDuringLookupStaysRegistered(auth: SQLiteAuth, session: string, clock: nat -> int)
    returns (registry: Registry, early: Connection, later: Connection)
    requires SessionUser(session, auth, Healthy).Some?
    ensures early in registry.closed && registry.sockets == [early, later]
    ensures |registry.outbox| == 2 && registry.outbox[0].to == early && registry.outbox[0].content == "hello"
  {
    registry, early := ClosedDuringLookup(auth, session, clock, false);
    later := new Connection();
    registry.BeginConnect(later, Some(map["session" := session]));
    assert registry.pending == map[later := session];
    registry.CompleteConnectAsWritten(later, auth, Healthy);
    assert registry.sockets == [early] + [later];
    var sent := Broadcast(registry.sockets, AuthorOf(later.name), "hello", clock);
    assert registry.outbox == [] && |sent| == 2 && sent[0].to == early && sent[0].content == "hello";
    registry.Message(later, "hello", clock);
    assert registry.outbox == [] + sent;
  }

  /**
   * The same sequence with the corrected handler: the closed connection is
   * dropped, and the message reaches the second tab alone.
   */
  method ClosedDuringLookupDropped(auth: SQLiteAuth, session: string, clock: nat -> int)
    returns (registry: Registry, early: Connection, later: Connection)
    requires SessionUser(session, auth, Healthy).Some?
    ensures early in registry.closed && registry.sockets == [later] && registry.Live()
    ensures |registry.outbox| == 1 && registry.outbox[0].to == later && registry.outbox[0].content == "hello"
  {
    registry, early := ClosedDuringLookup(auth, session, clock, true);
    later := new Connection();
    registry.BeginConnect(later, Some(map["session" := session]));
    assert registry.pending == map[later := session];
    registry.CompleteConnect(later, auth, Healthy);
    assert registry.sockets == [later];
    var sent := Broadcast(registry.sockets, AuthorOf(later.name), "hello", clock);
    assert registry.outbox == [] && |sent| == 1 && sent[0].to == later && sent[0].content == "hello";
    registry.Message(later, "hello", clock);
    assert registry.outbox == [] + sent;
  }
}
