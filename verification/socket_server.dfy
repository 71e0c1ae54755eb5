/**
 * The broadcast log-sink server: its connection registry (a counter and a
 * table from connection ID to socket, updated in place as sockets are
 * accepted and closed) and its log operation (compose one line, snapshot
 * the registered sockets, write the line once to each).
 */
module SocketServer {
  import opened Wrappers
  import opened LineFormat
  import opened Binder
  import opened FanOut

  /** An accepted client socket, by identity. */
  datatype Socket = Socket(handle: nat)

  /** One leg of a broadcast: `socket.write(payload, 'utf-8', cb)`. */
  datatype Write = Write(socket: Socket, payload: string)

  /** Construction options; `None` stands for an absent option. */
  datatype Options = Options(level: Option<string>, path: Option<Endpoint>, name: Option<string>)

  /** `option || fallback` for a string option: absent and empty both fall back. */
  function OrDefault(option: Option<string>, fallback: string): (s: string)
    ensures fallback != [] ==> s != []
    ensures option.Some? && option.value != [] ==> s == option.value
    ensures option.None? || option.value == [] ==> s == fallback
  {
    if option.Some? && option.value != [] then option.value else fallback
  }

  /** The registered IDs in `[1, n)`, in ascending order: the order in which
      a `for…in` loop enumerates the integer keys of an object. */
  function IdsBelow(m: map<nat, Socket>, n: nat): (ids: seq<nat>)
    ensures forall k :: k in ids <==> k in m && 1 <= k < n
    decreases n
  {
    if n <= 1 then [] else IdsBelow(m, n - 1) + (if n - 1 in m then [n - 1] else [])
  }

  /** The IDs come out strictly ascending, so none is listed twice. */
  lemma {:induction false} IdsBelowAscending(m: map<nat, Socket>, n: nat)
    ensures forall i, j :: 0 <= i < j < |IdsBelow(m, n)| ==> IdsBelow(m, n)[i] < IdsBelow(m, n)[j]
    decreases n
  {
    if n > 1 {
      IdsBelowAscending(m, n - 1);
      var prev := IdsBelow(m, n - 1);
      assert forall i :: 0 <= i < |prev| ==> prev[i] in prev;
      if n - 1 in m {
        assert IdsBelow(m, n) == prev + [n - 1];
      } else {
        assert prev + [] == prev;
        assert IdsBelow(m, n) == prev;
      }
    }
  }

  /** The sockets stored under `ids`, in that order. */
  function Values(m: map<nat, Socket>, ids: seq<nat>): (sockets: seq<Socket>)
    requires forall k :: k in ids ==> k in m
  {
    seq(|ids|, i requires 0 <= i < |ids| => m[ids[i]])
  }

  /** The sockets a log call writes to: the registered sockets by ascending
      ID. When every ID lies in `[1, n)` there are as many targets as registry
      entries (`SnapshotCoversRegistry` places each one). */
  function Targets(m: map<nat, Socket>, n: nat): (targets: seq<Socket>)
    ensures (forall k :: k in m ==> 1 <= k < n) ==> |targets| == |m|
  {
    IdsBelowCount(m, n);
    assert (forall k :: k in m ==> 1 <= k < n) ==> KeysBelow(m, n) == m.Keys;
    Values(m, IdsBelow(m, n))
  }

  /** One write of `line` per target, in target order. What the broadcast
      promises about the registry is `BroadcastReachesEachOnce`. */
  function Legs(targets: seq<Socket>, line: string): (writes: seq<Write>)
  {
    seq(|targets|, j requires 0 <= j < |targets| => Write(targets[j], line))
  }

  /** `ids` with every occurrence of `id` taken out. */
  function Without(ids: seq<nat>, id: nat): (rest: seq<nat>)
  {
    if ids == [] then []
    else Without(ids[..|ids| - 1], id) + (if ids[|ids| - 1] == id then [] else [ids[|ids| - 1]])
  }

  /** The registry keys below `n`. */
  ghost function KeysBelow(m: map<nat, Socket>, n: nat): (keys: set<nat>)
  {
    set k | k in m && 1 <= k < n
  }

  lemma KeysBelowStep(m: map<nat, Socket>, n: nat)
    requires n > 1
    ensures n - 1 in m ==> KeysBelow(m, n) == KeysBelow(m, n - 1) + {n - 1}
    ensures n - 1 !in m ==> KeysBelow(m, n) == KeysBelow(m, n - 1)
    ensures n - 1 !in KeysBelow(m, n - 1)
  {
  }

  lemma {:induction false} IdsBelowCount(m: map<nat, Socket>, n: nat)
    ensures |IdsBelow(m, n)| == |KeysBelow(m, n)|
    decreases n
  {
    if n <= 1 {
      assert forall k :: k !in KeysBelow(m, n);
      assert KeysBelow(m, n) == {};
    } else {
      IdsBelowCount(m, n - 1);
      KeysBelowStep(m, n);
    }
  }

  /** When every key lies in `[1, n)`, the snapshot holds every registered
      socket exactly once: one position per ID, no ID twice, none missing. */
  lemma SnapshotCoversRegistry(m: map<nat, Socket>, n: nat)
    requires forall k :: k in m ==> 1 <= k < n
    ensures var ids := IdsBelow(m, n);
            && |ids| == |m|
            && (forall k :: k in m <==> k in ids)
            && (forall i, j :: 0 <= i < |ids| && 0 <= j < |ids| && ids[i] == ids[j] ==> i == j)
            && |Targets(m, n)| == |m|
            && (forall i :: 0 <= i < |ids| ==> Targets(m, n)[i] == m[ids[i]])
  {
    IdsBelowCount(m, n);
    IdsBelowAscending(m, n);
    assert KeysBelow(m, n) == m.Keys;
  }

  lemma {:induction false} IdsBelowAgree(m: map<nat, Socket>, m': map<nat, Socket>, n: nat)
    requires forall k :: 1 <= k < n ==> (k in m <==> k in m')
    ensures IdsBelow(m, n) == IdsBelow(m', n)
    decreases n
  {
    if n > 1 {
      IdsBelowAgree(m, m', n - 1);
    }
  }

  /** Accepting under the counter value appends the new socket to the end of
      every later snapshot and leaves the earlier targets as they were. */
  lemma AcceptAppendsTarget(m: map<nat, Socket>, n: nat, s: Socket)
    requires 1 <= n && forall k :: k in m ==> 1 <= k < n
    ensures Targets(m[n := s], n + 1) == Targets(m, n) + [s]
  {
    var m' := m[n := s];
    IdsBelowAgree(m, m', n);
    var ids := IdsBelow(m, n);
    assert IdsBelow(m', n + 1) == ids + [n];
    assert Values(m', ids + [n]) == Values(m, ids) + [s];
  }

  lemma WithoutSnoc(a: seq<nat>, x: nat, id: nat)
    ensures Without(a + [x], id) == Without(a, id) + (if x == id then [] else [x])
  {
    assert (a + [x])[..|a|] == a;
  }

  lemma {:induction false} IdsBelowRemove(m: map<nat, Socket>, n: nat, id: nat)
    ensures IdsBelow(m - {id}, n) == Without(IdsBelow(m, n), id)
    decreases n
  {
    if n > 1 {
      IdsBelowRemove(m, n - 1, id);
      var a := IdsBelow(m, n - 1);
      var a' := IdsBelow(m - {id}, n - 1);
      assert a' == Without(a, id);
      if n - 1 in m {
        assert IdsBelow(m, n) == a + [n - 1];
        WithoutSnoc(a, n - 1, id);
        if n - 1 == id {
          assert IdsBelow(m - {id}, n) == a' + [];
        } else {
          assert IdsBelow(m - {id}, n) == a' + [n - 1];
        }
      } else {
        assert a + [] == a && a' + [] == a';
        assert IdsBelow(m, n) == a;
        assert IdsBelow(m - {id}, n) == a';
      }
    }
  }

  /** Closing a connection removes exactly its socket from later snapshots;
      every other target stays, in the same order. */
  lemma CloseDropsTarget(m: map<nat, Socket>, n: nat, id: nat)
    ensures var rest := Without(IdsBelow(m, n), id);
            && id !in rest
            && (forall k :: k in rest ==> k in m)
            && Targets(m - {id}, n) == Values(m, rest)
  {
    IdsBelowRemove(m, n, id);
    var rest := Without(IdsBelow(m, n), id);
    assert forall k :: k in rest <==> k in m - {id} && 1 <= k < n;
  }

  /** A broadcast to a registry whose keys lie in `[1, n)` writes the line
      once to the socket of every registered ID, in ID order, and to nothing
      else. */
  lemma BroadcastReachesEachOnce(m: map<nat, Socket>, n: nat, line: string)
    requires forall k :: k in m ==> 1 <= k < n
    ensures var ids := IdsBelow(m, n);
            var writes := Legs(Targets(m, n), line);
            && |writes| == |ids| == |m|
            && (forall id :: id in m ==> exists j :: 0 <= j < |ids| && ids[j] == id && writes[j] == Write(m[id], line))
            && (forall j :: 0 <= j < |writes| ==> ids[j] in m && writes[j] == Write(m[ids[j]], line))
            && (forall i, j :: 0 <= i < |ids| && 0 <= j < |ids| && ids[i] == ids[j] ==> i == j)
  {
    var ids := IdsBelow(m, n);
    var targets := Targets(m, n);
    var writes := Legs(targets, line);
    assert |writes| == |ids| == |m| by {
      IdsBelowCount(m, n);
      assert KeysBelow(m, n) == m.Keys;
    }
    assert forall j :: 0 <= j < |writes| ==> ids[j] in m && writes[j] == Write(m[ids[j]], line) by {
      assert forall j :: 0 <= j < |ids| ==> ids[j] in ids;
    }
    assert forall i, j :: 0 <= i < |ids| && 0 <= j < |ids| && ids[i] == ids[j] ==> i == j by {
      IdsBelowAscending(m, n);
    }
    forall id | id in m
      ensures exists j :: 0 <= j < |ids| && ids[j] == id && writes[j] == Write(m[id], line)
    {
      assert id in ids;
      var j :| 0 <= j < |ids| && ids[j] == id;
      assert writes[j] == Write(targets[j], line);
    }
  }

  /** The end-to-end promise of a log call on a registry whose keys lie in
      `[1, n)`, with `reports` the outcomes of its writes in arrival order:
      while every reported write succeeded and some socket has not reported,
      nothing is emitted; once every socket has reported, 'logged' is emitted
      and then the callback, with a null error and success iff no write
      failed. */
  lemma BroadcastCompletes(m: map<nat, Socket>, n: nat, line: string, reports: seq<Outcome>)
    requires forall k :: k in m ==> 1 <= k < n
    requires |reports| <= |m|
    ensures var legs := |Legs(Targets(m, n), line)|;
            && (AllOk(reports) && |reports| < |m| ==> Completion(JoinAfter(legs, reports)) == [])
            && (|reports| == |m| ==> Completion(JoinAfter(legs, reports)) == [Logged, Callback(None, AllOk(reports))])
  {
    assert |Legs(Targets(m, n), line)| == |m|;
    if |reports| == |m| {
      CompletionAfterAllLegs(|m|, reports);
    } else if AllOk(reports) {
      NothingBeforeLastSuccess(|m|, reports);
    }
  }

  class Server {
    /** The minimum level; stored but not used by this code. */
    const level: string
    const name: string
    const endpoint: Endpoint
    /** The ID the next accepted socket gets. */
    var socketId: nat
    /** The live connections by ID. */
    var sockets: map<nat, Socket>
    /** Every ID handed out so far. */
    ghost var issued: set<nat>

    ghost predicate Valid()
      reads this
    {
      && 1 <= socketId
      && (forall k :: k in issued <==> 1 <= k < socketId)
      && sockets.Keys <= issued
    }

    /** Defaults: level 'silly', path '/tmp/winston.sock', name 'socket server';
        the counter starts at 1 and the registry is empty. Startup then runs
        `Binder.Startup(endpoint, probe)` once the probe has ended. */
    constructor (options: Options)
      ensures Valid()
      ensures level == OrDefault(options.level, "silly")
      ensures name == OrDefault(options.name, "socket server")
      ensures endpoint == ResolveEndpoint(options.path)
      ensures socketId == 1 && sockets == map[] && issued == {}
    {
      level := OrDefault(options.level, "silly");
      name := OrDefault(options.name, "socket server");
      endpoint := ResolveEndpoint(options.path);
      socketId := 1;
      sockets := map[];
      issued := {};
    }

    /** A new inbound connection: stored under the current counter value,
        which is then incremented. The ID was never handed out before and no
        other entry changes. */
    method Accept(socket: Socket) returns (id: nat)
      requires Valid()
      modifies this`socketId, this`sockets, this`issued
      ensures Valid()
      ensures id == old(socketId) && socketId == old(socketId) + 1
      ensures id !in old(issued) && issued == old(issued) + {id}
      ensures sockets == old(sockets)[id := socket]
    {
      id := socketId;
      socketId := socketId + 1;
      sockets := sockets[id := socket];
      issued := issued + {id};
    }

    /** The connection with this ID closed: exactly its entry is deleted. */
    method OnClose(id: nat)
      requires Valid()
      modifies this`sockets
      ensures Valid()
      ensures sockets == old(sockets) - {id} && socketId == old(socketId)
    {
      sockets := sockets - {id};
    }

    /** A transport error on a connection is swallowed: nothing changes. */
    method OnError(id: nat)
      requires Valid()
      ensures Valid()
      ensures sockets == old(sockets) && socketId == old(socketId)
    {
    }

    /** Copies the registered sockets into a list by ascending ID. */
    method Snapshot() returns (targets: seq<Socket>)
      requires Valid()
      ensures targets == Targets(sockets, socketId)
    {
      targets := [];
      var i := 1;
      while i < socketId
        invariant 1 <= i <= socketId
        invariant targets == Targets(sockets, i)
      {
        var ids := IdsBelow(sockets, i);
        if i in sockets {
          assert IdsBelow(sockets, i + 1) == ids + [i];
          assert Values(sockets, ids + [i]) == Values(sockets, ids) + [sockets[i]];
          targets := targets + [sockets[i]];
        } else {
          assert IdsBelow(sockets, i + 1) == ids;
        }
        i := i + 1;
      }
    }

    /** One log call: the composed line and one write of it to every socket
        registered when the call is made. `BroadcastCompletes` gives what is
        emitted as the writes report back. */
    method Log(logLevel: string, msg: string, rendered: Option<string>) returns (line: string, writes: seq<Write>)
      requires Valid()
      ensures line == ComposeLine(logLevel, msg, rendered)
      ensures writes == Legs(Targets(sockets, socketId), line)
      ensures |writes| == |sockets|
    {
      line := ComposeLine(logLevel, msg, rendered);
      var targets := Snapshot();
      SnapshotCoversRegistry(sockets, socketId);
      writes := Legs(targets, line);
    }
  }

  /** The logging test replayed on the contracts: the probe connects, two
      sockets are accepted, one broadcast reaches both, then the first socket
      errors and closes and the next broadcast reaches only the second.
      The rendered metadata arrives as a parameter fixed by the precondition
      rather than as a literal, which keeps the string reasoning small. */
  method LogsToSockets(meta: string) returns (line1: string, writes1: seq<Write>, line2: string, writes2: seq<Write>)
    requires meta == "{ a: 123 }"
    ensures line1 == "debug: message. { a: 123 }\n"
    ensures writes1 == [Write(Socket(1), line1), Write(Socket(2), line1)]
    ensures line2 == "debug: message 2. { a: 123 }\n"
    ensures writes2 == [Write(Socket(2), line2)]
  {
    var path := Path("/tmp/fasdfasd");
    var server := new Server(Options(Some("lll"), Some(path), None));
    assert server.endpoint == path;
    ConnectedListens(path);

    var s1, s2 := Socket(1), Socket(2);
    AcceptAppendsTarget(server.sockets, server.socketId, s1);
    var id1 := server.Accept(s1);
    AcceptAppendsTarget(server.sockets, server.socketId, s2);
    var id2 := server.Accept(s2);
    assert Targets(server.sockets, server.socketId) == [s1, s2];

    line1, writes1 := BroadcastToBoth(server, s1, s2, meta);
    line2, writes2 := CloseThenLog(server, s1, s2, meta);
  }

  /** First broadcast: the same line to both sockets; nothing is emitted
      after one write has reported, 'logged' and a successful callback once
      both have. */
  method BroadcastToBoth(server: Server, s1: Socket, s2: Socket, meta: string) returns (line: string, writes: seq<Write>)
    requires server.Valid() && Targets(server.sockets, server.socketId) == [s1, s2]
    requires meta == "{ a: 123 }"
    ensures line == "debug: message. { a: 123 }\n"
    ensures writes == [Write(s1, line), Write(s2, line)]
    ensures Completion(JoinAfter(|writes|, [])) == []
    ensures Completion(JoinAfter(|writes|, [Ok])) == []
    ensures Completion(JoinAfter(|writes|, [Ok, Ok])) == [Logged, Callback(None, true)]
  {
    line, writes := server.Log("debug", "message", Some(meta));
    ComposeLineExample(meta);
    assert line == "debug: message. { a: 123 }\n";
    assert writes == [Write(s1, line), Write(s2, line)];
    NothingBeforeLastSuccess(2, []);
    NothingBeforeLastSuccess(2, [Ok]);
    assert Completion(JoinAfter(2, [Ok])) == [];
    CompletionAfterAllLegs(2, [Ok, Ok]);
    assert AllOk([Ok, Ok]);
    assert Completion(JoinAfter(2, [Ok, Ok])) == [Logged, Callback(None, true)];
  }

  /** Second part: the first socket errors and closes; the next broadcast
      writes `debug: message 2. { a: 123 }` to the second socket only, and
      completes once that write reports. */
  method CloseThenLog(server: Server, s1: Socket, s2: Socket, meta: string) returns (line2: string, writes2: seq<Write>)
    requires server.Valid() && server.socketId == 3 && server.sockets == map[1 := s1, 2 := s2]
    requires meta == "{ a: 123 }"
    modifies server
    ensures line2 == "debug: message 2. { a: 123 }\n"
    ensures writes2 == [Write(s2, line2)]
    ensures Completion(JoinAfter(|writes2|, [Ok])) == [Logged, Callback(None, true)]
  {
    server.OnError(1);
    server.OnClose(1);
    var m := server.sockets;
    assert m == map[2 := s2];
    assert IdsBelow(m, 2) == [] by {
      assert IdsBelow(m, 1) == [];
      assert 1 !in m;
    }
    assert IdsBelow(m, 3) == [2];
    var msg := "message 2";
    line2, writes2 := server.Log("debug", msg, Some(meta));
    assert writes2 == [Write(s2, line2)];
    ComposeLineSecond(msg, meta);
    assert line2 == "debug: message 2. { a: 123 }\n";
    CompletionAfterAllLegs(1, [Ok]);
    assert AllOk([Ok]);
    assert Completion(JoinAfter(1, [Ok])) == [Logged, Callback(None, true)];
  }
}
