/**
 * The request loop of one client connection (Server.Handle), the replica's
 * loop over its link to the master (Server.HandleMaster) and the offset
 * bookkeeping of propagateLoop, with sockets, goroutines and the broadcast
 * channel removed: a connection is the sequence of requests it sends, and
 * what the loop writes back and what it hands to the broadcast channel are
 * its results.
 *
 * The transaction commands multi, exec and discard, the WriteCommands list
 * and the reply of KEYS (which reads the snapshot file) are not part of this
 * model; they are parameters, collected in Env.
 */
module ServerLoop {
  import opened RespValue
  import opened Handler
  import RespMarshal

  /** The names of the Handlers table. */
  const Handlers: set<string> := {"PING", "ECHO", "SET", "GET", "CONFIG", "KEYS"}
  const NestedMulti: string := "ERR MULTI calls can not be nested"

  predicate IsTransaction(command: string) {
    command == "MULTI" || command == "EXEC" || command == "DISCARD"
  }

  function UpperChar(c: char): char {
    if 'a' <= c <= 'z' then (c as int - 32) as char else c
  }

  /** strings.ToUpper on ASCII: lower-case letters become upper-case, every other byte stays. */
  function ToUpper(s: string): (r: string)
    ensures |r| == |s|
    ensures forall i :: 0 <= i < |r| ==> !('a' <= r[i] <= 'z')
    ensures forall i :: 0 <= i < |s| && !('a' <= s[i] <= 'z') ==> r[i] == s[i]
  {
    seq(|s|, i requires 0 <= i < |s| => UpperChar(s[i]))
  }

  /** Upper-casing twice is upper-casing once. */
  lemma ToUpperIdempotent(s: string)
    ensures ToUpper(ToUpper(s)) == ToUpper(s)
  {
  }

  /** A request is a non-empty array; anything else is skipped. */
  predicate IsRequest(v: Value) {
    v.typ == ArrayType && |v.arr| > 0
  }

  /** The command name of a request, upper-cased. */
  function Command(v: Value): string
    requires IsRequest(v)
  {
    ToUpper(v.arr[0].bulk)
  }

  /** What the dispatch branch of Handle does with one decoded value. */
  datatype Action =
    | Ignore                                  // not a request: no reply
    | Refuse(reply: Value)                    // nested MULTI or unknown command: an error reply
    | Enqueue                                 // queued inside a transaction, answered QUEUED
    | Transaction(command: string)            // MULTI, EXEC or DISCARD
    | Execute(command: string, args: seq<Value>)

  function Decide(active: bool, v: Value): (a: Action)
    ensures a.Ignore? <==> !IsRequest(v)
    ensures a.Refuse? <==> IsRequest(v) && ((Command(v) == "MULTI" && active)
                                            || (!IsTransaction(Command(v)) && Command(v) !in Handlers))
    ensures a.Enqueue? <==> IsRequest(v) && active && Command(v) in Handlers
    ensures a.Transaction? <==> IsRequest(v) && IsTransaction(Command(v)) && !(Command(v) == "MULTI" && active)
    ensures a.Execute? <==> IsRequest(v) && !active && Command(v) in Handlers
    ensures a.Execute? ==> a.command == Command(v) && a.args == v.arr[1..]
    ensures a.Transaction? ==> a.command == Command(v)
    ensures a.Refuse? ==> a.reply.typ == ErrorType
  {
    if !IsRequest(v) then Ignore
    else
      var command := Command(v);
      if command == "MULTI" && active then Refuse(Error(NestedMulti))
      else if IsTransaction(command) then Transaction(command)
      else if command !in Handlers then Refuse(Error("ERR unknown command " + command))
      else if active then Enqueue
      else Execute(command, v.arr[1..])
  }

  /** Dispatch sees only the upper-cased name: two spellings of a name are handled alike. */
  lemma DecideCaseInsensitive(active: bool, v: Value, name: string)
    requires IsRequest(v) && ToUpper(name) == Command(v)
    ensures Decide(active, v.(arr := v.arr[0 := v.arr[0].(bulk := name)])) == Decide(active, v)
  {
    var w := v.(arr := v.arr[0 := v.arr[0].(bulk := name)]);
    assert w.arr[1..] == v.arr[1..];
  }

  /** The state of a connection the loop threads through: its queue and the global keyspace. */
  datatype Conn = Conn(active: bool, items: seq<Value>, sets: Table)

  /** What the loop depends on besides its requests. */
  datatype Env = Env(
    configs: Table,                           // the CONFIGs table
    keysReply: Value,                         // the reply of KEYS
    writeCommands: set<string>,               // the WriteCommands list
    slaves: nat,                              // how many replicas are registered
    transact: (string, Conn) -> (Value, Conn) // multi, exec and discard on the queue and keyspace
  )

  /** Runs the named handler on the arguments: the reply and the keyspace after it. */
  function Run(sets: Table, configs: Table, command: string, args: seq<Value>, keysReply: Value): (r: (Value, Table))
    requires command in Handlers
    ensures command != "SET" ==> r.1 == sets
    ensures command == "SET" ==> r == SetOutcome(sets, args)
    ensures command == "GET" ==> r.0 == GetReply(sets, args)
    ensures command == "PING" ==> r.0 == Ping(args)
    ensures command == "ECHO" ==> r.0 == Echo(args)
    ensures command == "CONFIG" ==> r.0 == ConfigReply(configs, args)
    ensures command == "KEYS" ==> r.0 == keysReply
  {
    if command == "PING" then (Ping(args), sets)
    else if command == "ECHO" then (Echo(args), sets)
    else if command == "SET" then SetOutcome(sets, args)
    else if command == "GET" then (GetReply(sets, args), sets)
    else if command == "CONFIG" then (ConfigReply(configs, args), sets)
    else (keysReply, sets)
  }

  /**
   * The broadcast condition of Handle. Go's && binds tighter than ||, so a
   * write command is broadcast whatever the number of replicas, and REPLCONF
   * GETACK only when there is at least one.
   */
  function ShouldBroadcast(command: string, v: Value, env: Env): (b: bool)
    requires command == "REPLCONF" ==> |v.arr| >= 2
    ensures command in env.writeCommands ==> b
    ensures command != "REPLCONF" ==> (b <==> command in env.writeCommands)
    ensures command == "REPLCONF" && command !in env.writeCommands ==>
              (b <==> ToUpper(v.arr[1].bulk) == "GETACK" && env.slaves > 0)
  {
    command in env.writeCommands || (command == "REPLCONF" && ToUpper(v.arr[1].bulk) == "GETACK" && env.slaves > 0)
  }

  function Broadcast(command: string, v: Value, env: Env): seq<string>
    requires command == "REPLCONF" ==> |v.arr| >= 2
  {
    if ShouldBroadcast(command, v, env) then [RespMarshal.Marshal(v)] else []
  }

  /** What one pass of the loop yields: the next state, the replies written and the messages broadcast. */
  datatype Effect = Effect(next: Conn, replies: seq<Value>, broadcasts: seq<string>)

  /** One pass of the Handle loop over one decoded value. */
  function Step(c: Conn, v: Value, env: Env): (e: Effect)
    ensures !IsRequest(v) ==> e == Effect(c, [], [])
    ensures |e.replies| == (if IsRequest(v) then 1 else 0)
    ensures e.broadcasts != [] ==> IsRequest(v) && Command(v) in env.writeCommands
                                   && e.broadcasts == [RespMarshal.Marshal(v)]
    ensures Decide(c.active, v).Refuse? ==> e == Effect(c, [Decide(c.active, v).reply], [])
    ensures Decide(c.active, v).Enqueue? ==> e == Effect(c.(items := c.items + [v]), [SimpleString("QUEUED")], [])
    ensures Decide(c.active, v).Execute? ==>
              var r := Run(c.sets, env.configs, Command(v), v.arr[1..], env.keysReply);
              && e.next == c.(sets := r.1) && e.replies == [r.0]
              && (e.broadcasts != [] <==> Command(v) in env.writeCommands)
  {
    match Decide(c.active, v)
    case Ignore => Effect(c, [], [])
    case Refuse(reply) => Effect(c, [reply], [])
    case Enqueue => Effect(c.(items := c.items + [v]), [SimpleString("QUEUED")], [])
    case Transaction(command) =>
      var t := env.transact(command, c);
      Effect(t.1, [t.0], Broadcast(command, v, env))
    case Execute(command, args) =>
      var r := Run(c.sets, env.configs, command, args, env.keysReply);
      Effect(c.(sets := r.1), [r.0], Broadcast(command, v, env))
  }

  /** A nested MULTI is answered with an error and leaves the queue as it was. */
  lemma NestedMultiRefused(c: Conn, v: Value, env: Env)
    requires c.active && IsRequest(v) && Command(v) == "MULTI"
    ensures Step(c, v, env) == Effect(c, [Error(NestedMulti)], [])
  {
  }

  /** An unknown command is answered with an error, inside a transaction too, and is never queued. */
  lemma UnknownRefused(c: Conn, v: Value, env: Env)
    requires IsRequest(v) && !IsTransaction(Command(v)) && Command(v) !in Handlers
    ensures Step(c, v, env) == Effect(c, [Error("ERR unknown command " + Command(v))], [])
  {
  }

  /** PSYNC and REPLCONF are not in the Handlers table, so Handle refuses them as unknown. */
  lemma ReplicationCommandsRefused(c: Conn, v: Value, env: Env)
    requires IsRequest(v) && (Command(v) == "PSYNC" || Command(v) == "REPLCONF")
    ensures Step(c, v, env).next == c && Step(c, v, env).broadcasts == []
  {
  }

  /** The whole loop over a sequence of decoded values. */
  function Serve(c: Conn, rs: seq<Value>, env: Env): (e: Effect)
    decreases |rs|
  {
    if rs == [] then Effect(c, [], [])
    else
      var e := Serve(c, rs[..|rs| - 1], env);
      var s := Step(e.next, rs[|rs| - 1], env);
      Effect(s.next, e.replies + s.replies, e.broadcasts + s.broadcasts)
  }

  /** How many of the values are requests. */
  function RequestCount(rs: seq<Value>): (n: nat)
    ensures n <= |rs|
  {
    if rs == [] then 0 else RequestCount(rs[..|rs| - 1]) + (if IsRequest(rs[|rs| - 1]) then 1 else 0)
  }

  /** Every request gets exactly one reply and every other value none. */
  lemma {:induction false} ServeReplies(c: Conn, rs: seq<Value>, env: Env)
    ensures |Serve(c, rs, env).replies| == RequestCount(rs)
    decreases |rs|
  {
    if rs != [] {
      ServeReplies(c, rs[..|rs| - 1], env);
    }
  }

  /** Every broadcast message is the encoding of a request whose command is a write command. */
  lemma {:induction false} ServeBroadcasts(c: Conn, rs: seq<Value>, env: Env)
    ensures forall m :: m in Serve(c, rs, env).broadcasts ==>
              exists v :: v in rs && IsRequest(v) && Command(v) in env.writeCommands && m == RespMarshal.Marshal(v)
    decreases |rs|
  {
    if rs != [] {
      var init := rs[..|rs| - 1];
      ServeBroadcasts(c, init, env);
      var e := Serve(c, init, env);
      var last := rs[|rs| - 1];
      var s := Step(e.next, last, env);
      forall m | m in Serve(c, rs, env).broadcasts
        ensures exists v :: v in rs && IsRequest(v) && Command(v) in env.writeCommands && m == RespMarshal.Marshal(v)
      {
        if m in e.broadcasts {
          var v :| v in init && IsRequest(v) && Command(v) in env.writeCommands && m == RespMarshal.Marshal(v);
          assert v in rs;
        } else {
          assert m in s.broadcasts;
          assert last in rs;
        }
      }
    }
  }

  /** Whether some request of rs is MULTI, EXEC or DISCARD. */
  predicate NoTransactions(rs: seq<Value>) {
    forall i :: 0 <= i < |rs| && IsRequest(rs[i]) ==> !IsTransaction(Command(rs[i]))
  }

  /**
   * Outside a transaction, and with no transaction command among the
   * requests, nothing is ever queued and the connection stays outside.
   */
  lemma {:induction false} IdleStaysIdle(c: Conn, rs: seq<Value>, env: Env)
    requires !c.active && NoTransactions(rs)
    ensures !Serve(c, rs, env).next.active && Serve(c, rs, env).next.items == c.items
    decreases |rs|
  {
    if rs != [] {
      var init := rs[..|rs| - 1];
      assert NoTransactions(init) by {
        forall i | 0 <= i < |init| && IsRequest(init[i])
          ensures !IsTransaction(Command(init[i]))
        {
          assert init[i] == rs[i];
        }
      }
      IdleStaysIdle(c, init, env);
    }
  }

  /**
   * Inside a transaction, and with no transaction command among the
   * requests, nothing is executed: the keyspace is untouched, nothing is
   * broadcast, and the connection stays inside.
   */
  lemma {:induction false} ActiveOnlyQueues(c: Conn, rs: seq<Value>, env: Env)
    requires c.active && NoTransactions(rs)
    ensures Serve(c, rs, env).next.active && Serve(c, rs, env).next.sets == c.sets
    ensures Serve(c, rs, env).broadcasts == []
    decreases |rs|
  {
    if rs != [] {
      var init := rs[..|rs| - 1];
      assert NoTransactions(init) by {
        forall i | 0 <= i < |init| && IsRequest(init[i])
          ensures !IsTransaction(Command(init[i]))
        {
          assert init[i] == rs[i];
        }
      }
      ActiveOnlyQueues(c, init, env);
    }
  }

  /** The keyspace after the SET requests among rs, applied in order. */
  function SetsAfter(sets: Table, rs: seq<Value>): Table
    decreases |rs|
  {
    if rs == [] then sets
    else
      var m := SetsAfter(sets, rs[..|rs| - 1]);
      var v := rs[|rs| - 1];
      if IsRequest(v) && Command(v) == "SET" then SetOutcome(m, v.arr[1..]).1 else m
  }

  /**
   * Outside a transaction, and with no transaction command among the
   * requests, the keyspace a connection leaves behind is what its SET
   * requests make of it, one after another; every other request leaves it.
   */
  lemma {:induction false} IdleAppliesSets(c: Conn, rs: seq<Value>, env: Env)
    requires !c.active && NoTransactions(rs)
    ensures Serve(c, rs, env).next.sets == SetsAfter(c.sets, rs)
    decreases |rs|
  {
    if rs != [] {
      var init := rs[..|rs| - 1];
      assert NoTransactions(init) by {
        forall i | 0 <= i < |init| && IsRequest(init[i])
          ensures !IsTransaction(Command(init[i]))
        {
          assert init[i] == rs[i];
        }
      }
      IdleAppliesSets(c, init, env);
      IdleStaysIdle(c, init, env);
    }
  }

  /** The per-connection transaction queue. */
  class Queue {
    var active: bool
    var items: seq<Value>

    constructor ()
      ensures !active && items == []
    {
      active := false;
      items := [];
    }
  }

  /** The Handlers lookup and ExecuteCommand: runs the named handler on the arguments. */
  method RunHandler(ks: Keyspace, command: string, args: seq<Value>, keysReply: Value) returns (r: Value)
    requires command in Handlers
    modifies ks`sets
    ensures (r, ks.sets) == Run(old(ks.sets), ks.configs, command, args, keysReply)
  {
    if command == "PING" {
      r := Ping(args);
    } else if command == "ECHO" {
      r := Echo(args);
    } else if command == "SET" {
      r := ks.Set(args);
    } else if command == "GET" {
      r := ks.Get(args);
    } else if command == "CONFIG" {
      r := ks.Config(args);
    } else {
      r := keysReply;
    }
  }

  /** One pass of the Handle loop: dispatches one decoded value. */
  method Dispatch(q: Queue, ks: Keyspace, v: Value, env: Env) returns (replies: seq<Value>, broadcasts: seq<string>)
    requires ks.configs == env.configs
    modifies q, ks`sets
    ensures Step(Conn(old(q.active), old(q.items), old(ks.sets)), v, env)
            == Effect(Conn(q.active, q.items, ks.sets), replies, broadcasts)
  {
    if v.typ != ArrayType {
      return [], [];
    }
    if |v.arr| < 1 {
      return [], [];
    }
    var command := ToUpper(v.arr[0].bulk);
    if command == "MULTI" && q.active {
      return [Error(NestedMulti)], [];
    }
    if IsTransaction(command) {
      var t := env.transact(command, Conn(q.active, q.items, ks.sets));
      q.active, q.items := t.1.active, t.1.items;
      ks.sets := t.1.sets;
      replies := [t.0];
    } else {
      if command !in Handlers {
        return [Error("ERR unknown command " + command)], [];
      }
      if q.active {
        q.items := q.items + [v];
        return [SimpleString("QUEUED")], [];
      }
      var reply := RunHandler(ks, command, v.arr[1..], env.keysReply);
      replies := [reply];
    }
    broadcasts := Broadcast(command, v, env);
  }

  /** Handle over a connection that sends the given values and then closes. */
  method Handle(ks: Keyspace, requests: seq<Value>, env: Env) returns (replies: seq<Value>, broadcasts: seq<string>)
    requires ks.configs == env.configs
    modifies ks`sets
    ensures var e := Serve(Conn(false, [], old(ks.sets)), requests, env);
            replies == e.replies && broadcasts == e.broadcasts && ks.sets == e.next.sets
  {
    var q := new Queue();
    replies, broadcasts := [], [];
    var i := 0;
    while i < |requests|
      invariant 0 <= i <= |requests|
      invariant ks.configs == env.configs
      invariant Serve(Conn(false, [], old(ks.sets)), requests[..i], env)
                == Effect(Conn(q.active, q.items, ks.sets), replies, broadcasts)
    {
      assert requests[..i + 1][..i] == requests[..i];
      var r, b := Dispatch(q, ks, requests[i], env);
      replies, broadcasts := replies + r, broadcasts + b;
      i := i + 1;
    }
    assert requests[..i] == requests;
  }

  /**
   * What the replica's loop over the master link does with a stream of
   * values: the keyspace after it and how far the offset moves. Values that
   * are not requests are skipped; an unknown command ends the loop.
   */
  function Replicate(sets: Table, configs: Table, keysReply: Value, vs: seq<Value>): (r: (Table, nat))
    decreases |vs|
  {
    if vs == [] then (sets, 0)
    else if !IsRequest(vs[0]) then Replicate(sets, configs, keysReply, vs[1..])
    else if Command(vs[0]) !in Handlers then (sets, 0)
    else
      var applied := Run(sets, configs, Command(vs[0]), vs[0].arr[1..], keysReply);
      var rest := Replicate(applied.1, configs, keysReply, vs[1..]);
      (rest.0, |RespMarshal.Marshal(vs[0])| + rest.1)
  }

  /** Nothing after an unknown command is applied or counted. */
  lemma {:induction false} ReplicateStops(sets: Table, configs: Table, keysReply: Value, a: seq<Value>, u: Value, b: seq<Value>)
    requires IsRequest(u) && Command(u) !in Handlers
    ensures Replicate(sets, configs, keysReply, a + [u] + b) == Replicate(sets, configs, keysReply, a + [u])
    decreases |a|
  {
    hide Run;
    if a == [] {
      assert (a + [u] + b)[1..] == b;
    } else {
      assert (a + [u] + b)[0] == a[0] && (a + [u])[0] == a[0];
      assert (a + [u] + b)[1..] == a[1..] + [u] + b;
      assert (a + [u])[1..] == a[1..] + [u];
      if IsRequest(a[0]) && Command(a[0]) in Handlers {
        var applied := Run(sets, configs, Command(a[0]), a[0].arr[1..], keysReply);
        ReplicateStops(applied.1, configs, keysReply, a[1..], u, b);
      } else if !IsRequest(a[0]) {
        ReplicateStops(sets, configs, keysReply, a[1..], u, b);
      }
    }
  }

  /** Each request names a command of the Handlers table. */
  predicate AllKnown(vs: seq<Value>) {
    forall i :: 0 <= i < |vs| ==> IsRequest(vs[i]) && Command(vs[i]) in Handlers
  }

  /** The encodings of the values, one message each. */
  function Messages(vs: seq<Value>): (ms: seq<string>)
    ensures |ms| == |vs|
  {
    if vs == [] then [] else [RespMarshal.Marshal(vs[0])] + Messages(vs[1..])
  }

  /** The total length of the messages. */
  function Sent(ms: seq<string>): nat {
    if ms == [] then 0 else |ms[0]| + Sent(ms[1..])
  }

  lemma {:induction false} SentAppend(a: seq<string>, b: seq<string>)
    ensures Sent(a + b) == Sent(a) + Sent(b)
  {
    if a == [] {
      assert a + b == b;
    } else {
      assert (a + b)[1..] == a[1..] + b;
      SentAppend(a[1..], b);
    }
  }

  /**
   * When every value is a known command, the replica's offset moves by the
   * total length of the encoded commands: the bytes the master propagated.
   */
  lemma {:induction false} ReplicaOffsetIsSent(sets: Table, configs: Table, keysReply: Value, vs: seq<Value>)
    requires AllKnown(vs)
    ensures Replicate(sets, configs, keysReply, vs).1 == Sent(Messages(vs))
    decreases |vs|
  {
    if vs != [] {
      assert AllKnown(vs[1..]) by {
        forall i | 0 <= i < |vs[1..]|
          ensures IsRequest(vs[1..][i]) && Command(vs[1..][i]) in Handlers
        {
          assert vs[1..][i] == vs[i + 1];
        }
      }
      assert IsRequest(vs[0]) && Command(vs[0]) in Handlers;
      var applied := Run(sets, configs, Command(vs[0]), vs[0].arr[1..], keysReply);
      ReplicaOffsetIsSent(applied.1, configs, keysReply, vs[1..]);
    }
  }

  /** A registered replica as the master sees it. */
  class Slave {
    var offset: int

    constructor ()
      ensures offset == 0
    {
      offset := 0;
    }
  }

  class Server {
    var offset: int

    constructor ()
      ensures offset == 0
    {
      offset := 0;
    }

    /** HandleMaster over a master link that delivers the given values and then closes. */
    method HandleMaster(ks: Keyspace, values: seq<Value>, keysReply: Value)
      modifies this`offset, ks`sets
      ensures (ks.sets, offset - old(offset)) == Replicate(old(ks.sets), ks.configs, keysReply, values)
    {
      var i := 0;
      while i < |values|
        invariant 0 <= i <= |values|
        invariant var rest := Replicate(ks.sets, ks.configs, keysReply, values[i..]);
                  Replicate(old(ks.sets), ks.configs, keysReply, values) == (rest.0, offset - old(offset) + rest.1)
      {
        var v := values[i];
        assert values[i..][0] == v && values[i..][1..] == values[i + 1..];
        if v.typ != ArrayType || |v.arr| < 1 {
          i := i + 1;
          continue;
        }
        var command := ToUpper(v.arr[0].bulk);
        if command !in Handlers {
          return;
        }
        var _ := RunHandler(ks, command, v.arr[1..], keysReply);
        offset := offset + |RespMarshal.Marshal(v)|;
        i := i + 1;
      }
    }
  }

  /** One message of propagateLoop: every replica's offset grows by its length, sent or not. */
  method Propagate(slaves: seq<Slave>, msg: string)
    requires forall i, j :: 0 <= i < j < |slaves| ==> slaves[i] != slaves[j]
    modifies slaves
    ensures forall i :: 0 <= i < |slaves| ==> slaves[i].offset == old(slaves[i].offset) + |msg|
  {
    for k := 0 to |slaves|
      invariant forall i :: 0 <= i < k ==> slaves[i].offset == old(slaves[i].offset) + |msg|
      invariant forall i :: k <= i < |slaves| ==> slaves[i].offset == old(slaves[i].offset)
    {
      slaves[k].offset := slaves[k].offset + |msg|;
    }
  }

  /** propagateLoop over a sequence of broadcast messages. */
  method PropagateAll(slaves: seq<Slave>, msgs: seq<string>)
    requires forall i, j :: 0 <= i < j < |slaves| ==> slaves[i] != slaves[j]
    modifies slaves
    ensures forall i :: 0 <= i < |slaves| ==> slaves[i].offset == old(slaves[i].offset) + Sent(msgs)
  {
    assert msgs[..0] == [];
    assert Sent(msgs[..0]) == 0;
    for k := 0 to |msgs|
      invariant forall i :: 0 <= i < |slaves| ==> slaves[i].offset == old(slaves[i].offset) + Sent(msgs[..k])
    {
      Propagate(slaves, msgs[k]);
      SentAppend(msgs[..k], [msgs[k]]);
      assert msgs[..k + 1] == msgs[..k] + [msgs[k]];
    }
    assert msgs[..|msgs|] == msgs;
  }
}
