/**
 * The command handlers: PING, ECHO, SET, GET and CONFIG GET over the two
 * global string tables of the server (the keyspace SETs and the
 * configuration CONFIGs), plus the unset used when a key expires.
 *
 * Each handler takes the request's arguments (the array elements after the
 * command name) and returns the reply. The tables are the fields of a
 * Keyspace object; the handlers that touch them are its methods, each
 * specified by a pure function of the old table and the arguments.
 */
module Handler {
  import opened Wrappers
  import opened RespValue
  import Decimal

  const EchoArity: string := "ERR wrong number of args for 'echo' command"
  const SetArity: string := "ERR wrong number of args for 'set' command"
  const SyntaxError: string := "ERR syntax error"
  const NotAnInteger: string := "resp.value is not an integer or out of range"
  const GetArity: string := "ERR wrong number of args for 'get' command"
  const ConfigArity: string := "ERR wrong number of arguments for 'config' command"

  type Table = map<string, string>

  /** PING answers PONG whatever it is given. */
  function Ping(args: seq<Value>): (r: Value)
    ensures r.typ == StringType && r.str == "PONG"
  {
    SimpleString("PONG")
  }

  /** ECHO replies with its one argument's bulk payload as a simple string. */
  function Echo(args: seq<Value>): (r: Value)
    ensures r.typ == StringType <==> |args| == 1
    ensures |args| == 1 ==> r.str == args[0].bulk
    ensures |args| != 1 ==> r == Error(EchoArity)
  {
    if |args| != 1 then Error(EchoArity) else SimpleString(args[0].bulk)
  }

  /**
   * SET's reply and the keyspace after it. The key is stored as soon as the
   * argument count is 2 or 4, before the option is looked at, so a rejected
   * option still leaves the value stored. Only the lower-case option "px"
   * with a decimal int64 amount is accepted; the timer it starts is not
   * part of the result (see Keyspace.Unset).
   */
  function SetOutcome(m: Table, args: seq<Value>): (r: (Value, Table))
    ensures |args| != 2 && |args| != 4 ==> r == (Error(SetArity), m)
    ensures |args| == 2 || |args| == 4 ==>
              r.1.Keys == m.Keys + {args[0].bulk} && r.1[args[0].bulk] == args[1].bulk
              && forall k :: k in m && k != args[0].bulk ==> r.1[k] == m[k]
    ensures r.0 == SimpleString("OK") <==>
              |args| == 2 || (|args| == 4 && args[2].bulk == "px" && Decimal.ParseInt(args[3].bulk).Some?)
    ensures r.0 != SimpleString("OK") ==> r.0.typ == ErrorType
  {
    if |args| != 2 && |args| != 4 then (Error(SetArity), m)
    else
      var stored := m[args[0].bulk := args[1].bulk];
      if |args| == 4 && args[2].bulk != "px" then (Error(SyntaxError), stored)
      else if |args| == 4 && Decimal.ParseInt(args[3].bulk).None? then (Error(NotAnInteger), stored)
      else (SimpleString("OK"), stored)
  }

  /** GET: the stored value as a bulk string, or null for an absent key. */
  function GetReply(m: Table, args: seq<Value>): (r: Value)
    ensures |args| != 1 <==> r == Error(GetArity)
    ensures |args| == 1 ==> (r == Null <==> args[0].bulk !in m)
    ensures |args| == 1 && args[0].bulk in m ==> r == Bulk(m[args[0].bulk])
  {
    if |args| != 1 then Error(GetArity)
    else if args[0].bulk in m then Bulk(m[args[0].bulk])
    else Null
  }

  /** CONFIG GET key: [key, value] when the key is configured, else an empty array. */
  function ConfigGet(c: Table, args: seq<Value>): (r: Value)
    requires |args| >= 1
    ensures r.typ == ArrayType
    ensures |r.arr| == 2 <==> args[0].bulk in c
    ensures |r.arr| != 2 <==> r.arr == []
    ensures args[0].bulk in c ==> r.arr == [Bulk(args[0].bulk), Bulk(c[args[0].bulk])]
  {
    var key := args[0].bulk;
    if key in c then Array([Bulk(key), Bulk(c[key])]) else Array([])
  }

  /** CONFIG: exactly two arguments and the case-sensitive sub-command "GET". */
  function ConfigReply(c: Table, args: seq<Value>): (r: Value)
    ensures |args| != 2 ==> r == Error(ConfigArity)
    ensures r.typ == ArrayType <==> |args| == 2 && args[0].bulk == "GET"
    ensures |args| == 2 && args[0].bulk != "GET" ==> r == Error("ERR unknown subcommand '" + args[0].bulk + "'")
  {
    if |args| != 2 then Error(ConfigArity)
    else if args[0].bulk == "GET" then ConfigGet(c, args[1..])
    else Error("ERR unknown subcommand '" + args[0].bulk + "'")
  }

  /** The two global tables the handlers share. */
  class Keyspace {
    var sets: Table
    var configs: Table

    constructor (configs: Table)
      ensures sets == map[] && this.configs == configs
    {
      sets := map[];
      this.configs := configs;
    }

    method Set(args: seq<Value>) returns (r: Value)
      modifies this`sets
      ensures (r, sets) == SetOutcome(old(sets), args)
    {
      if |args| != 2 && |args| != 4 {
        return Error(SetArity);
      }
      var key := args[0].bulk;
      var value := args[1].bulk;
      sets := sets[key := value];
      if |args| == 4 {
        if args[2].bulk != "px" {
          return Error(SyntaxError);
        }
        var amount := Decimal.ParseInt(args[3].bulk);
        if amount.None? {
          return Error(NotAnInteger);
        }
      }
      r := SimpleString("OK");
    }

    /** What the expiry timer does when it fires: the key goes, nothing else changes. */
    method Unset(key: string)
      modifies this`sets
      ensures sets == old(sets) - {key}
      ensures key !in sets && forall k :: k in old(sets) && k != key ==> k in sets && sets[k] == old(sets)[k]
    {
      sets := sets - {key};
    }

    method Get(args: seq<Value>) returns (r: Value)
      ensures r == GetReply(sets, args)
    {
      if |args| != 1 {
        return Error(GetArity);
      }
      var key := args[0].bulk;
      if key !in sets {
        return Null;
      }
      r := Bulk(sets[key]);
    }

    method Config(args: seq<Value>) returns (r: Value)
      ensures r == ConfigReply(configs, args)
    {
      if |args| != 2 {
        return Error(ConfigArity);
      }
      if args[0].bulk == "GET" {
        var key := args[1].bulk;
        if key in configs {
          r := Array([Bulk(key), Bulk(configs[key])]);
        } else {
          r := Array([]);
        }
      } else {
        r := Error("ERR unknown subcommand '" + args[0].bulk + "'");
      }
    }
  }

  /** A GET of the key a SET with a valid argument count stored returns that value. */
  lemma SetThenGet(m: Table, args: seq<Value>, query: seq<Value>)
    requires |args| == 2 || |args| == 4
    requires |query| == 1 && query[0].bulk == args[0].bulk
    ensures GetReply(SetOutcome(m, args).1, query) == Bulk(args[1].bulk)
  {
  }

  /**
   * A four-argument SET whose option is anything but "px" (upper-case "PX"
   * included) is answered with a syntax error, yet its value is stored.
   */
  lemma RejectedOptionStillStores(m: Table, args: seq<Value>)
    requires |args| == 4 && args[2].bulk != "px"
    ensures SetOutcome(m, args).0 == Error(SyntaxError)
    ensures GetReply(SetOutcome(m, args).1, [args[0]]) == Bulk(args[1].bulk)
  {
  }

  /** After unset, GET of that key is null and GET of any other key is as before. */
  lemma UnsetThenGet(m: Table, key: string, query: seq<Value>)
    requires |query| == 1
    ensures query[0].bulk == key ==> GetReply(m - {key}, query) == Null
    ensures query[0].bulk != key ==> GetReply(m - {key}, query) == GetReply(m, query)
  {
  }
}
