/** What travels between the coordinator and its participants, decoded. */
module KvMessages {

  datatype Option<+T> = None | Some(value: T)

  datatype Command =
    | Set(key: string, value: string)
    | Get(key: string)
    | Del(keys: seq<string>)
  {
    /** A DEL names at least one key: the client parser refuses fewer than two lines. */
    predicate Proper() { Del? ==> keys != [] }

    function Verb(): Verb {
      match this
      case Set(_, _) => SET
      case Get(_) => GET
      case Del(_) => DEL
    }
  }

  datatype Verb = SET | GET | DEL

  datatype Request =
    | Prepare(id: int, cmd: Command)
    | Commit(id: int)
    | Abort(id: int)

  datatype Reply =
    | Prepared(id: int, verb: Verb)
    | Done(id: int, verb: Verb, extra: string)

  /** The reply a client gets. */
  datatype ClientReply = OkReply | Words(value: string) | Number(text: string) | ErrorReply

  /** How a reply of a participant is passed on: four lines are needed, so a PREPARED and an empty value will not do. */
  function PassedOn(first: Option<Reply>): ClientReply {
    if first.None? || first.value.Prepared? || first.value.extra == "" then ErrorReply
    else
      match first.value.verb
      case GET => Words(first.value.extra)
      case DEL => Number(first.value.extra)
      case SET => ErrorReply
  }

  type Db = map<string, string>

  /** What a command does to a map. */
  function Apply(cmd: Command, db: Db): Db {
    match cmd
    case Set(k, v) => db[k := v]
    case Get(_) => db
    case Del(ks) => db - (set k | k in ks)
  }

  function ApplyAll(cmds: seq<Command>, db: Db): Db {
    if cmds == [] then db else ApplyAll(cmds[1..], Apply(cmds[0], db))
  }

  /** What a GET answers with. */
  function Lookup(db: Db, key: string): string {
    if key in db then db[key] else "nil"
  }

  /** The value that key has after these commands on the empty map: of the last SET of it, if no later DEL names it. */
  function Latest(cmds: seq<Command>, key: string): Option<string> {
    if cmds == [] then None
    else
      match cmds[|cmds| - 1]
      case Set(k, v) => if k == key then Some(v) else Latest(cmds[..|cmds| - 1], key)
      case Get(_) => Latest(cmds[..|cmds| - 1], key)
      case Del(ks) => if key in ks then None else Latest(cmds[..|cmds| - 1], key)
  }

  lemma {:induction false} ApplyAllSnoc(cmds: seq<Command>, cmd: Command, db: Db)
    ensures ApplyAll(cmds + [cmd], db) == Apply(cmd, ApplyAll(cmds, db))
  {
    if cmds == [] {
      assert [] + [cmd] == [cmd] && [cmd][1..] == [];
    } else {
      assert (cmds + [cmd])[1..] == cmds[1..] + [cmd];
      ApplyAllSnoc(cmds[1..], cmd, Apply(cmds[0], db));
    }
  }

  /** What the map made by a list of commands holds: for each key the value of its last SET, if there is no later DEL of it. */
  lemma {:induction false} HoldsLatest(cmds: seq<Command>, key: string)
    ensures key in ApplyAll(cmds, map[]) <==> Latest(cmds, key).Some?
    ensures key in ApplyAll(cmds, map[]) ==> ApplyAll(cmds, map[])[key] == Latest(cmds, key).value
  {
    if cmds != [] {
      var t := cmds[..|cmds| - 1];
      HoldsLatest(t, key);
      assert cmds == t + [cmds[|cmds| - 1]];
      ApplyAllSnoc(t, cmds[|cmds| - 1], map[]);
    }
  }

  function Digit(d: nat): char
    requires d < 10
  {
    "0123456789"[d]
  }

  /** std::to_string on a number that is not negative. */
  function ToString(n: nat): (s: string)
    ensures s != [] && forall c | c in s :: c in "0123456789"
  {
    if n < 10 then [Digit(n)] else ToString(n / 10) + [Digit(n % 10)]
  }
}
