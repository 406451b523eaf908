/** A participant: its store, its logs, and how it handles each request. */
module Participant {
  import opened KvMessages

  /** One line of the operation log. A DEL line says whether the key was there. */
  datatype LogLine = LogSet(key: string, value: string) | LogGet(key: string) | LogDel(key: string, ack: bool)

  /** One line of the rollback log: a value to put back, or a key to take out again. */
  datatype UndoLine = PutBack(key: string, value: string) | TakeOut(key: string)

  datatype Outcome = Continue | Close | Shutdown

  /** The fields of a participant, as a value. */
  datatype Store = Store(
    phase: int, id: int, db: Db,
    operationLog: seq<LogLine>, rollbackLog: seq<UndoLine>,
    last: Option<Reply>)

  const FRESH := Store(1, -1, map[], [], [], None)

  function LogVerb(l: LogLine): Verb {
    match l
    case LogSet(_, _) => SET
    case LogGet(_) => GET
    case LogDel(_, _) => DEL
  }

  function UndoOne(u: UndoLine, db: Db): Db {
    match u
    case PutBack(k, v) => db[k := v]
    case TakeOut(k) => db - {k}
  }

  /** Replay a rollback log, first line first. */
  function Undo(log: seq<UndoLine>, db: Db): Db {
    if log == [] then db else UndoOne(log[|log| - 1], Undo(log[..|log| - 1], db))
  }

  function Acks(log: seq<LogLine>): nat {
    if log == [] then 0
    else Acks(log[..|log| - 1]) + (if log[|log| - 1].LogDel? && log[|log| - 1].ack then 1 else 0)
  }

  /** db after the keys are erased one by one, with the lines logged on the way. */
  function Erase(ks: seq<string>, db: Db): (Db, seq<LogLine>, seq<UndoLine>) {
    if ks == [] then (db, [], [])
    else
      var (d, ops, undo) := Erase(ks[..|ks| - 1], db);
      var k := ks[|ks| - 1];
      if k in d then (d - {k}, ops + [LogDel(k, true)], undo + [PutBack(k, d[k])])
      else (d, ops + [LogDel(k, false)], undo)
  }

  /** Handle a new command: log it, log how to undo it, do it. */
  function OnPrepare(s: Store, id: int, cmd: Command): (r: Store) {
    match cmd
    case Set(k, v) =>
      Store(2, id, s.db[k := v], [LogSet(k, v)], [if k in s.db then PutBack(k, s.db[k]) else TakeOut(k)],
            Some(Prepared(id, SET)))
    case Get(k) =>
      Store(s.phase, id, s.db, [LogGet(k)], [], Some(Done(id, GET, Lookup(s.db, k))))
    case Del(ks) =>
      var (d, ops, undo) := Erase(ks, s.db);
      Store(2, id, d, ops, undo, Some(Prepared(id, DEL)))
  }

  function RolledBack(s: Store): Store {
    s.(db := Undo(s.rollbackLog, s.db), rollbackLog := [])
  }

  function OnCommit(s: Store): Store
    requires s.operationLog != []
  {
    var verb := LogVerb(s.operationLog[0]);
    s.(phase := 1, last := Some(Done(s.id, verb, if verb == DEL then ToString(Acks(s.operationLog)) else "")))
  }

  function OnAbort(s: Store): Store
    requires s.operationLog != []
  {
    RolledBack(s).(phase := 1, last := Some(Done(s.id, LogVerb(s.operationLog[0]), "")))
  }

  /** In phase 2 there is a logged operation: `handleCommitOrAbortPhase` reads the first line. */
  predicate Sound(s: Store) {
    (s.phase == 1 || s.phase == 2) && (s.phase == 2 ==> s.operationLog != [])
  }

  /** One pass of the message loop: the new state, what is sent back, and whether the loop goes on. */
  function Handle(s: Store, r: Request): (Store, Option<Reply>, Outcome)
    requires Sound(s)
  {
    if s.phase == 1 then
      match r
      case Prepare(id, cmd) => var t := OnPrepare(s, id, cmd); (t, t.last, Continue)
      case _ => if r.id == s.id then (s, s.last, Close) else (s, None, Shutdown)
    else
      match r
      case Commit(_) => var t := OnCommit(s); (t, t.last, Close)
      case Abort(_) => var t := OnAbort(s); (t, t.last, Close)
      case Prepare(id, cmd) =>
        if id == s.id then (s, s.last, Continue)
        else var t := OnPrepare(RolledBack(s).(phase := 1), id, cmd); (t, t.last, Continue)
  }

  // ----- what the logs are good for ---------------------------------------------------

  function Keys(ks: seq<string>): set<string> { set k | k in ks }

  lemma KeysSnoc(ks: seq<string>, k: string)
    ensures Keys(ks + [k]) == Keys(ks) + {k}
  {
  }

  lemma AcksSnoc(log: seq<LogLine>, l: LogLine)
    ensures Acks(log + [l]) == Acks(log) + (if l.LogDel? && l.ack then 1 else 0)
  {
    assert (log + [l])[..|log|] == log;
  }

  lemma RemoveOne<K, V>(m: map<K, V>, a: set<K>, k: K)
    ensures (m - a) - {k} == m - (a + {k})
    ensures k in m && k !in a ==> |(m - a) - {k}| == |m - a| - 1
    ensures k !in m || k in a ==> m - (a + {k}) == m - a
  {
    assert ((m - a) - {k}).Keys == (m - a).Keys - {k};
  }

  lemma RemoveNone<K, V>(m: map<K, V>)
    ensures m - {} == m
  {
  }

  lemma KeysNone()
    ensures Keys([]) == {} && Acks([]) == 0
  {
  }

  /** Erasing keys one by one removes exactly those keys, and the acknowledged lines count what went. */
  lemma {:induction false} EraseRemoves(ks: seq<string>, db: Db)
    ensures Erase(ks, db).0 == db - Keys(ks)
    ensures Acks(Erase(ks, db).1) == |db| - |Erase(ks, db).0|
    ensures |Erase(ks, db).1| == |ks| && forall l | l in Erase(ks, db).1 :: l.LogDel?
  {
    hide Keys, Acks;
    if ks == [] {
      RemoveNone(db);
      KeysNone();
    } else {
      var i, k := ks[..|ks| - 1], ks[|ks| - 1];
      EraseRemoves(i, db);
      assert ks == i + [k];
      KeysSnoc(i, k);
      RemoveOne(db, Keys(i), k);
      var (d, ops, undo) := Erase(i, db);
      AcksSnoc(ops, LogDel(k, k in d));
    }
  }

  /** The part of m at the keys in a. */
  ghost function Part<K, V>(m: map<K, V>, a: set<K>): map<K, V> {
    map k | k in m && k in a :: m[k]
  }

  lemma PartMore<K, V>(e: map<K, V>, m: map<K, V>, a: set<K>, k: K)
    ensures k in m ==> (e + Part(m, a))[k := m[k]] == e + Part(m, a + {k})
    ensures k !in m || k in a ==> Part(m, a + {k}) == Part(m, a)
    ensures e + Part(m, {}) == e
    ensures (m - a) + Part(m, a) == m
  {
  }

  /** The lines logged for a DEL put back, into any map, what the erased keys held. */
  lemma {:induction false} EraseUndo(ks: seq<string>, db: Db, e: Db)
    ensures Undo(Erase(ks, db).2, e) == e + Part(db, Keys(ks))
  {
    if ks == [] {
      PartMore(e, db, {}, "");
      assert Keys(ks) == {};
    } else {
      var i, k := ks[..|ks| - 1], ks[|ks| - 1];
      EraseUndo(i, db, e);
      assert ks == i + [k];
      EraseUndoNext(i, k, db, e);
    }
  }

  lemma EraseUndoNext(i: seq<string>, k: string, db: Db, e: Db)
    requires Undo(Erase(i, db).2, e) == e + Part(db, Keys(i))
    ensures Undo(Erase(i + [k], db).2, e) == e + Part(db, Keys(i + [k]))
  {
    hide Part, Keys, Undo;
    EraseRemoves(i, db);
    KeysSnoc(i, k);
    PartMore(e, db, Keys(i), k);
    assert (i + [k])[..|i|] == i;
    var (d, ops, undo) := Erase(i, db);
    if k in d {
      UndoSnoc(undo, PutBack(k, d[k]), e);
      assert k !in Keys(i) && d[k] == db[k];
    }
  }

  lemma UndoSnoc(log: seq<UndoLine>, u: UndoLine, db: Db)
    ensures Undo(log + [u], db) == UndoOne(u, Undo(log, db))
  {
    assert (log + [u])[..|log|] == log;
  }

  lemma PutAndUndo<K, V>(m: map<K, V>, k: K, v: V)
    ensures k in m ==> m[k := v][k := m[k]] == m
    ensures k !in m ==> m[k := v] - {k} == m
  {
  }

  /**
    Doing a command and then replaying the rollback log it leaves gives back the
    map as it was, for any command, keys repeated or absent included, although
    the log is replayed in the order it was written.
   */
  lemma RollbackRestores(s: Store, id: int, cmd: Command)
    ensures OnPrepare(s, id, cmd).db == Apply(cmd, s.db)
    ensures RolledBack(OnPrepare(s, id, cmd)).db == s.db
  {
    match cmd
    case Set(k, v) =>
      PutAndUndo(s.db, k, v);
      UndoSnoc([], if k in s.db then PutBack(k, s.db[k]) else TakeOut(k), s.db[k := v]);
    case Get(_) =>
    case Del(ks) =>
      hide Part;
      EraseRemoves(ks, s.db);
      EraseUndo(ks, s.db, s.db - Keys(ks));
      PartMore(s.db, s.db, Keys(ks), "");
      assert Keys(ks) == set k | k in ks;
  }

  /** The count a DEL reports when it commits: the distinct requested keys that were there. */
  lemma DelCount(ks: seq<string>, db: Db)
    ensures Acks(Erase(ks, db).1) == |db| - |Apply(Del(ks), db)| == |Keys(ks) * db.Keys|
  {
    EraseRemoves(ks, db);
    RemovedCount(db, Keys(ks));
    assert Keys(ks) == set k | k in ks;
  }

  lemma RemovedCount<K, V>(m: map<K, V>, a: set<K>)
    ensures |m| - |m - a| == |a * m.Keys|
  {
    assert (m - a).Keys == m.Keys - a * m.Keys;
    assert |m.Keys - a * m.Keys| == |m.Keys| - |a * m.Keys|;
  }

  // ----- the participant without logs ---------------------------------------------------

  /**
    What a participant is, seen from outside: the committed map, and the
    command it has prepared, if any. No logs: undoing is forgetting.
   */
  datatype Ledger =
    | Quiet(id: int, committed: Db, last: Option<Reply>)
    | Pending(id: int, committed: Db, cmd: Command)

  function DoneWith(id: int, cmd: Command, db: Db): Reply {
    Done(id, cmd.Verb(), if cmd.Del? then ToString(|Keys(cmd.keys) * db.Keys|) else "")
  }

  function Begin(id: int, cmd: Command, db: Db): (Ledger, Option<Reply>, Outcome) {
    if cmd.Get? then
      var r := Some(Done(id, GET, Lookup(db, cmd.key)));
      (Quiet(id, db, r), r, Continue)
    else (Pending(id, db, cmd), Some(Prepared(id, cmd.Verb())), Continue)
  }

  /** The same message loop on ledgers. */
  function Answer(l: Ledger, r: Request): (Ledger, Option<Reply>, Outcome) {
    match l
    case Quiet(id, db, last) => (
      match r
      case Prepare(i, cmd) => Begin(i, cmd, db)
      case _ => if r.id == id then (l, last, Close) else (l, None, Shutdown))
    case Pending(id, db, cmd) => (
      match r
      case Commit(_) =>
        var reply := Some(DoneWith(id, cmd, db));
        (Quiet(id, Apply(cmd, db), reply), reply, Close)
      case Abort(_) =>
        var reply := Some(Done(id, cmd.Verb(), ""));
        (Quiet(id, db, reply), reply, Close)
      case Prepare(i, c) =>
        if i == id then (l, Some(Prepared(id, cmd.Verb())), Continue) else Begin(i, c, db))
  }

  /** Store s, logs and all, stands for ledger l. */
  ghost predicate StandsFor(s: Store, l: Ledger) {
    match l
    case Quiet(id, db, last) => s.phase == 1 && s.id == id && s.db == db && s.last == last
    case Pending(id, db, cmd) =>
      && s.phase == 2 && s.id == id && s.operationLog != []
      && s.db == Apply(cmd, db) && Undo(s.rollbackLog, s.db) == db
      && s.last == Some(Prepared(id, cmd.Verb()))
      && LogVerb(s.operationLog[0]) == cmd.Verb()
      && (cmd.Del? ==> Acks(s.operationLog) == |Keys(cmd.keys) * db.Keys|)
  }

  lemma PrepareStandsFor(s: Store, id: int, cmd: Command)
    requires s.phase == 1 && cmd.Proper()
    ensures StandsFor(OnPrepare(s, id, cmd), Begin(id, cmd, s.db).0)
    ensures OnPrepare(s, id, cmd).last == Begin(id, cmd, s.db).1
    ensures Sound(OnPrepare(s, id, cmd))
  {
    if cmd.Del? { DelStandsFor(s, id, cmd.keys); } else { RollbackRestores(s, id, cmd); }
  }

  lemma DelStandsFor(s: Store, id: int, ks: seq<string>)
    requires s.phase == 1 && ks != []
    ensures StandsFor(OnPrepare(s, id, Del(ks)), Pending(id, s.db, Del(ks)))
    ensures OnPrepare(s, id, Del(ks)).last == Some(Prepared(id, DEL)) && Sound(OnPrepare(s, id, Del(ks)))
  {
    hide Erase, Undo, Acks, Apply;
    RollbackRestores(s, id, Del(ks));
    DelCount(ks, s.db);
    EraseRemoves(ks, s.db);
    assert Erase(ks, s.db).1[0] in Erase(ks, s.db).1;
  }

  /**
    A participant with logs behaves like one without: same replies, same
    outcomes, and it goes on standing for the ledger.
   */
  lemma HandleRefinesAnswer(s: Store, l: Ledger, r: Request)
    requires StandsFor(s, l) && (r.Prepare? ==> r.cmd.Proper())
    ensures Sound(s)
    ensures StandsFor(Handle(s, r).0, Answer(l, r).0)
    ensures Handle(s, r).1 == Answer(l, r).1 && Handle(s, r).2 == Answer(l, r).2
  {
    if r.Prepare? && !(l.Pending? && r.id == l.id) {
      var t := if s.phase == 1 then s else RolledBack(s).(phase := 1);
      PrepareStandsFor(t, r.id, r.cmd);
    }
  }

  // ----- whole runs ---------------------------------------------------------------------

  predicate AllProper(rs: seq<Request>) {
    forall r | r in rs :: r.Prepare? ==> r.cmd.Proper()
  }

  /** The state after a sequence of requests; a participant that has shut down handles nothing more. */
  function Run(s: Store, rs: seq<Request>): Option<Store>
    requires Sound(s) && AllProper(rs)
    decreases |rs|
  {
    if rs == [] then Some(s)
    else
      assert rs[0] in rs;
      var (t, _, o) := Handle(s, rs[0]);
      if o == Shutdown || !Sound(t) then None else Run(t, rs[1..])
  }

  function RunLedger(l: Ledger, rs: seq<Request>): Option<Ledger>
    decreases |rs|
  {
    if rs == [] then Some(l)
    else
      var (m, _, o) := Answer(l, rs[0]);
      if o == Shutdown then None else RunLedger(m, rs[1..])
  }

  /** After any sequence of requests the logs still stand for the ledger: in phase 2 they can undo the command. */
  lemma {:induction false} RunRefines(s: Store, l: Ledger, rs: seq<Request>)
    requires StandsFor(s, l) && Sound(s) && AllProper(rs)
    ensures Run(s, rs).None? <==> RunLedger(l, rs).None?
    ensures Run(s, rs).Some? ==> StandsFor(Run(s, rs).value, RunLedger(l, rs).value)
    decreases |rs|
  {
    if rs != [] {
      assert rs[0] in rs;
      HandleRefinesAnswer(s, l, rs[0]);
      var (t, _, o) := Handle(s, rs[0]);
      assert Sound(t);
      if o != Shutdown { RunRefines(t, Answer(l, rs[0]).0, rs[1..]); }
    }
  }

  /** From the start: a participant begins quiet, with an empty committed map. */
  lemma StartsQuiet()
    ensures Sound(FRESH) && StandsFor(FRESH, Quiet(-1, map[], None))
  {
  }

  // ----- what a participant does, from the requests it got ------------------------------------

  /**
    The command prepared and not decided yet, with its transaction: that of the
    last PREPARED-REQUEST that was not a repeated one, unless that was a GET or a
    decision has come since.
   */
  function Awaiting(rs: seq<Request>): Option<(int, Command)> {
    if rs == [] then None
    else
      var t := Awaiting(rs[..|rs| - 1]);
      match rs[|rs| - 1]
      case Prepare(id, cmd) => if t.Some? && t.value.0 == id then t else if cmd.Get? then None else Some((id, cmd))
      case _ => None
  }

  /** The commands that were prepared when a COMMIT came, in order. */
  function Committed(rs: seq<Request>): seq<Command> {
    if rs == [] then []
    else
      var t := rs[..|rs| - 1];
      Committed(t) + (if rs[|rs| - 1].Commit? && Awaiting(t).Some? then [Awaiting(t).value.1] else [])
  }

  /** The transaction of the last PREPARED-REQUEST. */
  function LastId(rs: seq<Request>): int {
    if rs == [] then -1 else if rs[|rs| - 1].Prepare? then rs[|rs| - 1].id else LastId(rs[..|rs| - 1])
  }

  /** Only a COMMIT changes the committed map, and only while a command is prepared: by that command. */
  lemma CommitsOnly(l: Ledger, r: Request)
    ensures Answer(l, r).0.committed == if l.Pending? && r.Commit? then Apply(l.cmd, l.committed) else l.committed
  {
  }

  lemma {:induction false} RunLedgerSnoc(l: Ledger, rs: seq<Request>, r: Request)
    ensures RunLedger(l, rs + [r]) ==
            (var m := RunLedger(l, rs);
             if m.None? || Answer(m.value, r).2 == Shutdown then None else Some(Answer(m.value, r).0))
    decreases |rs|
  {
    if rs == [] {
      assert [] + [r] == [r] && [r][1..] == [];
    } else {
      hide Answer;
      assert (rs + [r])[1..] == rs[1..] + [r];
      RunLedgerSnoc(Answer(l, rs[0]).0, rs[1..], r);
    }
  }

  /** The ledger that the requests alone tell. */
  ghost predicate Follows(l: Ledger, rs: seq<Request>) {
    && l.committed == ApplyAll(Committed(rs), map[]) && l.id == LastId(rs)
    && (l.Pending? <==> Awaiting(rs).Some?)
    && (l.Pending? ==> Awaiting(rs).value == (l.id, l.cmd))
  }

  /**
    After any requests a fresh participant's committed map is what the commands
    that were prepared and then committed make of the empty map, in their order,
    and it waits for a decision exactly on the command prepared last.
   */
  lemma {:induction false} RunFollows(rs: seq<Request>)
    requires RunLedger(Quiet(-1, map[], None), rs).Some?
    ensures Follows(RunLedger(Quiet(-1, map[], None), rs).value, rs)
  {
    if rs != [] {
      var t, r := rs[..|rs| - 1], rs[|rs| - 1];
      assert rs == t + [r];
      RunLedgerSnoc(Quiet(-1, map[], None), t, r);
      RunFollows(t);
      FollowsNext(RunLedger(Quiet(-1, map[], None), t).value, t, r);
    }
  }

  lemma FollowsNext(l: Ledger, rs: seq<Request>, r: Request)
    requires Follows(l, rs)
    ensures Follows(Answer(l, r).0, rs + [r])
  {
    hide Apply, ApplyAll, Lookup, DoneWith;
    assert (rs + [r])[..|rs|] == rs;
    CommitsOnly(l, r);
    if l.Pending? { ApplyAllSnoc(Committed(rs), l.cmd, map[]); }
    assert Committed(rs) + [] == Committed(rs);
  }

  /** The keys among ks that hold a value after the commands cmds. */
  function Present(cmds: seq<Command>, ks: seq<string>): set<string> {
    set k | k in ks && Latest(cmds, k).Some?
  }

  /** What a participant answers to a request after the requests rs, and whether it then goes on. */
  ghost predicate AnswersBy(rs: seq<Request>, r: Request, reply: Option<Reply>, o: Outcome) {
    match (r, Awaiting(rs))
    case (Prepare(id, cmd), w) =>
      && o == Continue && reply.Some?
      && (if w.Some? && w.value.0 == id then reply.value == Prepared(id, w.value.1.Verb())
          else if cmd.Get? then
            reply.value == Done(id, GET, match Latest(Committed(rs), cmd.key) case None => "nil" case Some(v) => v)
          else reply.value == Prepared(id, cmd.Verb()))
    case (Commit(_), Some((id, cmd))) =>
      && o == Close
      && reply == Some(Done(id, cmd.Verb(), if cmd.Del? then ToString(|Present(Committed(rs), cmd.keys)|) else ""))
    case (Abort(_), Some((id, cmd))) => o == Close && reply == Some(Done(id, cmd.Verb(), ""))
    case (_, None) => if r.id == LastId(rs) then o == Close else o == Shutdown && reply == None
  }

  lemma LedgerAnswersBy(l: Ledger, rs: seq<Request>, r: Request)
    requires Follows(l, rs)
    ensures AnswersBy(rs, r, Answer(l, r).1, Answer(l, r).2)
  {
    hide Apply, ApplyAll, ToString;
    if r.Prepare? && r.cmd.Get? { HoldsLatest(Committed(rs), r.cmd.key); }
    if l.Pending? && l.cmd.Del? { PresentKeys(Committed(rs), l.cmd.keys); }
  }

  lemma PresentKeys(cmds: seq<Command>, ks: seq<string>)
    ensures Present(cmds, ks) == Keys(ks) * ApplyAll(cmds, map[]).Keys
  {
    forall k ensures k in Present(cmds, ks) <==> k in Keys(ks) * ApplyAll(cmds, map[]).Keys { HoldsLatest(cmds, k); }
  }

  /**
    A fresh participant with its logs, after any requests: what it holds, once
    a prepared command is rolled back, and what it answers to the next request
    are settled by the requests: a GET by the last committed SET of its key, a
    committed DEL by the number of its keys that hold a value, a decision that
    nobody waits for by whether its transaction is the last one.
   */
  lemma AnswersByHistory(rs: seq<Request>, r: Request)
    requires AllProper(rs) && (r.Prepare? ==> r.cmd.Proper()) && Sound(FRESH) && Run(FRESH, rs).Some?
    ensures var s := Run(FRESH, rs).value;
            && Sound(s) && AnswersBy(rs, r, Handle(s, r).1, Handle(s, r).2)
            && (s.phase == 2 <==> Awaiting(rs).Some?)
            && (if s.phase == 1 then s.db else RolledBack(s).db) == ApplyAll(Committed(rs), map[])
  {
    hide Handle, Answer, AnswersBy, Run, RunLedger, Awaiting, Committed, LastId, ApplyAll;
    StartsQuiet();
    var l0 := Quiet(-1, map[], None);
    RunRefines(FRESH, l0, rs);
    RunFollows(rs);
    HandleRefinesAnswer(Run(FRESH, rs).value, RunLedger(l0, rs).value, r);
    LedgerAnswersBy(RunLedger(l0, rs).value, rs, r);
  }

  // ----- repeated requests ------------------------------------------------------------------

  lemma HandleSound(s: Store, r: Request)
    requires Sound(s) && (r.Prepare? ==> r.cmd.Proper())
    ensures Sound(Handle(s, r).0)
  {
    hide Erase, Undo;
    if r.Prepare? && r.cmd.Del? {
      EraseRemoves(r.cmd.keys, s.db);
      EraseRemoves(r.cmd.keys, RolledBack(s).db);
    }
  }

  /**
    Handling a request a second time leaves every field and both logs as they
    are and repeats the reply, if and only if the participant has shut down or
    remembers the request's transaction; it does not after a decision for
    another transaction than the one prepared.
   */
  lemma RepeatHarmless(s: Store, r: Request)
    requires Sound(s) && (r.Prepare? ==> r.cmd.Proper())
    ensures Sound(Handle(s, r).0)
    ensures var (t, reply, o) := Handle(s, r);
            Handle(t, r) == (t, reply, o) <==> o == Shutdown || t.id == r.id
  {
    HandleSound(s, r);
  }

  /** rs with the k-th request repeated times[k] more times. */
  function Repeated(rs: seq<Request>, times: seq<nat>): (r: seq<Request>)
    requires |rs| == |times|
    ensures forall x | x in r :: x in rs
  {
    if rs == [] then [] else Again(rs[0], times[0] + 1) + Repeated(rs[1..], times[1..])
  }

  function Again(r: Request, n: nat): (rs: seq<Request>)
    ensures |rs| == n && forall x | x in rs :: x == r
  {
    seq(n, _ => r)
  }

  /** Requests are repeated only while they are for the transaction that the participant remembers. */
  ghost predicate RepeatsCurrent(s: Store, rs: seq<Request>, times: seq<nat>)
    requires |rs| == |times| && Sound(s) && AllProper(rs)
    decreases |rs|
  {
    rs != [] ==>
      assert rs[0] in rs;
      HandleSound(s, rs[0]);
      var (t, _, o) := Handle(s, rs[0]);
      (times[0] > 0 && o != Shutdown ==> t.id == rs[0].id) && (o != Shutdown ==> RepeatsCurrent(t, rs[1..], times[1..]))
  }

  /** A run with such repeats, as many as there may be, ends in the same state as the run without them. */
  lemma {:induction false} RunWithRepeats(s: Store, rs: seq<Request>, times: seq<nat>)
    requires |rs| == |times| && Sound(s) && AllProper(rs) && RepeatsCurrent(s, rs, times)
    ensures Run(s, Repeated(rs, times)) == Run(s, rs)
    decreases |rs|
  {
    if rs != [] {
      var r, rest := rs[0], Repeated(rs[1..], times[1..]);
      assert r in rs;
      HandleSound(s, r);
      var (t, _, o) := Handle(s, r);
      assert Again(r, times[0] + 1) + rest == [r] + (Again(r, times[0]) + rest);
      RunOne(s, r, Again(r, times[0]) + rest);
      if o != Shutdown {
        if times[0] > 0 { RepeatHarmless(s, r); }
        AgainSame(t, r, times[0], rest);
        RunWithRepeats(t, rs[1..], times[1..]);
      }
    }
  }

  lemma RunOne(s: Store, r: Request, rest: seq<Request>)
    requires Sound(s) && (r.Prepare? ==> r.cmd.Proper()) && AllProper(rest)
    ensures Sound(Handle(s, r).0)
    ensures Run(s, [r] + rest) == if Handle(s, r).2 == Shutdown then None else Run(Handle(s, r).0, rest)
  {
    HandleSound(s, r);
    assert ([r] + rest)[1..] == rest;
  }

  lemma {:induction false} AgainSame(t: Store, r: Request, n: nat, rest: seq<Request>)
    requires Sound(t) && (r.Prepare? ==> r.cmd.Proper()) && AllProper(rest)
    requires n > 0 ==> Handle(t, r).0 == t && Handle(t, r).2 != Shutdown
    ensures Run(t, Again(r, n) + rest) == Run(t, rest)
  {
    if n == 0 {
      assert Again(r, 0) + rest == rest;
    } else {
      assert Again(r, n) + rest == [r] + (Again(r, n - 1) + rest);
      RunOne(t, r, Again(r, n - 1) + rest);
      AgainSame(t, r, n - 1, rest);
    }
  }

  // ----- the participant itself -----------------------------------------------------------

  class Participant {
    var phase: int
    var id: int
    var lastResponse: Option<Reply>
    var db: Db
    var operationLog: seq<LogLine>
    var rollbackLog: seq<UndoLine>

    function View(): Store
      reads this
    {
      Store(phase, id, db, operationLog, rollbackLog, lastResponse)
    }

    constructor ()
      ensures View() == FRESH
    {
      phase, id, lastResponse := 1, -1, None;
      db, operationLog, rollbackLog := map[], [], [];
    }

    method RollBack()
      modifies this
      ensures View() == RolledBack(old(View()))
    {
      if |rollbackLog| == 0 {
        return;
      }
      var log := rollbackLog;
      var i := 0;
      while i < |log|
        invariant 0 <= i <= |log|
        invariant View() == old(View()).(db := Undo(log[..i], old(db)))
      {
        UndoSnoc(log[..i], log[i], old(db));
        assert log[..i + 1] == log[..i] + [log[i]];
        match log[i] {
          case PutBack(k, v) =>
            db := db[k := v];
          case TakeOut(k) =>
            RemoveAbsent(db, k);
            if k in db { db := db - {k}; }
        }
        i := i + 1;
      }
      assert log[..|log|] == log;
      rollbackLog := [];
    }

    method HandlePreparePhase(newId: int, cmd: Command) returns (reply: Option<Reply>)
      requires cmd.Proper()
      modifies this
      ensures View() == OnPrepare(old(View()), newId, cmd).(last := old(lastResponse))
      ensures reply == OnPrepare(old(View()), newId, cmd).last
      ensures cmd.Get? ==> reply == Some(Done(newId, GET, if cmd.key in old(db) then old(db)[cmd.key] else "nil"))
    {
      id := newId;
      operationLog := [];
      rollbackLog := [];
      match cmd
      case Set(key, value) =>
        operationLog := operationLog + [LogSet(key, value)];
        if key !in db {
          rollbackLog := rollbackLog + [TakeOut(key)];
        } else {
          rollbackLog := rollbackLog + [PutBack(key, db[key])];
        }
        db := db[key := value];
        phase := 2;
        return Some(Prepared(id, SET));
      case Get(key) =>
        operationLog := operationLog + [LogGet(key)];
        if key in db {
          return Some(Done(id, GET, db[key]));
        } else {
          return Some(Done(id, GET, "nil"));
        }
      case Del(keys) =>
        var i := 0;
        while i < |keys|
          invariant 0 <= i <= |keys|
          invariant (db, operationLog, rollbackLog) == Erase(keys[..i], old(db))
          invariant phase == old(phase) && id == newId && lastResponse == old(lastResponse)
        {
          assert keys[..i + 1][..i] == keys[..i];
          var key := keys[i];
          if key in db {
            operationLog := operationLog + [LogDel(key, true)];
            rollbackLog := rollbackLog + [PutBack(key, db[key])];
            db := db - {key};
          } else {
            operationLog := operationLog + [LogDel(key, false)];
          }
          i := i + 1;
        }
        assert keys[..|keys|] == keys;
        phase := 2;
        return Some(Prepared(id, DEL));
    }

    method HandleCommitOrAbortPhase(commit: bool) returns (reply: Option<Reply>)
      requires operationLog != []
      modifies this
      ensures View() == (if commit then OnCommit(old(View())) else OnAbort(old(View()))).(last := old(lastResponse))
      ensures reply == (if commit then OnCommit(old(View())) else OnAbort(old(View()))).last
    {
      phase := 1;
      if commit {
        if operationLog[0].LogDel? {
          var count := 0;
          var i := 0;
          while i < |operationLog|
            invariant 0 <= i <= |operationLog|
            invariant View() == old(View()).(phase := 1)
            invariant count == Acks(operationLog[..i])
            decreases |operationLog| - i
          {
            assert operationLog[..i + 1] == operationLog[..i] + [operationLog[i]];
            AcksSnoc(operationLog[..i], operationLog[i]);
            if operationLog[i].LogDel? && operationLog[i].ack { count := count + 1; }
            i := i + 1;
          }
          assert operationLog[..|operationLog|] == operationLog;
          return Some(Done(id, DEL, ToString(count)));
        }
        return Some(Done(id, LogVerb(operationLog[0]), ""));
      }
      RollBack();
      return Some(Done(id, LogVerb(operationLog[0]), ""));
    }

    /** One pass of the message loop of `handleConnection`. */
    method HandleMessage(r: Request) returns (reply: Option<Reply>, outcome: Outcome)
      requires Sound(View()) && (r.Prepare? ==> r.cmd.Proper())
      modifies this
      ensures (View(), reply, outcome) == Handle(old(View()), r)
    {
      if phase == 1 {
        if r.Prepare? {
          lastResponse := HandlePreparePhase(r.id, r.cmd);
          return lastResponse, Continue;
        } else if id == r.id {
          return lastResponse, Close;
        } else {
          return None, Shutdown;
        }
      } else {
        if r.Commit? || r.Abort? {
          lastResponse := HandleCommitOrAbortPhase(r.Commit?);
          return lastResponse, Close;
        } else if r.id == id {
          return lastResponse, Continue;
        } else {
          RollBack();
          phase := 1;
          lastResponse := HandlePreparePhase(r.id, r.cmd);
          return lastResponse, Continue;
        }
      }
    }
  }

  lemma RemoveAbsent<K, V>(m: map<K, V>, k: K)
    ensures k !in m ==> m - {k} == m
  {
  }
}
