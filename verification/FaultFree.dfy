/**
  Runs in which nothing goes wrong: no timeout, no lost connection, no crash,
  every participant reached, every reply parsed. Then a client is never told
  an error, so the store answers as one map does.
 */
module FaultFree {
  import opened KvMessages
  import opened Participant
  import opened TwoPhaseCommit
  import C = Coordinator

  /** Nothing goes wrong in this step. */
  ghost predicate Faultless(s: Sys, a: Label) {
    && Enabled(s, a)
    && match a
       case Begin(_, _, reached) => forall i | Index(s, i) :: i in reached
       case ReadReply(_, clear) => clear
       case DialGet(ok) => ok
       case Decide => true
       case Finish => true
       case BeginGet(_, _) => true
       case Deliver(_) => true
       case _ => false
  }

  /** Connections with nothing left on them. */
  ghost predicate Empties(cs: seq<seq<Request>>) {
    forall k | 0 <= k < |cs| :: cs[k] == []
  }

  /** Nothing is under way to or from the participant, which holds db. */
  ghost predicate AtRest(db: Db, t: Site) {
    && t.ledger.Quiet? && t.ledger.committed == db && Empties(t.early) && Empties(t.past)
    && t.cur.None? && t.replies == []
  }

  ghost predicate AskedOnce(id: int, cmd: Command, db: Db, watched: bool, t: Site) {
    && t.past == []
    && (|| (watched && t.ledger.Quiet? && t.ledger.committed == db && Empties(t.early)
            && t.cur == Some([Prepare(id, cmd)]) && t.replies == [])
        || (t.early == [] && t.ledger == Pending(id, db, cmd) && t.cur == Some([])
            && t.replies == if watched then [Prepared(id, cmd.Verb())] else []))
  }

  ghost predicate ToldOnce(id: int, cmd: Command, before: Db, watched: bool, t: Site) {
    && t.past == [] && t.early == []
    && (|| (watched && t.ledger == Pending(id, before, cmd) && t.cur == Some([Commit(id)]) && t.replies == [])
        || (t.ledger == Quiet(id, Apply(cmd, before), Some(DoneWith(id, cmd, before))) && t.cur.None?
            && t.replies == if watched then [DoneWith(id, cmd, before)] else []))
  }

  ghost predicate GotOnce(id: int, key: string, db: Db, t: Site) {
    && t.past == [] && t.ledger.Quiet? && t.ledger.committed == db
    && (|| (Empties(t.early) && t.cur == Some([Prepare(id, Get(key))]) && t.replies == [])
        || (t.early == [] && t.cur == Some([]) && t.replies == [Done(id, GET, Lookup(db, key))]))
  }

  ghost predicate FineSite(st: Stage, db: Db, watched: bool, t: Site) {
    && t.alive && !t.broken
    && match st
       case Idle => t.past == [] && AtRest(db, t)
       case Preparing(id, cmd) => AskedOnce(id, cmd, db, watched, t)
       case Deciding(id, cmd, _, before) => ToldOnce(id, cmd, before, watched, t)
       case Getting(id, key, next) =>
         if watched then GotOnce(id, key, db, t) else AtRest(db, t) && (next == 0 ==> t.past == [])
  }

  ghost predicate FineWait(s: Sys)
    requires Shape(s)
  {
    match s.stage
    case Idle => true
    case Preparing(_, cmd) =>
      && cmd.Proper() && !cmd.Get? && s.w.alive == N(s)
      && forall i | Index(s, i) && i !in s.w.watched :: s.w.response[i] == 1
    case Deciding(id, cmd, commit, before) =>
      && cmd.Proper() && !cmd.Get? && commit && s.committed == Apply(cmd, before) && s.w.alive == N(s)
      && (s.w.count > 0 ==> s.w.first == Some(DoneWith(id, cmd, before)))
    case Getting(id, key, next) =>
      && (if next == 0 then s.w.count == s.w.alive == 0 && s.w.watched == {} else next == 1 && s.w.alive == 1)
      && s.w.watched <= {0}
      && (s.w.count > 0 ==> s.w.first == Some(Done(id, GET, Lookup(s.committed, key))))
  }

  /** Everybody valid, and exactly where the one transaction under way puts it. */
  ghost predicate Fine(s: Sys) {
    && Shape(s) && N(s) > 0 && (forall i | Index(s, i) :: s.w.valid[i]) && FineWait(s)
    && (!s.stage.Idle? ==> C.Balanced(WaitPhase(s.stage), s.w, N(s)))
    && forall i | Index(s, i) :: FineAt(s, i)
  }

  ghost predicate FineAt(s: Sys, i: int)
    requires Index(s, i)
  {
    FineSite(s.stage, s.committed, i in s.w.watched, s.sites[i])
  }

  lemma FineInitial(n: nat)
    requires n > 0
    ensures Fine(Initial(n))
  {
    var s := Initial(n);
    forall i | Index(s, i) ensures FineAt(s, i) {}
  }

  lemma TakeEmpty(l: Ledger, cs: seq<seq<Request>>)
    requires cs != [] && Empties(cs)
    ensures Take(l, cs) == (l, cs[1..], true) && Empties(cs[1..])
  {
  }

  lemma ReceiveFine(st: Stage, db: Db, watched: bool, t: Site)
    requires FineSite(st, db, watched, t)
    requires st.Preparing? ==> !st.cmd.Get?
    requires st.Deciding? ==> st.commit && db == Apply(st.cmd, st.before)
    ensures FineSite(st, db, watched, Receive(t))
  {
    if t.early != [] && Empties(t.early) { TakeEmpty(t.ledger, t.early); }
    if t.past != [] && Empties(t.past) { TakeEmpty(t.ledger, t.past); }
    if t.cur.Some? && |t.cur.value| == 1 {
      assert t.cur.value[1..] == [];
      assert forall r: Reply :: t.replies == [] ==> t.replies + [r] == [r];
    }
  }

  lemma FineStep(s: Sys, a: Label)
    requires Fine(s) && Faultless(s, a)
    ensures Fine(Next(s, a))
  {
    hide Fine, Next;
    match a
    case Begin(id, cmd, reached) => FineBegin(s, a);
    case ReadReply(i, _) => FineRead(s, i);
    case Decide => FineDecide(s);
    case Finish => FineFinish(s);
    case BeginGet(_, _) => FineBeginGet(s, a);
    case DialGet(_) => FineDial(s);
    case Deliver(k) => FineDeliver(s, k);
  }

  lemma FineBeginGet(s: Sys, a: Label)
    requires Fine(s) && Faultless(s, a) && a.BeginGet?
    ensures Fine(Next(s, a))
  {
    var u := Next(s, a);
    forall i | Index(u, i) ensures FineAt(u, i) { assert FineAt(s, i); }
    assert C.Connected(u.w) == {};
  }

  lemma FineDeliver(s: Sys, k: int)
    requires Fine(s) && Faultless(s, Deliver(k))
    ensures Fine(Next(s, Deliver(k)))
  {
    hide FineSite, Receive;
    var u := Next(s, Deliver(k));
    assert FineAt(s, k);
    ReceiveFine(s.stage, s.committed, k in s.w.watched, s.sites[k]);
    forall i | Index(u, i) ensures FineAt(u, i) { assert FineAt(s, i); }
  }

  lemma FineBegin(s: Sys, a: Label)
    requires Fine(s) && Faultless(s, a) && a.Begin?
    ensures Fine(Next(s, a))
  {
    var u := Next(s, a);
    assert Index(s, 0) && 0 in a.reached;
    forall i | i in a.reached ensures 0 <= i < N(s) { assert Reachable(s, i); }
    assert a.reached == C.Connected(u.w);
    assert |a.reached| == N(s) by { AllOf(a.reached, N(s)); }
    forall i | Index(u, i) ensures FineAt(u, i) {
      assert FineAt(s, i) && i in a.reached;
      assert s.sites[i].past + Listed(s.sites[i].cur) == [];
    }
  }

  lemma AllOf(who: set<int>, n: nat)
    requires forall i :: i in who <==> 0 <= i < n
    ensures |who| == n
  {
    if n == 0 {
      assert forall i :: i !in who;
      assert who == {};
    } else {
      AllOf(who - {n - 1}, n - 1);
      assert who == (who - {n - 1}) + {n - 1};
    }
  }

  lemma FineRead(s: Sys, i: int)
    requires Fine(s) && Faultless(s, ReadReply(i, true))
    ensures Fine(Next(s, ReadReply(i, true)))
  {
    hide FineSite, FineWait, C.Balanced;
    var u := Next(s, ReadReply(i, true));
    var m := Some(s.sites[i].replies[0]);
    C.EventBalanced(WaitPhase(s.stage), s.w, C.Read(i, C.Got(m)), N(s));
    FineReadWait(s, i);
    forall j | Index(u, j) && j != i ensures FineAt(u, j) { assert FineAt(s, j); }
  }

  /** The participant whose reply was read, and the wait. */
  lemma FineReadWait(s: Sys, i: int)
    requires Fine(s) && Faultless(s, ReadReply(i, true))
    ensures var u := Next(s, ReadReply(i, true));
            Shape(u) && u.w.valid == s.w.valid && FineWait(u) && Index(u, i) && FineAt(u, i)
  {
    var u := Next(s, ReadReply(i, true));
    assert FineAt(s, i);
  }

  lemma FineDecide(s: Sys)
    requires Fine(s) && Faultless(s, Decide)
    ensures Fine(Next(s, Decide))
  {
    var u := Next(s, Decide);
    C.NoneLeft(s.w.watched);
    assert forall i | Index(s, i) :: s.w.response[i] == 1;
    assert 0 !in s.w.response;
    assert C.Connected(s.w) == C.Open(s.w.connected);
    forall i | Index(s, i) ensures i in C.Open(s.w.connected) { assert s.w.response[i] == 1; }
    forall i | Index(u, i) ensures FineAt(u, i) {
      assert FineAt(s, i) && i in C.Open(s.w.connected);
      assert [] + [Commit(s.stage.id)] == [Commit(s.stage.id)];
    }
    assert C.Connected(u.w) == C.Open(s.w.connected);
  }

  lemma FineFinish(s: Sys)
    requires Fine(s) && Faultless(s, Finish)
    ensures Fine(Next(s, Finish))
  {
    var u := Next(s, Finish);
    C.NoneLeft(s.w.watched);
    forall i | Index(u, i) ensures FineAt(u, i) {
      assert FineAt(s, i);
      var t := s.sites[i];
      assert Retire(t).early == t.early + t.past;
    }
  }

  lemma FineDial(s: Sys)
    requires Fine(s) && Faultless(s, DialGet(true))
    ensures Fine(Next(s, DialGet(true)))
  {
    var u := Next(s, DialGet(true));
    assert s.stage.next == 0;
    forall i | Index(u, i) ensures FineAt(u, i) {
      assert FineAt(s, i);
      assert s.sites[i].past + Listed(s.sites[i].cur) == [];
    }
    assert C.Connected(u.w) == {0};
  }

  ghost predicate FaultlessRun(s: Sys, run: seq<Label>)
    decreases |run|
  {
    run != [] ==> Faultless(s, run[0]) && FaultlessRun(Next(s, run[0]), run[1..])
  }

  lemma {:induction false} FineRun(s: Sys, run: seq<Label>)
    requires Fine(s) && FaultlessRun(s, run)
    ensures Steps(s, run).Some? && Fine(Steps(s, run).value)
    decreases |run|
  {
    if run != [] {
      FineStep(s, run[0]);
      FineRun(Next(s, run[0]), run[1..]);
    }
  }

  // ----- what the clients are told ----------------------------------------------------------------

  /** What the store tells: what one map would, but for an empty value, for which there is no fourth line. */
  function StoreTells(cmd: Command, db: Db): ClientReply {
    if AsksEmpty(cmd, db) then ErrorReply else MapTells(cmd, db)
  }

  predicate AsksEmpty(cmd: Command, db: Db) { cmd.Get? && cmd.key in db && db[cmd.key] == "" }

  /** The command served when it is over. */
  function Served(s: Sys): Command
    requires s.stage.Deciding? || s.stage.Getting?
  {
    if s.stage.Deciding? then s.stage.cmd else Get(s.stage.key)
  }

  /** The committed map when the current command began. */
  function Base(s: Sys): Db { if s.stage.Deciding? then s.stage.before else s.committed }

  /** The commands served in a run, and the replies to them, in order. */
  ghost function CommandsIn(s: Sys, run: seq<Label>): seq<Command>
    decreases |run|
  {
    if run == [] || !Enabled(s, run[0]) then []
    else (if run[0].Finish? then [Served(s)] else []) + CommandsIn(Next(s, run[0]), run[1..])
  }

  ghost function RepliesIn(s: Sys, run: seq<Label>): seq<ClientReply>
    decreases |run|
  {
    if run == [] || !Enabled(s, run[0]) then []
    else (if run[0].Finish? then [Tells(s)] else []) + RepliesIn(Next(s, run[0]), run[1..])
  }

  /** What one map answers to a list of commands. */
  function MapReplies(cmds: seq<Command>, db: Db): (rs: seq<ClientReply>)
    ensures |rs| == |cmds|
  {
    if cmds == [] then [] else [MapTells(cmds[0], db)] + MapReplies(cmds[1..], Apply(cmds[0], db))
  }

  function StoreReplies(cmds: seq<Command>, db: Db): (rs: seq<ClientReply>)
    ensures |rs| == |cmds|
  {
    if cmds == [] then [] else [StoreTells(cmds[0], db)] + StoreReplies(cmds[1..], Apply(cmds[0], db))
  }

  /** No GET of a key that holds the empty value. */
  predicate NoneEmpty(cmds: seq<Command>, db: Db) {
    cmds != [] ==> !AsksEmpty(cmds[0], db) && NoneEmpty(cmds[1..], Apply(cmds[0], db))
  }

  lemma {:induction false} SameReplies(cmds: seq<Command>, db: Db)
    ensures StoreReplies(cmds, db) == MapReplies(cmds, db) <==> NoneEmpty(cmds, db)
  {
    if cmds != [] {
      SameReplies(cmds[1..], Apply(cmds[0], db));
      var a, b := StoreReplies(cmds, db), MapReplies(cmds, db);
      assert a[1..] == StoreReplies(cmds[1..], Apply(cmds[0], db)) && b[1..] == MapReplies(cmds[1..], Apply(cmds[0], db));
      assert a[0] == StoreTells(cmds[0], db) && b[0] == MapTells(cmds[0], db);
    }
  }

  lemma DecidedTells(s: Sys)
    requires Fine(s) && Faultless(s, Finish) && s.stage.Deciding?
    ensures Tells(s) == MapTells(s.stage.cmd, s.stage.before) && s.committed == Apply(s.stage.cmd, s.stage.before)
  {
    hide FineAt, FineSite, Apply;
    C.NoneLeft(s.w.watched);
    if s.stage.cmd.Del? { CountIsOfPresent(s.stage.cmd.keys, s.stage.before); }
  }

  lemma GotTells(s: Sys)
    requires Fine(s) && Faultless(s, Finish) && s.stage.Getting?
    ensures Tells(s) == StoreTells(Get(s.stage.key), s.committed)
  {
    hide FineAt, FineSite;
    C.NoneLeft(s.w.watched);
  }

  /** A finished command is told as the store tells it; no other step touches the base. */
  lemma FinishTells(s: Sys)
    requires Fine(s) && Faultless(s, Finish)
    ensures Tells(s) == StoreTells(Served(s), Base(s)) && Base(Next(s, Finish)) == Apply(Served(s), Base(s))
  {
    hide FineAt, FineSite, Tells, MapTells, FineWait, C.Balanced;
    if s.stage.Deciding? {
      NotAGet(s);
      DecidedTells(s);
    } else {
      GotTells(s);
    }
  }

  lemma NotAGet(s: Sys)
    requires Fine(s) && s.stage.Deciding?
    ensures !s.stage.cmd.Get?
  {
  }

  lemma BaseStays(s: Sys, a: Label)
    requires Fine(s) && Faultless(s, a) && !a.Finish?
    ensures Base(Next(s, a)) == Base(s)
  {
    hide FineAt, FineSite;
    if a.Begin? {
      assert Index(s, 0) && 0 in a.reached;
    }
  }

  lemma {:induction false} RunTells(s: Sys, run: seq<Label>)
    requires Fine(s) && FaultlessRun(s, run)
    ensures Steps(s, run).Some?
    ensures RepliesIn(s, run) == StoreReplies(CommandsIn(s, run), Base(s))
    ensures Base(Steps(s, run).value) == ApplyAll(CommandsIn(s, run), Base(s))
    decreases |run|
  {
    if run != [] {
      hide Fine, Next, Tells, Served, StoreTells, Base;
      var u := Next(s, run[0]);
      FineStep(s, run[0]);
      RunTells(u, run[1..]);
      var cmds, told := CommandsIn(u, run[1..]), RepliesIn(u, run[1..]);
      if run[0].Finish? {
        FinishTells(s);
        assert ([Served(s)] + cmds)[1..] == cmds;
      } else {
        BaseStays(s, run[0]);
        assert [] + cmds == cmds && [] + told == told;
      }
    }
  }

  /**
    When nothing goes wrong, in whatever order the participants and the
    coordinator take their steps: the commands are served one after another on
    one map, and the clients are told exactly what that map tells, if and only
    if nobody asks for an empty value; whoever does is told an error.
   */
  lemma AnswersAsOneMap(n: nat, run: seq<Label>)
    requires n > 0 && FaultlessRun(Initial(n), run)
    ensures Steps(Initial(n), run).Some?
    ensures var cmds := CommandsIn(Initial(n), run);
            && RepliesIn(Initial(n), run) == StoreReplies(cmds, map[])
            && (RepliesIn(Initial(n), run) == MapReplies(cmds, map[]) <==> NoneEmpty(cmds, map[]))
            && Base(Steps(Initial(n), run).value) == ApplyAll(cmds, map[])
  {
    FineInitial(n);
    RunTells(Initial(n), run);
    SameReplies(CommandsIn(Initial(n), run), map[]);
  }

  /**
    What one map answers to the command that comes after cmds, without the map:
    a GET is told the value of the last SET of its key, or "nil" when there is
    none or a DEL of it came since, and a DEL how many of its keys have a value.
   */
  function HistoryTells(cmds: seq<Command>, cmd: Command): ClientReply {
    match cmd
    case Set(_, _) => OkReply
    case Get(k) => Words(match Latest(cmds, k) case None => "nil" case Some(v) => v)
    case Del(ks) => Number(ToString(|Present(cmds, ks)|))
  }

  lemma {:induction false} RepliesByHistory(cmds: seq<Command>, k: nat)
    requires k < |cmds|
    ensures MapReplies(cmds, map[])[k] == HistoryTells(cmds[..k], cmds[k])
  {
    ReplyAt(cmds, map[], k);
    TellsByHistory(cmds[..k], cmds[k]);
  }

  lemma {:induction false} ReplyAt(cmds: seq<Command>, db: Db, k: nat)
    requires k < |cmds|
    ensures MapReplies(cmds, db)[k] == MapTells(cmds[k], ApplyAll(cmds[..k], db))
  {
    if k > 0 {
      hide MapTells;
      ReplyAt(cmds[1..], Apply(cmds[0], db), k - 1);
      assert cmds[..k][0] == cmds[0] && cmds[..k][1..] == cmds[1..][..k - 1];
    } else {
      assert cmds[..0] == [];
    }
  }

  lemma TellsByHistory(cmds: seq<Command>, cmd: Command)
    ensures MapTells(cmd, ApplyAll(cmds, map[])) == HistoryTells(cmds, cmd)
  {
    hide ApplyAll;
    match cmd
    case Set(_, _) =>
    case Get(k) => HoldsLatest(cmds, k);
    case Del(ks) =>
      PresentKeys(cmds, ks);
      CountIsOfPresent(ks, ApplyAll(cmds, map[]));
  }

  // ----- a run that asks for an empty value --------------------------------------------------------

  /** One participant; a SET of the empty value, and a GET of it. */
  function EmptyRun(k: string): seq<Label> {
    EmptySet(k) + EmptyGet(k)
  }

  function EmptySet(k: string): seq<Label> {
    [Begin(1, Set(k, ""), {0}), Deliver(0), ReadReply(0, true), Decide, Deliver(0), ReadReply(0, true), Finish]
  }

  function EmptyGet(k: string): seq<Label> {
    [BeginGet(2, k), DialGet(true), Deliver(0), ReadReply(0, true), Finish]
  }

  function Stored(k: string): Db { map[k := ""] }
  function Followed1(): Reply { Done(1, SET, "") }
  function Answered2(): Reply { Done(2, GET, "") }

  function E2(k: string): Sys {
    Single(Ready(Set(k, "")), [], Some([]), [Says(Set(k, ""))], false, true, {0}, 0, 0, -1, None, Asked(Set(k, "")), map[])
  }
  function E3(k: string): Sys {
    Single(Ready(Set(k, "")), [], Some([]), [], false, true, {}, 1, 0, 1, None, Asked(Set(k, "")), map[])
  }
  function E4(k: string): Sys {
    Single(Ready(Set(k, "")), [], Some([Commit(1)]), [], false, true, {0}, 0, 0, -1, None, Told(Set(k, "")), Stored(k))
  }
  function E5(k: string): Sys {
    Single(Quiet(1, Stored(k), Some(Followed1())), [], None, [Followed1()], false, true, {0}, 0, 0, -1, None, Told(Set(k, "")), Stored(k))
  }
  function E6(k: string): Sys {
    Single(Quiet(1, Stored(k), Some(Followed1())), [], None, [], false, false, {}, 1, 0, -1, Some(Followed1()), Told(Set(k, "")), Stored(k))
  }
  function E7(k: string): Sys {
    Single(Quiet(1, Stored(k), Some(Followed1())), [], None, [], false, false, {}, 1, 0, -1, Some(Followed1()), Idle, Stored(k))
  }
  function E8(k: string): Sys { E7(k).(w := C.WaitFor([true], {}), stage := Getting(2, k, 0)) }
  function E9(k: string): Sys {
    Single(Quiet(1, Stored(k), Some(Followed1())), [], Some([Prepare(2, Get(k))]), [], false, true, {0}, 0, 0, -1, None, Getting(2, k, 1), Stored(k))
  }
  function E10(k: string): Sys {
    Single(Quiet(2, Stored(k), Some(Answered2())), [], Some([]), [Answered2()], false, true, {0}, 0, 0, -1, None, Getting(2, k, 1), Stored(k))
  }
  function E11(k: string): Sys {
    Single(Quiet(2, Stored(k), Some(Answered2())), [[]], None, [], false, false, {}, 1, 0, -1, Some(Answered2()), Getting(2, k, 1), Stored(k))
  }

  /** This step can be taken without a fault, and ends in u. */
  ghost predicate Leads(s: Sys, a: Label, u: Sys) {
    Faultless(s, a) && Next(s, a) == u
  }

  lemma EmptyAsks(k: string)
    ensures Leads(Initial(1), Begin(1, Set(k, ""), {0}), S1(Set(k, "")))
    ensures Leads(S1(Set(k, "")), Deliver(0), E2(k))
  {
    ResentSends(Set(k, ""));
    assert [Asks(Set(k, ""))][1..] == [] && [] + [Says(Set(k, ""))] == [Says(Set(k, ""))];
    OneSite(Next(S1(Set(k, "")), Deliver(0)), E2(k));
  }

  lemma EmptyVotes(k: string)
    ensures Leads(E2(k), ReadReply(0, true), E3(k))
  {
    assert [Says(Set(k, ""))][1..] == [];
    OneSite(Next(E2(k), ReadReply(0, true)), E3(k));
  }

  lemma EmptyDecides(k: string)
    ensures Leads(E3(k), Decide, E4(k)) && Leads(E4(k), Deliver(0), E5(k))
  {
    assert C.Open([true]) == {0} && 0 !in E3(k).w.response && [] + [Commit(1)] == [Commit(1)];
    OneSite(Next(E3(k), Decide), E4(k));
    assert [] + [Followed1()] == [Followed1()];
    OneSite(Next(E4(k), Deliver(0)), E5(k));
  }

  lemma EmptyFollows(k: string)
    ensures Leads(E5(k), ReadReply(0, true), E6(k)) && Leads(E6(k), Finish, E7(k))
  {
    var none: seq<seq<Request>> := [];
    assert [Followed1()][1..] == [] && none + Listed(None) == none && none + none + Listed(None) == none;
    OneSite(Next(E5(k), ReadReply(0, true)), E6(k));
    OneSite(Next(E6(k), Finish), E7(k));
  }

  lemma EmptyAnswers(k: string)
    ensures Leads(E7(k), BeginGet(2, k), E8(k))
    ensures Leads(E8(k), DialGet(true), E9(k))
  {
    var none: seq<seq<Request>>, one: seq<seq<Request>> := [], [[]];
    assert none + Listed(None) == none && none + Listed(Some([])) == one;
    OneSite(Next(E8(k), DialGet(true)), E9(k));
  }

  lemma EmptyEnds(k: string)
    ensures Leads(E9(k), Deliver(0), E10(k))
    ensures Leads(E10(k), ReadReply(0, true), E11(k))
    ensures Faultless(E11(k), Finish)
  {
    var none: seq<seq<Request>>, one: seq<seq<Request>> := [], [[]];
    assert none + Listed(None) == none && none + Listed(Some([])) == one;
    assert [Prepare(2, Get(k))][1..] == [] && [] + [Answered2()] == [Answered2()];
    OneSite(Next(E9(k), Deliver(0)), E10(k));
    assert [Answered2()][1..] == [];
    OneSite(Next(E10(k), ReadReply(0, true)), E11(k));
  }

  /** One step of a fault-free run, and the rest. */
  lemma FaultlessOn(s: Sys, a: Label, run: seq<Label>)
    requires Faultless(s, a)
    ensures FaultlessRun(s, [a] + run) <==> FaultlessRun(Next(s, a), run)
    ensures CommandsIn(s, [a] + run) == (if a.Finish? then [Served(s)] else []) + CommandsIn(Next(s, a), run)
  {
    assert ([a] + run)[1..] == run;
  }

  /** Nothing goes wrong in this run, and yet the GET of a stored value is answered with an error. */
  lemma EmptyValueIsError(k: string)
    ensures FaultlessRun(Initial(1), EmptyRun(k)) && CommandsIn(Initial(1), EmptyRun(k)) == [Set(k, ""), Get(k)]
    ensures RepliesIn(Initial(1), EmptyRun(k)) == [OkReply, ErrorReply]
    ensures MapReplies([Set(k, ""), Get(k)], map[]) == [OkReply, Words("")]
  {
    hide Next, Initial, Tells, Faultless, FaultlessRun, Leads, E2, E3, E4, E5, E6, E7, E8, E9, E10, E11, S1;
    EmptyAsks(k);
    EmptyVotes(k);
    EmptyDecides(k);
    EmptyFollows(k);
    EmptyAnswers(k);
    EmptyEnds(k);
    EmptyGetChain(k);
    EmptySetChain(k, EmptyGet(k));
    AnswersAsOneMap(1, EmptyRun(k));
    var cmds := [Set(k, ""), Get(k)];
    assert cmds[1..] == [Get(k)] && [Get(k)][1..] == [];
  }

  lemma EmptyGetChain(k: string)
    requires Leads(E7(k), BeginGet(2, k), E8(k)) && Leads(E8(k), DialGet(true), E9(k)) && Leads(E9(k), Deliver(0), E10(k))
    requires Leads(E10(k), ReadReply(0, true), E11(k)) && Faultless(E11(k), Finish)
    ensures FaultlessRun(E7(k), EmptyGet(k)) && CommandsIn(E7(k), EmptyGet(k)) == [Get(k)]
  {
    hide Next, E7, E8, E9, E10, Faultless;
    var r11: seq<Label> := [Finish] + [];
    var r10 := [ReadReply(0, true)] + r11;
    var r9 := [Deliver(0)] + r10;
    var r8 := [DialGet(true)] + r9;
    assert EmptyGet(k) == [BeginGet(2, k)] + r8;
    FaultlessOn(E11(k), Finish, []);
    FaultlessOn(E10(k), ReadReply(0, true), r11);
    FaultlessOn(E9(k), Deliver(0), r10);
    FaultlessOn(E8(k), DialGet(true), r9);
    FaultlessOn(E7(k), BeginGet(2, k), r8);
  }

  lemma EmptySetChain(k: string, rest: seq<Label>)
    requires Leads(Initial(1), Begin(1, Set(k, ""), {0}), S1(Set(k, ""))) && Leads(S1(Set(k, "")), Deliver(0), E2(k))
    requires Leads(E2(k), ReadReply(0, true), E3(k)) && Leads(E3(k), Decide, E4(k)) && Leads(E4(k), Deliver(0), E5(k))
    requires Leads(E5(k), ReadReply(0, true), E6(k)) && Leads(E6(k), Finish, E7(k)) && FaultlessRun(E7(k), rest)
    ensures FaultlessRun(Initial(1), EmptySet(k) + rest)
    ensures CommandsIn(Initial(1), EmptySet(k) + rest) == [Set(k, "")] + CommandsIn(E7(k), rest)
  {
    hide Next, Initial, S1, E2, E3, E4, E5, E7, Faultless, FaultlessRun, CommandsIn;
    assert Served(E6(k)) == Set(k, "");
    hide E6, Served;
    var r6 := [Finish] + rest;
    var r5 := [ReadReply(0, true)] + r6;
    var r4 := [Deliver(0)] + r5;
    var r3 := [Decide] + r4;
    var r2 := [ReadReply(0, true)] + r3;
    var r1 := [Deliver(0)] + r2;
    assert EmptySet(k) + rest == [Begin(1, Set(k, ""), {0})] + r1;
    FaultlessOn(E6(k), Finish, rest);
    FaultlessOn(E5(k), ReadReply(0, true), r6);
    FaultlessOn(E4(k), Deliver(0), r5);
    FaultlessOn(E3(k), Decide, r4);
    FaultlessOn(E2(k), ReadReply(0, true), r3);
    FaultlessOn(S1(Set(k, "")), Deliver(0), r2);
    FaultlessOn(Initial(1), Begin(1, Set(k, ""), {0}), r1);
  }
}
