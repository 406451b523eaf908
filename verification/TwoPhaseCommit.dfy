/**
  The whole store: one coordinator, serving one client at a time, and its
  participants, each handling its connections one after another.

  Connections are reliable and ordered until they break, and a read gives one
  message. A participant that stops does not come back.
 */
module TwoPhaseCommit {
  import opened KvMessages
  import opened Participant
  import C = Coordinator

  // ----- one participant and what is on its way to and from it -------------------------

  datatype Site = Site(
    ledger: Ledger,
    alive: bool,
    early: seq<seq<Request>>,      // connections of earlier transactions, oldest first: requests still to be read
    past: seq<seq<Request>>,     // connections of this transaction that the coordinator has left
    cur: Option<seq<Request>>,   // the connection in use, as long as the participant reads it
    replies: seq<Reply>,         // replies on the connection in use, not read by the coordinator yet
    broken: bool)                // the connection in use has broken

  function Listed(c: Option<seq<Request>>): seq<seq<Request>> {
    if c.Some? then [c.value] else []
  }

  /** The coordinator closes the connection: what was sent can still be read, replies no longer. */
  function HangUp(t: Site): Site {
    t.(past := t.past + Listed(t.cur), cur := None, replies := [])
  }

  /** A new connection, with a first request on it. */
  function Dial(t: Site, m: Request): Site {
    HangUp(t).(cur := Some([m]), broken := false)
  }

  /** A request on the connection in use: lost when nobody reads it any more. */
  function Send(t: Site, m: Request): Site {
    if t.cur.Some? then t.(cur := Some(t.cur.value + [m])) else t
  }

  /** The connection breaks: only the first k requests and r replies under way still arrive. */
  function Break(t: Site, k: nat, r: nat): Site
    requires (t.cur.Some? ==> k <= |t.cur.value|) && r <= |t.replies|
  {
    t.(past := t.past + (if t.cur.Some? then [t.cur.value[..k]] else []), cur := None,
       replies := t.replies[..r], broken := true)
  }

  /** The transaction is over: its connections are old ones now. */
  function Retire(t: Site): Site {
    t.(early := t.early + t.past + Listed(t.cur), past := [], cur := None, replies := [])
  }

  /** Read the next request of a list of connections, or pass to the next connection. */
  function Take(l: Ledger, cs: seq<seq<Request>>): (Ledger, seq<seq<Request>>, bool)
    requires cs != []
  {
    if cs[0] == [] then (l, cs[1..], true)
    else
      var (m, _, o) := Answer(l, cs[0][0]);
      match o
      case Continue => (m, [cs[0][1..]] + cs[1..], true)
      case Close => (m, cs[1..], true)
      case Shutdown => (m, cs, false)
  }

  /** The participant's next move. */
  function Receive(t: Site): Site {
    if t.early != [] then
      var (l, cs, up) := Take(t.ledger, t.early);
      t.(ledger := l, early := cs, alive := t.alive && up)
    else if t.past != [] then
      var (l, cs, up) := Take(t.ledger, t.past);
      t.(ledger := l, past := cs, alive := t.alive && up)
    else if t.cur.Some? && t.cur.value != [] then
      var (l, r, o) := Answer(t.ledger, t.cur.value[0]);
      var sent := if r.Some? then t.replies + [r.value] else t.replies;
      match o
      case Continue => t.(ledger := l, cur := Some(t.cur.value[1..]), replies := sent)
      case Close => t.(ledger := l, cur := None, replies := sent)
      case Shutdown => t.(alive := false, cur := None, broken := true)
    else t
  }

  // ----- the system ---------------------------------------------------------------------

  /** What the coordinator is doing. */
  datatype Stage =
    | Idle
    | Preparing(id: int, cmd: Command)
    | Deciding(id: int, cmd: Command, commit: bool, before: Db)
    | Getting(id: int, key: string, next: nat)

  /** committed: what the transactions decided COMMIT so far make of the empty map. */
  datatype Sys = Sys(sites: seq<Site>, w: C.Wait, stage: Stage, committed: Db)

  /** The request that the current stage sends, and sends again. */
  function Pushed(st: Stage): Request
    requires !st.Idle?
  {
    match st
    case Preparing(id, cmd) => Prepare(id, cmd)
    case Deciding(id, _, commit, _) => if commit then Commit(id) else Abort(id)
    case Getting(id, key, _) => Prepare(id, Get(key))
  }

  function WaitPhase(st: Stage): C.Phase { if st.Preparing? then C.Preparing else C.Deciding }

  datatype Label =
    | Begin(id: int, cmd: Command, reached: set<int>)   // a SET or DEL: connect, send the prepare request
    | Timeout                                           // select times out
    | ReadReply(i: int, clear: bool)                    // a reply is read; clear: it can be parsed
    | ReadLoss(i: int, again: bool)                     // a lost connection is noticed; again: reconnected
    | Decide                                            // all alive participants answered
    | Finish                                            // the transaction is over
    | BeginGet(id: int, key: string)                    // a GET
    | DialGet(ok: bool)                                 // ask the next participant
    | Deliver(i: int)                                   // a participant reads on
    | Lose(i: int, k: nat, r: nat)                      // a connection breaks
    | Crash(i: int, k: nat, r: nat)                     // a participant stops, and its connection breaks

  function N(s: Sys): nat { |s.sites| }

  predicate Shape(s: Sys) {
    |s.w.connected| == |s.w.valid| == |s.w.response| == |s.sites|
  }

  predicate Index(s: Sys, i: int) { 0 <= i < |s.sites| }

  /** Participant i is valid, and answers a connect. */
  predicate Reachable(s: Sys, i: int)
    requires Shape(s)
  {
    Index(s, i) && s.w.valid[i] && s.sites[i].alive
  }

  ghost predicate Enabled(s: Sys, a: Label) {
    && Shape(s)
    && match a
       case Begin(_, cmd, reached) =>
         && s.stage.Idle? && !cmd.Get? && cmd.Proper()
         && forall i | i in reached :: Reachable(s, i)
       case Timeout => !s.stage.Idle? && C.Enabled(s.w, N(s), C.TimedOut)
       case ReadReply(i, _) =>
         && !s.stage.Idle? && Index(s, i) && s.sites[i].replies != []
         && C.Enabled(s.w, N(s), C.Read(i, C.Got(None)))
       case ReadLoss(i, again) =>
         && !s.stage.Idle? && Index(s, i) && s.sites[i].replies == [] && s.sites[i].broken
         && (again ==> s.sites[i].alive)
         && C.Enabled(s.w, N(s), C.Read(i, C.Lost(again)))
       case Decide => s.stage.Preparing? && !C.Going(s.w)
       case Finish =>
         && !C.Going(s.w)
         && (s.stage.Deciding? || (s.stage.Getting? && (s.w.count > 0 || s.stage.next == N(s))))
       case BeginGet(_, _) => s.stage.Idle?
       case DialGet(ok) =>
         && s.stage.Getting? && !C.Going(s.w) && s.w.count == 0 && s.stage.next < N(s)
         && (ok ==> s.sites[s.stage.next].alive)
       case Deliver(i) => Index(s, i) && s.sites[i].alive
       case Lose(i, k, r) =>
         && Index(s, i) && r <= |s.sites[i].replies|
         && (s.sites[i].cur.Some? ==> k <= |s.sites[i].cur.value|)
       case Crash(i, k, r) =>
         && Index(s, i) && r <= |s.sites[i].replies|
         && (s.sites[i].cur.Some? ==> k <= |s.sites[i].cur.value|)
  }

  /** Every site in who changes. */
  function Change(sites: seq<Site>, who: set<int>, f: Site -> Site): seq<Site> {
    seq(|sites|, i requires 0 <= i < |sites| => if i in who then f(sites[i]) else sites[i])
  }

  function RetireAll(sites: seq<Site>): seq<Site> {
    seq(|sites|, i requires 0 <= i < |sites| => Retire(sites[i]))
  }

  ghost function Next(s: Sys, a: Label): Sys
    requires Enabled(s, a)
  {
    match a
    case Begin(id, cmd, reached) =>
      var valid := seq(N(s), i requires 0 <= i < N(s) => i in reached);
      if reached == {} then s.(w := C.WaitFor(valid, {}))
      else
        s.(w := C.WaitFor(valid, reached), stage := Preparing(id, cmd),
           sites := Change(s.sites, reached, t => Dial(t, Prepare(id, cmd))))
    case Timeout =>
      s.(w := C.OnTimeout(s.w),
         sites := if s.w.timeout == 3 then Change(s.sites, s.w.watched, HangUp)
                  else Change(s.sites, s.w.watched, t => Send(t, Pushed(s.stage))))
    case ReadReply(i, clear) =>
      var t := s.sites[i].(replies := s.sites[i].replies[1..]);
      var m := if clear then Some(s.sites[i].replies[0]) else None;
      s.(w := C.OnRead(WaitPhase(s.stage), s.w, i, C.Got(m)),
         sites := s.sites[i := if s.stage.Preparing? then t else HangUp(t)])
    case ReadLoss(i, again) =>
      s.(w := C.OnRead(WaitPhase(s.stage), s.w, i, C.Lost(again)),
         sites := s.sites[i := if again then Dial(s.sites[i], Pushed(s.stage)) else HangUp(s.sites[i])])
    case Decide =>
      if s.w.count == 0 then s.(stage := Idle, sites := RetireAll(s.sites))
      else
        var commit := 0 !in s.w.response;
        var st := Deciding(s.stage.id, s.stage.cmd, commit, s.committed);
        s.(w := C.WaitFor(s.w.valid, C.Open(s.w.connected)), stage := st,
           sites := Change(s.sites, C.Open(s.w.connected), t => Send(t, Pushed(st))),
           committed := if commit then Apply(s.stage.cmd, s.committed) else s.committed)
    case Finish => s.(stage := Idle, sites := RetireAll(s.sites))
    case BeginGet(id, key) => s.(w := C.WaitFor(s.w.valid, {}), stage := Getting(id, key, 0))
    case DialGet(ok) =>
      var i := s.stage.next;
      var st := s.stage.(next := i + 1);
      if !s.w.valid[i] then s.(stage := st)
      else if ok then
        s.(w := C.WaitFor(s.w.valid, {i}), stage := st, sites := s.sites[i := Dial(s.sites[i], Pushed(st))])
      else s.(w := s.w.(valid := s.w.valid[i := false]), stage := st)
    case Deliver(i) => s.(sites := s.sites[i := Receive(s.sites[i])])
    case Lose(i, k, r) => s.(sites := s.sites[i := Break(s.sites[i], k, r)])
    case Crash(i, k, r) => s.(sites := s.sites[i := Break(s.sites[i], k, r).(alive := false)])
  }

  /** n participants, quiet and empty, all of them valid. */
  ghost function Initial(n: nat): Sys {
    Sys(seq(n, _ => Site(Quiet(-1, map[], None), true, [], [], None, [], false)),
        C.WaitFor(seq(n, _ => true), {}), Idle, map[])
  }

  // ----- what reading on leads to -----------------------------------------------------------

  /** The ledger after everything on the connections is read; None if the participant shuts down. */
  ghost function Drain(l: Ledger, cs: seq<seq<Request>>): Option<Ledger>
    decreases |cs|, if cs == [] then 0 else |cs[0]|
  {
    if cs == [] then Some(l)
    else
      var (m, rest, up) := Take(l, cs);
      if up then Drain(m, rest) else None
  }

  /** Once everything is read, the participant is quiet and its map is db. */
  ghost predicate Settles(l: Ledger, cs: seq<seq<Request>>, db: Db) {
    var d := Drain(l, cs);
    d.Some? && d.value.Quiet? && d.value.committed == db
  }

  lemma {:induction false} DrainConcat(l: Ledger, a: seq<seq<Request>>, b: seq<seq<Request>>)
    ensures Drain(l, a + b) == if Drain(l, a).Some? then Drain(Drain(l, a).value, b) else None
    decreases |a|, if a == [] then 0 else |a[0]|
  {
    if a == [] {
      assert a + b == b;
    } else {
      var (m, rest, up) := Take(l, a);
      TakeConcat(l, a, b);
      if up { DrainConcat(m, rest, b); }
    }
  }

  /** A connection is read up to its first decision; what comes after that is never read. */
  function UpToDecision(c: seq<Request>): seq<Request> {
    if c == [] then [] else if c[0].Prepare? then [c[0]] + UpToDecision(c[1..]) else [c[0]]
  }

  function ReadOn(cs: seq<seq<Request>>): seq<Request> {
    if cs == [] then [] else UpToDecision(cs[0]) + ReadOn(cs[1..])
  }

  /** Reading the connections one after another is handling these requests. */
  lemma {:induction false} DrainIsRun(l: Ledger, cs: seq<seq<Request>>)
    ensures Drain(l, cs) == RunLedger(l, ReadOn(cs))
    decreases |cs|, if cs == [] then 0 else |cs[0]|
  {
    if cs != [] {
      var (m, rest, up) := Take(l, cs);
      TakeConcat(l, cs, []);
      ReadOnTake(l, cs);
      if up { DrainIsRun(m, rest); }
    }
  }

  lemma ReadOnTake(l: Ledger, cs: seq<seq<Request>>)
    requires cs != []
    ensures var (m, rest, up) := Take(l, cs);
            if cs[0] == [] then m == l && up && ReadOn(cs) == ReadOn(rest)
            else
              && ReadOn(cs) != [] && ReadOn(cs)[0] == cs[0][0] && m == Answer(l, cs[0][0]).0
              && (up <==> Answer(l, cs[0][0]).2 != Shutdown) && (up ==> ReadOn(cs)[1..] == ReadOn(rest))
  {
    if cs[0] == [] {
      assert [] + ReadOn(cs[1..]) == ReadOn(cs[1..]);
    } else {
      hide ReadOn;
      GoesOn(l, cs[0][0]);
      ReadOnFirst(cs);
    }
  }

  /** After a PREPARED-REQUEST the participant reads on on the same connection, after a decision it does not. */
  lemma GoesOn(l: Ledger, r: Request)
    ensures Answer(l, r).2 == Continue <==> r.Prepare?
  {
  }

  lemma ReadOnCons(c: seq<Request>, cs: seq<seq<Request>>)
    ensures ReadOn([c] + cs) == UpToDecision(c) + ReadOn(cs)
  {
    assert ([c] + cs)[1..] == cs;
  }

  lemma Join(m: Request, u: seq<Request>, t: seq<Request>)
    ensures ([m] + u) + t == [m] + (u + t)
  {
  }

  lemma ReadOnFirst(cs: seq<seq<Request>>)
    requires cs != [] && cs[0] != []
    ensures ReadOn(cs) == [cs[0][0]] + (if cs[0][0].Prepare? then ReadOn([cs[0][1..]] + cs[1..]) else ReadOn(cs[1..]))
  {
    var c, rest := cs[0], cs[1..];
    assert UpToDecision(c) == if c[0].Prepare? then [c[0]] + UpToDecision(c[1..]) else [c[0]];
    assert ReadOn(cs) == UpToDecision(c) + ReadOn(rest);
    hide ReadOn, UpToDecision;
    ReadOnCons(c[1..], rest);
    Join(c[0], UpToDecision(c[1..]), ReadOn(rest));
  }

  lemma TakeConcat(l: Ledger, a: seq<seq<Request>>, b: seq<seq<Request>>)
    requires a != []
    ensures var (m, rest, up) := Take(l, a); Take(l, a + b) == (m, rest + b, up)
    ensures Take(l, a).2 ==> |Take(l, a).1| < |a| || (|Take(l, a).1| == |a| && |Take(l, a).1[0]| < |a[0]|)
  {
    assert (a + b)[0] == a[0] && (a + b)[1..] == a[1..] + b;
    if a[0] != [] {
      var tail := [a[0][1..]];
      assert tail + (a[1..] + b) == (tail + a[1..]) + b;
    }
  }

  // ----- nothing sent is forgotten -------------------------------------------------------------

  /** All connections with requests that the participant may still read, in the order it reads them. */
  function UnderWay(t: Site): seq<seq<Request>> { t.early + t.past + Listed(t.cur) }

  /** Where the participant ends up when it reads everything under way; None if it shuts down. */
  ghost function EndOf(t: Site): Option<Ledger> { RunLedger(t.ledger, ReadOn(UnderWay(t))) }

  /** The coordinator's own moves forget nothing under way: hanging up, a new connection, one request more, the end. */
  lemma MovesKeep(t: Site, m: Request)
    ensures UnderWay(HangUp(t)) == UnderWay(t) && UnderWay(Retire(t)) == UnderWay(t)
    ensures UnderWay(Dial(t, m)) == UnderWay(t) + [[m]]
    ensures UnderWay(Send(t, m)) == if t.cur.Some? then t.early + t.past + [t.cur.value + [m]] else UnderWay(t)
  {
    assert (t.early + t.past) + Listed(t.cur) + [[m]] == t.early + (t.past + Listed(t.cur)) + [[m]];
  }

  /** When a participant reads on makes no difference to where it ends up; and it stops exactly by shutting down. */
  lemma ReceiveKeepsEnd(t: Site)
    requires t.alive
    ensures Receive(t).alive ==> EndOf(Receive(t)) == EndOf(t)
    ensures !Receive(t).alive ==> EndOf(t) == None
  {
    DrainIsRun(t.ledger, UnderWay(t));
    DrainIsRun(Receive(t).ledger, UnderWay(Receive(t)));
    ReceiveTakes(t);
  }

  lemma ReceiveTakes(t: Site)
    requires t.alive
    ensures var cs, u := UnderWay(t), Receive(t);
            || u == t
            || (cs != [] && var (m, rest, up) := Take(t.ledger, cs); u.alive == up && (up ==> u.ledger == m && UnderWay(u) == rest))
  {
    if t.early != [] {
      TakeEarly(t);
    } else if t.past != [] {
      TakePast(t);
    } else {
      TakeNow(t);
    }
  }

  lemma TakeEarly(t: Site)
    requires t.alive && t.early != []
    ensures var (m, rest, up) := Take(t.ledger, UnderWay(t));
            && Receive(t).alive == up && (up ==> Receive(t).ledger == m && UnderWay(Receive(t)) == rest)
  {
    hide Answer;
    TakeConcat(t.ledger, t.early, t.past + Listed(t.cur));
    assert UnderWay(t) == t.early + (t.past + Listed(t.cur));
    assert UnderWay(Receive(t)) == Receive(t).early + (t.past + Listed(t.cur));
  }

  lemma TakePast(t: Site)
    requires t.alive && t.early == [] && t.past != []
    ensures var (m, rest, up) := Take(t.ledger, UnderWay(t));
            && Receive(t).alive == up && (up ==> Receive(t).ledger == m && UnderWay(Receive(t)) == rest)
  {
    hide Answer;
    TakeConcat(t.ledger, t.past, Listed(t.cur));
    assert UnderWay(t) == t.past + Listed(t.cur);
    assert UnderWay(Receive(t)) == Receive(t).past + Listed(t.cur);
  }

  lemma TakeNow(t: Site)
    requires t.alive && t.early == [] && t.past == []
    ensures var cs, u := UnderWay(t), Receive(t);
            || u == t
            || (cs != [] && var (m, rest, up) := Take(t.ledger, cs); u.alive == up && (up ==> u.ledger == m && UnderWay(u) == rest))
  {
    hide Answer;
    assert UnderWay(t) == Listed(t.cur);
    if t.cur.Some? && t.cur.value != [] { assert UnderWay(Receive(t)) == Listed(Receive(t).cur); }
  }

  ghost predicate OnlyOne(c: seq<Request>, m: Request) {
    forall k | 0 <= k < |c| :: c[k] == m
  }

  /** Every request on the connections is m. */
  ghost predicate Only(cs: seq<seq<Request>>, m: Request) {
    forall k | 0 <= k < |cs| :: OnlyOne(cs[k], m)
  }

  /** On one connection: p, possibly repeated, then d, possibly repeated. */
  ghost predicate OrderedOne(c: seq<Request>, p: Request, d: Request) {
    && (forall k | 0 <= k < |c| :: c[k] == p || c[k] == d)
    && (forall j, k | 0 <= j < k < |c| && c[j] == d :: c[k] == d)
  }

  /** On all connections together: p, possibly repeated, then d, possibly repeated. */
  ghost predicate Ordered(cs: seq<seq<Request>>, p: Request, d: Request) {
    cs != [] ==>
      && OrderedOne(cs[0], p, d)
      && if d in cs[0] then Only(cs[1..], d) else Ordered(cs[1..], p, d)
  }

  ghost predicate Has(cs: seq<seq<Request>>, d: Request) {
    exists c :: c in cs && d in c
  }

  /** A request that a quiet participant answers without changing its map, read again and again. */
  lemma {:induction false} QuietOnly(l: Ledger, cs: seq<seq<Request>>, m: Request)
    requires l.Quiet? && Only(cs, m) && ((m.Prepare? && m.cmd.Get?) || (!m.Prepare? && m.id == l.id))
    ensures Settles(l, cs, l.committed)
    decreases |cs|, if cs == [] then 0 else |cs[0]|
  {
    if cs != [] {
      TakeOnly(cs, m);
      TakeConcat(l, cs, []);
      var (n, rest, up) := Take(l, cs);
      QuietOnly(n, rest, m);
    }
  }

  lemma TakeOnly(cs: seq<seq<Request>>, m: Request)
    requires cs != [] && Only(cs, m)
    ensures Only(cs[1..], m) && (cs[0] != [] ==> cs[0][0] == m && Only([cs[0][1..]] + cs[1..], m))
  {
    if cs[0] != [] {
      assert OnlyOne(cs[0], m);
      var t := [cs[0][1..]] + cs[1..];
      forall k | 0 <= k < |t| ensures OnlyOne(t[k], m) {
        if k > 0 { assert t[k] == cs[k]; }
      }
    }
  }

  /** What a decision makes of the map. */
  function Decided(commit: bool, cmd: Command, before: Db): Db {
    if commit then Apply(cmd, before) else before
  }

  /** What a participant answers once it has followed a decision. */
  function Followed(id: int, cmd: Command, commit: bool, before: Db): Reply {
    if commit then DoneWith(id, cmd, before) else Done(id, cmd.Verb(), "")
  }

  function Decision(commit: bool, id: int): Request { if commit then Commit(id) else Abort(id) }

  lemma TakeOrdered(l: Ledger, cs: seq<seq<Request>>, commit: bool)
    requires l.Pending? && cs != []
    requires Ordered(cs, Prepare(l.id, l.cmd), Decision(commit, l.id))
    ensures var (m, rest, up) := Take(l, cs);
            && up
            && (m == l ==> Ordered(rest, Prepare(l.id, l.cmd), Decision(commit, l.id)))
            && (m != l ==>
                  && m.Quiet? && m.id == l.id && m.committed == Decided(commit, l.cmd, l.committed)
                  && m.last == Some(Followed(l.id, l.cmd, commit, l.committed))
                  && Only(rest, Decision(commit, l.id)))
            && (Has(cs, Decision(commit, l.id)) && m == l ==> Has(rest, Decision(commit, l.id)))
  {
    var p, d := Prepare(l.id, l.cmd), Decision(commit, l.id);
    var c := cs[0];
    if c == [] {
      HasTail(cs, d);
    } else if c[0] == p {
      var t := [c[1..]] + cs[1..];
      assert t[1..] == cs[1..] && t[0] == c[1..];
      assert c == [p] + c[1..];
      assert d in c <==> d in c[1..];
      HasTail(cs, d);
      HasTail(t, d);
    } else {
      assert c[0] == d && d in c;
    }
  }

  lemma HasTail(cs: seq<seq<Request>>, d: Request)
    requires cs != []
    ensures Has(cs, d) <==> d in cs[0] || Has(cs[1..], d)
  {
    assert cs == [cs[0]] + cs[1..];
    if d in cs[0] { assert cs[0] in cs; }
    if Has(cs[1..], d) {
      var c :| c in cs[1..] && d in c;
      assert c in cs;
    }
  }

  /** A prepared participant with the decision on its way settles as decided, whatever is repeated. */
  lemma {:induction false} PendingSettles(l: Ledger, cs: seq<seq<Request>>, commit: bool)
    requires l.Pending?
    requires Ordered(cs, Prepare(l.id, l.cmd), Decision(commit, l.id)) && Has(cs, Decision(commit, l.id))
    ensures Settles(l, cs, Decided(commit, l.cmd, l.committed))
    decreases |cs|, if cs == [] then 0 else |cs[0]|
  {
    TakeOrdered(l, cs, commit);
    TakeConcat(l, cs, []);
    var (m, rest, up) := Take(l, cs);
    if m == l {
      PendingSettles(l, rest, commit);
    } else {
      QuietOnly(m, rest, Decision(commit, l.id));
    }
  }

  /** A prepared participant whose decision is lost stays prepared. */
  lemma {:induction false} PendingStays(l: Ledger, cs: seq<seq<Request>>, commit: bool)
    requires l.Pending?
    requires Ordered(cs, Prepare(l.id, l.cmd), Decision(commit, l.id)) && !Has(cs, Decision(commit, l.id))
    ensures Drain(l, cs) == Some(l)
    decreases |cs|, if cs == [] then 0 else |cs[0]|
  {
    if cs != [] {
      TakeConcat(l, cs, []);
      var p, d := Prepare(l.id, l.cmd), Decision(commit, l.id);
      HasTail(cs, d);
      TakeOrdered(l, cs, commit);
      var (m, rest, up) := Take(l, cs);
      if cs[0] != [] {
        assert cs[0][0] != d;
        assert rest[1..] == cs[1..] && rest[0] == cs[0][1..];
        HasTail(rest, d);
      }
      PendingStays(l, rest, commit);
    }
  }

  // ----- how the order on the connections is kept ---------------------------------------------

  lemma {:induction false} OnlyOrdered(cs: seq<seq<Request>>, p: Request, d: Request)
    requires Only(cs, p) && p != d
    ensures Ordered(cs, p, d)
  {
    if cs != [] {
      TakeOnly(cs, p);
      assert OnlyOne(cs[0], p);
      OnlyOrdered(cs[1..], p, d);
    }
  }

  /** The last connection is cut to c, or continued to c, keeping its own order. */
  lemma {:induction false} OrderedLast(a: seq<seq<Request>>, b: seq<Request>, c: seq<Request>, p: Request, d: Request)
    requires Ordered(a + [b], p, d) && OrderedOne(c, p, d) && p != d
    requires c <= b || (b <= c && OnlyOne(c[|b|..], d))
    ensures Ordered(a + [c], p, d)
  {
    if a == [] {
      assert ([] + [c])[1..] == [];
    } else {
      assert (a + [b])[0] == a[0] == (a + [c])[0];
      assert (a + [b])[1..] == a[1..] + [b] && (a + [c])[1..] == a[1..] + [c];
      if d in a[0] {
        var t, u := a[1..] + [b], a[1..] + [c];
        assert OnlyOne(t[|a| - 1], d);
        forall k | 0 <= k < |u| ensures OnlyOne(u[k], d) {
          if k < |a| - 1 { assert u[k] == t[k]; } else { LastOnly(b, c, d); }
        }
      } else {
        OrderedLast(a[1..], b, c, p, d);
      }
    }
  }

  lemma LastOnly(b: seq<Request>, c: seq<Request>, d: Request)
    requires OnlyOne(b, d) && (c <= b || (b <= c && OnlyOne(c[|b|..], d)))
    ensures OnlyOne(c, d)
  {
    forall k | 0 <= k < |c| ensures c[k] == d {
      if k < |b| { assert b[k] == d; } else { assert c[|b|..][k - |b|] == d; }
    }
  }

  /** A connection with nothing but decisions comes last. */
  lemma {:induction false} OrderedMore(a: seq<seq<Request>>, c: seq<Request>, p: Request, d: Request)
    requires Ordered(a, p, d) && OnlyOne(c, d)
    ensures Ordered(a + [c], p, d)
  {
    if a == [] {
      assert ([] + [c])[1..] == [];
    } else {
      assert (a + [c])[0] == a[0] && (a + [c])[1..] == a[1..] + [c];
      if d !in a[0] { OrderedMore(a[1..], c, p, d); }
    }
  }

  // ----- what holds of every valid participant --------------------------------------------------

  function Conns(t: Site): seq<seq<Request>> { t.past + Listed(t.cur) }

  ghost predicate AllPrepared(rs: seq<Reply>) {
    forall k | 0 <= k < |rs| :: rs[k].Prepared?
  }

  /** Asked to prepare: either it has, or it is still busy with earlier connections and has not answered. */
  ghost predicate PrepareOk(id: int, cmd: Command, db: Db, answered: bool, t: Site) {
    && Only(Conns(t), Prepare(id, cmd)) && AllPrepared(t.replies) && (t.cur.None? ==> t.broken)
    && (|| (t.early == [] && t.ledger == Pending(id, db, cmd))
        || (!answered && t.replies == [] && Settles(t.ledger, t.early, db) && (t.cur.Some? ==> t.cur.value != [])))
  }

  /** A reply to a decision, or a repeated one to the prepare request. */
  predicate DecideReply(id: int, cmd: Command, commit: bool, before: Db, r: Reply) {
    r.Prepared? || r == Followed(id, cmd, commit, before)
  }

  /** Told the decision: either it has followed it, or it is prepared and, unless the connection broke, will read it. */
  ghost predicate DecideOk(id: int, cmd: Command, commit: bool, before: Db, t: Site) {
    && t.early == []
    && (|| (t.ledger == Pending(id, before, cmd) && Ordered(Conns(t), Prepare(id, cmd), Decision(commit, id))
            && (t.cur.Some? ==> Decision(commit, id) in t.cur.value) && (t.cur.None? ==> t.broken) && AllPrepared(t.replies))
        || (t.ledger.Quiet? && t.ledger.id == id && t.ledger.committed == Decided(commit, cmd, before)
            && t.ledger.last == Some(Followed(id, cmd, commit, before))
            && Only(Conns(t), Decision(commit, id))))
    && forall k | 0 <= k < |t.replies| :: DecideReply(id, cmd, commit, before, t.replies[k])
  }

  /** Asked for a value: its map stays the committed one, and so what it answers is the committed value. */
  ghost predicate GetOk(id: int, key: string, db: Db, t: Site) {
    && Settles(t.ledger, t.early, db) && Only(Conns(t), Prepare(id, Get(key)))
    && forall k | 0 <= k < |t.replies| :: t.replies[k] == Done(id, GET, Lookup(db, key))
  }

  ghost predicate SiteOk(st: Stage, db: Db, connected: bool, answered: bool, t: Site) {
    match st
    case Idle => t.past == [] && t.cur.None? && t.replies == [] && Settles(t.ledger, t.early, db)
    case Preparing(id, cmd) => connected && PrepareOk(id, cmd, db, answered, t)
    case Deciding(id, cmd, commit, before) =>
      if connected then DecideOk(id, cmd, commit, before, t)
      else t.cur.None? && Settles(t.ledger, t.early + t.past, db)
    case Getting(id, key, _) => GetOk(id, key, db, t) && (connected || t.cur.None?)
  }

  lemma SettlesTake(l: Ledger, cs: seq<seq<Request>>, db: Db)
    requires Settles(l, cs, db) && cs != []
    ensures Take(l, cs).2 && Settles(Take(l, cs).0, Take(l, cs).1, db)
  {
    TakeConcat(l, cs, []);
  }

  lemma SettlesMore(l: Ledger, a: seq<seq<Request>>, b: seq<seq<Request>>, db: Db)
    requires Settles(l, a, db)
    ensures Settles(l, a + b, db) <==> Settles(Drain(l, a).value, b, db)
  {
    DrainConcat(l, a, b);
  }

  lemma TakeFirst(l: Ledger, a: seq<seq<Request>>, b: seq<seq<Request>>)
    requires a != []
    ensures Take(l, a + b).0 == Take(l, a).0 && Take(l, a + b).1 == Take(l, a).1 + b && Take(l, a + b).2 == Take(l, a).2
  {
    TakeConcat(l, a, b);
  }

  // ----- the participant reads on ------------------------------------------------------------

  lemma ReceiveIdle(db: Db, t: Site)
    requires t.past == [] && t.cur.None? && t.replies == [] && Settles(t.ledger, t.early, db)
    ensures SiteOk(Idle, db, false, false, Receive(t)) && Receive(t).alive == t.alive
  {
    if t.early != [] { SettlesTake(t.ledger, t.early, db); }
  }

  lemma ReceiveEarly(id: int, cmd: Command, db: Db, answered: bool, t: Site)
    requires PrepareOk(id, cmd, db, answered, t) && t.early != []
    ensures PrepareOk(id, cmd, db, answered, Receive(t)) && Receive(t).alive == t.alive
  {
    hide Settles, Only, Answer;
    SettlesTake(t.ledger, t.early, db);
    assert Conns(Receive(t)) == Conns(t);
  }

  lemma SettlesNone(l: Ledger, db: Db)
    requires Settles(l, [], db)
    ensures l.Quiet? && l.committed == db
  {
  }

  lemma ReceivePrepare(id: int, cmd: Command, db: Db, answered: bool, t: Site)
    requires !cmd.Get? && PrepareOk(id, cmd, db, answered, t)
    ensures PrepareOk(id, cmd, db, answered, Receive(t)) && Receive(t).alive == t.alive
  {
    hide PrepareOk, Receive, Take, Answer;
    if t.early != [] {
      ReceiveEarly(id, cmd, db, answered, t);
    } else if t.past != [] {
      ReceivePast(id, cmd, db, answered, t);
    } else {
      ReceiveNow(id, cmd, db, answered, t);
    }
  }

  lemma ReceivePast(id: int, cmd: Command, db: Db, answered: bool, t: Site)
    requires !cmd.Get? && PrepareOk(id, cmd, db, answered, t) && t.early == [] && t.past != []
    ensures PrepareOk(id, cmd, db, answered, Receive(t)) && Receive(t).alive == t.alive
  {
    hide Settles;
    TakeOnly(Conns(t), Prepare(id, cmd));
    TakeFirst(t.ledger, t.past, Listed(t.cur));
    if Settles(t.ledger, [], db) { SettlesNone(t.ledger, db); }
  }

  lemma ReceiveNow(id: int, cmd: Command, db: Db, answered: bool, t: Site)
    requires !cmd.Get? && PrepareOk(id, cmd, db, answered, t) && t.early == t.past == []
    ensures PrepareOk(id, cmd, db, answered, Receive(t)) && Receive(t).alive == t.alive
  {
    hide Settles;
    if t.cur.Some? && t.cur.value != [] {
      TakeOnly(Conns(t), Prepare(id, cmd));
      if Settles(t.ledger, [], db) { SettlesNone(t.ledger, db); }
    }
  }

  lemma ReceiveDecide(id: int, cmd: Command, commit: bool, before: Db, t: Site)
    requires DecideOk(id, cmd, commit, before, t)
    ensures DecideOk(id, cmd, commit, before, Receive(t)) && Receive(t).alive == t.alive
  {
    if t.past != [] { ReceiveDecidePast(id, cmd, commit, before, t); } else { ReceiveDecideNow(id, cmd, commit, before, t); }
  }

  lemma ReceiveDecidePast(id: int, cmd: Command, commit: bool, before: Db, t: Site)
    requires DecideOk(id, cmd, commit, before, t) && t.past != []
    ensures DecideOk(id, cmd, commit, before, Receive(t)) && Receive(t).alive == t.alive
  {
    if t.ledger.Pending? { ReceivePending(id, cmd, commit, before, t); } else { ReceiveQuiet(id, cmd, commit, before, t); }
  }

  lemma ReceivePending(id: int, cmd: Command, commit: bool, before: Db, t: Site)
    requires DecideOk(id, cmd, commit, before, t) && t.past != [] && t.ledger.Pending?
    ensures DecideOk(id, cmd, commit, before, Receive(t)) && Receive(t).alive == t.alive
  {
    hide Take, Answer, Only, Ordered, Has;
    TakeFirst(t.ledger, t.past, Listed(t.cur));
    TakeOrdered(t.ledger, Conns(t), commit);
  }

  lemma ReceiveQuiet(id: int, cmd: Command, commit: bool, before: Db, t: Site)
    requires DecideOk(id, cmd, commit, before, t) && t.past != [] && t.ledger.Quiet?
    ensures DecideOk(id, cmd, commit, before, Receive(t)) && Receive(t).alive == t.alive
  {
    hide Answer, Ordered, AllPrepared, Followed;
    TakeFirst(t.ledger, t.past, Listed(t.cur));
    TakeOnly(Conns(t), Decision(commit, id));
    AnswersAgain(t.ledger, Decision(commit, id));
  }

  lemma ReceiveDecideNow(id: int, cmd: Command, commit: bool, before: Db, t: Site)
    requires DecideOk(id, cmd, commit, before, t) && t.past == []
    ensures DecideOk(id, cmd, commit, before, Receive(t)) && Receive(t).alive == t.alive
  {
    hide DecideOk, Answer;
    if t.cur.Some? && t.cur.value != [] {
      assert Conns(t) == [t.cur.value];
      if t.ledger.Pending? {
        ReceiveDecision(id, cmd, commit, before, t);
      } else {
        ReceiveAgain(id, cmd, commit, before, t);
      }
    } else {
      DecideEarly(id, cmd, commit, before, t);
    }
  }

  lemma DecideEarly(id: int, cmd: Command, commit: bool, before: Db, t: Site)
    requires DecideOk(id, cmd, commit, before, t)
    ensures t.early == []
  {
  }

  /** The decision is already followed: it is answered as before. */
  lemma ReceiveAgain(id: int, cmd: Command, commit: bool, before: Db, t: Site)
    requires DecideOk(id, cmd, commit, before, t) && t.past == [] && !t.ledger.Pending?
    requires t.cur.Some? && t.cur.value != [] && Conns(t) == [t.cur.value]
    ensures DecideOk(id, cmd, commit, before, Receive(t)) && Receive(t).alive == t.alive
  {
    hide Ordered, Answer, Take, AllPrepared, Followed;
    TakeOnly(Conns(t), Decision(commit, id));
    AnswersAgain(t.ledger, Decision(commit, id));
    assert Receive(t) == t.(cur := None, replies := t.replies + [t.ledger.last.value]);
  }

  lemma AnswersAgain(l: Ledger, m: Request)
    requires l.Quiet? && !m.Prepare? && m.id == l.id
    ensures Answer(l, m) == (l, l.last, Close)
  {
  }

  lemma ReceiveDecision(id: int, cmd: Command, commit: bool, before: Db, t: Site)
    requires DecideOk(id, cmd, commit, before, t) && t.past == [] && t.ledger.Pending?
    requires t.cur.Some? && t.cur.value != [] && Conns(t) == [t.cur.value]
    ensures DecideOk(id, cmd, commit, before, Receive(t)) && Receive(t).alive == t.alive
  {
    if t.cur.value[0] == Decision(commit, id) {
      ReceiveFollows(id, cmd, commit, before, t);
    } else {
      ReceiveRepeat(id, cmd, commit, before, t);
    }
  }

  lemma ReceiveFollows(id: int, cmd: Command, commit: bool, before: Db, t: Site)
    requires DecideOk(id, cmd, commit, before, t) && t.past == [] && t.ledger.Pending?
    requires t.cur.Some? && t.cur.value != [] && t.cur.value[0] == Decision(commit, id)
    ensures DecideOk(id, cmd, commit, before, Receive(t)) && Receive(t).alive == t.alive
  {
    hide Ordered, AllPrepared, Take;
    var u := Receive(t);
    assert u.cur.None? && u.past == [] && u.replies == t.replies + [Followed(id, cmd, commit, before)];
    assert Conns(u) == [];
  }

  /** The prepare request once more, before the decision. */
  lemma ReceiveRepeat(id: int, cmd: Command, commit: bool, before: Db, t: Site)
    requires DecideOk(id, cmd, commit, before, t) && t.past == [] && t.ledger.Pending?
    requires t.cur.Some? && t.cur.value != [] && Conns(t) == [t.cur.value] && t.cur.value[0] != Decision(commit, id)
    ensures DecideOk(id, cmd, commit, before, Receive(t)) && Receive(t).alive == t.alive
  {
    hide Only, Settles;
    TakeOrdered(t.ledger, Conns(t), commit);
    assert t.cur.value == [t.cur.value[0]] + t.cur.value[1..];
    assert Conns(Receive(t)) == Take(t.ledger, Conns(t)).1;
  }

  lemma ReceiveGet(id: int, key: string, db: Db, t: Site)
    requires GetOk(id, key, db, t)
    ensures GetOk(id, key, db, Receive(t)) && Receive(t).alive == t.alive
  {
    var p := Prepare(id, Get(key));
    if t.early != [] {
      SettlesTake(t.ledger, t.early, db);
    } else if t.past != [] {
      TakeOnly(Conns(t), p);
      TakeFirst(t.ledger, t.past, Listed(t.cur));
    } else if t.cur.Some? && t.cur.value != [] {
      TakeOnly(Conns(t), p);
    }
  }

  lemma ReceiveDone(db: Db, t: Site)
    requires t.cur.None? && Settles(t.ledger, t.early + t.past, db)
    ensures Receive(t).cur.None? && Settles(Receive(t).ledger, Receive(t).early + Receive(t).past, db)
    ensures Receive(t).alive == t.alive
  {
    var cs := t.early + t.past;
    if cs != [] { SettlesTake(t.ledger, cs, db); }
    if t.early != [] {
      TakeFirst(t.ledger, t.early, t.past);
    } else if t.past != [] {
      assert cs == t.past;
      assert [] + Receive(t).past == Receive(t).past;
    }
  }

  /** Whatever the stage, a valid participant that reads on stays as it should be, and does not shut down. */
  lemma ReceiveOk(st: Stage, db: Db, connected: bool, answered: bool, t: Site)
    requires SiteOk(st, db, connected, answered, t)
    requires st.Preparing? ==> !st.cmd.Get?
    ensures SiteOk(st, db, connected, answered, Receive(t)) && Receive(t).alive == t.alive
  {
    match st
    case Idle => ReceiveIdle(db, t);
    case Preparing(id, cmd) => ReceivePrepare(id, cmd, db, answered, t);
    case Deciding(id, cmd, commit, before) =>
      if connected { ReceiveDecide(id, cmd, commit, before, t); } else { ReceiveDone(db, t); }
    case Getting(id, key, _) => ReceiveGet(id, key, db, t);
  }

  // ----- the connections change ------------------------------------------------------------

  lemma OnlyPlus(a: seq<seq<Request>>, b: seq<seq<Request>>, m: Request)
    requires Only(a, m) && Only(b, m)
    ensures Only(a + b, m)
  {
    forall k | 0 <= k < |a + b| ensures OnlyOne((a + b)[k], m) {
      if k < |a| { assert (a + b)[k] == a[k]; } else { assert (a + b)[k] == b[k - |a|]; }
    }
  }

  lemma OnlyParts(a: seq<seq<Request>>, b: seq<seq<Request>>, m: Request)
    requires Only(a + b, m)
    ensures Only(a, m) && Only(b, m)
  {
    forall k | 0 <= k < |a| ensures OnlyOne(a[k], m) { assert (a + b)[k] == a[k]; }
    forall k | 0 <= k < |b| ensures OnlyOne(b[k], m) { assert (a + b)[|a| + k] == b[k]; }
  }

  /** The current connection is cut short or continued with m. */
  lemma OnlyLast(t: Site, c: seq<Request>, m: Request)
    requires Only(Conns(t), m) && t.cur.Some? && (c <= t.cur.value || c == t.cur.value + [m])
    ensures Only(t.past + [c], m)
  {
    OnlyParts(t.past, [t.cur.value], m);
    assert OnlyOne([t.cur.value][0], m);
    assert OnlyOne(c, m);
    OnlyPlus(t.past, [c], m);
  }

  lemma OrderedLastOf(t: Site, p: Request, d: Request)
    requires Ordered(Conns(t), p, d) && t.cur.Some?
    ensures OrderedOne(t.cur.value, p, d)
  {
    OrderedParts(t.past, t.cur.value, p, d);
  }

  lemma {:induction false} OrderedParts(a: seq<seq<Request>>, c: seq<Request>, p: Request, d: Request)
    requires Ordered(a + [c], p, d)
    ensures OrderedOne(c, p, d)
  {
    if a != [] {
      assert (a + [c])[0] == a[0] && (a + [c])[1..] == a[1..] + [c];
      if d in a[0] {
        assert (a[1..] + [c])[|a| - 1] == c;
        assert OnlyOne(c, d);
      } else {
        OrderedParts(a[1..], c, p, d);
      }
    }
  }

  lemma BreakOk(st: Stage, db: Db, connected: bool, answered: bool, t: Site, k: nat, r: nat)
    requires SiteOk(st, db, connected, answered, t)
    requires r <= |t.replies| && (t.cur.Some? ==> k <= |t.cur.value|)
    ensures SiteOk(st, db, connected, answered, Break(t, k, r))
  {
    var u := Break(t, k, r);
    assert t.cur.None? ==> u.past == t.past;
    match st
    case Idle =>
    case Preparing(id, cmd) =>
      if t.cur.Some? { OnlyLast(t, t.cur.value[..k], Prepare(id, cmd)); }
      assert Conns(u) == u.past;
    case Deciding(id, cmd, commit, before) =>
      assert Conns(u) == u.past;
      var p, d := Prepare(id, cmd), Decision(commit, id);
      if connected && t.cur.Some? {
        if t.ledger.Pending? {
          OrderedLastOf(t, p, d);
          OrderedLast(t.past, t.cur.value, t.cur.value[..k], p, d);
        } else {
          OnlyLast(t, t.cur.value[..k], d);
        }
      }
    case Getting(id, key, _) =>
      if t.cur.Some? { OnlyLast(t, t.cur.value[..k], Prepare(id, Get(key))); }
      assert Conns(u) == u.past;
  }

  lemma SendOk(st: Stage, db: Db, answered: bool, t: Site)
    requires !st.Idle? && SiteOk(st, db, true, answered, t)
    ensures SiteOk(st, db, true, answered, Send(t, Pushed(st)))
  {
    var m := Pushed(st);
    if t.cur.Some? {
      var c := t.cur.value + [m];
      assert Conns(Send(t, m)) == t.past + [c];
      if st.Deciding? && t.ledger.Pending? {
        var p := Prepare(st.id, st.cmd);
        OrderedLastOf(t, p, m);
        assert c[|t.cur.value|..] == [m];
        OrderedLast(t.past, t.cur.value, c, p, m);
      } else {
        OnlyLast(t, c, m);
      }
    }
  }

  lemma DialOk(st: Stage, db: Db, answered: bool, t: Site)
    requires !st.Idle? && SiteOk(st, db, true, answered, t) && t.replies == []
    ensures SiteOk(st, db, true, answered, Dial(t, Pushed(st)))
  {
    var m := Pushed(st);
    var u := Dial(t, m);
    assert Conns(u) == Conns(t) + [[m]];
    assert Only([[m]], m);
    if st.Deciding? && t.ledger.Pending? {
      OrderedMore(Conns(t), [m], Prepare(st.id, st.cmd), m);
    } else {
      OnlyPlus(Conns(t), [[m]], m);
    }
  }

  // ----- the whole system -----------------------------------------------------------------

  ghost predicate SiteInv(s: Sys, i: int)
    requires Shape(s) && Index(s, i)
  {
    SiteOk(s.stage, s.committed, s.w.connected[i], s.w.response[i] != -1, s.sites[i])
  }

  ghost predicate StageOk(s: Sys) {
    match s.stage
    case Idle => true
    case Preparing(_, cmd) => !cmd.Get?
    case Deciding(id, cmd, commit, before) =>
      && !cmd.Get? && s.committed == Decided(commit, cmd, before) && s.w.alive == |C.Open(s.w.valid)|
      && (s.w.first.Some? ==> DecideReply(id, cmd, commit, before, s.w.first.value))
    case Getting(id, key, _) => s.w.first.Some? ==> s.w.first.value == Done(id, GET, Lookup(s.committed, key))
  }

  ghost predicate Inv(s: Sys) {
    && Shape(s) && StageOk(s)
    && (!s.stage.Idle? ==> C.Balanced(WaitPhase(s.stage), s.w, N(s)))
    && forall i | Index(s, i) && s.w.valid[i] :: SiteInv(s, i)
  }

  /** Participant i is prepared, and the decision is not on its way to it any more. */
  ghost predicate DecisionLost(s: Sys, i: int)
    requires s.stage.Deciding? && Index(s, i)
  {
    s.sites[i].ledger.Pending? && !Has(Conns(s.sites[i]), Pushed(s.stage))
  }

  /** No reply is counted as DONE whose sender has lost the decision. */
  ghost predicate Safe(s: Sys, a: Label) {
    Enabled(s, a) && (a.ReadReply? && s.stage.Deciding? ==> !DecisionLost(s, a.i))
  }

  lemma InitialInv(n: nat)
    ensures Inv(Initial(n))
  {
    var s := Initial(n);
    forall i | Index(s, i) ensures SiteInv(s, i) {
      assert Drain(s.sites[i].ledger, []) == Some(s.sites[i].ledger);
    }
  }

  /** Participants move on their own: a read, a break, a crash. */
  lemma MoveKeeps(s: Sys, a: Label)
    requires Inv(s) && Enabled(s, a) && (a.Deliver? || a.Lose? || a.Crash?)
    ensures Inv(Next(s, a))
    ensures a.Deliver? && s.w.valid[a.i] ==> Next(s, a).sites[a.i].alive
  {
    hide SiteOk, Receive, Break, C.Balanced;
    var u := Next(s, a);
    if s.w.valid[a.i] {
      assert SiteInv(s, a.i);
      var t := s.sites[a.i];
      if a.Deliver? {
        ReceiveOk(s.stage, s.committed, s.w.connected[a.i], s.w.response[a.i] != -1, t);
      } else {
        BreakOk(s.stage, s.committed, s.w.connected[a.i], s.w.response[a.i] != -1, t, a.k, a.r);
        if a.Crash? { AliveIrrelevant(s.stage, s.committed, s.w.connected[a.i], s.w.response[a.i] != -1, Break(t, a.k, a.r)); }
      }
    }
    forall i | Index(u, i) && u.w.valid[i] ensures SiteInv(u, i) {
      assert SiteInv(s, i);
    }
  }

  lemma AliveIrrelevant(st: Stage, db: Db, connected: bool, answered: bool, t: Site)
    requires SiteOk(st, db, connected, answered, t)
    ensures SiteOk(st, db, connected, answered, t.(alive := false))
  {
    assert Conns(t.(alive := false)) == Conns(t);
  }

  lemma BeginKeeps(s: Sys, a: Label)
    requires Inv(s) && Enabled(s, a) && a.Begin?
    ensures Inv(Next(s, a))
  {
    hide SiteOk, Dial;
    var u := Next(s, a);
    if a.reached != {} {
      assert C.Connected(u.w) == a.reached by {
        forall i | i in a.reached ensures 0 <= i < N(s) { assert Reachable(s, i); }
      }
      forall i | Index(u, i) && u.w.valid[i] ensures SiteInv(u, i) {
        assert Reachable(s, i) && SiteInv(s, i);
        BeginOk(s.committed, s.w.connected[i], s.w.response[i] != -1, s.sites[i], a.id, a.cmd);
      }
    } else {
      assert forall i | Index(u, i) :: !u.w.valid[i];
    }
  }

  /** A participant at rest is asked to prepare. */
  lemma BeginOk(db: Db, connected: bool, answered: bool, t: Site, id: int, cmd: Command)
    requires SiteOk(Idle, db, connected, answered, t)
    ensures SiteOk(Preparing(id, cmd), db, true, false, Dial(t, Prepare(id, cmd)))
  {
    hide Settles;
    var u := Dial(t, Prepare(id, cmd));
    assert Conns(u) == [[Prepare(id, cmd)]];
  }

  lemma TimeoutKeeps(s: Sys)
    requires Inv(s) && Enabled(s, Timeout)
    ensures Inv(Next(s, Timeout))
  {
    hide SiteOk, Send, HangUp, C.Balanced;
    var u := Next(s, Timeout);
    C.EventBalanced(WaitPhase(s.stage), s.w, C.TimedOut, N(s));
    C.WatchedConnected(WaitPhase(s.stage), s.w, N(s));
    C.ConnectedValid(WaitPhase(s.stage), s.w, N(s));
    forall i | Index(u, i) && u.w.valid[i] ensures SiteInv(u, i) {
      assert SiteInv(s, i);
      if i in s.w.watched && s.w.timeout != 3 {
        SendOk(s.stage, s.committed, s.w.response[i] != -1, s.sites[i]);
      }
    }
    if s.w.timeout == 3 { CutOffValid(s.w, s.w.watched, N(s)); }
  }

  lemma CutOffValid(w: C.Wait, cut: set<int>, n: nat)
    requires C.Sized(w, n) && cut <= w.watched && w.watched <= C.Connected(w)
    requires forall i | 0 <= i < n && w.connected[i] :: w.valid[i]
    ensures C.Open(C.CutOff(w, cut).valid) == C.Open(w.valid) - cut
    ensures |C.Open(C.CutOff(w, cut).valid)| == |C.Open(w.valid)| - |cut|
  {
    assert cut <= C.Open(w.valid);
    assert |C.Open(w.valid) - cut| == |C.Open(w.valid)| - |cut|;
  }

  lemma ReadLossKeeps(s: Sys, i: int, again: bool)
    requires Inv(s) && Enabled(s, ReadLoss(i, again))
    ensures Inv(Next(s, ReadLoss(i, again)))
  {
    hide SiteOk, StageOk, C.Balanced, Dial, HangUp, Pushed;
    var u := Next(s, ReadLoss(i, again));
    C.EventBalanced(WaitPhase(s.stage), s.w, C.Read(i, C.Lost(again)), N(s));
    C.WatchedConnected(WaitPhase(s.stage), s.w, N(s));
    ReadLossStage(s, i, again);
    forall j | Index(u, j) && u.w.valid[j] ensures SiteInv(u, j) {
      C.ConnectedValid(WaitPhase(s.stage), s.w, N(s));
      assert SiteInv(s, j);
      if j == i { DialOk(s.stage, s.committed, s.w.response[i] != -1, s.sites[i]); }
    }
  }

  lemma ReadLossStage(s: Sys, i: int, again: bool)
    requires Inv(s) && Enabled(s, ReadLoss(i, again))
    ensures StageOk(Next(s, ReadLoss(i, again)))
  {
    hide SiteOk, C.Balanced;
    C.WatchedConnected(WaitPhase(s.stage), s.w, N(s));
    C.ConnectedValid(WaitPhase(s.stage), s.w, N(s));
    if !again { CutOffValid(s.w.(timeout := 0), {i}, N(s)); }
  }

  /** A counted reply: in the second phase its sender is left to itself. */
  lemma FinishedSite(st: Stage, db: Db, t: Site)
    requires st.Deciding? && db == Decided(st.commit, st.cmd, st.before)
    requires DecideOk(st.id, st.cmd, st.commit, st.before, t)
    ensures var u := HangUp(t);
            (t.ledger.Pending? && !Has(Conns(t), Pushed(st))) <==> !Settles(u.ledger, u.early + u.past, db)
  {
    var u := HangUp(t);
    assert u.early + u.past == Conns(t);
    if t.ledger.Quiet? {
      QuietOnly(t.ledger, Conns(t), Pushed(st));
    } else if Has(Conns(t), Pushed(st)) {
      PendingSettles(t.ledger, Conns(t), st.commit);
    } else {
      PendingStays(t.ledger, Conns(t), st.commit);
    }
  }

  lemma ReadReplyStage(s: Sys, i: int, clear: bool)
    requires Inv(s) && Enabled(s, ReadReply(i, clear))
    ensures StageOk(Next(s, ReadReply(i, clear)))
  {
    hide Settles, Only, Ordered;
    C.WatchedConnected(WaitPhase(s.stage), s.w, N(s));
    assert SiteInv(s, i);
  }

  lemma ReadReplyKeeps(s: Sys, i: int, clear: bool)
    requires Inv(s) && Safe(s, ReadReply(i, clear))
    ensures Inv(Next(s, ReadReply(i, clear)))
  {
    hide SiteOk, C.Balanced, StageOk;
    var u := Next(s, ReadReply(i, clear));
    var m := if clear then Some(s.sites[i].replies[0]) else None;
    C.EventBalanced(WaitPhase(s.stage), s.w, C.Read(i, C.Got(m)), N(s));
    C.WatchedConnected(WaitPhase(s.stage), s.w, N(s));
    C.ConnectedValid(WaitPhase(s.stage), s.w, N(s));
    ReadReplyStage(s, i, clear);
    assert SiteInv(s, i);
    forall j | Index(u, j) && u.w.valid[j] && j != i ensures SiteInv(u, j) {
      assert SiteInv(s, j);
    }
    if u.w.valid[i] { ReadReplySite(s, i, clear); }
  }

  /** The participant whose reply was read. */
  lemma ReadReplySite(s: Sys, i: int, clear: bool)
    requires Inv(s) && Safe(s, ReadReply(i, clear)) && Shape(Next(s, ReadReply(i, clear))) && SiteInv(s, i)
    requires Next(s, ReadReply(i, clear)).w.valid[i]
    ensures SiteInv(Next(s, ReadReply(i, clear)), i)
  {
    hide SiteOk, C.Balanced, HangUp;
    C.WatchedConnected(WaitPhase(s.stage), s.w, N(s));
    CountedOk(s.stage, s.committed, s.w.response[i] != -1, s.sites[i]);
  }

  lemma CountedOk(st: Stage, db: Db, answered: bool, t: Site)
    requires !st.Idle? && SiteOk(st, db, true, answered, t) && t.replies != []
    requires st.Deciding? ==> db == Decided(st.commit, st.cmd, st.before) && !(t.ledger.Pending? && !Has(Conns(t), Pushed(st)))
    ensures var u := t.(replies := t.replies[1..]);
            if st.Preparing? then SiteOk(st, db, true, true, u) else forall a :: SiteOk(st, db, false, a, HangUp(u))
  {
    var u := t.(replies := t.replies[1..]);
    assert Conns(u) == Conns(t);
    if st.Deciding? { FinishedSite(st, db, u); }
    if st.Getting? { assert Conns(HangUp(u)) == Conns(u); }
  }

  lemma DecideKeeps(s: Sys)
    requires Inv(s) && Enabled(s, Decide)
    ensures Inv(Next(s, Decide))
  {
    if s.w.count == 0 { GiveUpKeeps(s); } else { TellKeeps(s); }
  }

  /** Nobody answered the prepare request: nobody is valid any more. */
  lemma GiveUpKeeps(s: Sys)
    requires Inv(s) && Enabled(s, Decide) && s.w.count == 0
    ensures Inv(Next(s, Decide))
  {
    C.NoneLeft(s.w.watched);
    forall i | Index(s, i) && s.w.valid[i] ensures i in C.Connected(s.w) { assert SiteInv(s, i); }
    C.NoneLeft(C.Connected(s.w));
  }

  lemma TellKeeps(s: Sys)
    requires Inv(s) && Enabled(s, Decide) && s.w.count != 0
    ensures Inv(Next(s, Decide))
  {
    hide PrepareOk, DecideOk;
    var u := Next(s, Decide);
    C.NoneLeft(s.w.watched);
    assert C.Connected(s.w) == C.Open(s.w.connected) == C.Connected(u.w);
    assert C.Open(s.w.valid) == C.Open(s.w.connected) by {
      forall i | i in C.Open(s.w.valid) ensures i in C.Open(s.w.connected) { assert SiteInv(s, i); }
    }
    forall i | Index(u, i) && u.w.valid[i] ensures SiteInv(u, i) {
      assert SiteInv(s, i) && i in C.Open(s.w.connected);
      ToldOk(s.stage.id, s.stage.cmd, s.committed, u.stage.commit, s.sites[i]);
    }
  }

  /** A participant that has answered the prepare request is ready for either decision. */
  lemma ToldOk(id: int, cmd: Command, db: Db, commit: bool, t: Site)
    requires PrepareOk(id, cmd, db, true, t)
    ensures DecideOk(id, cmd, commit, db, Send(t, Decision(commit, id)))
  {
    var p, d := Prepare(id, cmd), Decision(commit, id);
    OnlyOrdered(Conns(t), p, d);
    if t.cur.Some? {
      var c := t.cur.value + [d];
      assert c[|t.cur.value|..] == [d];
      OnlyParts(t.past, [t.cur.value], p);
      assert OnlyOne([t.cur.value][0], p);
      OrderedLast(t.past, t.cur.value, c, p, d);
    }
  }

  lemma FinishKeeps(s: Sys)
    requires Inv(s) && Enabled(s, Finish)
    ensures Inv(Next(s, Finish))
  {
    var u := Next(s, Finish);
    C.NoneLeft(s.w.watched);
    forall i | Index(u, i) && u.w.valid[i] ensures SiteInv(u, i) {
      assert SiteInv(s, i);
      assert i in C.Connected(s.w) <==> s.w.connected[i];
      var t := s.sites[i];
      assert Retire(t).early == t.early + t.past;
      if s.stage.Getting? {
        assert Conns(t) == t.past;
        SettlesMore(t.ledger, t.early, t.past, s.committed);
        QuietOnly(Drain(t.ledger, t.early).value, t.past, Prepare(s.stage.id, Get(s.stage.key)));
      }
    }
  }

  lemma BeginGetKeeps(s: Sys, a: Label)
    requires Inv(s) && Enabled(s, a) && a.BeginGet?
    ensures Inv(Next(s, a))
  {
    hide Settles;
    var u := Next(s, a);
    assert C.Connected(u.w) == {};
    forall i | Index(u, i) && u.w.valid[i] ensures SiteInv(u, i) { assert SiteInv(s, i); }
  }

  lemma DialGetKeeps(s: Sys, ok: bool)
    requires Inv(s) && Enabled(s, DialGet(ok))
    ensures Inv(Next(s, DialGet(ok)))
  {
    hide SiteOk;
    var u, k := Next(s, DialGet(ok)), s.stage.next;
    C.NoneLeft(s.w.watched);
    forall i | Index(s, i) ensures !s.w.connected[i] { assert i in C.Connected(s.w) <==> s.w.connected[i]; }
    if s.w.valid[k] && ok { assert C.Connected(u.w) == {k}; }
    if s.w.valid[k] && !ok { assert C.Connected(u.w) == C.Connected(s.w); }
    forall i | Index(u, i) && u.w.valid[i] ensures SiteInv(u, i) {
      assert SiteInv(s, i);
      GetDialOk(s.stage, u.stage, s.committed, s.w.response[i] != -1, s.sites[i]);
    }
  }

  /** A participant left alone, or asked now: the same holds while the coordinator goes on to the next one. */
  lemma GetDialOk(st: Stage, su: Stage, db: Db, answered: bool, t: Site)
    requires st.Getting? && su.Getting? && su == st.(next := su.next) && SiteOk(st, db, false, answered, t)
    ensures forall a :: SiteOk(su, db, false, a, t) && SiteOk(su, db, true, a, Dial(t, Pushed(su)))
  {
    hide Settles;
    var d := Dial(t, Pushed(su));
    assert Conns(d) == Conns(t) + [[Pushed(su)]];
    OnlyPlus(Conns(t), [[Pushed(su)]], Pushed(su));
  }

  /** Every step keeps the invariant, as long as no lost decision is counted as followed. */
  lemma NextKeeps(s: Sys, a: Label)
    requires Inv(s) && Safe(s, a)
    ensures Inv(Next(s, a))
  {
    match a
    case Begin(_, _, _) => BeginKeeps(s, a);
    case Timeout => TimeoutKeeps(s);
    case ReadReply(i, clear) => ReadReplyKeeps(s, i, clear);
    case ReadLoss(i, again) => ReadLossKeeps(s, i, again);
    case Decide => DecideKeeps(s);
    case Finish => FinishKeeps(s);
    case BeginGet(_, _) => BeginGetKeeps(s, a);
    case DialGet(ok) => DialGetKeeps(s, ok);
    case Deliver(_) => MoveKeeps(s, a);
    case Lose(_, _, _) => MoveKeeps(s, a);
    case Crash(_, _, _) => MoveKeeps(s, a);
  }

  // ----- the coordinator's part in it ---------------------------------------------------------

  /** The event of a wait loop that a step is. */
  function EventOf(s: Sys, a: Label): Option<C.Event> {
    match a
    case Timeout => Some(C.TimedOut)
    case ReadReply(i, clear) =>
      if Index(s, i) && s.sites[i].replies != [] then Some(C.Read(i, C.Got(if clear then Some(s.sites[i].replies[0]) else None)))
      else None
    case ReadLoss(i, again) => Some(C.Read(i, C.Lost(again)))
    case _ => None
  }

  /**
    The waits of the system are those of the coordinator's loops: a timeout, a
    read or a loss is one of their events, and what participants and network do
    leaves the wait as it is.
   */
  lemma StepIsEvent(s: Sys, a: Label)
    requires Inv(s) && Enabled(s, a) && !s.stage.Idle?
    ensures EventOf(s, a).Some? ==>
              && C.Enabled(s.w, N(s), EventOf(s, a).value) && C.Sized(s.w, N(s))
              && Next(s, a).w == C.OnEvent(WaitPhase(s.stage), s.w, EventOf(s, a).value) && Next(s, a).stage == s.stage
    ensures a.Deliver? || a.Lose? || a.Crash? ==> Next(s, a).w == s.w && Next(s, a).stage == s.stage
  {
  }

  /** COMMIT is decided if and only if every participant still connected has answered PREPARED, and there is one. */
  lemma DecideExactly(s: Sys)
    requires Inv(s) && Enabled(s, Decide)
    ensures var u := Next(s, Decide);
            && (u.stage.Deciding? && u.stage.commit <==>
                  && (exists i :: Index(s, i) && s.w.connected[i])
                  && forall i | Index(s, i) && s.w.connected[i] :: s.w.response[i] == 1)
            && (u.stage.Deciding? && u.stage.commit ==> u.committed == Apply(s.stage.cmd, s.committed))
            && (!(u.stage.Deciding? && u.stage.commit) ==> u.committed == s.committed)
  {
    hide SiteInv;
    C.NoneLeft(s.w.watched);
    if s.w.count == 0 {
      C.NoneLeft(C.Connected(s.w));
      assert forall i | Index(s, i) && s.w.connected[i] :: i in C.Connected(s.w);
    } else {
      assert C.Connected(s.w) != {};
      var i :| i in C.Connected(s.w);
      assert Index(s, i) && s.w.connected[i];
      Answered(s.w, N(s));
    }
  }

  lemma Answered(w: C.Wait, n: nat)
    requires C.Balanced(C.Preparing, w, n) && w.watched == {}
    ensures |w.connected| == |w.response| == n
    ensures 0 !in w.response <==> forall i | 0 <= i < n && w.connected[i] :: w.response[i] == 1
  {
    if 0 !in w.response {
      forall i | 0 <= i < n && w.connected[i] ensures w.response[i] == 1 { assert w.response[i] in w.response; }
    } else {
      var i :| 0 <= i < n && w.response[i] == 0;
      assert w.connected[i];
    }
  }

  /** At a timeout the request is sent once more to everybody waited for; at the fourth in a row they are left, and not valid. */
  lemma TimeoutResends(s: Sys, i: int)
    requires Inv(s) && Enabled(s, Timeout) && i in s.w.watched
    ensures var u := Next(s, Timeout);
            && Index(s, i) && |u.w.valid| == |u.sites| == N(s)
            && (u.w.valid[i] ==> u.sites[i] == Send(s.sites[i], Pushed(s.stage)) && i in u.w.watched)
            && (!u.w.valid[i] ==> u.sites[i] == HangUp(s.sites[i]) && u.w.watched == {})
  {
    C.WatchedConnected(WaitPhase(s.stage), s.w, N(s));
    C.ConnectedValid(WaitPhase(s.stage), s.w, N(s));
  }

  // ----- whole runs -----------------------------------------------------------------------

  /** Where a list of steps leads, if each may happen when it does. */
  ghost function Steps(s: Sys, run: seq<Label>): Option<Sys>
    decreases |run|
  {
    if run == [] then Some(s)
    else if Enabled(s, run[0]) then Steps(Next(s, run[0]), run[1..])
    else None
  }

  ghost predicate SafeRun(s: Sys, run: seq<Label>)
    decreases |run|
  {
    run != [] ==> Safe(s, run[0]) && SafeRun(Next(s, run[0]), run[1..])
  }

  lemma {:induction false} RunKeeps(s: Sys, run: seq<Label>)
    requires Inv(s) && SafeRun(s, run)
    ensures Steps(s, run).Some? && Inv(Steps(s, run).value)
    decreases |run|
  {
    if run != [] {
      NextKeeps(s, run[0]);
      RunKeeps(Next(s, run[0]), run[1..]);
    }
  }

  /** Everything sent to participant i has been read. */
  predicate HasRead(s: Sys, i: int)
    requires Index(s, i)
  {
    s.sites[i].early == [] && s.sites[i].past == [] && s.sites[i].cur.None?
  }

  /**
    Agreement. In every safe run, whatever is resent, lost, reconnected or
    crashed on the way: between transactions a participant still marked valid
    that has read what was sent to it is quiet, and holds the committed map.
   */
  lemma Agreement(n: nat, run: seq<Label>, i: int)
    requires SafeRun(Initial(n), run) && Steps(Initial(n), run).Some?
    requires var s := Steps(Initial(n), run).value;
             s.stage.Idle? && Index(s, i) && Shape(s) && s.w.valid[i] && HasRead(s, i)
    ensures var s := Steps(Initial(n), run).value;
            s.sites[i].ledger.Quiet? && s.sites[i].ledger.committed == s.committed
  {
    InitialInv(n);
    RunKeeps(Initial(n), run);
    assert SiteInv(Steps(Initial(n), run).value, i);
  }

  // ----- what the committed map is ------------------------------------------------------------

  /** The commands decided COMMIT in a run, in order. */
  ghost function CommittedIn(s: Sys, run: seq<Label>): seq<Command>
    decreases |run|
  {
    if run == [] || !Enabled(s, run[0]) then []
    else
      (if run[0].Decide? && s.w.count != 0 && 0 !in s.w.response then [s.stage.cmd] else [])
      + CommittedIn(Next(s, run[0]), run[1..])
  }

  /** The committed map is what the commands decided COMMIT make of the map there was, in their order. */
  lemma {:induction false} CommittedIsFold(s: Sys, run: seq<Label>)
    requires Steps(s, run).Some?
    ensures Steps(s, run).value.committed == ApplyAll(CommittedIn(s, run), s.committed)
    decreases |run|
  {
    if run != [] {
      CommittedIsFold(Next(s, run[0]), run[1..]);
      var rest := CommittedIn(Next(s, run[0]), run[1..]);
      if run[0].Decide? && s.w.count != 0 && 0 !in s.w.response {
        assert ([s.stage.cmd] + rest)[1..] == rest;
      } else {
        assert [] + rest == rest;
      }
    }
  }

  // ----- exclusion is for good ----------------------------------------------------------------

  lemma NextExcludes(s: Sys, a: Label, i: int)
    requires Enabled(s, a) && Index(s, i)
    ensures Shape(Next(s, a)) && Index(Next(s, a), i)
    ensures Next(s, a).w.valid[i] ==> s.w.valid[i]
  {
    if a.Begin? && i in a.reached { assert Reachable(s, i); }
  }

  /** Who stops being valid in a step: who is not reached, and who is given up in a wait. */
  lemma ValidExactly(s: Sys, a: Label, i: int)
    requires Inv(s) && Enabled(s, a) && Index(s, i)
    ensures Shape(Next(s, a)) && Index(Next(s, a), i)
    ensures Next(s, a).w.valid[i] <==>
            match a
            case Begin(_, _, reached) => i in reached
            case Timeout => s.w.valid[i] && !(i in s.w.watched && s.w.timeout == 3)
            case ReadLoss(j, again) => s.w.valid[i] && !(i == j && !again)
            case DialGet(ok) => s.w.valid[i] && !(i == s.stage.next && !ok)
            case _ => s.w.valid[i]
  {
    hide SiteInv, StageOk, C.Balanced, Send, HangUp, Dial, Receive, Break, Apply;
    if !s.stage.Idle? { C.WatchedConnected(WaitPhase(s.stage), s.w, N(s)); }
  }

  /** A participant that was not reached, or did not answer, is never valid again. */
  lemma {:induction false} NeverBack(s: Sys, run: seq<Label>, i: int)
    requires Shape(s) && Index(s, i) && Steps(s, run).Some?
    ensures var u := Steps(s, run).value; Shape(u) && Index(u, i) && (u.w.valid[i] ==> s.w.valid[i])
    decreases |run|
  {
    if run != [] {
      NextExcludes(s, run[0], i);
      NeverBack(Next(s, run[0]), run[1..], i);
    }
  }

  // ----- what the client is told ---------------------------------------------------------------

  /** What the client is told when a transaction is over. */
  function Tells(s: Sys): ClientReply {
    match s.stage
    case Deciding(_, cmd, commit, _) =>
      if !commit || s.w.count == 0 then ErrorReply else if cmd.Set? then OkReply else PassedOn(s.w.first)
    case Getting(_, _, _) => if s.w.count == 0 then ErrorReply else PassedOn(s.w.first)
    case _ => ErrorReply
  }

  /** What a store that is just one map tells. */
  function MapTells(cmd: Command, db: Db): ClientReply {
    match cmd
    case Set(_, _) => OkReply
    case Get(k) => Words(if k in db then db[k] else "nil")
    case Del(ks) => Number(ToString(|set k | k in ks && k in db|))
  }

  lemma CountIsOfPresent(ks: seq<string>, db: Db)
    ensures (set k | k in ks && k in db) == Keys(ks) * db.Keys
  {
  }

  /** The first reply counted tells the value or the count: it is no PREPARED, and not empty. */
  predicate Telling(s: Sys) {
    s.w.first.Some? && !s.w.first.value.Prepared? && s.w.first.value.extra != ""
  }

  /**
    The client is told an error after a SET or DEL if and only if it was decided
    ABORT, nobody was left to follow it, or it is a DEL and the first reply
    counted does not tell the count; after a GET if and only if nobody answered
    or the first reply does not tell a value. Otherwise the client is told what
    one map with the committed values would tell.
   */
  ghost predicate Truthful(s: Sys) {
    match s.stage
    case Deciding(_, cmd, commit, before) =>
      && (Tells(s) == ErrorReply <==> !commit || s.w.count == 0 || (cmd.Del? && !Telling(s)))
      && (Tells(s) != ErrorReply ==> Tells(s) == MapTells(cmd, before) && s.committed == Apply(cmd, before))
    case Getting(_, key, _) =>
      && (Tells(s) == ErrorReply <==> s.w.count == 0 || !Telling(s))
      && (Tells(s) != ErrorReply ==> Tells(s) == MapTells(Get(key), s.committed))
    case _ => true
  }

  lemma ToldExactly(s: Sys)
    requires Inv(s) && Enabled(s, Finish)
    ensures Truthful(s)
  {
    if s.stage.Deciding? && s.stage.cmd.Del? { CountIsOfPresent(s.stage.cmd.keys, s.stage.before); }
  }

  /**
    A decided COMMIT that somebody followed is told as one map would tell it, if
    and only if it is a SET or the first reply counted is no PREPARED (and was
    parsed); else the client is told an error, although the command is committed.
   */
  lemma CommitToldExactly(s: Sys)
    requires Inv(s) && Enabled(s, Finish) && s.stage.Deciding? && s.stage.commit && s.w.count > 0
    ensures Tells(s) == MapTells(s.stage.cmd, s.stage.before) <==>
            s.stage.cmd.Set? || (s.w.first.Some? && !s.w.first.value.Prepared?)
    ensures Tells(s) != MapTells(s.stage.cmd, s.stage.before) ==> Tells(s) == ErrorReply
    ensures s.committed == Apply(s.stage.cmd, s.stage.before)
  {
    if s.stage.cmd.Del? { CountIsOfPresent(s.stage.cmd.keys, s.stage.before); }
  }

  /** When the count of followers is 0 nobody is valid any more. */
  lemma NobodyLeft(s: Sys)
    requires Inv(s) && Enabled(s, Finish) && s.stage.Deciding? && s.w.count == 0
    ensures forall i | Index(s, i) :: !s.w.valid[i]
  {
    C.NoneLeft(s.w.watched);
    C.NoneLeft(C.Open(s.w.valid));
    forall i | Index(s, i) ensures !s.w.valid[i] { assert i in C.Open(s.w.valid) <==> s.w.valid[i]; }
  }

  /**
    A GET that somebody answered with a reply that could be parsed: an absent key
    is told "nil", any other its value, if and only if the value is not empty;
    that is what one map would tell.
   */
  lemma GetToldExactly(s: Sys)
    requires Inv(s) && Enabled(s, Finish) && s.stage.Getting? && s.w.count > 0 && s.w.first.Some?
    ensures s.stage.key !in s.committed ==> Tells(s) == Words("nil")
    ensures s.stage.key in s.committed ==>
              Tells(s) == if s.committed[s.stage.key] == "" then ErrorReply else Words(s.committed[s.stage.key])
    ensures Tells(s) == MapTells(Get(s.stage.key), s.committed) <==>
            !(s.stage.key in s.committed && s.committed[s.stage.key] == "")
  {
  }

  /** In every safe run these are the replies. */
  lemma ToldIsTrue(n: nat, run: seq<Label>)
    requires SafeRun(Initial(n), run) && Steps(Initial(n), run).Some?
    requires Enabled(Steps(Initial(n), run).value, Finish)
    ensures Inv(Steps(Initial(n), run).value) && Truthful(Steps(Initial(n), run).value)
  {
    InitialInv(n);
    RunKeeps(Initial(n), run);
    ToldExactly(Steps(Initial(n), run).value);
  }

  /** While a GET is served: of the participants asked so far only the last can still be valid, if it is waited for or has answered. */
  ghost predicate Tried(s: Sys) {
    s.stage.Getting? ==>
      && Shape(s) && s.stage.next <= N(s)
      && forall j | 0 <= j < s.stage.next && s.w.valid[j] :: j == s.stage.next - 1 && (j in s.w.watched || s.w.count > 0)
  }

  lemma TriedNext(s: Sys, a: Label)
    requires Inv(s) && Tried(s) && Enabled(s, a) && Shape(Next(s, a))
    ensures Tried(Next(s, a))
  {
    hide SiteInv, StageOk;
    if s.stage.Getting? { C.NoneLeft(s.w.watched); }
  }

  lemma {:induction false} TriedRun(s: Sys, run: seq<Label>)
    requires Inv(s) && Tried(s) && SafeRun(s, run)
    ensures Steps(s, run).Some? && Tried(Steps(s, run).value)
    decreases |run|
  {
    if run != [] {
      hide Tried, Next;
      NextKeeps(s, run[0]);
      TriedNext(s, run[0]);
      TriedRun(Next(s, run[0]), run[1..]);
    }
  }

  /** A GET, or a transaction that came to a decision, ends without an answer only when nobody is valid any more. */
  lemma UnansweredMeansNobody(n: nat, run: seq<Label>)
    requires SafeRun(Initial(n), run) && Steps(Initial(n), run).Some?
    requires Enabled(Steps(Initial(n), run).value, Finish) && Steps(Initial(n), run).value.w.count == 0
    ensures var s := Steps(Initial(n), run).value; forall i | Index(s, i) :: !s.w.valid[i]
  {
    InitialInv(n);
    RunKeeps(Initial(n), run);
    TriedRun(Initial(n), run);
    var s := Steps(Initial(n), run).value;
    if s.stage.Deciding? { NobodyLeft(s); } else { C.NoneLeft(s.w.watched); }
  }

  /** When OK is replied some participant is valid, and every valid one follows the decision once it has read on. */
  lemma OkIsKept(s: Sys)
    requires Inv(s) && Enabled(s, Finish) && s.stage.Deciding? && s.stage.commit && s.w.count > 0
    ensures s.committed == Apply(s.stage.cmd, s.stage.before)
    ensures exists i :: Index(s, i) && s.w.valid[i]
    ensures forall i | Index(s, i) && s.w.valid[i] ::
              Settles(s.sites[i].ledger, s.sites[i].early + s.sites[i].past, s.committed)
  {
    C.NoneLeft(s.w.watched);
    assert C.Open(s.w.valid) != {};
    var k :| k in C.Open(s.w.valid);
    assert Index(s, k) && s.w.valid[k];
    forall i | Index(s, i) && s.w.valid[i]
      ensures Settles(s.sites[i].ledger, s.sites[i].early + s.sites[i].past, s.committed)
    {
      assert SiteInv(s, i);
      assert i in C.Connected(s.w) <==> s.w.connected[i];
    }
  }

  // ----- the one way agreement fails -------------------------------------------------------------

  /**
    Counting a reply in the second phase keeps the invariant if and only if the
    decision is not lost for its sender: if it is, the sender stays prepared
    although it counts as done and stays valid.
   */
  lemma CountingExact(s: Sys, i: int, clear: bool)
    requires Inv(s) && s.stage.Deciding? && Enabled(s, ReadReply(i, clear))
    ensures Inv(Next(s, ReadReply(i, clear))) <==> !DecisionLost(s, i)
    ensures DecisionLost(s, i) ==>
              var u := Next(s, ReadReply(i, clear));
              && Shape(u) && u.w.valid[i]
              && Drain(u.sites[i].ledger, u.sites[i].early + u.sites[i].past) == Some(s.sites[i].ledger)
  {
    if !DecisionLost(s, i) {
      ReadReplyKeeps(s, i, clear);
    } else {
      hide SiteOk, HangUp;
      var u := Next(s, ReadReply(i, clear));
      C.WatchedConnected(WaitPhase(s.stage), s.w, N(s));
      assert SiteInv(s, i);
      LostStays(s.stage, s.committed, s.w.response[i] != -1, s.sites[i]);
      assert !SiteInv(u, i);
    }
  }

  lemma LostStays(st: Stage, db: Db, answered: bool, t: Site)
    requires st.Deciding? && db == Decided(st.commit, st.cmd, st.before) && SiteOk(st, db, true, answered, t) && t.replies != []
    requires t.ledger.Pending? && !Has(Conns(t), Pushed(st))
    ensures var u := HangUp(t.(replies := t.replies[1..]));
            && Drain(u.ledger, u.early + u.past) == Some(t.ledger) && forall a :: !SiteOk(st, db, false, a, u)
  {
    var u := t.(replies := t.replies[1..]);
    assert Conns(u) == Conns(t);
    FinishedSite(st, db, u);
    PendingStays(t.ledger, Conns(t), st.commit);
    assert HangUp(u).early + HangUp(u).past == Conns(t);
  }

  /** A decision can be lost only when the connection broke; and the reply then counted is a repeated PREPARED. */
  lemma LostMeansStale(s: Sys, i: int)
    requires Inv(s) && s.stage.Deciding? && Index(s, i) && s.w.connected[i] && DecisionLost(s, i)
    ensures s.sites[i].broken && s.sites[i].cur.None?
    ensures forall k | 0 <= k < |s.sites[i].replies| :: s.sites[i].replies[k].Prepared?
  {
    assert SiteInv(s, i);
    var t, d := s.sites[i], Pushed(s.stage);
    CurrentListed(t);
  }

  lemma CurrentListed(t: Site)
    ensures t.cur.Some? ==> t.cur.value in Conns(t)
  {
    if t.cur.Some? { assert Conns(t)[|t.past|] == t.cur.value; }
  }

  // ----- runs that count only DONE --------------------------------------------------------------

  /** A reply counted in the second phase is a DONE: what a look at the message kind would make sure of. */
  ghost predicate CountsDone(s: Sys, a: Label) {
    Enabled(s, a) && (a.ReadReply? && s.stage.Deciding? ==> s.sites[a.i].replies[0].Done?)
  }

  ghost predicate DoneRun(s: Sys, run: seq<Label>)
    decreases |run|
  {
    run != [] ==> CountsDone(s, run[0]) && DoneRun(Next(s, run[0]), run[1..])
  }

  /** Whose DONE is read has not lost the decision. */
  lemma DoneIsSafe(s: Sys, a: Label)
    requires Inv(s) && CountsDone(s, a)
    ensures Safe(s, a)
  {
    if a.ReadReply? && s.stage.Deciding? {
      C.WatchedConnected(WaitPhase(s.stage), s.w, N(s));
      if DecisionLost(s, a.i) { LostMeansStale(s, a.i); }
    }
  }

  lemma {:induction false} DoneRunIsSafe(s: Sys, run: seq<Label>)
    requires Inv(s) && DoneRun(s, run)
    ensures SafeRun(s, run)
    decreases |run|
  {
    if run != [] {
      DoneIsSafe(s, run[0]);
      NextKeeps(s, run[0]);
      DoneRunIsSafe(Next(s, run[0]), run[1..]);
    }
  }

  /** The first reply counted in the second phase, if it was parsed, is a DONE. */
  ghost predicate FirstDone(s: Sys) {
    s.stage.Deciding? && s.w.first.Some? ==> s.w.first.value.Done?
  }

  lemma NextFirstDone(s: Sys, a: Label)
    requires FirstDone(s) && CountsDone(s, a)
    ensures FirstDone(Next(s, a))
  {
  }

  lemma {:induction false} DoneRunFirst(s: Sys, run: seq<Label>)
    requires FirstDone(s) && DoneRun(s, run)
    ensures Steps(s, run).Some? && FirstDone(Steps(s, run).value)
    decreases |run|
  {
    if run != [] {
      hide FirstDone, Next;
      NextFirstDone(s, run[0]);
      DoneRunFirst(Next(s, run[0]), run[1..]);
    }
  }

  /**
    Agreement, and true replies, in every run in which each reply counted in the
    second phase is a DONE. A command that is decided COMMIT and followed is
    then told as one map would tell it, unless it is a DEL and the first reply
    counted could not be parsed.
   */
  lemma AgreementIfDone(n: nat, run: seq<Label>)
    requires DoneRun(Initial(n), run)
    ensures Steps(Initial(n), run).Some?
    ensures var s := Steps(Initial(n), run).value;
            && Shape(s)
            && (forall i | s.stage.Idle? && Index(s, i) && s.w.valid[i] && HasRead(s, i) ::
                  s.sites[i].ledger.Quiet? && s.sites[i].ledger.committed == s.committed)
            && (Enabled(s, Finish) ==> Truthful(s))
            && (Enabled(s, Finish) && s.stage.Deciding? && s.stage.commit && s.w.count > 0 ==>
                  (Tells(s) == MapTells(s.stage.cmd, s.stage.before) <==> s.stage.cmd.Set? || s.w.first.Some?))
  {
    hide Tells, MapTells, Truthful, Enabled, Next;
    InitialInv(n);
    DoneRunIsSafe(Initial(n), run);
    RunKeeps(Initial(n), run);
    DoneRunFirst(Initial(n), run);
    var s := Steps(Initial(n), run).value;
    forall i | s.stage.Idle? && Index(s, i) && s.w.valid[i] && HasRead(s, i)
      ensures s.sites[i].ledger.Quiet? && s.sites[i].ledger.committed == s.committed
    {
      Agreement(n, run, i);
    }
    if Enabled(s, Finish) {
      ToldIsTrue(n, run);
      if s.stage.Deciding? && s.stage.commit && s.w.count > 0 { CommitToldExactly(s); }
    }
  }

  // ----- two runs with one participant ---------------------------------------------------------

  /** A prepare request is sent twice and answered twice; the first answer decides. */
  function Resent(cmd: Command): seq<Label> {
    [Begin(1, cmd, {0}), Timeout, Deliver(0), Deliver(0), ReadReply(0, true), Decide]
  }

  /** Then the connection breaks under the decision, and the second answer is counted as the end. */
  function LosingRun(cmd: Command): seq<Label> {
    Resent(cmd) + [Lose(0, 0, 1), ReadReply(0, true), Finish, Deliver(0)]
  }

  /** Or nothing breaks, and the second answer is counted before the participant gets to the decision. */
  function StaleRun(cmd: Command): seq<Label> {
    Resent(cmd) + [ReadReply(0, true)]
  }

  /** A state with one participant: its ledger, its connections, and the wait. */
  function Single(l: Ledger, past: seq<seq<Request>>, cur: Option<seq<Request>>, replies: seq<Reply>, broken: bool,
                  on: bool, watched: set<int>, count: int, timeout: int, response: int, first: Option<Reply>, st: Stage, db: Db): Sys {
    Sys([Site(l, true, [], past, cur, replies, broken)], C.Wait([on], watched, [true], 1, count, timeout, [response], first), st, db)
  }

  lemma OneSite(s: Sys, u: Sys)
    requires |s.sites| == |u.sites| == 1 && s.sites[0] == u.sites[0] && s.stage == u.stage && s.committed == u.committed
    requires |s.w.connected| == |u.w.connected| == |s.w.valid| == |u.w.valid| == |s.w.response| == |u.w.response| == 1
    requires s.w.connected[0] == u.w.connected[0] && s.w.valid[0] == u.w.valid[0] && s.w.response[0] == u.w.response[0]
    requires s.w.watched == u.w.watched && s.w.alive == u.w.alive && s.w.count == u.w.count
    requires s.w.timeout == u.w.timeout && s.w.first == u.w.first
    ensures s == u
  {
  }

  /** One step of a run, and the rest. */
  lemma StepsOn(s: Sys, a: Label, run: seq<Label>)
    requires Enabled(s, a)
    ensures Steps(s, [a] + run) == Steps(Next(s, a), run)
    ensures SafeRun(s, [a] + run) <==> Safe(s, a) && SafeRun(Next(s, a), run)
  {
    assert ([a] + run)[1..] == run;
  }

  function Asks(cmd: Command): Request { Prepare(1, cmd) }
  function Says(cmd: Command): Reply { Prepared(1, cmd.Verb()) }
  function Ready(cmd: Command): Ledger { Pending(1, map[], cmd) }
  function Asked(cmd: Command): Stage { Preparing(1, cmd) }
  function Told(cmd: Command): Stage { Deciding(1, cmd, true, map[]) }
  function Kept(cmd: Command): Db { Apply(cmd, map[]) }

  function S1(cmd: Command): Sys {
    Single(Quiet(-1, map[], None), [], Some([Asks(cmd)]), [], false, true, {0}, 0, 0, -1, None, Asked(cmd), map[])
  }
  function S2(cmd: Command): Sys {
    Single(Quiet(-1, map[], None), [], Some([Asks(cmd), Asks(cmd)]), [], false, true, {0}, 0, 1, -1, None, Asked(cmd), map[])
  }
  function S3(cmd: Command): Sys {
    Single(Ready(cmd), [], Some([Asks(cmd)]), [Says(cmd)], false, true, {0}, 0, 1, -1, None, Asked(cmd), map[])
  }
  function S4(cmd: Command): Sys {
    Single(Ready(cmd), [], Some([]), [Says(cmd), Says(cmd)], false, true, {0}, 0, 1, -1, None, Asked(cmd), map[])
  }
  function S5(cmd: Command): Sys {
    Single(Ready(cmd), [], Some([]), [Says(cmd)], false, true, {}, 1, 0, 1, None, Asked(cmd), map[])
  }
  function S6(cmd: Command): Sys {
    Single(Ready(cmd), [], Some([Commit(1)]), [Says(cmd)], false, true, {0}, 0, 0, -1, None, Told(cmd), Kept(cmd))
  }

  /** Connect, send, time out, send again. */
  lemma ResentSends(cmd: Command)
    requires !cmd.Get? && cmd.Proper()
    ensures Enabled(Initial(1), Begin(1, cmd, {0})) && Next(Initial(1), Begin(1, cmd, {0})) == S1(cmd)
    ensures Enabled(S1(cmd), Timeout) && Next(S1(cmd), Timeout) == S2(cmd)
  {
    var s, a := Initial(1), Begin(1, cmd, {0});
    assert Reachable(s, 0);
    assert Listed(None) == [] && [] + Listed(None) == [];
    OneSite(Next(s, a), S1(cmd));
    assert [Asks(cmd)] + [Asks(cmd)] == [Asks(cmd), Asks(cmd)];
    OneSite(Next(S1(cmd), Timeout), S2(cmd));
  }

  /** Both requests are read and answered. */
  lemma ResentReads(cmd: Command)
    requires !cmd.Get? && cmd.Proper()
    ensures Enabled(S2(cmd), Deliver(0)) && Next(S2(cmd), Deliver(0)) == S3(cmd)
    ensures Enabled(S3(cmd), Deliver(0)) && Next(S3(cmd), Deliver(0)) == S4(cmd)
  {
    assert [Asks(cmd), Asks(cmd)][1..] == [Asks(cmd)] && [Asks(cmd)][1..] == [];
    OneSite(Next(S2(cmd), Deliver(0)), S3(cmd));
    assert [Says(cmd)] + [Says(cmd)] == [Says(cmd), Says(cmd)];
    OneSite(Next(S3(cmd), Deliver(0)), S4(cmd));
  }

  /** One answer is read and settles the vote; the decision is sent. */
  lemma ResentDecides(cmd: Command)
    requires !cmd.Get? && cmd.Proper()
    ensures Enabled(S4(cmd), ReadReply(0, true)) && Next(S4(cmd), ReadReply(0, true)) == S5(cmd)
    ensures Enabled(S5(cmd), Decide) && Next(S5(cmd), Decide) == S6(cmd)
  {
    assert [Says(cmd), Says(cmd)][1..] == [Says(cmd)];
    OneSite(Next(S4(cmd), ReadReply(0, true)), S5(cmd));
    assert C.Open([true]) == {0} && 0 !in S5(cmd).w.response;
    assert [] + [Commit(1)] == [Commit(1)];
    OneSite(Next(S5(cmd), Decide), S6(cmd));
  }

  lemma ResentRun(cmd: Command, rest: seq<Label>)
    requires !cmd.Get? && cmd.Proper()
    ensures Steps(Initial(1), Resent(cmd) + rest) == Steps(S6(cmd), rest)
    ensures SafeRun(Initial(1), Resent(cmd) + rest) <==> SafeRun(S6(cmd), rest)
  {
    ResentSends(cmd);
    ResentReads(cmd);
    ResentDecides(cmd);
    ResentChain(cmd, rest);
  }

  lemma ResentChain(cmd: Command, rest: seq<Label>)
    requires Safe(Initial(1), Begin(1, cmd, {0})) && Next(Initial(1), Begin(1, cmd, {0})) == S1(cmd)
    requires Safe(S1(cmd), Timeout) && Next(S1(cmd), Timeout) == S2(cmd)
    requires Safe(S2(cmd), Deliver(0)) && Next(S2(cmd), Deliver(0)) == S3(cmd)
    requires Safe(S3(cmd), Deliver(0)) && Next(S3(cmd), Deliver(0)) == S4(cmd)
    requires Safe(S4(cmd), ReadReply(0, true)) && Next(S4(cmd), ReadReply(0, true)) == S5(cmd)
    requires Safe(S5(cmd), Decide) && Next(S5(cmd), Decide) == S6(cmd)
    ensures Steps(Initial(1), Resent(cmd) + rest) == Steps(S6(cmd), rest)
    ensures SafeRun(Initial(1), Resent(cmd) + rest) <==> SafeRun(S6(cmd), rest)
  {
    hide Next, Initial, S1, S2, S3, S4, S5, S6;
    var r5 := [Decide] + rest;
    var r4 := [ReadReply(0, true)] + r5;
    var r3 := [Deliver(0)] + r4;
    var r2 := [Deliver(0)] + r3;
    var r1 := [Timeout] + r2;
    assert Resent(cmd) + rest == [Begin(1, cmd, {0})] + r1;
    StepsOn(S5(cmd), Decide, rest);
    StepsOn(S4(cmd), ReadReply(0, true), r5);
    StepsOn(S3(cmd), Deliver(0), r4);
    StepsOn(S2(cmd), Deliver(0), r3);
    StepsOn(S1(cmd), Timeout, r2);
    StepsOn(Initial(1), Begin(1, cmd, {0}), r1);
  }

  function Lost7(cmd: Command): Sys {
    Single(Ready(cmd), [[]], None, [Says(cmd)], true, true, {0}, 0, 0, -1, None, Told(cmd), Kept(cmd))
  }
  function Lost8(cmd: Command): Sys {
    Single(Ready(cmd), [[]], None, [], true, false, {}, 1, 0, -1, Some(Says(cmd)), Told(cmd), Kept(cmd))
  }
  function Lost9(cmd: Command): Sys { Lost10(cmd).(sites := [Lost10(cmd).sites[0].(early := [[]])]) }
  function Lost10(cmd: Command): Sys {
    Single(Ready(cmd), [], None, [], true, false, {}, 1, 0, -1, Some(Says(cmd)), Idle, Kept(cmd))
  }

  /** The decision is lost; the other answer is counted. */
  lemma LosingCounts(cmd: Command)
    ensures Enabled(S6(cmd), Lose(0, 0, 1)) && Next(S6(cmd), Lose(0, 0, 1)) == Lost7(cmd)
    ensures Enabled(Lost7(cmd), ReadReply(0, true)) && Next(Lost7(cmd), ReadReply(0, true)) == Lost8(cmd)
  {
    hide S6;
    LosingBreaks(cmd);
    var one: seq<seq<Request>> := [[]];
    assert [Says(cmd)][1..] == [] && one + Listed(None) == one;
    OneSite(Next(Lost7(cmd), ReadReply(0, true)), Lost8(cmd));
  }

  lemma LosingBreaks(cmd: Command)
    ensures Enabled(S6(cmd), Lose(0, 0, 1)) && Next(S6(cmd), Lose(0, 0, 1)) == Lost7(cmd)
  {
    var none: seq<seq<Request>>, one: seq<seq<Request>> := [], [[]];
    assert [Commit(1)][..0] == [] && [Says(cmd)][..1] == [Says(cmd)] && none + one == one;
    OneSite(Next(S6(cmd), Lose(0, 0, 1)), Lost7(cmd));
  }

  lemma LosingEnds(cmd: Command)
    ensures Enabled(Lost8(cmd), Finish) && Next(Lost8(cmd), Finish) == Lost9(cmd)
    ensures Enabled(Lost9(cmd), Deliver(0)) && Next(Lost9(cmd), Deliver(0)) == Lost10(cmd)
  {
    var none: seq<seq<Request>>, one: seq<seq<Request>> := [], [[]];
    assert none + one + Listed(None) == one;
    OneSite(Next(Lost8(cmd), Finish), Lost9(cmd));
    assert one[1..] == none;
    OneSite(Next(Lost9(cmd), Deliver(0)), Lost10(cmd));
  }

  lemma LosingChain(cmd: Command)
    requires Enabled(S6(cmd), Lose(0, 0, 1)) && Next(S6(cmd), Lose(0, 0, 1)) == Lost7(cmd)
    requires Enabled(Lost7(cmd), ReadReply(0, true)) && Next(Lost7(cmd), ReadReply(0, true)) == Lost8(cmd)
    requires Enabled(Lost8(cmd), Finish) && Next(Lost8(cmd), Finish) == Lost9(cmd)
    requires Enabled(Lost9(cmd), Deliver(0)) && Next(Lost9(cmd), Deliver(0)) == Lost10(cmd)
    ensures Steps(S6(cmd), [Lose(0, 0, 1), ReadReply(0, true), Finish, Deliver(0)]) == Some(Lost10(cmd))
  {
    hide Enabled, Next, S6, Lost7, Lost8, Lost9, Lost10;
    var r3: seq<Label> := [Deliver(0)] + [];
    var r2 := [Finish] + r3;
    var r1 := [ReadReply(0, true)] + r2;
    assert [Lose(0, 0, 1), ReadReply(0, true), Finish, Deliver(0)] == [Lose(0, 0, 1)] + r1;
    StepsOn(Lost9(cmd), Deliver(0), []);
    StepsOn(Lost8(cmd), Finish, r3);
    StepsOn(Lost7(cmd), ReadReply(0, true), r2);
    StepsOn(S6(cmd), Lose(0, 0, 1), r1);
  }

  /**
    Agreement is false of runs that are not safe, for every SET. When this run
    is over the client has been told OK, the participant is valid and has read
    everything sent to it, and its map lacks the committed value: it is still
    prepared.
   */
  lemma LosingRunDisagrees(k: string, v: string)
    ensures var u := Lost10(Set(k, v));
            && Steps(Initial(1), LosingRun(Set(k, v))) == Some(u) && Tells(Lost8(Set(k, v))) == OkReply
            && u.stage.Idle? && u.w.valid[0] && HasRead(u, 0) && u.sites[0].alive
            && u.sites[0].ledger == Pending(1, map[], Set(k, v)) && u.committed == map[k := v]
    ensures !SafeRun(Initial(1), LosingRun(Set(k, v)))
  {
    var cmd := Set(k, v);
    LosingCounts(cmd);
    LosingEnds(cmd);
    LosingChain(cmd);
    ResentRun(cmd, [Lose(0, 0, 1), ReadReply(0, true), Finish, Deliver(0)]);
    if SafeRun(Initial(1), LosingRun(cmd)) { Agreement(1, LosingRun(cmd), 0); }
  }

  function Stale7(cmd: Command): Sys {
    Single(Ready(cmd), [[Commit(1)]], None, [], false, false, {}, 1, 0, -1, Some(Says(cmd)), Told(cmd), Kept(cmd))
  }

  lemma StaleCounts(cmd: Command)
    ensures Safe(S6(cmd), ReadReply(0, true)) && Next(S6(cmd), ReadReply(0, true)) == Stale7(cmd)
  {
    assert [Says(cmd)][1..] == [] && [] + Listed(Some([Commit(1)])) == [[Commit(1)]];
    OneSite(Next(S6(cmd), ReadReply(0, true)), Stale7(cmd));
    assert Conns(S6(cmd).sites[0]) == [[Commit(1)]] && Commit(1) in [Commit(1)];
    assert Has(Conns(S6(cmd).sites[0]), Commit(1));
  }

  /**
    A safe run after which a DEL is committed, and the client is told an error:
    the reply counted first is the repeated PREPARED.
   */
  lemma StaleDelIsError(ks: seq<string>)
    requires ks != []
    ensures var u := Stale7(Del(ks));
            && Steps(Initial(1), StaleRun(Del(ks))) == Some(u) && SafeRun(Initial(1), StaleRun(Del(ks)))
            && Enabled(u, Finish) && u.stage.commit && u.committed == Apply(Del(ks), u.stage.before)
            && Tells(u) == ErrorReply && MapTells(Del(ks), u.stage.before) == Number("0")
  {
    var cmd := Del(ks);
    StaleCounts(cmd);
    StepsOn(S6(cmd), ReadReply(0, true), []);
    assert [ReadReply(0, true)] + [] == [ReadReply(0, true)];
    ResentRun(cmd, [ReadReply(0, true)]);
    var none: Db := map[];
    assert (set k | k in ks && k in none) == {};
  }
}
