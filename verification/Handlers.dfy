/** How the coordinator serves one client: connect, two waits, and the reply. */
module Handlers {
  import opened KvMessages
  import C = Coordinator
  import opened TwoPhaseCommit

  /** Whether one of the three attempts to connect to participant i succeeds. */
  predicate Dials(connect: (int, int) -> bool, i: int) {
    connect(i, 0) || connect(i, 1) || connect(i, 2)
  }

  lemma DialsThrice(connect: (int, int) -> bool, i: int)
    ensures Dials(connect, i) <==> exists a :: 0 <= a < 3 && connect(i, a)
  {
  }

  /** Up to three attempts. */
  method TryConnect(i: int, connect: (int, int) -> bool) returns (ok: bool)
    ensures ok <==> Dials(connect, i)
  {
    var connectCount := 0;
    while connectCount < 3
      invariant 0 <= connectCount <= 3 && forall a | 0 <= a < connectCount :: !connect(i, a)
    {
      if connect(i, connectCount) { return true; }
      connectCount := connectCount + 1;
    }
    return false;
  }

  /** Connect to every valid participant; who cannot be reached is not valid any more. */
  method ConnectAllParticipants(c: C.Coordinator, sockets: array<bool>, connect: (int, int) -> bool) returns (count: int)
    requires sockets.Length == c.valid.Length == c.participantCount && sockets != c.valid
    requires forall i | 0 <= i < sockets.Length :: !sockets[i]
    modifies sockets, c.valid
    ensures forall i | 0 <= i < sockets.Length :: sockets[i] == c.valid[i] == (old(c.valid[i]) && Dials(connect, i))
    ensures count == |C.Open(sockets[..])|
  {
    count := 0;
    ghost var open: set<int> := {};
    var i := 0;
    while i < c.participantCount
      invariant 0 <= i <= c.participantCount && count == |open|
      invariant forall k | 0 <= k < i :: sockets[k] == c.valid[k] == (old(c.valid[k]) && Dials(connect, k))
      invariant forall k | i <= k < c.participantCount :: !sockets[k] && c.valid[k] == old(c.valid[k])
      invariant forall k :: k in open <==> 0 <= k < i && sockets[k]
    {
      if c.valid[i] {
        var ok := TryConnect(i, connect);
        if ok {
          sockets[i] := true;
          count := count + 1;
          open := open + {i};
        } else {
          c.valid[i] := false;
        }
      }
      i := i + 1;
    }
    assert open == C.Open(sockets[..]);
  }

  /** Connect to participant i; if that fails it is not valid any more. */
  method ConnectParticipant(c: C.Coordinator, i: int, connect: (int, int) -> bool) returns (ok: bool)
    requires c.valid.Length == c.participantCount && 0 <= i < c.participantCount
    modifies c.valid
    ensures ok <==> old(c.valid[i]) && Dials(connect, i)
    ensures c.valid[..] == old(c.valid[..])[i := ok]
  {
    if !c.valid[i] { return false; }
    ok := TryConnect(i, connect);
    if !ok { c.valid[i] := false; }
  }

  /** Who is connected when all valid participants were tried. */
  ghost function Reached(valid: seq<bool>, connect: (int, int) -> bool): set<int> {
    set i | 0 <= i < |valid| && valid[i] && Dials(connect, i)
  }

  /** The valid flags that say exactly who is in the set. */
  function Flags(n: nat, who: set<int>): seq<bool> { seq(n, i => i in who) }

  /** How the two waits of a transaction ended, after how many calls of select, and whether select failed. */
  datatype Course = Course(asking: C.Wait, asks: nat, askFailed: bool, telling: C.Wait, tells: nat, tellFailed: bool) {
    /** 1: all PREPARED, the decision is COMMIT; 0: ABORT; -1: nobody is left, or select failed. */
    function Vote(): int {
      if askFailed || asking.count == 0 then -1 else if 0 in asking.response then 0 else 1
    }

    function Confirmed(): bool { Vote() != -1 && !tellFailed && telling.count > 0 }

    /** The events of the first wait, and of the second. */
    ghost function Heard(n: nat, reached: set<int>, ask: (nat, set<int>) -> C.Select): seq<C.Event> {
      C.Heard(C.Preparing, C.WaitFor(Flags(n, reached), reached), ask, n, asks)
    }

    ghost function HeardOf(n: nat, tell: (nat, set<int>) -> C.Select): seq<C.Event> {
      C.Heard(C.Deciding, C.WaitFor(asking.valid, C.Open(asking.connected)), tell, n, tells)
    }

    /**
      The course that the reports of the two selects lead to, when the
      participants in `reached` are connected: the first wait starts with them
      and the second with those still connected after it.
     */
    ghost predicate Follows(n: nat, reached: set<int>, ask: (nat, set<int>) -> C.Select, tell: (nat, set<int>) -> C.Select) {
      && C.Ends(C.Preparing, C.WaitFor(Flags(n, reached), reached), ask, n, asks, asking, askFailed)
      && (Vote() != -1 ==>
            C.Ends(C.Deciding, C.WaitFor(asking.valid, C.Open(asking.connected)), tell, n, tells, telling, tellFailed))
      && (Vote() == -1 ==> telling == asking && tells == 0 && !tellFailed)
    }
  }

  /** There is one such course. */
  lemma CourseOnce(n: nat, reached: set<int>, ask: (nat, set<int>) -> C.Select, tell: (nat, set<int>) -> C.Select, k: Course, l: Course)
    requires k.Follows(n, reached, ask, tell) && l.Follows(n, reached, ask, tell)
    ensures k == l
  {
    var a := C.WaitFor(Flags(n, reached), reached);
    C.EndsOnce(C.Preparing, a, ask, n, k.asks, k.asking, k.askFailed, l.asks, l.asking, l.askFailed);
    if k.Vote() != -1 {
      var b := C.WaitFor(k.asking.valid, C.Open(k.asking.connected));
      C.EndsOnce(C.Deciding, b, tell, n, k.tells, k.telling, k.tellFailed, l.tells, l.telling, l.tellFailed);
    }
  }

  /**
    What the reply of a transaction rests on, in what is read. The vote is for
    COMMIT if and only if somebody answered and nothing but PREPARED was read,
    for ABORT if and only if somebody answered and something else was; then
    everybody connected has answered. It is confirmed if and only if somebody
    answered the decision, and the first answer, if it was parsed, is kept.
   */
  lemma CourseMeans(n: nat, reached: set<int>, ask: (nat, set<int>) -> C.Select, tell: (nat, set<int>) -> C.Select, k: Course)
    requires k.Follows(n, reached, ask, tell) && forall i | i in reached :: 0 <= i < n
    ensures var es, ts := k.Heard(n, reached, ask), k.HeardOf(n, tell);
            && (k.Vote() == 1 <==> !k.askFailed && C.Replies(es) != [] && AllPrepared(C.Replies(es)))
            && (k.Vote() == 0 <==> !k.askFailed && C.Replies(es) != [] && !AllPrepared(C.Replies(es)))
            && (k.Vote() == 1 ==> CommitVoted(es, k.asking, n))
            && (k.Confirmed() <==> k.Vote() != -1 && !k.tellFailed && C.Replies(ts) != [])
            && (k.Vote() != -1 ==> k.telling.first == if C.Replies(ts) == [] then None else C.Replies(ts)[0])
  {
    hide Course.Heard, Course.HeardOf, C.Ends, C.Replies;
    AskMeans(n, reached, ask, tell, k);
    if k.Vote() != -1 { TellMeans(n, reached, ask, tell, k); }
  }

  predicate AllPrepared(ms: seq<Option<Reply>>) { forall m | m in ms :: C.IsPrepared(m) }

  lemma AskMeans(n: nat, reached: set<int>, ask: (nat, set<int>) -> C.Select, tell: (nat, set<int>) -> C.Select, k: Course)
    requires k.Follows(n, reached, ask, tell) && forall i | i in reached :: 0 <= i < n
    ensures var es := k.Heard(n, reached, ask);
            && k.asking.count == |C.Replies(es)|
            && (k.Vote() == 1 <==> !k.askFailed && C.Replies(es) != [] && AllPrepared(C.Replies(es)))
            && (k.Vote() == 1 ==> CommitVoted(es, k.asking, n))
  {
    hide C.Heard, C.ReadFrom, C.Replies;
    var a := C.WaitFor(Flags(n, reached), reached);
    C.StartWait(C.Preparing, Flags(n, reached), reached, ask);
    var es := k.Heard(n, reached, ask);
    C.RepliesCounted(C.Preparing, a, es, k.asking, n);
    if !k.askFailed && k.asking.count > 0 { C.CommitVote(a, es, k.asking, n); }
  }

  lemma TellMeans(n: nat, reached: set<int>, ask: (nat, set<int>) -> C.Select, tell: (nat, set<int>) -> C.Select, k: Course)
    requires k.Follows(n, reached, ask, tell) && k.Vote() != -1 && forall i | i in reached :: 0 <= i < n
    ensures var ts := k.HeardOf(n, tell);
            && k.telling.count == |C.Replies(ts)|
            && k.telling.first == if C.Replies(ts) == [] then None else C.Replies(ts)[0]
  {
    hide C.Heard, C.Replies;
    Asked(n, reached, ask, tell, k);
    C.StartWait(C.Deciding, k.asking.valid, C.Open(k.asking.connected), tell);
    C.RepliesCounted(C.Deciding, C.WaitFor(k.asking.valid, C.Open(k.asking.connected)), k.HeardOf(n, tell), k.telling, n);
  }

  /** After the first wait: who is connected is valid, and if select did not fail the other way around. */
  lemma Asked(n: nat, reached: set<int>, ask: (nat, set<int>) -> C.Select, tell: (nat, set<int>) -> C.Select, k: Course)
    requires k.Follows(n, reached, ask, tell) && forall i | i in reached :: 0 <= i < n
    ensures |k.asking.connected| == |k.asking.valid| == n
    ensures forall i | 0 <= i < n :: k.asking.connected[i] <==> k.asking.valid[i]
  {
    hide C.Heard, C.Answers;
    var a := C.WaitFor(Flags(n, reached), reached);
    C.StartWait(C.Preparing, Flags(n, reached), reached, ask);
    C.WaitInvariant(C.Preparing, a, k.Heard(n, reached, ask), k.asking, n);
  }

  /**
    Who is valid after a transaction, in what is read: those reached whom
    neither wait has given up, by a connection lost for good or by four timeouts
    in a row before they answered.
   */
  lemma CourseValid(n: nat, reached: set<int>, ask: (nat, set<int>) -> C.Select, tell: (nat, set<int>) -> C.Select, k: Course)
    requires k.Follows(n, reached, ask, tell) && forall i | i in reached :: 0 <= i < n
    ensures |k.asking.valid| == |k.telling.valid| == n
    ensures forall i | 0 <= i < n :: k.asking.valid[i] <==> i in reached && !C.GivenUp(k.Heard(n, reached, ask), i)
    ensures k.Vote() != -1 ==>
              forall i | 0 <= i < n :: k.telling.valid[i] <==> k.asking.valid[i] && !C.GivenUp(k.HeardOf(n, tell), i)
  {
    hide C.Heard, C.GivenUp, C.RepliedIn, C.FourTimeouts;
    var a := C.WaitFor(Flags(n, reached), reached);
    C.StartWait(C.Preparing, Flags(n, reached), reached, ask);
    Asked(n, reached, ask, tell, k);
    forall i | 0 <= i < n
      ensures |k.asking.valid| == n && (k.asking.valid[i] <==> i in reached && !C.GivenUp(k.Heard(n, reached, ask), i))
    {
      C.WaitDescribed(C.Preparing, a, k.Heard(n, reached, ask), k.asking, n, i);
    }
    if k.Vote() != -1 { TellValid(n, reached, ask, tell, k); }
  }

  lemma TellValid(n: nat, reached: set<int>, ask: (nat, set<int>) -> C.Select, tell: (nat, set<int>) -> C.Select, k: Course)
    requires k.Follows(n, reached, ask, tell) && k.Vote() != -1 && forall i | i in reached :: 0 <= i < n
    ensures |k.asking.valid| == |k.telling.valid| == n
    ensures forall i | 0 <= i < n :: k.telling.valid[i] <==> k.asking.valid[i] && !C.GivenUp(k.HeardOf(n, tell), i)
  {
    hide C.Heard, C.GivenUp, C.RepliedIn, C.FourTimeouts;
    Asked(n, reached, ask, tell, k);
    C.StartWait(C.Deciding, k.asking.valid, C.Open(k.asking.connected), tell);
    var d := C.WaitFor(k.asking.valid, C.Open(k.asking.connected));
    TellLength(n, d, tell, k);
    forall i | 0 <= i < n ensures k.telling.valid[i] <==> k.asking.valid[i] && !C.GivenUp(k.HeardOf(n, tell), i) {
      C.WaitDescribed(C.Deciding, d, k.HeardOf(n, tell), k.telling, n, i);
    }
  }

  lemma TellLength(n: nat, d: C.Wait, tell: (nat, set<int>) -> C.Select, k: Course)
    requires C.Balanced(C.Deciding, d, n) && C.Leads(C.Deciding, d, k.HeardOf(n, tell), k.telling, n)
    ensures |k.telling.valid| == n
  {
    C.WaitInvariant(C.Deciding, d, k.HeardOf(n, tell), k.telling, n);
  }

  /** Somebody is connected, and PREPARED was read from every participant connected, and it is valid. */
  ghost predicate CommitVoted(es: seq<C.Event>, b: C.Wait, n: nat) {
    && |b.connected| == |b.valid| == n
    && (exists i :: 0 <= i < n && b.connected[i])
    && forall i | 0 <= i < n && b.connected[i] :: b.valid[i] && C.ReadFrom(es, i, true)
  }

  lemma OpenConnected(b: C.Wait)
    ensures C.Open(b.connected) == C.Connected(b)
  {
  }

  /**
    The two phases of a SET or a DEL; -1 for a wait that was not reached. With
    nobody reached there is no wait; else k is the course that the reports of
    the two selects lead to.
   */
  method Transact(c: C.Coordinator, connect: (int, int) -> bool,
                  ask: (nat, set<int>) -> C.Select, tell: (nat, set<int>) -> C.Select, ghost horizon: nat)
    returns (vote: int, done: int, first: Option<Reply>, ghost k: Course)
    requires c.valid.Length == c.participantCount && C.Reports(ask, horizon) && C.Reports(tell, horizon)
    modifies c.valid
    ensures var reached := Reached(old(c.valid[..]), connect);
            if reached == {} then
              vote == done == -1 && first == None && c.valid[..] == Flags(c.participantCount, {})
            else
              && k.Follows(c.participantCount, reached, ask, tell)
              && vote == k.Vote() && done == (if k.Confirmed() then 1 else -1)
              && (vote != -1 ==> first == k.telling.first) && c.valid[..] == k.telling.valid
  {
    hide C.Ends, C.Balanced, C.Excludes;
    vote, done, first := -1, -1, None;
    var none := C.Wait([], {}, [], 0, 0, 0, [], None);
    k := Course(none, 0, false, none, 0, false);
    var sockets := new bool[c.participantCount](_ => false);
    ghost var reached := Reached(c.valid[..], connect);
    var alive := ConnectAllParticipants(c, sockets, connect);
    assert C.Open(sockets[..]) == reached;
    assert c.valid[..] == Flags(c.participantCount, reached);
    if alive == 0 { C.NoneLeft(reached); return; }
    ghost var calls, b, failed;
    vote, alive, calls, b, failed := c.WaitForPrepared(sockets, alive, ask, horizon);
    k := Course(b, calls, failed, b, 0, false);
    if vote == -1 { return; }
    OpenConnected(b);
    WaitSockets(b, c.participantCount);
    ghost var calls2, b2, failed2;
    done, alive, first, calls2, b2, failed2 := c.WaitForCommitOrAbort(sockets, alive, tell, horizon);
    CountedSome(b2, c.participantCount);
    k := k.(telling := b2, tells := calls2, tellFailed := failed2);
  }

  lemma CountedSome(b: C.Wait, n: nat)
    requires C.Balanced(C.Deciding, b, n)
    ensures b.count >= 0
  {
  }

  lemma WaitSockets(b: C.Wait, n: nat)
    requires C.Balanced(C.Preparing, b, n)
    ensures b.alive == |C.Connected(b)| && |b.connected| == |b.valid| == n && forall i | 0 <= i < n && b.connected[i] :: b.valid[i]
  {
  }

  /**
    What a client is told of a transaction: an error when nobody was reached,
    the vote was not COMMIT or nobody confirmed it, else `told` of the first reply.
   */
  ghost predicate Replied(n: nat, reached: set<int>, ask: (nat, set<int>) -> C.Select, tell: (nat, set<int>) -> C.Select,
                          reply: ClientReply, told: Option<Reply> -> ClientReply, k: Course)
  {
    if reached == {} then reply == ErrorReply
    else
      && k.Follows(n, reached, ask, tell)
      && reply == if k.Vote() == 1 && k.Confirmed() then told(k.telling.first) else ErrorReply
  }

  /** A SET: OK when the vote was COMMIT and somebody confirmed it, else an error. */
  method HandleSET(c: C.Coordinator, connect: (int, int) -> bool,
                   ask: (nat, set<int>) -> C.Select, tell: (nat, set<int>) -> C.Select, ghost horizon: nat)
    returns (reply: ClientReply, ghost k: Course)
    requires c.valid.Length == c.participantCount && C.Reports(ask, horizon) && C.Reports(tell, horizon)
    modifies c.valid
    ensures Replied(c.participantCount, Reached(old(c.valid[..]), connect), ask, tell, reply, _ => OkReply, k)
    ensures c.valid[..] == if Reached(old(c.valid[..]), connect) == {} then Flags(c.participantCount, {}) else k.telling.valid
  {
    hide Course.Follows;
    var vote, done, first;
    vote, done, first, k := Transact(c, connect, ask, tell, horizon);
    reply := if done == 1 && vote == 1 then OkReply else ErrorReply;
  }

  /** A DEL: the same, but the first answer is passed on. */
  method HandleDEL(c: C.Coordinator, connect: (int, int) -> bool,
                   ask: (nat, set<int>) -> C.Select, tell: (nat, set<int>) -> C.Select, ghost horizon: nat)
    returns (reply: ClientReply, ghost k: Course)
    requires c.valid.Length == c.participantCount && C.Reports(ask, horizon) && C.Reports(tell, horizon)
    modifies c.valid
    ensures Replied(c.participantCount, Reached(old(c.valid[..]), connect), ask, tell, reply, first => PassedOn(first), k)
    ensures c.valid[..] == if Reached(old(c.valid[..]), connect) == {} then Flags(c.participantCount, {}) else k.telling.valid
  {
    hide Course.Follows;
    var vote, done, first;
    vote, done, first, k := Transact(c, connect, ask, tell, horizon);
    reply := if done == 1 && vote == 1 then PassedOn(first) else ErrorReply;
  }

  /** What is read when participant i is asked alone with these valid flags, in so many calls of select. */
  ghost function HeardAlone(valid: seq<bool>, i: int, select: (nat, set<int>) -> C.Select, calls: nat): seq<C.Event> {
    C.Heard(C.Deciding, C.WaitFor(valid, {i}), select, |valid|, calls)
  }

  ghost predicate EndsAlone(valid: seq<bool>, i: int, select: (nat, set<int>) -> C.Select, calls: nat, b: C.Wait) {
    C.Ends(C.Deciding, C.WaitFor(valid, {i}), select, |valid|, calls, b, false)
  }

  /** Participant i, asked alone, answers, and `first` is what is read of it. */
  ghost predicate Answers(valid: seq<bool>, i: int, select: (nat, set<int>) -> C.Select, first: Option<Reply>) {
    exists calls: nat, b :: AnswersIn(valid, i, select, first, calls, b)
  }

  ghost predicate AnswersIn(valid: seq<bool>, i: int, select: (nat, set<int>) -> C.Select, first: Option<Reply>, calls: nat, b: C.Wait) {
    EndsAlone(valid, i, select, calls, b) && C.Replies(HeardAlone(valid, i, select, calls)) == [first]
  }

  /** Participant i, asked alone, does not answer: it is given up, for a lost connection or after four timeouts in a row. */
  ghost predicate Silent(valid: seq<bool>, i: int, select: (nat, set<int>) -> C.Select) {
    exists calls: nat, b :: SilentIn(valid, i, select, calls, b)
  }

  ghost predicate SilentIn(valid: seq<bool>, i: int, select: (nat, set<int>) -> C.Select, calls: nat, b: C.Wait) {
    && EndsAlone(valid, i, select, calls, b)
    && C.Replies(HeardAlone(valid, i, select, calls)) == [] && C.GivenUp(HeardAlone(valid, i, select, calls), i)
  }

  /** What is heard of a participant is settled by its valid flags and the reports of select. */
  lemma AnswersOnce(valid: seq<bool>, i: int, select: (nat, set<int>) -> C.Select, first: Option<Reply>, other: Option<Reply>)
    requires Answers(valid, i, select, first)
    ensures !Silent(valid, i, select) && (Answers(valid, i, select, other) ==> other == first)
  {
    hide EndsAlone, HeardAlone, C.GivenUp, C.Replies;
    var calls: nat, b :| AnswersIn(valid, i, select, first, calls, b);
    forall calls2: nat, b2 | EndsAlone(valid, i, select, calls2, b2) ensures calls2 == calls {
      AloneOnce(valid, i, select, calls, b, calls2, b2);
    }
  }

  lemma AloneOnce(valid: seq<bool>, i: int, select: (nat, set<int>) -> C.Select, calls: nat, b: C.Wait, calls2: nat, b2: C.Wait)
    requires EndsAlone(valid, i, select, calls, b) && EndsAlone(valid, i, select, calls2, b2)
    ensures calls2 == calls
  {
    C.EndsOnce(C.Deciding, C.WaitFor(valid, {i}), select, |valid|, calls, b, false, calls2, b2, false);
  }

  /** The valid flags when participant i's turn comes: those before it have been given up. */
  function From(valid: seq<bool>, i: nat): seq<bool> {
    seq(|valid|, k requires 0 <= k < |valid| => k >= i && valid[k])
  }

  /** Participant i is passed over: not valid, not reached, or reached and silent. */
  ghost predicate PassedOver(valid: seq<bool>, i: nat, connect: (int, int) -> bool, select: int -> (nat, set<int>) -> C.Select)
    requires i < |valid|
  {
    !valid[i] || !Dials(connect, i) || Silent(From(valid, i), i, select(i))
  }

  /**
    A GET: the valid participants are asked one after another until one
    answers; its answer is passed on. Who is passed over before it is not valid
    any more. If all are, the client is told an error. select does not fail.
   */
  method HandleGET(c: C.Coordinator, connect: (int, int) -> bool, select: int -> (nat, set<int>) -> C.Select, ghost horizon: nat)
    returns (reply: ClientReply, ghost asked: nat, ghost first: Option<Reply>)
    requires c.valid.Length == c.participantCount
    requires forall i :: C.Reports(select(i), horizon) && C.NeverFails(select(i))
    modifies c.valid
    ensures asked <= c.participantCount && c.valid[..] == From(old(c.valid[..]), asked)
    ensures forall i: nat | i < asked :: PassedOver(old(c.valid[..]), i, connect, select)
    ensures asked == c.participantCount ==> reply == ErrorReply
    ensures asked < c.participantCount ==>
              && old(c.valid[asked]) && Dials(connect, asked)
              && Answers(From(old(c.valid[..]), asked), asked, select(asked), first) && reply == PassedOn(first)
  {
    hide Answers, Silent;
    ghost var v := c.valid[..];
    first := None;
    var i: nat := 0;
    assert c.valid[..] == From(v, 0);
    while i < c.participantCount
      invariant i <= c.participantCount && c.valid[..] == From(v, i)
      invariant forall k: nat | k < i :: PassedOver(v, k, connect, select)
    {
      assert c.valid[i] == c.valid[..][i] == v[i];
      if c.valid[i] {
        var ok := ConnectParticipant(c, i, connect);
        if ok {
          assert c.valid[..] == From(v, i);
          var result, kept := AskOne(c, i, select(i), horizon);
          first := kept;
          if result > 0 {
            assert c.valid[..] == From(v, i);
            return PassedOn(kept), i, first;
          }
        }
      }
      assert c.valid[..] == From(v, i + 1);
      i := i + 1;
    }
    return ErrorReply, i, first;
  }

  /** Ask participant i alone: either it answers, or it is cut off. */
  method AskOne(c: C.Coordinator, i: int, select: (nat, set<int>) -> C.Select, ghost horizon: nat)
    returns (result: int, first: Option<Reply>)
    requires c.valid.Length == c.participantCount && 0 <= i < c.participantCount && c.valid[i]
    requires C.Reports(select, horizon) && C.NeverFails(select)
    modifies c.valid
    ensures result == 1 || result == -1
    ensures result == 1 ==> Answers(old(c.valid[..]), i, select, first) && c.valid[..] == old(c.valid[..])
    ensures result == -1 ==> Silent(old(c.valid[..]), i, select) && c.valid[..] == old(c.valid[..])[i := false]
  {
    hide C.Ends, C.Balanced, C.Excludes;
    ghost var v := c.valid[..];
    var sockets := new bool[c.participantCount](k => k == i);
    assert C.Open(sockets[..]) == {i};
    var alive;
    ghost var calls, b, failed;
    result, alive, first, calls, b, failed := c.WaitForCommitOrAbort(sockets, 1, select, horizon);
    OnlyOne(v, i, select, calls, b, failed);
    if result == 1 {
      assert AnswersIn(v, i, select, first, calls, b);
      assert c.valid[..] == v;
    } else {
      assert SilentIn(v, i, select, calls, b);
      assert c.valid[..] == v[i := false];
    }
  }

  /** A wait for one participant: either it was heard from, once, and stays valid, or it was given up. */
  lemma OnlyOne(valid: seq<bool>, i: int, select: (nat, set<int>) -> C.Select, calls: nat, b: C.Wait, failed: bool)
    requires 0 <= i < |valid| && valid[i] && C.NeverFails(select)
    requires C.Ends(C.Deciding, C.WaitFor(valid, {i}), select, |valid|, calls, b, failed)
    ensures !failed && b.count >= 0 && EndsAlone(valid, i, select, calls, b)
    ensures var es := HeardAlone(valid, i, select, calls);
            if b.count > 0 then C.Replies(es) == [b.first] && b.valid == valid
            else C.Replies(es) == [] && C.GivenUp(es, i) && b.valid == valid[i := false]
  {
    hide C.Heard, C.GivenUp, C.Replies;
    var a, n := C.WaitFor(valid, {i}), |valid|;
    C.StartWait(C.Deciding, valid, {i}, select);
    var es := HeardAlone(valid, i, select, calls);
    OneCounted(valid, i, es, b);
    C.RepliesCounted(C.Deciding, a, es, b, n);
    C.WaitDescribed(C.Deciding, a, es, b, n, i);
  }

  lemma OneCounted(valid: seq<bool>, i: int, es: seq<C.Event>, b: C.Wait)
    requires 0 <= i < |valid| && valid[i] && C.Balanced(C.Deciding, C.WaitFor(valid, {i}), |valid|)
    requires C.Connected(C.WaitFor(valid, {i})) == {i}
    requires C.Leads(C.Deciding, C.WaitFor(valid, {i}), es, b, |valid|) && !C.Going(b)
    ensures 0 <= b.count <= 1 && b.valid == valid[i := b.count > 0]
  {
    var a, n := C.WaitFor(valid, {i}), |valid|;
    C.WaitInvariant(C.Deciding, a, es, b, n);
    C.AliveStillValid(C.Deciding, a, es, b, n);
    C.NoneLeft(b.watched);
    assert C.StillValid(a, b) <= {i} && (i in C.StillValid(a, b) <==> b.valid[i]);
    if b.valid[i] { assert C.StillValid(a, b) == {i}; } else { assert C.StillValid(a, b) == {}; }
  }
}
