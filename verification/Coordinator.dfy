/** How the coordinator waits for its participants in either phase. */
module Coordinator {
  import opened KvMessages

  /** What reading a ready connection gives: a message, parsed or not, or the loss of the connection. */
  datatype Recv = Got(parsed: Option<Reply>) | Lost(reconnected: bool)

  /** What select reports: an error, a timeout, or ready participants with what each read gives. */
  datatype Select = Failed | Quiet | Ready(got: map<int, Recv>)

  /** One thing that happens while waiting. */
  datatype Event = TimedOut | Read(i: int, got: Recv)

  /** Whether we wait for PREPARED or for DONE. */
  datatype Phase = Preparing | Deciding

  /** The variables of a wait loop. Sockets and socket sets are named by participant. */
  datatype Wait = Wait(
    connected: seq<bool>,     // participantSocket[i] > 0
    watched: set<int>,        // the set given to select
    valid: seq<bool>,         // participantAddr[i].vaild
    alive: int,
    count: int,               // replies counted so far
    timeout: int,
    response: seq<int>,       // -1 none yet, 0 NO, 1 PREPARED
    first: Option<Reply>)     // second phase: the first reply, kept for the client

  /** A wait for the participants in who, nobody heard from yet. */
  function WaitFor(valid: seq<bool>, who: set<int>): Wait {
    Wait(seq(|valid|, i => i in who), who, valid, |who|, 0, 0, seq(|valid|, _ => -1), None)
  }

  predicate Going(w: Wait) { w.alive > 0 && w.count < w.alive }

  ghost predicate Sized(w: Wait, n: nat) {
    && |w.connected| == |w.valid| == |w.response| == n
    && forall i | i in w.watched :: 0 <= i < n
  }

  ghost function Connected(w: Wait): set<int> {
    set i | 0 <= i < |w.connected| && w.connected[i]
  }

  /** Cut off every participant in cut: socket closed, never used again. */
  function CutOff(w: Wait, cut: set<int>): Wait {
    w.(connected := seq(|w.connected|, i requires 0 <= i < |w.connected| => w.connected[i] && i !in cut),
       valid := seq(|w.valid|, i requires 0 <= i < |w.valid| => w.valid[i] && i !in cut),
       watched := w.watched - cut,
       alive := w.alive - |cut|)
  }

  /** A timeout: resend, or at the fourth in a row cut off everybody still watched. */
  function OnTimeout(w: Wait): Wait {
    if w.timeout == 3 then CutOff(w, w.watched).(timeout := 0) else w.(timeout := w.timeout + 1)
  }

  /** Reading participant i. */
  function OnRead(ph: Phase, w: Wait, i: int, got: Recv): Wait
    requires 0 <= i < |w.connected| == |w.valid| == |w.response|
  {
    var u := w.(timeout := 0);
    match got
    case Lost(true) => u
    case Lost(false) => CutOff(u, {i})
    case Got(m) =>
      if ph == Preparing then
        u.(watched := u.watched - {i}, count := u.count + 1,
           response := u.response[i := if m.Some? && m.value.Prepared? then 1 else 0])
      else
        u.(watched := u.watched - {i}, count := u.count + 1, connected := u.connected[i := false],
           first := if u.count == 0 && m.Some? then m else u.first)
  }

  ghost predicate Enabled(w: Wait, n: nat, e: Event) {
    Sized(w, n) && Going(w) && (e.Read? ==> e.i in w.watched)
  }

  function OnEvent(ph: Phase, w: Wait, e: Event): Wait
    requires e.Read? ==> 0 <= e.i < |w.connected| == |w.valid| == |w.response|
  {
    match e
    case TimedOut => OnTimeout(w)
    case Read(i, got) => OnRead(ph, w, i, got)
  }

  // ----- the accounting ------------------------------------------------------------

  /**
    The counts agree with the sockets: everyone watched is connected, and the
    alive participants are those counted and those watched. While preparing,
    exactly the connected ones not watched any more have answered. While
    deciding, a counted participant's socket is closed already.
   */
  ghost predicate Balanced(ph: Phase, w: Wait, n: nat) {
    && Sized(w, n) && w.watched <= Connected(w) && 0 <= w.timeout <= 3 && w.count >= 0
    && w.alive == w.count + |w.watched|
    && (forall i | 0 <= i < n && w.connected[i] :: w.valid[i])
    && (ph == Preparing ==> w.alive == |Connected(w)| && Answers(w))
    && (ph == Deciding ==> w.watched == Connected(w))
  }

  ghost predicate Answers(w: Wait)
    requires |w.connected| == |w.response|
  {
    forall i | 0 <= i < |w.response| ::
      && (w.response[i] == -1 || w.response[i] == 0 || w.response[i] == 1)
      && (w.response[i] != -1 <==> w.connected[i] && i !in w.watched)
  }

  /** Nobody comes back: valid participants only become fewer, and who is cut off is not valid. */
  ghost predicate Excludes(ph: Phase, a: Wait, b: Wait) {
    && |a.connected| == |a.valid| == |b.connected| == |b.valid|
    && (forall i | 0 <= i < |b.valid| && b.valid[i] :: a.valid[i])
    && (forall i | 0 <= i < |b.valid| && b.connected[i] :: a.connected[i])
    && (ph == Preparing ==> forall i | 0 <= i < |b.valid| && a.connected[i] && !b.connected[i] :: !b.valid[i])
  }

  lemma CutOffConnected(w: Wait, cut: set<int>)
    requires |w.connected| == |w.valid|
    ensures Connected(CutOff(w, cut)) == Connected(w) - cut
    ensures Excludes(Preparing, w, CutOff(w, cut))
  {
  }

  lemma CutOffBalanced(ph: Phase, w: Wait, cut: set<int>, n: nat)
    requires Balanced(ph, w, n) && cut <= w.watched
    ensures Balanced(ph, CutOff(w, cut), n)
  {
    CutOffConnected(w, cut);
    assert |w.watched - cut| == |w.watched| - |cut|;
    assert |Connected(w) - cut| == |Connected(w)| - |cut|;
  }

  lemma GotBalanced(ph: Phase, w: Wait, i: int, m: Option<Reply>, n: nat)
    requires Balanced(ph, w, n) && i in w.watched
    ensures Balanced(ph, OnRead(ph, w, i, Got(m)), n)
  {
    var u := OnRead(ph, w, i, Got(m));
    assert |w.watched - {i}| == |w.watched| - 1;
    if ph == Preparing {
      assert Connected(u) == Connected(w);
    } else {
      assert Connected(u) == Connected(w) - {i};
    }
  }

  /** Every event keeps the balance. */
  lemma EventBalanced(ph: Phase, w: Wait, e: Event, n: nat)
    requires Balanced(ph, w, n) && Enabled(w, n, e)
    ensures Balanced(ph, OnEvent(ph, w, e), n)
  {
    match e
    case TimedOut =>
      if w.timeout == 3 { CutOffBalanced(ph, w, w.watched, n); } else { SameSockets(ph, w, OnTimeout(w), n); }
    case Read(i, Got(m)) => GotBalanced(ph, w, i, m, n);
    case Read(i, Lost(again)) =>
      SameSockets(ph, w, w.(timeout := 0), n);
      if !again { CutOffBalanced(ph, w.(timeout := 0), {i}, n); }
  }

  lemma SameSockets(ph: Phase, w: Wait, u: Wait, n: nat)
    requires Balanced(ph, w, n) && u == w.(timeout := u.timeout) && 0 <= u.timeout <= 3
    ensures Balanced(ph, u, n)
  {
    assert Connected(u) == Connected(w);
  }

  lemma EventExcludes(ph: Phase, a: Wait, w: Wait, e: Event, n: nat)
    requires Excludes(ph, a, w) && Balanced(ph, w, n) && Enabled(w, n, e)
    ensures Excludes(ph, a, OnEvent(ph, w, e))
  {
  }

  // ----- how long it can take ------------------------------------------------------------

  /** How many events can still happen without a reconnect. */
  function Rank(w: Wait): int { 4 * |w.watched| + 3 - w.timeout }

  /** An event lowers the rank, unless it is a reconnect; then the rank is what it was at most, and three more. */
  lemma EventRank(ph: Phase, w: Wait, e: Event, n: nat)
    requires Balanced(ph, w, n) && Enabled(w, n, e)
    ensures 0 <= Rank(w) && 0 <= Rank(OnEvent(ph, w, e))
    ensures e.Read? && e.got == Lost(true) ==> Rank(OnEvent(ph, w, e)) <= Rank(w) + 3
    ensures !(e.Read? && e.got == Lost(true)) ==> Rank(OnEvent(ph, w, e)) < Rank(w)
  {
    if e.Read? {
      assert |w.watched - {e.i}| == |w.watched| - 1;
    } else if w.timeout == 3 {
      assert w.watched - w.watched == {};
    }
  }

  // ----- whole waits -----------------------------------------------------------------------

  /** The state after a list of events, if each of them may happen when it does. */
  ghost function After(ph: Phase, a: Wait, es: seq<Event>, n: nat): Option<Wait> {
    if es == [] then Some(a)
    else
      var w := After(ph, a, es[..|es| - 1], n);
      if w.Some? && Enabled(w.value, n, es[|es| - 1]) then Some(OnEvent(ph, w.value, es[|es| - 1])) else None
  }

  ghost predicate Leads(ph: Phase, a: Wait, es: seq<Event>, b: Wait, n: nat) {
    After(ph, a, es, n) == Some(b)
  }

  function Reconnects(es: seq<Event>): nat {
    if es == [] then 0
    else Reconnects(es[..|es| - 1]) + (if es[|es| - 1].Read? && es[|es| - 1].got == Lost(true) then 1 else 0)
  }

  lemma LeadsSnoc(ph: Phase, a: Wait, es: seq<Event>, w: Wait, e: Event, n: nat)
    requires Leads(ph, a, es, w, n) && Enabled(w, n, e)
    ensures Leads(ph, a, es + [e], OnEvent(ph, w, e), n)
    ensures Reconnects(es + [e]) == Reconnects(es) + (if e.Read? && e.got == Lost(true) then 1 else 0)
  {
    assert (es + [e])[..|es|] == es;
  }

  /** Throughout a wait the balance holds, exclusion is final, and only reconnects prolong it. */
  lemma {:induction false} WaitInvariant(ph: Phase, a: Wait, es: seq<Event>, b: Wait, n: nat)
    requires Balanced(ph, a, n) && Leads(ph, a, es, b, n)
    ensures Balanced(ph, b, n) && Excludes(ph, a, b)
    ensures |es| + Rank(b) <= Rank(a) + 4 * Reconnects(es) && 0 <= Rank(b)
  {
    if es != [] {
      var e := es[|es| - 1];
      var w := After(ph, a, es[..|es| - 1], n).value;
      WaitInvariant(ph, a, es[..|es| - 1], w, n);
      EventBalanced(ph, w, e, n);
      EventExcludes(ph, a, w, e, n);
      EventRank(ph, w, e, n);
    }
  }

  /**
    When the first wait is over: the counted ones are all the connected ones;
    and if nobody was counted, everybody was cut off and is not valid.
   */
  lemma PreparedOver(a: Wait, es: seq<Event>, b: Wait, n: nat)
    requires Balanced(Preparing, a, n) && Leads(Preparing, a, es, b, n) && !Going(b)
    ensures b.watched == {} && b.count == b.alive == |Connected(b)|
    ensures forall i | 0 <= i < n :: b.connected[i] <==> b.response[i] != -1
    ensures b.count == 0 ==> forall i | 0 <= i < n && a.connected[i] :: !b.connected[i] && !b.valid[i]
  {
    WaitInvariant(Preparing, a, es, b, n);
    NoneLeft(b.watched);
    if b.count == 0 {
      forall i | 0 <= i < n && a.connected[i] ensures !b.connected[i] {
        assert i in Connected(b) <==> b.connected[i];
      }
    }
  }

  /** Those connected at the start of a wait that are still valid. */
  ghost function StillValid(a: Wait, b: Wait): set<int>
    requires |a.connected| == |b.valid|
  {
    set i | 0 <= i < |b.valid| && b.valid[i] && a.connected[i]
  }

  lemma EventStillValid(ph: Phase, a: Wait, w: Wait, e: Event, n: nat)
    requires Balanced(ph, w, n) && Enabled(w, n, e) && Excludes(ph, a, w) && w.alive == |StillValid(a, w)|
    ensures |OnEvent(ph, w, e).valid| == n && OnEvent(ph, w, e).alive == |StillValid(a, OnEvent(ph, w, e))|
    ensures forall i | 0 <= i < n && !a.connected[i] :: OnEvent(ph, w, e).valid[i] == w.valid[i]
  {
    hide Connected, StillValid, Answers;
    var cut := if e.TimedOut? then (if w.timeout == 3 then w.watched else {}) else if e.got == Lost(false) then {e.i} else {};
    assert OnEvent(ph, w, e).valid == CutOff(w, cut).valid && OnEvent(ph, w, e).alive == w.alive - |cut|;
    CutStillValid(a, w, cut, n);
    SameStillValid(a, CutOff(w, cut), OnEvent(ph, w, e));
  }

  lemma CutStillValid(a: Wait, w: Wait, cut: set<int>, n: nat)
    requires |a.connected| == |w.connected| == |w.valid| == n && cut <= Connected(w)
    requires forall i | 0 <= i < n && w.connected[i] :: w.valid[i] && a.connected[i]
    ensures |CutOff(w, cut).valid| == n && |StillValid(a, CutOff(w, cut))| == |StillValid(a, w)| - |cut|
    ensures forall i | 0 <= i < n && !a.connected[i] :: CutOff(w, cut).valid[i] == w.valid[i]
  {
    assert cut <= StillValid(a, w);
    assert StillValid(a, CutOff(w, cut)) == StillValid(a, w) - cut;
  }

  lemma SameStillValid(a: Wait, w: Wait, u: Wait)
    requires |a.connected| == |w.valid| && u.valid == w.valid
    ensures StillValid(a, u) == StillValid(a, w)
  {
  }

  /** Throughout a wait the alive participants are those connected at its start and still valid; nobody else is touched. */
  lemma {:induction false} AliveStillValid(ph: Phase, a: Wait, es: seq<Event>, b: Wait, n: nat)
    requires Balanced(ph, a, n) && a.alive == |Connected(a)| && Leads(ph, a, es, b, n)
    ensures |b.valid| == n && b.alive == |StillValid(a, b)|
    ensures forall i | 0 <= i < n && !a.connected[i] :: b.valid[i] == a.valid[i]
  {
    if es == [] {
      assert StillValid(a, a) == Connected(a);
    } else {
      var t, e := es[..|es| - 1], es[|es| - 1];
      var w := After(ph, a, t, n).value;
      AliveStillValid(ph, a, t, w, n);
      WaitInvariant(ph, a, t, w, n);
      EventStillValid(ph, a, w, e, n);
    }
  }

  // ----- what the events alone say of a wait ---------------------------------------------------

  predicate IsPrepared(m: Option<Reply>) { m.Some? && m.value.Prepared? }

  /** What was read from the participants, in order; a connection that was lost gives nothing. */
  function Replies(es: seq<Event>): seq<Option<Reply>> {
    if es == [] then []
    else Replies(es[..|es| - 1]) + (if es[|es| - 1].Read? && es[|es| - 1].got.Got? then [es[|es| - 1].got.parsed] else [])
  }

  /** Participant i was read from, and the reply was PREPARED, or was not. */
  ghost predicate ReadFrom(es: seq<Event>, i: int, prepared: bool) {
    exists k :: 0 <= k < |es| && IsReply(es[k], i, prepared)
  }

  predicate IsReply(e: Event, i: int, prepared: bool) {
    e.Read? && e.i == i && e.got.Got? && IsPrepared(e.got.parsed) == prepared
  }

  lemma ReadFromSnoc(es: seq<Event>, e: Event, i: int, prepared: bool)
    ensures ReadFrom(es + [e], i, prepared) <==> ReadFrom(es, i, prepared) || IsReply(e, i, prepared)
  {
    var more := es + [e];
    if ReadFrom(es, i, prepared) {
      var k :| 0 <= k < |es| && IsReply(es[k], i, prepared);
      assert more[k] == es[k];
    }
    assert more[|es|] == e;
  }

  /**
    The vote recorded for a participant is what was read from it: 1 if and only
    if it answered PREPARED, 0 if and only if it answered something else, or
    something that could not be parsed.
   */
  lemma {:induction false} ResponseMeans(a: Wait, es: seq<Event>, b: Wait, n: nat, i: int)
    requires Balanced(Preparing, a, n) && Leads(Preparing, a, es, b, n) && 0 <= i < n && a.response[i] == -1
    ensures |b.response| == n
    ensures b.response[i] == 1 <==> ReadFrom(es, i, true)
    ensures b.response[i] == 0 <==> ReadFrom(es, i, false)
  {
    if es != [] {
      hide Balanced, ReadFrom, OnEvent, Enabled;
      var t, e := es[..|es| - 1], es[|es| - 1];
      var w := After(Preparing, a, t, n).value;
      ResponseMeans(a, t, w, n, i);
      WaitInvariant(Preparing, a, t, w, n);
      ResponseNext(w, e, n, i);
      assert es == t + [e];
      ReadFromSnoc(t, e, i, true);
      ReadFromSnoc(t, e, i, false);
    } else {
      assert b == a;
    }
  }

  lemma ResponseNext(w: Wait, e: Event, n: nat, i: int)
    requires Balanced(Preparing, w, n) && Enabled(w, n, e) && 0 <= i < n
    ensures |w.connected| == |w.valid| == |w.response| == n && |OnEvent(Preparing, w, e).response| == n
    ensures OnEvent(Preparing, w, e).response[i] == 1 <==> w.response[i] == 1 || IsReply(e, i, true)
    ensures OnEvent(Preparing, w, e).response[i] == 0 <==> w.response[i] == 0 || IsReply(e, i, false)
  {
    hide Balanced;
    Unanswered(w, n);
  }

  lemma Unanswered(w: Wait, n: nat)
    requires Balanced(Preparing, w, n)
    ensures |w.connected| == |w.valid| == |w.response| == n
    ensures forall i | i in w.watched :: 0 <= i < n && w.response[i] == -1
    ensures forall i | 0 <= i < n :: w.response[i] == -1 || w.response[i] == 0 || w.response[i] == 1
  {
  }

  /** Read(i, Got(m)) is among the events exactly when a reply was read from i. */
  lemma {:induction false} RepliesRead(es: seq<Event>, prepared: bool)
    ensures (exists m :: m in Replies(es) && IsPrepared(m) == prepared) <==> exists i :: ReadFrom(es, i, prepared)
  {
    if es != [] {
      var t, e := es[..|es| - 1], es[|es| - 1];
      assert es == t + [e];
      RepliesRead(t, prepared);
      forall i ensures ReadFrom(es, i, prepared) <==> ReadFrom(t, i, prepared) || IsReply(e, i, prepared) {
        ReadFromSnoc(t, e, i, prepared);
      }
      if e.Read? && e.got.Got? {
        assert e.got.parsed in Replies(es);
        assert IsPrepared(e.got.parsed) == prepared ==> IsReply(e, e.i, prepared);
      }
      assert forall m | m in Replies(t) :: m in Replies(es);
    }
  }

  /** Only participants are read from. */
  lemma {:induction false} ReadersInRange(ph: Phase, a: Wait, es: seq<Event>, b: Wait, n: nat, i: int, prepared: bool)
    requires Leads(ph, a, es, b, n) && ReadFrom(es, i, prepared)
    ensures 0 <= i < n
  {
    if es != [] {
      var t, e := es[..|es| - 1], es[|es| - 1];
      assert es == t + [e];
      ReadFromSnoc(t, e, i, prepared);
      if ReadFrom(t, i, prepared) { ReadersInRange(ph, a, t, After(ph, a, t, n).value, n, i, prepared); }
    }
  }

  /** What is counted, and what is kept for the client: every reply counts, and the first one is kept if it was parsed. */
  lemma {:induction false} RepliesCounted(ph: Phase, a: Wait, es: seq<Event>, b: Wait, n: nat)
    requires Balanced(ph, a, n) && Leads(ph, a, es, b, n) && a.count == 0 && a.first == None
    ensures b.count == |Replies(es)|
    ensures b.first == if ph == Deciding && Replies(es) != [] then Replies(es)[0] else None
  {
    if es != [] {
      hide Balanced;
      RepliesCounted(ph, a, es[..|es| - 1], After(ph, a, es[..|es| - 1], n).value, n);
    }
  }

  /**
    How a vote comes about, from the events alone: there is a 0 among the
    responses if and only if something else than PREPARED was read, and a 1 if
    and only if a PREPARED was.
   */
  lemma VoteMeans(a: Wait, es: seq<Event>, b: Wait, n: nat)
    requires Balanced(Preparing, a, n) && Leads(Preparing, a, es, b, n) && forall i | 0 <= i < n :: a.response[i] == -1
    ensures 0 in b.response <==> exists m :: m in Replies(es) && !IsPrepared(m)
    ensures 1 in b.response <==> exists m :: m in Replies(es) && IsPrepared(m)
  {
    VoteOf(a, es, b, n, false);
    VoteOf(a, es, b, n, true);
  }

  lemma VoteOf(a: Wait, es: seq<Event>, b: Wait, n: nat, prepared: bool)
    requires Balanced(Preparing, a, n) && Leads(Preparing, a, es, b, n) && forall i | 0 <= i < n :: a.response[i] == -1
    ensures (if prepared then 1 else 0) in b.response <==> exists m :: m in Replies(es) && IsPrepared(m) == prepared
  {
    hide Balanced, ReadFrom, Replies, Leads, After;
    var v := if prepared then 1 else 0;
    RepliesRead(es, prepared);
    forall i | 0 <= i < n ensures |b.response| == n && (b.response[i] == v <==> ReadFrom(es, i, prepared)) {
      ResponseMeans(a, es, b, n, i);
    }
    if i :| ReadFrom(es, i, prepared) {
      ReadersInRange(Preparing, a, es, b, n, i, prepared);
      assert b.response[i] == v;
    }
    if v in b.response {
      ResponseLength(a, es, b, n);
      var i :| 0 <= i < |b.response| && b.response[i] == v;
      assert ReadFrom(es, i, prepared);
    }
  }

  lemma ResponseLength(a: Wait, es: seq<Event>, b: Wait, n: nat)
    requires Balanced(Preparing, a, n) && Leads(Preparing, a, es, b, n)
    ensures |b.response| == n
  {
    WaitInvariant(Preparing, a, es, b, n);
  }

  // ----- who is given up -----------------------------------------------------------------------

  predicate FourAt(es: seq<Event>, k: int) {
    0 <= k && k + 4 <= |es| && es[k] == es[k + 1] == es[k + 2] == es[k + 3] == TimedOut
  }

  /** Four timeouts in a row. */
  ghost predicate FourTimeouts(es: seq<Event>) {
    exists k :: FourAt(es, k)
  }

  ghost predicate RepliedIn(es: seq<Event>, i: int) {
    ReadFrom(es, i, true) || ReadFrom(es, i, false)
  }

  /** Its connection was lost and not made again. */
  ghost predicate LostFor(es: seq<Event>, i: int) { Read(i, Lost(false)) in es }

  /** A participant that was not heard from before four timeouts in a row, or that could not be reached again. */
  ghost predicate GivenUp(es: seq<Event>, i: int) {
    LostFor(es, i) || (FourTimeouts(es) && !RepliedIn(es, i))
  }

  /** How many timeouts the events end with. */
  function Streak(es: seq<Event>): nat {
    if es == [] || es[|es| - 1] != TimedOut then 0 else 1 + Streak(es[..|es| - 1])
  }

  lemma {:induction false} StreakAt(es: seq<Event>, k: nat)
    requires |es| - Streak(es) <= k < |es|
    ensures Streak(es) <= |es| && es[k] == TimedOut
  {
    StreakLength(es);
    if k < |es| - 1 { StreakAt(es[..|es| - 1], k); }
  }

  lemma {:induction false} StreakLength(es: seq<Event>)
    ensures Streak(es) <= |es|
  {
    if es != [] { StreakLength(es[..|es| - 1]); }
  }

  lemma FourSnoc(es: seq<Event>, e: Event)
    requires Streak(es) <= 3
    ensures FourTimeouts(es + [e]) <==> FourTimeouts(es) || Streak(es + [e]) == 4
    ensures Streak(es + [e]) == if e == TimedOut then Streak(es) + 1 else 0
  {
    var more := es + [e];
    assert more[..|es|] == es;
    if FourTimeouts(es) {
      var k :| FourAt(es, k);
      assert FourAt(more, k);
    }
    if Streak(more) == 4 {
      StreakLength(more);
      StreakAt(more, |more| - 4);
      StreakAt(more, |more| - 3);
      StreakAt(more, |more| - 2);
      assert FourAt(more, |more| - 4);
    }
    if FourTimeouts(more) && !FourTimeouts(es) {
      var k :| FourAt(more, k);
      if k + 4 <= |es| { assert FourAt(es, k); }
      FourStreak(more);
    }
  }

  lemma FourStreak(es: seq<Event>)
    requires FourAt(es, |es| - 4)
    ensures Streak(es) >= 4
  {
    var a, b, c := es[..|es| - 1], es[..|es| - 2], es[..|es| - 3];
    assert a[..|a| - 1] == b && b[..|b| - 1] == c;
    assert es[|es| - 1] == a[|a| - 1] == b[|b| - 1] == c[|c| - 1] == TimedOut;
    assert Streak(b) == 1 + Streak(c) && Streak(a) == 1 + Streak(b) && Streak(es) == 1 + Streak(a) && Streak(c) >= 1;
  }

  /**
    What becomes of participant i in a wait, from the events alone: it is no
    longer valid if and only if it was waited for and given up, and it is still
    waited for if and only if it was, and was neither given up nor heard from.
   */
  ghost predicate Described(a: Wait, es: seq<Event>, b: Wait, i: int)
    requires 0 <= i < |a.valid| == |b.valid|
  {
    && (b.valid[i] <==> a.valid[i] && !(i in a.watched && GivenUp(es, i)))
    && (i in b.watched <==> i in a.watched && !GivenUp(es, i) && !RepliedIn(es, i))
    && (LostFor(es, i) || RepliedIn(es, i) ==> i in a.watched)
  }

  lemma {:induction false} WaitDescribed(ph: Phase, a: Wait, es: seq<Event>, b: Wait, n: nat, i: int)
    requires Balanced(ph, a, n) && a.timeout == 0 && Leads(ph, a, es, b, n) && 0 <= i < n
    ensures |a.valid| == |b.valid| == n && Described(a, es, b, i)
    ensures if FourTimeouts(es) then b.watched == {} else b.timeout == Streak(es)
  {
    if es == [] {
      assert b == a;
    } else {
      var t, e := es[..|es| - 1], es[|es| - 1];
      assert es == t + [e];
      var w := After(ph, a, t, n).value;
      WaitDescribed(ph, a, t, w, n, i);
      WaitInvariant(ph, a, t, w, n);
      StillWatched(ph, w, n);
      assert !FourTimeouts(t);
      DescribedNext(ph, a, t, w, e, n, i);
    }
  }

  lemma StillWatched(ph: Phase, w: Wait, n: nat)
    requires Balanced(ph, w, n) && Going(w)
    ensures w.watched != {} && |w.connected| == |w.valid| == |w.response| == n && w.timeout <= 3
    ensures forall i | i in w.watched :: 0 <= i < n && w.valid[i]
  {
  }

  lemma DescribedNext(ph: Phase, a: Wait, t: seq<Event>, w: Wait, e: Event, n: nat, i: int)
    requires Balanced(ph, w, n) && Enabled(w, n, e) && |a.valid| == n && 0 <= i < n
    requires |w.connected| == |w.valid| == |w.response| == n && Described(a, t, w, i)
    requires !FourTimeouts(t) && w.timeout == Streak(t)
    ensures var b := OnEvent(ph, w, e);
            && |b.valid| == n && Described(a, t + [e], b, i)
            && (if FourTimeouts(t + [e]) then b.watched == {} else b.timeout == Streak(t + [e]))
  {
    hide Balanced, ReadFrom, FourTimeouts, Streak;
    StillWatched(ph, w, n);
    FourSnoc(t, e);
    ReadFromSnoc(t, e, i, true);
    ReadFromSnoc(t, e, i, false);
  }

  /**
    What a vote for COMMIT means, once the wait is over and somebody answered:
    nothing but PREPARED was read, and PREPARED was read from every participant
    still connected, of whom there is one.
   */
  lemma CommitVote(a: Wait, es: seq<Event>, b: Wait, n: nat)
    requires Balanced(Preparing, a, n) && Leads(Preparing, a, es, b, n) && forall i | 0 <= i < n :: a.response[i] == -1
    requires !Going(b) && b.count > 0
    ensures 0 !in b.response <==> forall m | m in Replies(es) :: IsPrepared(m)
    ensures |b.connected| == |b.valid| == n
    ensures 0 !in b.response ==>
              && (exists i :: 0 <= i < n && b.connected[i])
              && forall i | 0 <= i < n && b.connected[i] :: b.valid[i] && ReadFrom(es, i, true)
  {
    hide ReadFrom, Replies, Leads, After;
    VoteMeans(a, es, b, n);
    WaitInvariant(Preparing, a, es, b, n);
    if 0 !in b.response {
      AllAnswered(b, n);
      forall i | 0 <= i < n && b.connected[i] ensures b.valid[i] && ReadFrom(es, i, true) { ResponseMeans(a, es, b, n, i); }
    }
  }

  lemma AllAnswered(b: Wait, n: nat)
    requires Balanced(Preparing, b, n) && !Going(b) && b.count > 0 && 0 !in b.response
    ensures exists i :: 0 <= i < n && b.connected[i]
    ensures forall i | 0 <= i < n && b.connected[i] :: b.response[i] == 1 && b.valid[i]
  {
    NoneLeft(b.watched);
    assert Connected(b) != {};
    var i :| i in Connected(b);
    assert b.connected[i];
    forall j | 0 <= j < n && b.connected[j] ensures b.response[j] == 1 { assert b.response[j] in b.response; }
  }

  /** Two participants: one answers PREPARED, the other is silent. */
  function SilentOther(id: int): seq<Event> {
    [Read(0, Got(Some(Prepared(id, SET)))), TimedOut, TimedOut, TimedOut, TimedOut]
  }

  /** Who is given up counts for nothing in the vote: it is still for COMMIT, by those that answered. */
  lemma SilenceIsNoNo(id: int)
    ensures var a := WaitFor([true, true], {0, 1});
            var b := Wait([true, false], {}, [true, false], 1, 1, 0, [1, -1], None);
            Leads(Preparing, a, SilentOther(id), b, 2) && !Going(b) && b.count > 0 && 0 !in b.response
  {
    hide Leads, After, CutOff;
    var a := WaitFor([true, true], {0, 1});
    LeadsNone(a);
    var m := Some(Prepared(id, SET));
    var w := Wait([true, true], {1}, [true, true], 2, 1, 0, [1, -1], None);
    assert a == Wait([true, true], {0, 1}, [true, true], 2, 0, 0, [-1, -1], None) by { assert |{0, 1}| == 2; }
    assert OnEvent(Preparing, a, Read(0, Got(m))) == w;
    LeadsSnoc(Preparing, a, [], a, Read(0, Got(m)), 2);
    var e1 := [] + [Read(0, Got(m))];
    var e2, e3, e4 := e1 + [TimedOut], e1 + [TimedOut] + [TimedOut], e1 + [TimedOut] + [TimedOut] + [TimedOut];
    SilentOn(a, e1, w, 0);
    SilentOn(a, e2, w.(timeout := 1), 1);
    SilentOn(a, e3, w.(timeout := 2), 2);
    LeadsSnoc(Preparing, a, e4, w.(timeout := 3), TimedOut, 2);
    LastCutOff();
    assert e4 + [TimedOut] == SilentOther(id);
  }

  lemma LeadsNone(a: Wait)
    ensures Leads(Preparing, a, [], a, 2)
  {
  }

  lemma LastCutOff()
    ensures OnTimeout(Wait([true, true], {1}, [true, true], 2, 1, 3, [1, -1], None)) ==
            Wait([true, false], {}, [true, false], 1, 1, 0, [1, -1], None)
  {
    var w := Wait([true, true], {1}, [true, true], 2, 1, 3, [1, -1], None);
    assert CutOff(w, {1}).connected == [true, false] && CutOff(w, {1}).valid == [true, false];
    assert CutOff(w, {1}).watched == {} && |{1}| == 1;
  }

  lemma SilentOn(a: Wait, es: seq<Event>, w: Wait, k: nat)
    requires Leads(Preparing, a, es, w, 2) && Enabled(w, 2, TimedOut) && w.timeout == k < 3
    ensures Leads(Preparing, a, es + [TimedOut], w.(timeout := k + 1), 2)
  {
    LeadsSnoc(Preparing, a, es, w, TimedOut, 2);
  }

  lemma WatchedConnected(ph: Phase, w: Wait, n: nat)
    requires Balanced(ph, w, n)
    ensures |w.connected| == |w.valid| == |w.response| == n && Sized(w, n)
    ensures forall i | i in w.watched :: 0 <= i < n && w.connected[i]
    ensures w.watched != {} ==> Going(w)
  {
    if w.watched != {} { assert |w.watched| > 0; }
  }

  lemma ConnectedValid(ph: Phase, w: Wait, n: nat)
    requires Balanced(ph, w, n)
    ensures w.watched <= Connected(w) && forall i | 0 <= i < n && w.connected[i] :: w.valid[i]
  {
  }

  lemma SomeWatched(ph: Phase, w: Wait, n: nat)
    requires Balanced(ph, w, n) && Going(w)
    ensures Sized(w, n) && w.watched != {} && w.watched <= Connected(w) && 0 <= w.timeout <= 3
    ensures Enabled(w, n, TimedOut)
  {
  }

  lemma SomeParticipant(w: Wait, n: nat)
    requires Balanced(Preparing, w, n) && w.count > 0
    ensures |w.response| == n > 0
  {
  }

  lemma NoneLeft(s: set<int>)
    ensures |s| == 0 ==> s == {}
  {
  }

  /** When the second wait is over: those counted are all that were not cut off. */
  lemma DecidedOver(a: Wait, es: seq<Event>, b: Wait, n: nat)
    requires Balanced(Deciding, a, n) && Leads(Deciding, a, es, b, n) && !Going(b)
    ensures b.watched == Connected(b) == {} && b.count == b.alive
  {
    WaitInvariant(Deciding, a, es, b, n);
    NoneLeft(b.watched);
  }

  // ----- the coordinator itself ------------------------------------------------------------

  /** select reports only watched participants, and from some call on no reconnect succeeds. */
  ghost predicate Reports(select: (nat, set<int>) -> Select, horizon: nat) {
    && (forall k, w | w != {} && select(k, w).Ready? :: select(k, w).got != map[] && select(k, w).got.Keys <= w)
    && (forall k, w, i | k >= horizon && select(k, w).Ready? && i in select(k, w).got :: select(k, w).got[i] != Lost(true))
  }

  ghost predicate NeverFails(select: (nat, set<int>) -> Select) {
    forall k, w :: !select(k, w).Failed?
  }

  function Open(sockets: seq<bool>): set<int> {
    set i | 0 <= i < |sockets| && sockets[i]
  }

  // ----- what a wait makes of the reports of select ------------------------------------------

  /** The reads of one report, for the participants below k, in their order. */
  ghost function ReadsBelow(got: map<int, Recv>, k: nat): seq<Event> {
    if k == 0 then [] else ReadsBelow(got, k - 1) + (if k - 1 in got then [Read(k - 1, got[k - 1])] else [])
  }

  /** The events that one report stands for. */
  ghost function Reported(s: Select, n: nat): seq<Event> {
    match s
    case Failed => []
    case Quiet => [TimedOut]
    case Ready(got) => ReadsBelow(got, n)
  }

  /** The events of the first `calls` calls of select, each made with the participants then watched. */
  ghost function Heard(ph: Phase, a: Wait, select: (nat, set<int>) -> Select, n: nat, calls: nat): seq<Event> {
    if calls == 0 then []
    else
      var es := Heard(ph, a, select, n, calls - 1);
      var w := After(ph, a, es, n);
      if w.None? then es else es + Reported(select(calls - 1, w.value.watched), n)
  }

  /** After so many calls the wait goes on, and select does not fail. */
  ghost predicate WaitsOn(ph: Phase, a: Wait, select: (nat, set<int>) -> Select, n: nat, calls: nat) {
    var w := After(ph, a, Heard(ph, a, select, n, calls), n);
    w.Some? && Going(w.value) && !select(calls, w.value.watched).Failed?
  }

  /** The wait ends after `calls` calls of select, in b: because it is over, or because the next call fails. */
  ghost predicate Ends(ph: Phase, a: Wait, select: (nat, set<int>) -> Select, n: nat, calls: nat, b: Wait, failed: bool) {
    && Leads(ph, a, Heard(ph, a, select, n, calls), b, n)
    && (forall k: nat | k < calls :: WaitsOn(ph, a, select, n, k))
    && failed == Going(b) && (failed ==> select(calls, b.watched).Failed?)
  }

  /** How a wait ends is settled by how it starts and what select reports. */
  lemma EndsOnce(ph: Phase, a: Wait, select: (nat, set<int>) -> Select, n: nat,
                 calls: nat, b: Wait, failed: bool, calls2: nat, b2: Wait, failed2: bool)
    requires Ends(ph, a, select, n, calls, b, failed) && Ends(ph, a, select, n, calls2, b2, failed2)
    ensures calls == calls2 && b == b2 && failed == failed2
  {
    OverAt(ph, a, select, n, calls, b, failed);
    OverAt(ph, a, select, n, calls2, b2, failed2);
  }

  lemma OverAt(ph: Phase, a: Wait, select: (nat, set<int>) -> Select, n: nat, calls: nat, b: Wait, failed: bool)
    requires Ends(ph, a, select, n, calls, b, failed)
    ensures !WaitsOn(ph, a, select, n, calls)
  {
  }

  /** The wait has gone on for `calls` calls of select, and is in b. */
  ghost predicate InWait(ph: Phase, a: Wait, select: (nat, set<int>) -> Select, n: nat, calls: nat, b: Wait) {
    && Balanced(ph, a, n) && Leads(ph, a, Heard(ph, a, select, n, calls), b, n)
    && forall k: nat | k < calls :: WaitsOn(ph, a, select, n, k)
  }

  lemma StartWait(ph: Phase, valid: seq<bool>, who: set<int>, select: (nat, set<int>) -> Select)
    requires forall i | i in who :: 0 <= i < |valid| && valid[i]
    ensures var a := WaitFor(valid, who); Connected(a) == who && InWait(ph, a, select, |valid|, 0, a) && Balanced(ph, a, |valid|)
  {
    assert Connected(WaitFor(valid, who)) == who;
  }

  lemma WaitFacts(ph: Phase, a: Wait, select: (nat, set<int>) -> Select, n: nat, calls: nat, b: Wait)
    requires InWait(ph, a, select, n, calls, b)
    ensures Leads(ph, a, Heard(ph, a, select, n, calls), b, n) && Balanced(ph, b, n) && Excludes(ph, a, b)
  {
    WaitInvariant(ph, a, Heard(ph, a, select, n, calls), b, n);
  }

  /** One more report. */
  lemma WaitStep(ph: Phase, a: Wait, select: (nat, set<int>) -> Select, n: nat, calls: nat, w: Wait, b: Wait)
    requires InWait(ph, a, select, n, calls, w) && Going(w) && !select(calls, w.watched).Failed?
    requires Leads(ph, a, Heard(ph, a, select, n, calls) + Reported(select(calls, w.watched), n), b, n)
    ensures InWait(ph, a, select, n, calls + 1, b)
  {
    hide Balanced, Leads, Heard, Reported, WaitsOn;
    HeardNext(ph, a, select, n, calls, w);
  }

  lemma HeardNext(ph: Phase, a: Wait, select: (nat, set<int>) -> Select, n: nat, calls: nat, w: Wait)
    requires Leads(ph, a, Heard(ph, a, select, n, calls), w, n) && Going(w) && !select(calls, w.watched).Failed?
    ensures WaitsOn(ph, a, select, n, calls)
    ensures Heard(ph, a, select, n, calls + 1) == Heard(ph, a, select, n, calls) + Reported(select(calls, w.watched), n)
  {
    hide Reported, After;
  }

  /** The wait is over, or cannot go on. */
  lemma WaitEnds(ph: Phase, a: Wait, select: (nat, set<int>) -> Select, n: nat, calls: nat, b: Wait, failed: bool)
    requires InWait(ph, a, select, n, calls, b) && failed == Going(b) && (failed ==> select(calls, b.watched).Failed?)
    ensures Ends(ph, a, select, n, calls, b, failed) && Balanced(ph, b, n) && Excludes(ph, a, b)
  {
    WaitFacts(ph, a, select, n, calls, b);
  }

  lemma NoReads(got: map<int, Recv>)
    ensures ReadsBelow(got, 0) == []
  {
  }

  lemma ReadsNext(got: map<int, Recv>, before: seq<Event>, k: nat)
    ensures before + ReadsBelow(got, k + 1) ==
            if k in got then (before + ReadsBelow(got, k)) + [Read(k, got[k])] else before + ReadsBelow(got, k)
  {
  }

  lemma {:induction false} NoMoreReads(got: map<int, Recv>, j: nat, k: nat)
    requires j <= k && forall x | x in got :: x < j
    ensures ReadsBelow(got, k) == ReadsBelow(got, j)
  {
    if j < k { NoMoreReads(got, j, k - 1); }
  }

  /** What reading participant i changes. */
  lemma ReadParts(ph: Phase, w: Wait, i: int, recv: Recv, n: nat)
    requires |w.connected| == |w.valid| == |w.response| == n && 0 <= i < n
    ensures var u := OnEvent(ph, w, Read(i, recv));
            && u.timeout == 0
            && (recv == Lost(true) ==> u == w.(timeout := 0))
            && (recv == Lost(false) ==>
                  u == w.(timeout := 0, connected := w.connected[i := false], valid := w.valid[i := false],
                          watched := w.watched - {i}, alive := w.alive - 1))
            && (recv.Got? ==> u.watched == w.watched - {i} && u.count == w.count + 1 && u.valid == w.valid && u.alive == w.alive)
            && (recv.Got? && ph == Preparing ==>
                  && u.connected == w.connected && u.first == w.first
                  && u.response == w.response[i := if recv.parsed.Some? && recv.parsed.value.Prepared? then 1 else 0])
            && (recv.Got? && ph == Deciding ==>
                  && u.connected == w.connected[i := false] && u.response == w.response
                  && u.first == if w.count == 0 && recv.parsed.Some? then recv.parsed else w.first)
  {
    if recv == Lost(false) {
      assert CutOff(w, {i}).connected == w.connected[i := false] && CutOff(w, {i}).valid == w.valid[i := false];
    }
  }

  class Coordinator {
    const participantCount: nat
    const valid: array<bool>

    constructor (valid: array<bool>)
      ensures this.valid == valid && participantCount == valid.Length
    {
      this.valid := valid;
      participantCount := valid.Length;
    }

    /** Every answer is PREPARED. No answers at all do not count as agreement. */
    static method CheckPrepared(response: seq<int>) returns (ok: bool)
      ensures ok <==> response != [] && 0 !in response
    {
      if |response| == 0 { return false; }
      var i := 0;
      while i < |response|
        invariant 0 <= i <= |response| && 0 !in response[..i]
      {
        if response[i] == 0 { return false; }
        i := i + 1;
      }
      assert response[..|response|] == response;
      return true;
    }

    /** Close the sockets of everybody watched, for good. */
    method DropWatched(sockets: array<bool>, watched: set<int>, ghost w: Wait)
      requires sockets.Length == valid.Length == participantCount && sockets != valid
      requires w.connected == sockets[..] && w.valid == valid[..] && watched == w.watched && watched <= Connected(w)
      modifies sockets, valid
      ensures sockets[..] == CutOff(w, watched).connected && valid[..] == CutOff(w, watched).valid
    {
      var i := 0;
      while i < participantCount
        invariant 0 <= i <= participantCount
        invariant forall k | 0 <= k < participantCount ::
                    && sockets[k] == (w.connected[k] && !(k < i && k in watched))
                    && valid[k] == (w.valid[k] && !(k < i && k in watched))
      {
        assert i in watched ==> i in Connected(w);
        if sockets[i] && i in watched {
          sockets[i] := false;
          valid[i] := false;
        }
        i := i + 1;
      }
    }

    /**
      Wait until every participant still alive has answered the prepare
      request. The result is 1 when at least one answered and all answers are
      PREPARED, 0 when one is not, -1 when select failed or nobody is left.
      `b` holds the variables at the end, after `calls` calls of select.
     */
    method WaitForPrepared(sockets: array<bool>, alive0: int, select: (nat, set<int>) -> Select, ghost horizon: nat)
      returns (result: int, alive: int, ghost calls: nat, ghost b: Wait, ghost failed: bool)
      requires sockets.Length == valid.Length == participantCount && sockets != valid
      requires alive0 == |Open(sockets[..])| && forall i | 0 <= i < participantCount && sockets[i] :: valid[i]
      requires Reports(select, horizon)
      modifies sockets, valid
      ensures Ends(Preparing, WaitFor(old(valid[..]), old(Open(sockets[..]))), select, participantCount, calls, b, failed)
      ensures Balanced(Preparing, b, participantCount) && Excludes(Preparing, WaitFor(old(valid[..]), old(Open(sockets[..]))), b)
      ensures b.connected == sockets[..] && b.valid == valid[..] && b.alive == alive
      ensures failed ==> result == -1
      ensures !failed ==> result == if b.count == 0 then -1 else if 0 in b.response then 0 else 1
    {
      hide InWait, Ends, Balanced, Excludes, Leads;
      ghost var a := WaitFor(valid[..], Open(sockets[..]));
      StartWait(Preparing, valid[..], Open(sockets[..]), select);
      var watched := Open(sockets[..]);
      alive := alive0;
      var count, timeout := 0, 0;
      var first: Option<Reply> := None;
      var response: seq<int> := seq(participantCount, _ => -1);
      b, failed := a, false;
      assert a.connected == sockets[..];
      var k: nat := 0;
      while alive > 0 && count < alive
        invariant b == Wait(sockets[..], watched, valid[..], alive, count, timeout, response, first)
        invariant InWait(Preparing, a, select, participantCount, k, b)
        decreases if k < horizon then horizon - k else 0, |watched|, 3 - timeout
      {
        var s := select(k, watched);
        if s.Failed? {
          WaitEnds(Preparing, a, select, participantCount, k, b, true);
          return -1, alive, k, b, true;
        }
        watched, alive, count, timeout, response, first, b :=
          Round(Preparing, sockets, s, watched, alive, count, timeout, response, first, a, select, k, b, horizon);
        k := k + 1;
      }
      WaitEnds(Preparing, a, select, participantCount, k, b, false);
      if count == 0 {
        return -1, alive, k, b, false;
      }
      SomeParticipant(b, participantCount);
      var ok := CheckPrepared(response);
      return if ok then 1 else 0, alive, k, b, false;
    }

    /**
      Wait until every participant still alive has answered the decision. The
      result is 1 when at least one answered, -1 when select failed or nobody
      is left; `first` is the first answer counted, if it could be parsed.
     */
    method WaitForCommitOrAbort(sockets: array<bool>, alive0: int, select: (nat, set<int>) -> Select, ghost horizon: nat)
      returns (result: int, alive: int, first: Option<Reply>, ghost calls: nat, ghost b: Wait, ghost failed: bool)
      requires sockets.Length == valid.Length == participantCount && sockets != valid
      requires alive0 == |Open(sockets[..])| && forall i | 0 <= i < participantCount && sockets[i] :: valid[i]
      requires Reports(select, horizon)
      modifies sockets, valid
      ensures Ends(Deciding, WaitFor(old(valid[..]), old(Open(sockets[..]))), select, participantCount, calls, b, failed)
      ensures Balanced(Deciding, b, participantCount) && Excludes(Deciding, WaitFor(old(valid[..]), old(Open(sockets[..]))), b)
      ensures b.connected == sockets[..] && b.valid == valid[..] && b.alive == alive && b.first == first
      ensures failed ==> result == -1
      ensures !failed ==> result == if b.count == 0 then -1 else 1
    {
      hide InWait, Ends, Balanced, Excludes, Leads;
      ghost var a := WaitFor(valid[..], Open(sockets[..]));
      StartWait(Deciding, valid[..], Open(sockets[..]), select);
      var watched := Open(sockets[..]);
      alive := alive0;
      var count, timeout := 0, 0;
      var response: seq<int> := seq(participantCount, _ => -1);
      first, b, failed := None, a, false;
      assert a.connected == sockets[..];
      var k: nat := 0;
      while alive > 0 && count < alive
        invariant b == Wait(sockets[..], watched, valid[..], alive, count, timeout, response, first)
        invariant InWait(Deciding, a, select, participantCount, k, b)
        decreases if k < horizon then horizon - k else 0, |watched|, 3 - timeout
      {
        var s := select(k, watched);
        if s.Failed? {
          WaitEnds(Deciding, a, select, participantCount, k, b, true);
          return -1, alive, first, k, b, true;
        }
        watched, alive, count, timeout, response, first, b :=
          Round(Deciding, sockets, s, watched, alive, count, timeout, response, first, a, select, k, b, horizon);
        k := k + 1;
      }
      WaitEnds(Deciding, a, select, participantCount, k, b, false);
      return if count == 0 then -1 else 1, alive, first, k, b, false;
    }

    /** One round of either loop, for what select has reported. */
    method Round(ph: Phase, sockets: array<bool>, s: Select, watched0: set<int>, alive0: int, count0: int, timeout0: int,
                 response0: seq<int>, first0: Option<Reply>,
                 ghost a: Wait, ghost select: (nat, set<int>) -> Select, ghost k: nat, ghost b0: Wait, ghost horizon: nat)
      returns (watched: set<int>, alive: int, count: int, timeout: int, response: seq<int>, first: Option<Reply>, ghost b: Wait)
      requires sockets.Length == valid.Length == participantCount && sockets != valid && Reports(select, horizon)
      requires b0 == Wait(sockets[..], watched0, valid[..], alive0, count0, timeout0, response0, first0)
      requires InWait(ph, a, select, participantCount, k, b0) && Going(b0) && s == select(k, watched0) && !s.Failed?
      modifies sockets, valid
      ensures b == Wait(sockets[..], watched, valid[..], alive, count, timeout, response, first)
      ensures InWait(ph, a, select, participantCount, k + 1, b)
      ensures k < horizon || |watched| < |watched0| || (|watched| == |watched0| && timeout0 < timeout <= 3)
    {
      hide InWait, Balanced, Excludes, Leads, Heard;
      watched, alive, count, timeout, response, first := watched0, alive0, count0, timeout0, response0, first0;
      ghost var es := Heard(ph, a, select, participantCount, k);
      WaitFacts(ph, a, select, participantCount, k, b0);
      SomeWatched(ph, b0, participantCount);
      if s.Quiet? {
        EventBalanced(ph, b0, TimedOut, participantCount);
        LeadsSnoc(ph, a, es, b0, TimedOut, participantCount);
        b := OnEvent(ph, b0, TimedOut);
        if timeout == 3 {
          DropWatched(sockets, watched, b0);
          alive := alive - |watched|;
          watched := {};
          timeout := 0;
        } else {
          timeout := timeout + 1;
        }
      } else {
        timeout := 0;
        ghost var es2;
        watched, alive, count, response, first, es2, b :=
          ReadReady(ph, sockets, s.got, watched, alive, count, response, first, a, es, b0);
      }
      WaitStep(ph, a, select, participantCount, k, b0, b);
    }

    /** Read every ready participant once, in order. */
    method ReadReady(ph: Phase, sockets: array<bool>, got: map<int, Recv>, watched0: set<int>, alive0: int, count0: int,
                     response0: seq<int>, first0: Option<Reply>, ghost a: Wait, ghost es0: seq<Event>, ghost b0: Wait)
      returns (watched: set<int>, alive: int, count: int, response: seq<int>, first: Option<Reply>, ghost es: seq<Event>, ghost b: Wait)
      requires sockets.Length == valid.Length == participantCount && sockets != valid
      requires b0 == Wait(sockets[..], watched0, valid[..], alive0, count0, b0.timeout, response0, first0)
      requires Leads(ph, a, es0, b0, participantCount) && Balanced(ph, b0, participantCount)
      requires got != map[] && got.Keys <= watched0
      modifies sockets, valid
      ensures b == Wait(sockets[..], watched, valid[..], alive, count, 0, response, first)
      ensures es == es0 + ReadsBelow(got, participantCount)
      ensures Leads(ph, a, es, b, participantCount) && Balanced(ph, b, participantCount)
      ensures |watched| <= |watched0| && ((forall i | i in got :: got[i] != Lost(true)) ==> |watched| < |watched0|)
    {
      hide Leads, Balanced, ReadsBelow;
      watched, alive, count, response, first, es, b := watched0, alive0, count0, response0, first0, es0, b0;
      ghost var left := got.Keys;
      var nReady := |got|;
      var i := 0;
      NoReads(got);
      WatchedConnected(ph, b, participantCount);
      while i < participantCount && nReady > 0
        invariant 0 <= i <= participantCount && nReady == |left|
        invariant left <= got.Keys && left <= watched && forall x | x in got :: x in left <==> x >= i
        invariant b == Wait(sockets[..], watched, valid[..], alive, count, b.timeout, response, first)
        invariant left != got.Keys ==> b.timeout == 0
        invariant es == es0 + ReadsBelow(got, i)
        invariant Leads(ph, a, es, b, participantCount) && Balanced(ph, b, participantCount)
        invariant |watched| <= |watched0|
        invariant left != got.Keys && (forall x | x in got :: got[x] != Lost(true)) ==> |watched| < |watched0|
      {
        WatchedConnected(ph, b, participantCount);
        ReadsNext(got, es0, i);
        if sockets[i] && i in got {
          nReady := nReady - 1;
          left := left - {i};
          watched, alive, count, response, first, es, b :=
            ReadOne(ph, sockets, i, got[i], watched, alive, count, response, first, a, es, b);
        }
        i := i + 1;
      }
      NoMoreReads(got, i, participantCount);
    }

    /** Read one ready participant: what the two wait loops do with it. */
    method ReadOne(ph: Phase, sockets: array<bool>, i: int, recv: Recv, watched0: set<int>, alive0: int, count0: int,
                   response0: seq<int>, first0: Option<Reply>, ghost a: Wait, ghost es0: seq<Event>, ghost b0: Wait)
      returns (watched: set<int>, alive: int, count: int, response: seq<int>, first: Option<Reply>, ghost es: seq<Event>, ghost b: Wait)
      requires sockets.Length == valid.Length == participantCount && sockets != valid
      requires b0 == Wait(sockets[..], watched0, valid[..], alive0, count0, b0.timeout, response0, first0)
      requires Leads(ph, a, es0, b0, participantCount) && Balanced(ph, b0, participantCount)
      requires i in watched0
      modifies sockets, valid
      ensures b == Wait(sockets[..], watched, valid[..], alive, count, 0, response, first)
      ensures Leads(ph, a, es, b, participantCount) && Balanced(ph, b, participantCount)
      ensures es == es0 + [Read(i, recv)]
      ensures watched == if recv == Lost(true) then watched0 else watched0 - {i}
      ensures |watched| == |watched0| - if recv == Lost(true) then 0 else 1
    {
      hide Leads, Balanced, OnEvent, CutOff;
      watched, alive, count, response, first := watched0, alive0, count0, response0, first0;
      ghost var e := Read(i, recv);
      WatchedConnected(ph, b0, participantCount);
      EventBalanced(ph, b0, e, participantCount);
      LeadsSnoc(ph, a, es0, b0, e, participantCount);
      b, es := OnEvent(ph, b0, e), es0 + [e];
      ReadParts(ph, b0, i, recv, participantCount);
      match recv {
        case Lost(again) =>
          watched := watched - {i};
          if !again {
            sockets[i] := false;
            valid[i] := false;
            alive := alive - 1;
          } else {
            watched := watched + {i};
          }
        case Got(m) =>
          if ph == Preparing {
            if m.Some? && m.value.Prepared? {
              response := response[i := 1];
            } else {
              response := response[i := 0];
            }
            watched := watched - {i};
            count := count + 1;
          } else {
            if m.Some? {
              if count == 0 { first := m; }
            }
            watched := watched - {i};
            count := count + 1;
            sockets[i] := false;
          }
      }
      assert sockets[..] == b.connected && valid[..] == b.valid;
    }
  }
}
