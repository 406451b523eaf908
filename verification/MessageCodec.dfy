/**
  The texts that clients, coordinator and participants exchange: how they are
  built, how they are taken apart, and that the second undoes the first.
 */
module MessageCodec {
  import opened KvMessages
  import opened TextLines
  import P = Participant

  // ----- RESP arrays of bulk strings ----------------------------------------------------------

  function Bulk(w: string): string {
    "$" + ToString(|w|) + CRLF + w + CRLF
  }

  function Bulks(ws: seq<string>): string {
    if ws == [] then [] else Bulk(ws[0]) + Bulks(ws[1..])
  }

  /** What a client sends, and what it is answered on a GET. */
  function RespArray(ws: seq<string>): string {
    "*" + ToString(|ws|) + CRLF + Bulks(ws)
  }

  lemma {:induction false} BulksSnoc(ws: seq<string>, w: string)
    ensures Bulks(ws + [w]) == Bulks(ws) + Bulk(w)
  {
    if ws == [] {
      assert [] + [w] == [w];
      assert Bulks([w]) == Bulk(w) + Bulks([w][1..]);
    } else {
      assert (ws + [w])[1..] == ws[1..] + [w];
      BulksSnoc(ws[1..], w);
    }
  }

  /** A reading of RESP that trusts the counts and the lengths, and nothing else. */
  function ReadNumber(s: string): Option<(nat, string)> {
    var d := Line(s);
    if |d| < |s| && |d| > 1 && d[|d| - 1] == '\r' && Digits(d[..|d| - 1])
    then Some((NumberOf(d[..|d| - 1]), s[|d| + 1..])) else None
  }

  function ReadBulk(s: string): Option<(string, string)> {
    if s == [] || s[0] != '$' then None
    else
      match ReadNumber(s[1..])
      case None => None
      case Some((n, t)) =>
        if n + 2 <= |t| && t[n..n + 2] == CRLF then Some((t[..n], t[n + 2..])) else None
  }

  function ReadBulks(n: nat, s: string): Option<seq<string>> {
    if n == 0 then (if s == [] then Some([]) else None)
    else
      match ReadBulk(s)
      case None => None
      case Some((w, t)) =>
        match ReadBulks(n - 1, t)
        case None => None
        case Some(ws) => Some([w] + ws)
  }

  function ReadRespArray(s: string): Option<seq<string>> {
    if s == [] || s[0] != '*' then None
    else
      match ReadNumber(s[1..])
      case None => None
      case Some((n, t)) => ReadBulks(n, t)
  }

  lemma NumberRead(n: nat, t: string)
    ensures ReadNumber(ToString(n) + CRLF + t) == Some((n, t))
  {
    NumberRoundTrip(n);
    var s := ToString(n) + CRLF + t;
    assert s == (ToString(n) + "\r") + "\n" + t;
    LineOf(ToString(n) + "\r", t);
    assert (ToString(n) + "\r")[..|ToString(n)|] == ToString(n);
    assert s[|ToString(n)| + 2..] == t;
  }

  lemma BulkRead(w: string, t: string)
    ensures ReadBulk(Bulk(w) + t) == Some((w, t))
  {
    var s, u := Bulk(w) + t, w + CRLF + t;
    assert s[1..] == ToString(|w|) + CRLF + u;
    NumberRead(|w|, u);
    assert u[..|w|] == w && u[|w|..|w| + 2] == CRLF && u[|w| + 2..] == t;
  }

  lemma {:induction false} BulksRead(ws: seq<string>)
    ensures ReadBulks(|ws|, Bulks(ws)) == Some(ws)
  {
    if ws != [] {
      BulkRead(ws[0], Bulks(ws[1..]));
      BulksRead(ws[1..]);
      assert ws == [ws[0]] + ws[1..];
    }
  }

  /** The counts and lengths written are right: any strings at all are read back. */
  lemma RespRoundTrip(ws: seq<string>)
    ensures ReadRespArray(RespArray(ws)) == Some(ws)
  {
    var s := RespArray(ws);
    assert s[1..] == ToString(|ws|) + CRLF + Bulks(ws);
    NumberRead(|ws|, Bulks(ws));
    BulksRead(ws);
  }

  // ----- what the coordinator makes of a client's request ---------------------------------------

  /** A line that carries a count or a length. */
  predicate IsMark(l: string) { l != [] && (l[0] == '*' || l[0] == '$') }

  /** The lines of a request that are no marks. */
  function Kept(ls: seq<string>): seq<string> {
    if ls == [] then [] else (if IsMark(ls[0]) then [] else [Trim(ls[0])]) + Kept(ls[1..])
  }

  /** An argument that is not lost or broken: no line feed inside, and not taken for a mark. */
  predicate Plain(w: string) { NoBreak(w) && !IsMark(w) }

  lemma KeptBulk(w: string, t: string)
    requires NoBreak(w)
    ensures Kept(Lines(Bulk(w) + t)) == (if IsMark(w) then [] else [w]) + Kept(Lines(t))
  {
    NumberRoundTrip(|w|);
    var len := "$" + ToString(|w|);
    assert Bulk(w) + t == len + CRLF + (w + CRLF + t);
    LinesStep(len, w + CRLF + t);
    LinesStep(w, t);
    var ls := [w + "\r"] + Lines(t);
    assert ([len + "\r"] + ls)[1..] == ls && ls[1..] == Lines(t);
    assert Trim(w + "\r") == w;
    assert IsMark(w + "\r") <==> IsMark(w);
  }

  lemma KeptBulksNone()
    ensures Kept(Lines(Bulks([]))) == []
  {
  }

  lemma {:induction false} KeptBulks(ws: seq<string>)
    requires forall k | 0 <= k < |ws| :: NoBreak(ws[k])
    ensures |Kept(Lines(Bulks(ws)))| <= |ws|
    ensures Kept(Lines(Bulks(ws))) == ws <==> forall k | 0 <= k < |ws| :: Plain(ws[k])
  {
    hide NoBreak, IsMark, Lines, Kept, Bulk;
    KeptBulksNone();
    if ws != [] {
      KeptBulk(ws[0], Bulks(ws[1..]));
      KeptBulks(ws[1..]);
      var kept := Kept(Lines(Bulks(ws[1..])));
      assert ws == [ws[0]] + ws[1..];
      if !IsMark(ws[0]) {
        assert ([ws[0]] + kept)[1..] == kept;
        assert forall k | 0 <= k < |ws| - 1 :: ws[1..][k] == ws[k + 1];
      }
    }
  }

  lemma {:induction false} KeptNoBreak(ls: seq<string>)
    requires NoBreaks(ls)
    ensures NoBreaks(Kept(ls))
  {
    if ls != [] { KeptNoBreak(ls[1..]); }
  }

  lemma KeptArray(ws: seq<string>)
    ensures Kept(Lines(RespArray(ws))) == Kept(Lines(Bulks(ws)))
  {
    NumberRoundTrip(|ws|);
    var count := "*" + ToString(|ws|);
    assert RespArray(ws) == count + CRLF + Bulks(ws);
    LinesStep(count, Bulks(ws));
    assert ([count + "\r"] + Lines(Bulks(ws)))[1..] == Lines(Bulks(ws));
  }

  /** The arguments of a request arrive as they were sent exactly when each of them is plain. */
  lemma ArgumentsArrive(ws: seq<string>)
    ensures Kept(Lines(RespArray(ws))) == ws <==> forall k | 0 <= k < |ws| :: Plain(ws[k])
    ensures forall k | 0 <= k < |ws| ::
              Plain(ws[k]) <==> '\n' !in ws[k] && (ws[k] == [] || (ws[k][0] != '*' && ws[k][0] != '$'))
  {
    KeptArray(ws);
    LinesNoBreak(Bulks(ws));
    KeptNoBreak(Lines(Bulks(ws)));
    if forall k | 0 <= k < |ws| :: NoBreak(ws[k]) {
      KeptBulks(ws);
    }
  }

  predicate IsVerb(w: string) { w == "SET" || w == "GET" || w == "DEL" }

  /** The value of a SET is one string again. */
  function Merged(ws: seq<string>): seq<string>
  {
    if |ws| > 3 && ws[0] == "SET" then ws[..2] + [Joined(ws[2..])] else ws
  }

  /** What the parser accepts is what a participant can make a command of, but for a SET without a value. */
  lemma AcceptedExactly(ws: seq<string>)
    ensures |ws| >= 2 && IsVerb(ws[0]) <==> CommandOf(Merged(ws)).Some? || (|ws| == 2 && ws[0] == "SET")
  {
  }

  /** A client that sends these strings is taken to give this command. */
  ghost predicate Understood(words: seq<string>, cmd: Command) {
    var ws := Kept(Lines(RespArray(words)));
    |ws| >= 2 && IsVerb(ws[0]) && CommandOf(Merged(ws)) == Some(cmd)
  }

  lemma NothingUnbroken()
    ensures NoBreak("")
  {
  }

  lemma LongerUnbroken(l: string, c: char)
    requires NoBreak(l) && c != '\n'
    ensures NoBreak(l + [c])
  {
  }

  lemma NoLines(s: string)
    ensures Lines(s[|s|..]) == []
  {
  }

  /** getline: the next line from pos on, if there is a character left. */
  method GetLine(s: string, pos: nat) returns (ok: bool, line: string, next: nat)
    requires pos <= |s|
    ensures pos <= next <= |s| && (ok <==> pos < |s|)
    ensures ok ==> pos < next && Lines(s[pos..]) == [line] + Lines(s[next..])
    ensures !ok ==> next == pos && Lines(s[pos..]) == []
  {
    hide Lines, NoBreak;
    if pos == |s| { NoLines(s); return false, [], pos; }
    line, next := TakeLine(s, pos);
    LineAt(s, pos, next);
    if next < |s| { next := next + 1; }
    return true, line, next;
  }

  /** The characters up to the next line feed. */
  method TakeLine(s: string, pos: nat) returns (line: string, next: nat)
    requires pos <= |s|
    ensures pos <= next <= |s| && line == s[pos..next] && NoBreak(line) && (next < |s| ==> s[next] == '\n')
  {
    hide NoBreak;
    line, next := [], pos;
    NothingUnbroken();
    while next < |s| && s[next] != '\n'
      invariant pos <= next <= |s| && line == s[pos..next] && NoBreak(line)
    {
      LongerUnbroken(line, s[next]);
      line := line + [s[next]];
      next := next + 1;
    }
  }

  /**
    The words of a client's request: its lines without the marks, the value of
    a SET merged into one. No line may be empty: its last character is taken off.
   */
  method ParseClientMsg(str: string, before: seq<string>) returns (ok: bool, split: seq<string>)
    requires forall k | 0 <= k < |Lines(str)| :: Lines(str)[k] != []
    ensures str == [] ==> !ok && split == before
    ensures str != [] ==>
              var ws := Kept(Lines(str));
              && (ok <==> |ws| >= 2 && IsVerb(ws[0]))
              && split == if ok then Merged(ws) else ws
  {
    if str == [] { return false, before; }
    split := KeptLines(str);
    var lineNum := |split|;
    if lineNum < 2 || !IsVerb(split[0]) { return false, split; }
    if split[0] == "SET" && lineNum > 3 {
      split := MergeValue(split);
    }
    return true, split;
  }

  /** The loop of ParseClientMsg: each line that is no mark, without its last character. */
  method KeptLines(str: string) returns (split: seq<string>)
    requires forall k | 0 <= k < |Lines(str)| :: Lines(str)[k] != []
    ensures split == Kept(Lines(str))
  {
    hide Lines, Kept;
    split := [];
    var pos := 0;
    assert str[0..] == str;
    ghost var rest := Lines(str);
    var more, temp, next := GetLine(str, pos);
    while more
      invariant pos <= next <= |str| && (more <==> pos < |str|)
      invariant rest == Lines(str[pos..]) && Kept(Lines(str)) == split + Kept(rest)
      invariant forall k | 0 <= k < |rest| :: rest[k] != []
      invariant more ==> pos < next && rest == [temp] + Lines(str[next..])
      invariant !more ==> rest == []
      decreases |str| - pos
    {
      assert temp == rest[0] && rest[1..] == Lines(str[next..]);
      KeptFirst(rest);
      if temp[0] != '*' && temp[0] != '$' {
        temp := temp[..|temp| - 1];
        split := split + [temp];
      }
      pos := next;
      rest := rest[1..];
      more, temp, next := GetLine(str, pos);
    }
    KeptNone();
  }

  lemma KeptFirst(ls: seq<string>)
    requires ls != [] && ls[0] != []
    ensures Kept(ls) == (if ls[0][0] == '*' || ls[0][0] == '$' then [] else [ls[0][..|ls[0]| - 1]]) + Kept(ls[1..])
  {
  }

  lemma KeptNone()
    ensures Kept([]) == [] && Trimmed([]) == []
  {
  }

  lemma TrimmedFirst(ls: seq<string>)
    requires ls != [] && ls[0] != []
    ensures Trimmed(ls) == [ls[0][..|ls[0]| - 1]] + Trimmed(ls[1..])
  {
  }

  /** Append the words from the fourth on to the third, and drop them. */
  method MergeValue(ws: seq<string>) returns (split: seq<string>)
    requires |ws| > 3
    ensures split == ws[..2] + [Joined(ws[2..])]
  {
    split := ws;
    var i := 3;
    while i < |ws|
      invariant 3 <= i <= |ws| && |split| == |ws|
      invariant split == ws[..2] + [Joined(ws[2..i])] + ws[3..]
    {
      JoinedSnoc(ws[2..i], ws[i]);
      assert ws[2..i + 1] == ws[2..i] + [ws[i]];
      split := split[2 := split[2] + " "];
      split := split[2 := split[2] + split[i]];
      i := i + 1;
    }
    assert ws[2..i] == ws[2..];
    i := 3;
    while i < |ws|
      invariant 3 <= i <= |ws| && split == ws[..2] + [Joined(ws[2..])] + ws[3..|ws| - (i - 3)]
    {
      split := split[..|split| - 1];
      i := i + 1;
    }
  }

  // ----- between coordinator and participants ---------------------------------------------------

  method ParseClusterMsg(str: string, before: seq<string>) returns (ok: bool, split: seq<string>)
    requires forall k | 0 <= k < |Lines(str)| :: Lines(str)[k] != []
    ensures str == [] ==> !ok && split == before
    ensures str != [] ==> split == Trimmed(Lines(str)) && (ok <==> |split| >= 2)
  {
    hide Lines, Trimmed;
    if str == [] { return false, before; }
    split := [];
    var pos := 0;
    assert str[0..] == str;
    ghost var rest := Lines(str);
    var more, temp, next := GetLine(str, pos);
    while more
      invariant pos <= next <= |str| && (more <==> pos < |str|)
      invariant rest == Lines(str[pos..]) && Trimmed(Lines(str)) == split + Trimmed(rest)
      invariant forall k | 0 <= k < |rest| :: rest[k] != []
      invariant more ==> pos < next && rest == [temp] + Lines(str[next..])
      invariant !more ==> rest == []
      decreases |str| - pos
    {
      assert temp == rest[0] && rest[1..] == Lines(str[next..]);
      TrimmedFirst(rest);
      temp := temp[..|temp| - 1];
      split := split + [temp];
      pos := next;
      rest := rest[1..];
      more, temp, next := GetLine(str, pos);
    }
    KeptNone();
    return |split| >= 2, split;
  }

  method GetClusterPrepareRequestMsg(id: nat, split: seq<string>) returns (msg: string)
    ensures msg == Ended(["PREPARED-REQUEST", ToString(id)] + split)
  {
    msg := "PREPARED-REQUEST\r\n" + ToString(id) + "\r\n";
    TwoLines("PREPARED-REQUEST", ToString(id));
    var i := 0;
    while i < |split|
      invariant 0 <= i <= |split| && msg == Ended(["PREPARED-REQUEST", ToString(id)] + split[..i])
    {
      EndedSnoc(["PREPARED-REQUEST", ToString(id)] + split[..i], split[i]);
      assert ["PREPARED-REQUEST", ToString(id)] + split[..i + 1] == ["PREPARED-REQUEST", ToString(id)] + split[..i] + [split[i]];
      msg := msg + split[i];
      msg := msg + "\r\n";
      i := i + 1;
    }
    assert split[..i] == split;
  }

  lemma TwoLines(a: string, b: string)
    ensures Ended([a, b]) == a + CRLF + b + CRLF && [a, b] + [] == [a, b]
  {
    EndedSnoc([a], b);
    EndedSnoc([], a);
    assert [] + [a] == [a] && [a] + [b] == [a, b];
  }

  function CommandLines(cmd: Command): seq<string> {
    match cmd
    case Set(k, v) => ["SET", k, v]
    case Get(k) => ["GET", k]
    case Del(ks) => ["DEL"] + ks
  }

  /** The command in the words of a request; a SET needs a value. */
  function CommandOf(ws: seq<string>): Option<Command> {
    if |ws| >= 3 && ws[0] == "SET" then Some(Set(ws[1], ws[2]))
    else if |ws| >= 2 && ws[0] == "GET" then Some(Get(ws[1]))
    else if |ws| >= 2 && ws[0] == "DEL" then Some(Del(ws[1..]))
    else None
  }

  /** The text of a request to a participant. Transaction ids are drawn from 0..9999. */
  function RequestText(r: Request): string
    requires r.id >= 0
  {
    match r
    case Prepare(id, cmd) => Ended(["PREPARED-REQUEST", ToString(id)] + CommandLines(cmd))
    case Commit(id) => "COMMIT\r\n" + ToString(id) + "\r\n"
    case Abort(id) => "ABORT\r\n" + ToString(id) + "\r\n"
  }

  function IdOf(s: string): Option<int> {
    if Digits(s) then Some(NumberOf(s)) else None
  }

  /** How a participant reads the lines of a request. */
  function RequestOf(ls: seq<string>): Option<Request> {
    if |ls| < 2 || IdOf(ls[1]).None? then None
    else
      var id := IdOf(ls[1]).value;
      if ls[0] == "PREPARED-REQUEST" then
        match CommandOf(ls[2..])
        case None => None
        case Some(cmd) => Some(Prepare(id, cmd))
      else if ls[0] == "COMMIT" then Some(Commit(id))
      else if ls[0] == "ABORT" then Some(Abort(id))
      else None
  }

  predicate CommandUnbroken(cmd: Command) { NoBreaks(CommandLines(cmd)) }

  lemma CommandRoundTrip(cmd: Command)
    requires cmd.Proper()
    ensures CommandOf(CommandLines(cmd)) == Some(cmd)
  {
    if cmd.Del? { assert CommandLines(cmd)[1..] == cmd.keys; }
  }

  lemma PrepareLines(id: nat, ws: seq<string>)
    ensures var ls := ["PREPARED-REQUEST", ToString(id)] + ws;
            && (NoBreaks(ls) <==> NoBreaks(ws)) && ls[2..] == ws && IdOf(ls[1]) == Some(id)
  {
    NumberRoundTrip(id);
    var ls := ["PREPARED-REQUEST", ToString(id)] + ws;
    assert ls[2..] == ws;
    assert forall k | 0 <= k < |ws| :: ls[k + 2] == ws[k];
    assert NoBreak("PREPARED-REQUEST");
  }

  /** A participant reads the request that was sent exactly when no key and no value has a line feed inside. */
  lemma RequestRoundTrip(r: Request)
    requires r.id >= 0 && (r.Prepare? ==> r.cmd.Proper())
    ensures RequestOf(Trimmed(Lines(RequestText(r)))) == Some(r) <==> (r.Prepare? ==> CommandUnbroken(r.cmd))
  {
    hide RequestOf, RequestText, Lines, Trimmed, CommandUnbroken;
    match r {
      case Prepare(id, cmd) => PrepareRoundTrip(id, cmd);
      case Commit(id) => CommitRoundTrip(id);
      case Abort(id) => AbortRoundTrip(id);
    }
  }

  lemma CommitRoundTrip(id: nat)
    ensures RequestOf(Trimmed(Lines(RequestText(Commit(id))))) == Some(Commit(id))
  {
    hide Lines, Trimmed, ToString, IdOf, CommandOf;
    DecisionRoundTrip("COMMIT", id);
    assert "COMMIT\r\n" == "COMMIT" + "\r\n";
  }

  lemma AbortRoundTrip(id: nat)
    ensures RequestOf(Trimmed(Lines(RequestText(Abort(id))))) == Some(Abort(id))
  {
    hide Lines, Trimmed, ToString, IdOf, CommandOf;
    DecisionRoundTrip("ABORT", id);
    assert "ABORT\r\n" == "ABORT" + "\r\n";
  }

  lemma DecisionRoundTrip(kind: string, id: nat)
    requires NoBreak(kind)
    ensures var ls := Trimmed(Lines(kind + "\r\n" + ToString(id) + "\r\n"));
            |ls| == 2 && ls[0] == kind && IdOf(ls[1]) == Some(id)
  {
    hide Lines, Ended, Trimmed, ToString, Digits;
    NumberRoundTrip(id);
    TwoLines(kind, ToString(id));
    LinesRoundTrip([kind, ToString(id)]);
  }

  lemma PrepareRoundTrip(id: nat, cmd: Command)
    requires cmd.Proper()
    ensures RequestOf(Trimmed(Lines(RequestText(Prepare(id, cmd))))) == Some(Prepare(id, cmd)) <==> CommandUnbroken(cmd)
  {
    hide Lines, Ended, Trimmed, ToString, IdOf, CommandLines, CommandOf, NoBreaks;
    var ws := CommandLines(cmd);
    var ls := ["PREPARED-REQUEST", ToString(id)] + ws;
    PrepareLines(id, ws);
    CommandRoundTrip(cmd);
    LinesRoundTrip(ls);
    var got := Trimmed(Lines(RequestText(Prepare(id, cmd))));
    if RequestOf(got) == Some(Prepare(id, cmd)) {
      ReadUnbroken(got, id, cmd, RequestText(Prepare(id, cmd)));
    }
  }

  /** What is read has no line feeds inside. */
  lemma ReadUnbroken(ls: seq<string>, id: int, cmd: Command, s: string)
    requires ls == Trimmed(Lines(s)) && RequestOf(ls) == Some(Prepare(id, cmd))
    ensures CommandUnbroken(cmd)
  {
    hide NoBreak, Lines, Trimmed, IdOf;
    LinesNoBreak(s);
    TrimmedNoBreak(Lines(s));
    var ws := ls[2..];
    CommandOfUnbroken(ws, cmd);
  }

  lemma {:induction false} TrimmedNoBreak(ls: seq<string>)
    requires NoBreaks(ls)
    ensures NoBreaks(Trimmed(ls))
  {
    if ls != [] { TrimmedNoBreak(ls[1..]); }
  }

  lemma CommandOfUnbroken(ws: seq<string>, cmd: Command)
    requires NoBreaks(ws) && CommandOf(ws) == Some(cmd)
    ensures CommandUnbroken(cmd)
  {
    hide NoBreak;
    VerbsUnbroken();
    match cmd
    case Set(k, v) => assert CommandLines(cmd) == ["SET", ws[1], ws[2]];
    case Get(k) => assert CommandLines(cmd) == ["GET", ws[1]];
    case Del(ks) => assert CommandLines(cmd) == ["DEL"] + ws[1..];
  }

  lemma VerbsUnbroken()
    ensures NoBreak("SET") && NoBreak("GET") && NoBreak("DEL") && NoBreak("PREPARED") && NoBreak("DONE") && NoBreak("PREPARED-REQUEST")
  {
  }

  // ----- replies ----------------------------------------------------------------------------

  function VerbText(v: Verb): string {
    match v
    case SET => "SET"
    case GET => "GET"
    case DEL => "DEL"
  }

  /** The texts a participant answers with; nothing after the verb when there is nothing to add. */
  function ReplyText(r: Reply): string
    requires r.id >= 0
  {
    match r
    case Prepared(id, verb) => "PREPARED\r\n" + ToString(id) + "\r\n" + VerbText(verb) + "\r\n"
    case Done(id, verb, extra) =>
      if extra != "" then "DONE\r\n" + ToString(id) + "\r\n" + VerbText(verb) + "\r\n" + extra + "\r\n"
      else "DONE\r\n" + ToString(id) + "\r\n" + VerbText(verb) + "\r\n"
  }

  function ReplyLines(r: Reply): seq<string>
    requires r.id >= 0
  {
    match r
    case Prepared(id, verb) => ["PREPARED", ToString(id), VerbText(verb)]
    case Done(id, verb, extra) =>
      ["DONE", ToString(id), VerbText(verb)] + if extra == "" then [] else [extra]
  }

  lemma ReplyIsLines(r: Reply)
    requires r.id >= 0
    ensures ReplyText(r) == Ended(ReplyLines(r))
  {
    hide Ended, ToString;
    var id, verb := ToString(r.id), VerbText(r.verb);
    if r.Prepared? {
      ThreeLines("PREPARED", id, verb);
      assert "PREPARED\r\n" == "PREPARED" + CRLF;
    } else {
      ThreeLines("DONE", id, verb);
      assert "DONE\r\n" == "DONE" + CRLF;
      if r.extra != "" {
        EndedSnoc(["DONE", id, verb], r.extra);
      } else {
        assert ["DONE", id, verb] + [] == ["DONE", id, verb];
      }
    }
  }

  lemma ThreeLines(a: string, b: string, c: string)
    ensures Ended([a, b, c]) == a + CRLF + b + CRLF + c + CRLF
  {
    TwoLines(a, b);
    EndedSnoc([a, b], c);
    assert [a, b] + [c] == [a, b, c];
  }

  /** A reply's lines come back exactly when its addition has no line feed inside. */
  lemma ReplyRoundTrip(r: Reply)
    requires r.id >= 0
    ensures Trimmed(Lines(ReplyText(r))) == ReplyLines(r) <==> (r.Done? ==> NoBreak(r.extra))
  {
    hide Lines, Trimmed, NoBreak, ToString, Ended, ReplyText;
    ReplyIsLines(r);
    NumberRoundTrip(r.id);
    VerbsUnbroken();
    NothingUnbroken();
    var ls := ReplyLines(r);
    LinesRoundTrip(ls);
    assert NoBreak(ls[0]) && NoBreak(ls[1]) && NoBreak(ls[2]);
    if r.Done? && r.extra != "" { assert ls[3] == r.extra; }
  }

  // ----- what the client is told ----------------------------------------------------------------

  function ClientText(c: ClientReply): string {
    match c
    case OkReply => "+OK\r\n"
    case Words(v) => RespArray(WordsOf(v))
    case Number(t) => ":" + t + "\r\n"
    case ErrorReply => "-ERROR\r\n"
  }

  /** The answer to a GET or a DEL: four lines are needed, the last is the value or the count. */
  function Answer(split: seq<string>): string {
    if |split| == 4 && split[2] == "GET" then RespArray(WordsOf(split[3]))
    else if |split| == 4 && split[2] == "DEL" then ":" + split[3] + "\r\n"
    else "-ERROR\r\n"
  }

  /** stringstream extraction: skip white space, then take a word; next is where it stopped. */
  method NextWord(s: string, pos: nat) returns (ok: bool, word: string, next: nat)
    requires pos <= |s|
    ensures pos <= next <= |s|
    ensures ok ==> pos < next && WordsOf(s[pos..]) == [word] + WordsOf(s[next..])
    ensures !ok ==> WordsOf(s[pos..]) == []
  {
    hide IsSpace, WordsOf;
    next := pos;
    word := [];
    while next < |s| && IsSpace(s[next])
      invariant pos <= next <= |s| && forall k | pos <= k < next :: IsSpace(s[k])
    {
      next := next + 1;
    }
    if next == |s| {
      SkippedTo(s, pos, next);
      assert s[next..] == [];
      NoWords();
      return false, word, next;
    }
    ghost var start := next;
    while next < |s| && !IsSpace(s[next])
      invariant start <= next <= |s| && word == s[start..next]
      invariant forall k | 0 <= k < |word| :: !IsSpace(word[k])
    {
      word := word + [s[next]];
      next := next + 1;
    }
    WordAt(s, pos, start, next);
    return true, word, next;
  }

  method CutStringBySpace(str: string) returns (split: seq<string>)
    ensures split == WordsOf(str)
  {
    hide WordsOf;
    split := [];
    if str == [] { NoWords(); return; }
    var pos := 0;
    assert str[0..] == str;
    while true
      invariant pos <= |str| && WordsOf(str) == split + WordsOf(str[pos..])
      decreases |str| - pos
    {
      var ok, word, next := NextWord(str, pos);
      if !ok { break; }
      split := split + [word];
      pos := next;
    }
  }

  /** The answer to a GET or a DEL, from the lines of the reply passed on. */
  method GetClientGetOrDelMsg(split: seq<string>) returns (msg: string)
    ensures msg == Answer(split)
    ensures |split| != 4 || (split[2] != "GET" && split[2] != "DEL") ==> msg == "-ERROR\r\n"
    ensures |split| == 4 && split[2] == "GET" ==> msg == RespArray(WordsOf(split[3]))
    ensures |split| == 4 && split[2] == "DEL" ==> msg == ":" + split[3] + "\r\n"
  {
    hide WordsOf, RespArray;
    if |split| != 4 { return "-ERROR\r\n"; }
    if split[2] == "GET" {
      var words := CutStringBySpace(split[3]);
      msg := WriteArray(words);
    } else if split[2] == "DEL" {
      msg := ":" + split[3] + "\r\n";
    } else {
      msg := "-ERROR\r\n";
    }
  }

  method WriteArray(words: seq<string>) returns (msg: string)
    ensures msg == RespArray(words)
  {
    hide ToString, Bulks;
    msg := "*" + ToString(|words|) + "\r\n";
    ghost var count := msg;
    NoBulks();
    var i := 0;
    while i < |words|
      invariant 0 <= i <= |words| && msg == count + Bulks(words[..i])
    {
      BulksSnoc(words[..i], words[i]);
      assert words[..i + 1] == words[..i] + [words[i]];
      var len := "$" + ToString(|words[i]|) + "\r\n";
      assert Bulk(words[i]) == len + (words[i] + "\r\n");
      msg := msg + len;
      msg := msg + (words[i] + "\r\n");
      i := i + 1;
    }
    assert words[..i] == words;
  }

  lemma NoBulks()
    ensures Bulks([]) == []
  {
  }

  /** From participant to client, through two texts: what the protocol passes on is what the client reads. */
  lemma PassedOnText(r: Reply)
    requires r.id >= 0 && (r.Done? ==> NoBreak(r.extra))
    ensures Answer(Trimmed(Lines(ReplyText(r)))) == ClientText(PassedOn(Some(r)))
  {
    ReplyRoundTrip(r);
  }

  /**
    The value of a SET comes back on a GET: words that are not empty, hold no
    white space and do not begin like a mark, stored under such a key, are
    answered as the very array that was sent, through all four texts in between.
   */
  lemma ValueRoundTrip(key: string, words: seq<string>, db: Db, id: nat, id2: nat)
    requires Plain(key) && words != [] && forall k | 0 <= k < |words| :: IsWord(words[k]) && !IsMark(words[k])
    ensures var cmd := Set(key, Joined(words));
            && Understood(["SET", key] + words, cmd)
            && RequestOf(Trimmed(Lines(RequestText(Prepare(id, cmd))))) == Some(Prepare(id, cmd))
            && Understood(["GET", key], Get(key))
            && RequestOf(Trimmed(Lines(RequestText(Prepare(id2, Get(key)))))) == Some(Prepare(id2, Get(key)))
            && Answer(Trimmed(Lines(ReplyText(Done(id2, GET, Lookup(Apply(cmd, db), key)))))) == RespArray(words)
  {
    hide *;
    ValueSent(key, words, id);
    ValueAsked(key, id2);
    SplitJoined(words);
    ValueAnswered(key, words, db, id2);
  }

  lemma ValueSent(key: string, words: seq<string>, id: nat)
    requires Plain(key) && words != [] && forall k | 0 <= k < |words| :: IsWord(words[k]) && !IsMark(words[k])
    ensures var cmd := Set(key, Joined(words));
            && Understood(["SET", key] + words, cmd)
            && RequestOf(Trimmed(Lines(RequestText(Prepare(id, cmd))))) == Some(Prepare(id, cmd))
  {
    hide *;
    PlainWords(words);
    SetArrives(key, words);
    SetUnbroken(key, words);
    SetProper(key, Joined(words));
    RequestRoundTrip(Prepare(id, Set(key, Joined(words))));
  }

  lemma PlainWords(words: seq<string>)
    requires forall k | 0 <= k < |words| :: IsWord(words[k]) && !IsMark(words[k])
    ensures forall k | 0 <= k < |words| :: Plain(words[k]) && NoBreak(words[k])
  {
    hide IsWord, IsMark, NoBreak;
    forall k | 0 <= k < |words| ensures Plain(words[k]) && NoBreak(words[k]) { WordNoBreak(words[k]); }
  }

  lemma SetUnbroken(key: string, words: seq<string>)
    requires Plain(key) && forall k | 0 <= k < |words| :: NoBreak(words[k])
    ensures CommandUnbroken(Set(key, Joined(words)))
  {
    hide *;
    JoinedNoBreak(words);
    PlainParts(key);
    PairUnbroken(key, Joined(words));
  }

  lemma PlainParts(w: string)
    ensures Plain(w) <==> NoBreak(w) && !IsMark(w)
  {
  }

  lemma PairUnbroken(key: string, value: string)
    requires NoBreak(key) && NoBreak(value)
    ensures CommandUnbroken(Set(key, value))
  {
    hide NoBreak;
    VerbsUnbroken();
    var ls := CommandLines(Set(key, value));
    assert |ls| == 3 && NoBreak(ls[0]) && NoBreak(ls[1]) && NoBreak(ls[2]);
  }

  lemma SetProper(key: string, value: string)
    ensures Set(key, value).Proper()
  {
  }

  lemma ValueAsked(key: string, id: nat)
    requires Plain(key)
    ensures Understood(["GET", key], Get(key))
    ensures RequestOf(Trimmed(Lines(RequestText(Prepare(id, Get(key)))))) == Some(Prepare(id, Get(key)))
  {
    hide NoBreak, IsMark, Lines, Kept, RespArray, Trimmed, RequestText, RequestOf;
    VerbsUnbroken();
    VerbsNoMark();
    ArgumentsArrive(["GET", key]);
    RequestRoundTrip(Prepare(id, Get(key)));
  }

  lemma ValueAnswered(key: string, words: seq<string>, db: Db, id: nat)
    requires words != [] && (forall k | 0 <= k < |words| :: IsWord(words[k])) && WordsOf(Joined(words)) == words && Joined(words) != []
    ensures Answer(Trimmed(Lines(ReplyText(Done(id, GET, Lookup(Apply(Set(key, Joined(words)), db), key)))))) == RespArray(words)
  {
    hide IsWord, NoBreak, Lines, RespArray, Trimmed, ReplyText, Answer, WordsOf, Joined;
    forall k | 0 <= k < |words| ensures NoBreak(words[k]) { WordNoBreak(words[k]); }
    JoinedNoBreak(words);
    PassedOnText(Done(id, GET, Joined(words)));
  }

  lemma VerbsNoMark()
    ensures !IsMark("SET") && !IsMark("GET") && !IsMark("DEL")
  {
  }

  lemma WordNoBreak(w: string)
    requires IsWord(w)
    ensures NoBreak(w)
  {
    forall k | 0 <= k < |w| ensures w[k] != '\n' { assert !IsSpace(w[k]); }
  }

  lemma {:induction false} JoinedNoBreak(ws: seq<string>)
    requires forall k | 0 <= k < |ws| :: NoBreak(ws[k])
    ensures NoBreak(Joined(ws))
  {
    if |ws| > 1 { JoinedNoBreak(ws[1..]); }
  }

  lemma AllPlain(a: string, b: string, ws: seq<string>)
    requires Plain(a) && Plain(b) && forall k | 0 <= k < |ws| :: Plain(ws[k])
    ensures forall k | 0 <= k < |ws| + 2 :: Plain(([a, b] + ws)[k])
  {
    hide Plain;
    forall k | 0 <= k < |ws| + 2 ensures Plain(([a, b] + ws)[k]) {
      if k >= 2 { assert ([a, b] + ws)[k] == ws[k - 2]; }
    }
  }

  lemma SetArrives(key: string, words: seq<string>)
    requires Plain(key) && words != [] && forall k | 0 <= k < |words| :: Plain(words[k])
    ensures Understood(["SET", key] + words, Set(key, Joined(words)))
  {
    hide *;
    SetKept(key, words);
    MergedSet(key, words);
    assert ["SET", key] + words == ["SET"] + ([key] + words) && [key] + words != [];
    UnderstoodAs("SET", [key] + words, Set(key, Joined(words)));
  }

  lemma SetKept(key: string, words: seq<string>)
    requires Plain(key) && forall k | 0 <= k < |words| :: Plain(words[k])
    ensures Kept(Lines(RespArray(["SET", key] + words))) == ["SET", key] + words
  {
    hide *;
    VerbsUnbroken();
    VerbsNoMark();
    PlainParts("SET");
    AllPlain("SET", key, words);
    assert |["SET", key] + words| == |words| + 2;
    ArgumentsArrive(["SET", key] + words);
  }

  lemma UnderstoodAs(verb: string, ws: seq<string>, cmd: Command)
    requires Kept(Lines(RespArray([verb] + ws))) == [verb] + ws && ws != []
    requires (verb == "SET" || verb == "GET" || verb == "DEL") && CommandOf(Merged([verb] + ws)) == Some(cmd)
    ensures Understood([verb] + ws, cmd)
  {
    hide Kept, Lines, RespArray, Merged, CommandOf;
  }

  lemma MergedSet(key: string, words: seq<string>)
    requires words != []
    ensures CommandOf(Merged(["SET", key] + words)) == Some(Set(key, Joined(words)))
  {
    var ws := ["SET", key] + words;
    assert ws[2..] == words && ws[..2] == ["SET", key];
    if |words| == 1 { assert words == [words[0]]; }
  }

  // ----- a DEL, and a key that is not there -----------------------------------------------------

  lemma DelArrives(ks: seq<string>)
    requires ks != [] && forall k | 0 <= k < |ks| :: Plain(ks[k])
    ensures Understood(["DEL"] + ks, Del(ks))
  {
    hide NoBreak, IsMark, Lines, Kept, RespArray;
    VerbsUnbroken();
    VerbsNoMark();
    var ws := ["DEL"] + ks;
    forall k | 0 <= k < |ws| ensures Plain(ws[k]) { if k > 0 { assert ws[k] == ks[k - 1]; } }
    ArgumentsArrive(ws);
    assert ws[1..] == ks;
  }

  lemma DelUnbroken(ks: seq<string>)
    requires forall k | 0 <= k < |ks| :: Plain(ks[k])
    ensures CommandUnbroken(Del(ks))
  {
    hide NoBreak, IsMark;
    VerbsUnbroken();
    var ls := CommandLines(Del(ks));
    forall k | 0 <= k < |ls| ensures NoBreak(ls[k]) { if k > 0 { assert ls[k] == ks[k - 1]; PlainParts(ks[k - 1]); } }
  }

  /** What a client reads of a participant's reply. */
  function ReadOf(r: Reply): string
    requires r.id >= 0
  {
    Answer(Trimmed(Lines(ReplyText(r))))
  }

  /**
    A DEL of any keys, from the client to a participant and back: all its keys
    arrive, each as one key, and once it is committed they are gone, and the
    client is told how many of them were there.
   */
  lemma DelRoundTrip(ks: seq<string>, s: P.Store, id: nat)
    requires ks != [] && (forall k | 0 <= k < |ks| :: Plain(ks[k])) && s.phase == 1
    ensures Understood(["DEL"] + ks, Del(ks))
    ensures RequestOf(Trimmed(Lines(RequestText(Prepare(id, Del(ks)))))) == Some(Prepare(id, Del(ks)))
    ensures var (t, _, _) := P.Handle(s, Prepare(id, Del(ks)));
            && P.Sound(t)
            && var (u, reply, _) := P.Handle(t, Commit(id));
            && u.db == (map k | k in s.db && k !in ks :: s.db[k])
            && reply.Some? && reply.value.id == id
            && ReadOf(reply.value) == ":" + ToString(|set k | k in ks && k in s.db|) + "\r\n"
  {
    hide Plain, Understood, Lines, Trimmed, RequestText, RequestOf, ReplyText, Answer, ToString, CommandUnbroken;
    DelArrives(ks);
    DelUnbroken(ks);
    RequestRoundTrip(Prepare(id, Del(ks)));
    DelHandled(ks, s, id);
    NumberRoundTrip(|set k | k in ks && k in s.db|);
    CountRead(id, ToString(|set k | k in ks && k in s.db|));
  }

  lemma CountRead(id: nat, count: string)
    requires NoBreak(count) && count != ""
    ensures ReadOf(Done(id, DEL, count)) == ":" + count + "\r\n"
  {
    hide NoBreak, Lines, Trimmed, ReplyText, Answer;
    PassedOnText(Done(id, DEL, count));
  }

  lemma DelHandled(ks: seq<string>, s: P.Store, id: nat)
    requires ks != [] && s.phase == 1
    ensures var (t, _, _) := P.Handle(s, Prepare(id, Del(ks)));
            && P.Sound(t)
            && var (u, reply, _) := P.Handle(t, Commit(id));
            && u.db == (map k | k in s.db && k !in ks :: s.db[k])
            && reply == Some(Done(id, DEL, ToString(|set k | k in ks && k in s.db|)))
  {
    hide P.Erase, ToString;
    P.PrepareStandsFor(s, id, Del(ks));
    var t := P.Handle(s, Prepare(id, Del(ks))).0;
    var l := P.Begin(id, Del(ks), s.db).0;
    P.HandleRefinesAnswer(t, l, Commit(id));
    assert P.Keys(ks) * s.db.Keys == set k | k in ks && k in s.db;
  }

  /** A GET of a key that is not there: the client reads nil; of one that is: its words. */
  lemma KeyRead(s: P.Store, id: nat, key: string)
    requires s.phase == 1 && (key in s.db ==> NoBreak(s.db[key]) && s.db[key] != "")
    ensures var (t, reply, _) := P.Handle(s, Prepare(id, Get(key)));
            && t.db == s.db && reply.Some? && reply.value.id == id
            && ReadOf(reply.value) == if key in s.db then RespArray(WordsOf(s.db[key])) else "*1\r\n$3\r\nnil\r\n"
  {
    hide Lines, Trimmed, ReplyText, Answer, RespArray, WordsOf, NoBreak;
    NilRead();
    PassedOnText(Done(id, GET, if key in s.db then s.db[key] else "nil"));
  }

  lemma NilRead()
    ensures NoBreak("nil") && RespArray(WordsOf("nil")) == "*1\r\n$3\r\nnil\r\n"
  {
    FirstWord("nil", []);
    NoWords();
    assert "nil" + [] == "nil";
    Decimal(0, 1);
    Decimal(0, 3);
    assert ["nil"][1..] == [];
  }

  /** The examples of the laboratory's description. */
  lemma Documented()
    ensures RespArray(["SET", "CS06142", "Cloud", "Computing"]) ==
            "*4\r\n" + ("$3\r\nSET\r\n" + ("$7\r\nCS06142\r\n" + ("$5\r\nCloud\r\n" + "$9\r\nComputing\r\n")))
    ensures RespArray(["DEL", "CS06142", "CS162"]) == "*3\r\n" + ("$3\r\nDEL\r\n" + ("$7\r\nCS06142\r\n" + "$5\r\nCS162\r\n"))
    ensures ClientText(Words("Cloud Computing")) == "*2\r\n" + ("$5\r\nCloud\r\n" + "$9\r\nComputing\r\n")
    ensures ClientText(Number("1")) == ":1\r\n" && ClientText(OkReply) == "+OK\r\n" && ClientText(ErrorReply) == "-ERROR\r\n"
  {
    hide *;
    BulkTexts();
    TwoWords();
    FourArray("SET", "CS06142", "Cloud", "Computing");
    ThreeArray("DEL", "CS06142", "CS162");
    TwoArray("Cloud", "Computing");
    Others();
  }

  lemma Others()
    ensures ClientText(Number("1")) == ":1\r\n" && ClientText(OkReply) == "+OK\r\n" && ClientText(ErrorReply) == "-ERROR\r\n"
    ensures ClientText(Words("Cloud Computing")) == RespArray(WordsOf("Cloud Computing"))
  {
  }

  lemma TwoArray(a: string, b: string)
    ensures RespArray([a, b]) == "*2\r\n" + (Bulk(a) + Bulk(b)) && Bulks([a, b]) == Bulk(a) + Bulk(b)
  {
    hide Bulk;
    BulksOf(b, []);
    BulksOf(a, [b]);
    assert [a] + [b] == [a, b] && [b] + [] == [b];
    CountOf(2, "2");
  }

  lemma ThreeArray(a: string, b: string, c: string)
    ensures RespArray([a, b, c]) == "*3\r\n" + (Bulk(a) + (Bulk(b) + Bulk(c))) && Bulks([a, b, c]) == Bulk(a) + (Bulk(b) + Bulk(c))
  {
    hide Bulk;
    TwoArray(b, c);
    BulksOf(a, [b, c]);
    assert [a] + [b, c] == [a, b, c];
    CountOf(3, "3");
  }

  lemma FourArray(a: string, b: string, c: string, d: string)
    ensures RespArray([a, b, c, d]) == "*4\r\n" + (Bulk(a) + (Bulk(b) + (Bulk(c) + Bulk(d))))
  {
    hide Bulk;
    ThreeArray(b, c, d);
    BulksOf(a, [b, c, d]);
    assert [a] + [b, c, d] == [a, b, c, d];
    CountOf(4, "4");
  }

  lemma BulksOf(w: string, ws: seq<string>)
    ensures Bulks([w] + ws) == Bulk(w) + Bulks(ws) && Bulks([]) == []
  {
    assert ([w] + ws)[1..] == ws;
  }

  lemma CountOf(n: nat, digit: string)
    requires n < 10 && digit == ["0123456789"[n]]
    ensures "*" + ToString(n) + CRLF == "*" + digit + "\r\n"
  {
    Decimal(0, n);
  }

  lemma BulkText(w: string, digit: string)
    requires |w| < 10 && digit == ["0123456789"[|w|]]
    ensures Bulk(w) == "$" + digit + "\r\n" + w + "\r\n"
  {
    Decimal(0, |w|);
  }

  lemma BulkTexts()
    ensures Bulk("SET") == "$3\r\nSET\r\n" && Bulk("DEL") == "$3\r\nDEL\r\n"
    ensures Bulk("CS06142") == "$7\r\nCS06142\r\n" && Bulk("CS162") == "$5\r\nCS162\r\n"
    ensures Bulk("Cloud") == "$5\r\nCloud\r\n" && Bulk("Computing") == "$9\r\nComputing\r\n"
  {
    BulkText("SET", "3");
    BulkText("DEL", "3");
    BulkText("CS06142", "7");
    BulkText("CS162", "5");
    BulkText("Cloud", "5");
    BulkText("Computing", "9");
  }

  lemma TwoWords()
    ensures WordsOf("Cloud Computing") == ["Cloud", "Computing"]
  {
    assert ["Cloud", "Computing"][1..] == ["Computing"];
    assert Joined(["Cloud", "Computing"]) == "Cloud Computing";
    SplitJoined(["Cloud", "Computing"]);
  }
}
