/**
  What the message code asks of strings: lines ended by a line feed, words
  separated by white space, decimal numbers.
 */
module TextLines {
  import opened KvMessages

  const CRLF: string := "\r\n"

  predicate NoBreak(s: string) { forall k | 0 <= k < |s| :: s[k] != '\n' }

  predicate NoBreaks(ls: seq<string>) { forall k | 0 <= k < |ls| :: NoBreak(ls[k]) }

  // ----- lines -----------------------------------------------------------------------------

  /** The characters before the first line feed. */
  function Line(s: string): (l: string)
    ensures |l| <= |s| && l == s[..|l|] && NoBreak(l)
    ensures |l| < |s| ==> s[|l|] == '\n'
  {
    if s == [] || s[0] == '\n' then [] else [s[0]] + Line(s[1..])
  }

  /** All lines, as repeated getline yields them: a last line needs no line feed, but is not empty. */
  function Lines(s: string): (ls: seq<string>)
  {
    if s == [] then []
    else if |Line(s)| < |s| then [Line(s)] + Lines(s[|Line(s)| + 1..])
    else [s]
  }

  lemma {:induction false} LineOf(l: string, t: string)
    requires NoBreak(l)
    ensures Line(l + "\n" + t) == l
  {
    if l == [] {
      assert l + "\n" + t == "\n" + t;
    } else {
      var s := l + "\n" + t;
      assert s[1..] == l[1..] + "\n" + t;
      LineOf(l[1..], t);
    }
  }

  lemma LinesStep(l: string, t: string)
    requires NoBreak(l)
    ensures Lines(l + CRLF + t) == [l + "\r"] + Lines(t)
  {
    var s := l + CRLF + t;
    assert s == (l + "\r") + "\n" + t;
    LineOf(l + "\r", t);
    assert s[|l| + 2..] == t;
  }

  lemma {:induction false} WholeLine(l: string)
    requires NoBreak(l)
    ensures Line(l) == l
  {
    if l != [] { WholeLine(l[1..]); }
  }

  /** The next line from pos on, which runs up to stop. */
  lemma LineAt(s: string, pos: nat, stop: nat)
    requires pos <= stop <= |s| && NoBreak(s[pos..stop]) && pos < |s| && (stop < |s| ==> s[stop] == '\n')
    ensures Lines(s[pos..]) == [s[pos..stop]] + Lines(s[if stop < |s| then stop + 1 else stop..])
  {
    var t, l := s[pos..], s[pos..stop];
    if stop < |s| {
      assert t == l + "\n" + s[stop + 1..];
      LineOf(l, s[stop + 1..]);
      assert t[|l| + 1..] == s[stop + 1..];
    } else {
      assert t == l && s[stop..] == [];
      WholeLine(l);
    }
  }

  lemma {:induction false} LinesNoBreak(s: string)
    ensures NoBreaks(Lines(s))
    decreases |s|
  {
    if s != [] && |Line(s)| < |s| {
      LinesNoBreak(s[|Line(s)| + 1..]);
    }
  }

  /** A line without its last character, the carriage return. */
  function Trim(l: string): string {
    if l == [] then [] else l[..|l| - 1]
  }

  function Trimmed(ls: seq<string>): (r: seq<string>)
    ensures |r| == |ls| && forall k | 0 <= k < |ls| :: r[k] == Trim(ls[k])
  {
    if ls == [] then [] else [Trim(ls[0])] + Trimmed(ls[1..])
  }

  /** Each line with CR and LF behind it. */
  function Ended(ls: seq<string>): string {
    if ls == [] then [] else ls[0] + CRLF + Ended(ls[1..])
  }

  lemma {:induction false} EndedSnoc(ls: seq<string>, l: string)
    ensures Ended(ls + [l]) == Ended(ls) + l + CRLF
  {
    if ls == [] {
      assert ls + [l] == [l];
      assert Ended([l]) == l + CRLF + Ended([]);
    } else {
      assert (ls + [l])[1..] == ls[1..] + [l];
      EndedSnoc(ls[1..], l);
      assert Ended(ls + [l]) == ls[0] + CRLF + (Ended(ls[1..]) + l + CRLF);
    }
  }

  /**
    Lines written one after another are read back exactly when none of them has
    a line feed inside.
   */
  lemma LinesRoundTrip(ls: seq<string>)
    ensures Trimmed(Lines(Ended(ls))) == ls <==> NoBreaks(ls)
  {
    if NoBreaks(ls) {
      ReadBack(ls);
    }
    if Trimmed(Lines(Ended(ls))) == ls {
      LinesNoBreak(Ended(ls));
    }
  }

  lemma {:induction false} ReadBack(ls: seq<string>)
    requires NoBreaks(ls)
    ensures Trimmed(Lines(Ended(ls))) == ls
  {
    if ls != [] {
      ReadBack(ls[1..]);
      LinesStep(ls[0], Ended(ls[1..]));
      assert Trim(ls[0] + "\r") == ls[0];
      var more := Lines(Ended(ls[1..]));
      assert ([ls[0] + "\r"] + more)[1..] == more;
    }
  }

  // ----- words -----------------------------------------------------------------------------

  /** White space in the C locale. */
  predicate IsSpace(c: char) { c in " \t\n\r" || c == '\U{0b}' || c == '\U{0c}' }

  predicate IsWord(w: string) { w != [] && forall k | 0 <= k < |w| :: !IsSpace(w[k]) }

  function SkipSpace(s: string): (t: string)
    ensures |t| <= |s| && (t != [] ==> !IsSpace(t[0]))
  {
    if s != [] && IsSpace(s[0]) then SkipSpace(s[1..]) else s
  }

  /** The characters before the first white space. */
  function Head(s: string): (w: string)
    ensures |w| <= |s| && (s != [] && !IsSpace(s[0]) ==> w != [])
  {
    if s == [] || IsSpace(s[0]) then [] else [s[0]] + Head(s[1..])
  }

  lemma {:induction false} HeadIsWord(s: string)
    ensures forall k | 0 <= k < |Head(s)| :: !IsSpace(Head(s)[k])
  {
    if s != [] && !IsSpace(s[0]) { HeadIsWord(s[1..]); }
  }

  function WordsOf(s: string): seq<string>
    decreases |s|
  {
    var t := SkipSpace(s);
    if t == [] then [] else [Head(t)] + WordsOf(t[|Head(t)|..])
  }

  lemma {:induction false} WordsAreWords(s: string)
    ensures forall k | 0 <= k < |WordsOf(s)| :: IsWord(WordsOf(s)[k])
    decreases |s|
  {
    var t := SkipSpace(s);
    if t != [] {
      HeadIsWord(t);
      WordsAreWords(t[|Head(t)|..]);
    }
  }

  function Flat(ws: seq<string>): string {
    if ws == [] then [] else ws[0] + Flat(ws[1..])
  }

  /** s without its blanks and without the control characters 9 to 13. */
  function Stripped(s: string): string {
    if s == [] then []
    else (if s[0] == ' ' || 9 <= s[0] as int <= 13 then [] else [s[0]]) + Stripped(s[1..])
  }

  /** Splitting a string into words loses nothing but white space, and no word holds any. */
  lemma {:induction false} WordsKeepAll(s: string)
    ensures Flat(WordsOf(s)) == Stripped(s)
    ensures forall k | 0 <= k < |WordsOf(s)| :: WordsOf(s)[k] != [] && Stripped(WordsOf(s)[k]) == WordsOf(s)[k]
    decreases |s|
  {
    hide IsSpace;
    var t := SkipSpace(s);
    SkipStripped(s);
    if t != [] {
      HeadStripped(t);
      WordsKeepAll(t[|Head(t)|..]);
    }
  }

  lemma SpaceIs(c: char)
    ensures IsSpace(c) <==> c == ' ' || 9 <= c as int <= 13
  {
    assert c in " \t\n\r" <==> c == ' ' || c == '\t' || c == '\n' || c == '\r';
  }

  lemma {:induction false} SkipStripped(s: string)
    ensures Stripped(SkipSpace(s)) == Stripped(s)
  {
    hide IsSpace;
    if s != [] {
      SpaceIs(s[0]);
      if IsSpace(s[0]) { SkipStripped(s[1..]); }
    }
  }

  lemma {:induction false} HeadStripped(s: string)
    ensures Head(s) + Stripped(s[|Head(s)|..]) == Stripped(s) && Stripped(Head(s)) == Head(s)
  {
    hide IsSpace;
    if s != [] {
      SpaceIs(s[0]);
      if !IsSpace(s[0]) {
        HeadStripped(s[1..]);
        assert Head(s)[1..] == Head(s[1..]) && s[|Head(s)|..] == s[1..][|Head(s[1..])|..];
      }
    }
  }

  /** The words with one space between them. */
  function Joined(ws: seq<string>): string {
    if ws == [] then [] else if |ws| == 1 then ws[0] else ws[0] + " " + Joined(ws[1..])
  }

  lemma {:induction false} JoinedSnoc(ws: seq<string>, w: string)
    requires ws != []
    ensures Joined(ws + [w]) == Joined(ws) + " " + w
  {
    var t := ws + [w];
    assert t[1..] == ws[1..] + [w];
    if |ws| > 1 {
      JoinedSnoc(ws[1..], w);
      assert Joined(t) == ws[0] + " " + (Joined(ws[1..]) + " " + w);
    } else {
      assert ws == [ws[0]];
      assert Joined([w]) == w;
    }
  }

  lemma {:induction false} HeadOf(w: string, t: string)
    requires (forall k | 0 <= k < |w| :: !IsSpace(w[k])) && (t != [] ==> IsSpace(t[0]))
    ensures Head(w + t) == w
  {
    if w == [] {
      assert w + t == t;
    } else {
      assert (w + t)[1..] == w[1..] + t;
      HeadOf(w[1..], t);
    }
  }

  lemma FirstWord(w: string, t: string)
    requires IsWord(w) && (t != [] ==> IsSpace(t[0]))
    ensures WordsOf(w + t) == [w] + WordsOf(t)
  {
    HeadOf(w, t);
    assert SkipSpace(w + t) == w + t;
    assert (w + t)[|w|..] == t;
  }

  lemma SpaceBefore(t: string)
    ensures WordsOf(" " + t) == WordsOf(t)
  {
    assert (" " + t)[1..] == t;
    assert SkipSpace(" " + t) == SkipSpace(t);
  }

  /** The next word from pos on: white space up to start, the word up to stop. */
  lemma WordAt(s: string, pos: nat, start: nat, stop: nat)
    requires pos <= start < stop <= |s| && IsWord(s[start..stop]) && (stop < |s| ==> IsSpace(s[stop]))
    requires forall k | pos <= k < start :: IsSpace(s[k])
    ensures WordsOf(s[pos..]) == [s[start..stop]] + WordsOf(s[stop..])
  {
    SkippedTo(s, pos, start);
    CutAt(s, start, stop);
    FirstWord(s[start..stop], s[stop..]);
  }

  lemma CutAt(s: string, start: nat, stop: nat)
    requires start <= stop <= |s|
    ensures s[start..] == s[start..stop] + s[stop..]
    ensures stop < |s| ==> s[stop..][0] == s[stop]
  {
  }

  lemma {:induction false} SkippedTo(s: string, pos: nat, start: nat)
    requires pos <= start <= |s| && forall k | pos <= k < start :: IsSpace(s[k])
    ensures WordsOf(s[pos..]) == WordsOf(s[start..])
    decreases start - pos
  {
    if pos < start {
      SkippedTo(s, pos + 1, start);
      assert s[pos..][1..] == s[pos + 1..];
      assert SkipSpace(s[pos..]) == SkipSpace(s[pos + 1..]);
    }
  }

  lemma NoWords()
    ensures WordsOf([]) == []
  {
  }

  lemma NotEmpty(w: string)
    requires IsWord(w)
    ensures w != []
  {
  }

  /** Words joined by single spaces are split again exactly when each of them is a word. */
  lemma JoinRoundTrip(ws: seq<string>)
    requires ws != []
    ensures WordsOf(Joined(ws)) == ws <==> forall k | 0 <= k < |ws| :: IsWord(ws[k])
  {
    if forall k | 0 <= k < |ws| :: IsWord(ws[k]) { SplitJoined(ws); }
    WordsAreWords(Joined(ws));
  }

  lemma {:induction false} SplitJoined(ws: seq<string>)
    requires ws != [] && forall k | 0 <= k < |ws| :: IsWord(ws[k])
    ensures WordsOf(Joined(ws)) == ws && Joined(ws) != []
  {
    hide IsWord, WordsOf;
    if |ws| == 1 {
      FirstWord(ws[0], []);
      NoWords();
      assert ws[0] + [] == ws[0];
      assert ws == [ws[0]];
      NotEmpty(ws[0]);
    } else {
      var rest := Joined(ws[1..]);
      SplitJoined(ws[1..]);
      FirstWord(ws[0], " " + rest);
      SpaceBefore(rest);
      assert Joined(ws) == ws[0] + (" " + rest);
      assert ws == [ws[0]] + ws[1..];
    }
  }

  // ----- numbers ---------------------------------------------------------------------------

  predicate Digits(s: string) { s != [] && forall k | 0 <= k < |s| :: '0' <= s[k] <= '9' }

  /** The number a string of digits stands for. */
  function NumberOf(s: string): nat
    requires forall k | 0 <= k < |s| :: '0' <= s[k] <= '9'
  {
    if s == [] then 0 else NumberOf(s[..|s| - 1]) * 10 + (s[|s| - 1] as int - '0' as int)
  }

  lemma {:induction false} NumberRoundTrip(n: nat)
    ensures Digits(ToString(n)) && NumberOf(ToString(n)) == n && NoBreak(ToString(n))
  {
    var s := ToString(n);
    DigitIs(n % 10);
    if n < 10 {
      DigitIs(n);
      assert s[..0] == [];
    } else {
      NumberRoundTrip(n / 10);
      assert s[..|s| - 1] == ToString(n / 10);
    }
  }

  /** The text of a number is its decimal digits, highest first. */
  lemma Decimal(n: nat, d: nat)
    requires d < 10
    ensures ToString(d) == ["0123456789"[d]]
    ensures n > 0 ==> ToString(10 * n + d) == ToString(n) + ["0123456789"[d]]
  {
    assert (10 * n + d) / 10 == n && (10 * n + d) % 10 == d;
  }

  lemma DigitIs(d: nat)
    requires d < 10
    ensures '0' <= Digit(d) <= '9' && Digit(d) as int - '0' as int == d
  {
  }
}
