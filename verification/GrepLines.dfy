/** The line loop of grep.c: what reaches the matcher, whatever pieces read returns. */
module GrepLines {
  import opened Basics
  import Grep

  /** strchr(s, '\n') as an index, |s| for none. */
  function Newline(s: string): (k: nat)
    ensures k <= |s|
  {
    if s == [] || s[0] == '\n' then 0 else Newline(s[1..]) + 1
  }

  predicate HasNewline(s: string) {
    Newline(s) < |s|
  }

  function FirstLine(s: string): string
    requires HasNewline(s)
  {
    s[..Newline(s)]
  }

  function AfterLine(s: string): (t: string)
    requires HasNewline(s)
    ensures |t| < |s|
  {
    s[Newline(s) + 1..]
  }

  /** The complete lines of a text, and what follows the last of them. */
  function Lines(s: string): seq<string>
    decreases |s|
  {
    if HasNewline(s) then [FirstLine(s)] + Lines(AfterLine(s)) else []
  }

  function Rest(s: string): string
    decreases |s|
  {
    if HasNewline(s) then Rest(AfterLine(s)) else s
  }

  /** The lines the loop looks at when read returns these pieces and `pending` is in the buffer.
      A buffer without any newline is dropped. */
  function Seen(pending: string, pieces: seq<string>): seq<string>
    decreases |pieces|
  {
    if pieces == [] then []
    else
      var t := pending + pieces[0];
      if HasNewline(t) then Lines(t) + Seen(Rest(t), pieces[1..]) else Seen([], pieces[1..])
  }

  function Concat(pieces: seq<string>): string {
    if pieces == [] then [] else pieces[0] + Concat(pieces[1..])
  }

  ghost function Printed(pattern: string, lines: seq<string>): string {
    if lines == [] then []
    else Printed(pattern, lines[..|lines| - 1]) + PrintedLine(pattern, lines[|lines| - 1])
  }

  ghost function PrintedLine(pattern: string, line: string): string {
    if Grep.Matches(pattern, line) then line + ['\n'] else []
  }

  /** read returns at least one byte as long as there are any. */
  predicate Pieces(pieces: seq<string>) {
    forall k :: 0 <= k < |pieces| ==> pieces[k] != []
  }

  /** Every piece has a newline, but for those after the file's last newline. */
  predicate NewlineInEach(pieces: seq<string>) {
    pieces == [] || ((HasNewline(pieces[0]) || !HasNewline(Concat(pieces[1..]))) && NewlineInEach(pieces[1..]))
  }

  function Joined(lines: seq<string>): string {
    if lines == [] then [] else lines[0] + ['\n'] + Joined(lines[1..])
  }

  /** A text is its lines, each with its newline, and the rest; neither has a newline inside. */
  lemma {:induction false} LinesMakeText(s: string)
    ensures s == Joined(Lines(s)) + Rest(s) && '\n' !in Rest(s) && forall l :: l in Lines(s) ==> '\n' !in l
    decreases |s|
  {
    FirstNewline(s);
    if HasNewline(s) {
      LinesMakeText(AfterLine(s));
      assert s == FirstLine(s) + ['\n'] + AfterLine(s);
      assert Lines(s)[1..] == Lines(AfterLine(s));
    }
  }

  lemma {:induction false} FirstNewline(s: string)
    ensures '\n' !in s[..Newline(s)] && (HasNewline(s) ==> s[Newline(s)] == '\n')
  {
    if s != [] && s[0] != '\n' {
      FirstNewline(s[1..]);
      assert s[..Newline(s)] == [s[0]] + s[1..][..Newline(s[1..])];
    }
  }

  // ---- facts about lines ----

  lemma {:induction false} NewlineAppend(s: string, u: string)
    ensures Newline(s + u) == if HasNewline(s) then Newline(s) else |s| + Newline(u)
    ensures HasNewline(s + u) <==> HasNewline(s) || HasNewline(u)
  {
    if s == [] {
      assert s + u == u;
    } else if s[0] != '\n' {
      NewlineAppend(s[1..], u);
      assert (s + u)[1..] == s[1..] + u;
    }
  }

  lemma FirstOfAppend(s: string, u: string)
    requires HasNewline(s)
    ensures HasNewline(s + u) && FirstLine(s + u) == FirstLine(s) && AfterLine(s + u) == AfterLine(s) + u
  {
    NewlineAppend(s, u);
  }

  lemma {:induction false} RestHasNone(s: string)
    ensures !HasNewline(Rest(s)) && (HasNewline(s) || Rest(s) == s)
    decreases |s|
  {
    hide HasNewline, AfterLine;
    if HasNewline(s) { RestHasNone(AfterLine(s)); }
  }

  lemma {:induction false} LinesAppend(s: string, u: string)
    ensures Lines(s + u) == Lines(s) + Lines(Rest(s) + u) && Rest(s + u) == Rest(Rest(s) + u)
    decreases |s|
  {
    hide HasNewline, FirstLine, AfterLine;
    if HasNewline(s) {
      FirstOfAppend(s, u);
      LinesAppend(AfterLine(s), u);
    }
  }

  lemma {:induction false} RestAfterNewline(s: string, u: string)
    requires HasNewline(u)
    ensures Rest(s + u) == Rest(u)
    decreases |s|
  {
    if HasNewline(s) {
      FirstOfAppend(s, u);
      hide HasNewline, AfterLine;
      RestAfterNewline(AfterLine(s), u);
    } else {
      NewlineAppend(s, u);
      assert AfterLine(s + u) == AfterLine(u);
    }
  }

  function Size(lines: seq<string>): nat {
    if lines == [] then 0 else |lines[0]| + 1 + Size(lines[1..])
  }

  lemma {:induction false} SizeAppend(a: seq<string>, b: seq<string>)
    ensures Size(a + b) == Size(a) + Size(b)
  {
    if a == [] {
      assert a + b == b;
    } else {
      assert (a + b)[1..] == a[1..] + b;
      SizeAppend(a[1..], b);
    }
  }

  lemma {:induction false} SizeOfLines(s: string)
    ensures Size(Lines(s)) == |s| - |Rest(s)|
    decreases |s|
  {
    if HasNewline(s) {
      SizeOfLines(AfterLine(s));
      assert Lines(s)[1..] == Lines(AfterLine(s));
    }
  }

  // ---- when grep sees the whole file ----

  lemma {:induction false} SeenSize(pending: string, pieces: seq<string>)
    ensures var s := pending + Concat(pieces); Size(Seen(pending, pieces)) <= |s| - |Rest(s)|
    decreases |pieces|
  {
    if pieces != [] {
      var t, u := pending + pieces[0], Concat(pieces[1..]);
      assert pending + Concat(pieces) == t + u;
      LinesAppend(t, u);
      SizeOfLines(t);
      hide Lines, Rest, Newline;
      if HasNewline(t) {
        SeenSize(Rest(t), pieces[1..]);
        SizeAppend(Lines(t), Seen(Rest(t), pieces[1..]));
      } else {
        SeenSize([], pieces[1..]);
        assert [] + u == u;
        NewlineAppend(t, u);
        if HasNewline(u) { RestAfterNewline(t, u); } else { RestHasNone(t + u); RestHasNone(u); }
      }
    } else {
      SizeOfLines(pending + Concat(pieces));
    }
  }

  lemma {:induction false} NothingSeen(pieces: seq<string>)
    requires !HasNewline(Concat(pieces))
    ensures Seen([], pieces) == [] && NewlineInEach(pieces)
    decreases |pieces|
  {
    if pieces != [] {
      assert [] + pieces[0] == pieces[0];
      NewlineAppend(pieces[0], Concat(pieces[1..]));
      hide HasNewline;
      NothingSeen(pieces[1..]);
    }
  }

  lemma Cancel(a: seq<string>, b: seq<string>, c: seq<string>)
    ensures a + b == a + c <==> b == c
  {
    if a + b == a + c { assert b == (a + b)[|a|..] && c == (a + c)[|a|..]; }
  }

  /** grep looks at exactly the complete lines of the file if and only if every piece that read
      returns has a newline in it, up to the last newline of the file. */
  lemma {:induction false} SeesAllExactly(pending: string, pieces: seq<string>)
    requires !HasNewline(pending) && Pieces(pieces)
    ensures Seen(pending, pieces) == Lines(pending + Concat(pieces)) <==> NewlineInEach(pieces)
    decreases |pieces|
  {
    if pieces == [] {
      assert pending + Concat(pieces) == pending;
    } else {
      var t, u := pending + pieces[0], Concat(pieces[1..]);
      assert pending + Concat(pieces) == t + u;
      NewlineAppend(pending, pieces[0]);
      NewlineAppend(t, u);
      LinesAppend(t, u);
      RestHasNone(t);
      NoLines(t + u);
      hide HasNewline, Lines, Rest, Newline;
      if HasNewline(t) {
        SeesAllExactly(Rest(t), pieces[1..]);
        Cancel(Lines(t), Seen(Rest(t), pieces[1..]), Lines(Rest(t) + u));
      } else if HasNewline(u) {
        SeenSize([], pieces[1..]);
        assert [] + u == u;
        RestAfterNewline(t, u);
        SizeOfLines(t + u);
      } else {
        NothingSeen(pieces[1..]);
      }
    }
  }

  /** Two pieces of one line: grep sees only the second. */
  lemma LineLost()
    ensures Concat(["ab", "c\n"]) == "abc\n" && Lines("abc\n") == ["abc"]
    ensures Seen([], ["ab", "c\n"]) == ["c"]
  {
    assert Newline("\n") == 0 && "c\n"[1..] == "\n" && Newline("c\n") == 1 && "bc\n"[1..] == "c\n"
      && Newline("bc\n") == 2;
    assert "abc\n"[1..] == "bc\n" && Newline("abc\n") == 3 && FirstLine("abc\n") == "abc" && AfterLine("abc\n") == "";
    assert Newline("b") == 1 && "ab"[1..] == "b" && Newline("ab") == 2 && [] + "ab" == "ab" && [] + "c\n" == "c\n";
    assert FirstLine("c\n") == "c" && AfterLine("c\n") == "" && Lines("") == [];
    var ps := ["ab", "c\n"];
    assert ps[1..] == ["c\n"] && ps[1..][1..] == [] && Seen([], ps[1..]) == ["c"];
    assert Concat(ps[1..]) == "c\n" && "ab" + "c\n" == "abc\n";
  }

  lemma NoLines(s: string)
    ensures Lines(s) == [] <==> !HasNewline(s)
  {
  }

  // ---- regular files ----

  const ROOM: nat := 1023 // sizeof(buf) - 1

  /** What read returns for a regular file: each time as much as the buffer has room for. */
  function FullReads(pending: string, rest: string): (pieces: seq<string>)
    requires |pending| < ROOM
    ensures Pieces(pieces) && Concat(pieces) == rest
    decreases |rest|
  {
    if rest == [] then []
    else
      var piece := rest[..Min(ROOM - |pending|, |rest|)];
      RestShorter(pending + piece);
      [piece] + FullReads(if HasNewline(pending + piece) then Rest(pending + piece) else [], rest[|piece|..])
  }

  lemma {:induction false} RestShorter(s: string)
    ensures HasNewline(s) ==> |Rest(s)| < |s|
    decreases |s|
  {
    if HasNewline(s) { RestShorter(AfterLine(s)); }
  }

  predicate NoneLonger(lines: seq<string>, n: nat) {
    forall i :: 0 <= i < |lines| ==> |lines[i]| <= n
  }

  lemma NoneLongerAppend(a: seq<string>, b: seq<string>, n: nat)
    ensures NoneLonger(a + b, n) <==> NoneLonger(a, n) && NoneLonger(b, n)
  {
    assert forall i :: 0 <= i < |a| ==> (a + b)[i] == a[i];
    assert forall i :: 0 <= i < |b| ==> (a + b)[|a| + i] == b[i];
  }

  lemma {:induction false} LinesFit(s: string, n: nat)
    requires |s| <= n + 1
    ensures NoneLonger(Lines(s), n)
    decreases |s|
  {
    if HasNewline(s) { LinesFit(AfterLine(s), n); }
  }

  /** On a regular file grep sees every line exactly if no terminated line is longer than 1022. */
  lemma {:induction false} RegularFile(pending: string, rest: string)
    requires |pending| < ROOM && !HasNewline(pending)
    ensures NewlineInEach(FullReads(pending, rest)) <==> NoneLonger(Lines(pending + rest), ROOM - 1)
    decreases |rest|
  {
    if rest == [] {
      assert pending + rest == pending;
    } else {
      var piece := rest[..Min(ROOM - |pending|, |rest|)];
      var t, u := pending + piece, rest[|piece|..];
      var ps := FullReads(pending, rest);
      RestShorter(t);
      assert ps[0] == piece && ps[1..] == FullReads(if HasNewline(t) then Rest(t) else [], u);
      assert pending + rest == t + u;
      NewlineAppend(pending, piece);
      RestHasNone(t);
      hide HasNewline, Lines, Rest, Newline, FullReads;
      if HasNewline(t) {
        LinesAppend(t, u);
        LinesFit(t, ROOM - 1);
        NoneLongerAppend(Lines(t), Lines(Rest(t) + u), ROOM - 1);
        hide NoneLonger;
        RegularFile(Rest(t), u);
      } else {
        NewlineAppend(t, u);
        DroppedLine(ps, t, u);
      }
    }
  }

  lemma DroppedLine(ps: seq<string>, t: string, u: string)
    requires ps != [] && !HasNewline(ps[0]) && Concat(ps[1..]) == u && !HasNewline(t)
    requires HasNewline(t + u) <==> HasNewline(u)
    requires |t| >= ROOM || u == []
    ensures NewlineInEach(ps) <==> NoneLonger(Lines(t + u), ROOM - 1)
  {
    NoLines(t + u);
    if HasNewline(u) {
      NewlineAppend(t, u);
      assert Lines(t + u)[0] == FirstLine(t + u) && |FirstLine(t + u)| >= |t|;
    } else {
      NothingSeen(ps[1..]);
    }
  }

  /** So, for a whole file, the lines seen are its lines under the same condition. */
  lemma RegularFileSeen(file: string)
    ensures Seen([], FullReads([], file)) == Lines(file) <==> NoneLonger(Lines(file), ROOM - 1)
  {
    assert [] + file == file;
    RegularFile([], file);
    SeesAllExactly([], FullReads([], file));
  }

  // ---- the loop ----

  /** grep, given what read returns. */
  method GrepFile(pattern: string, pieces: seq<string>) returns (out: string)
    requires Pieces(pieces)
    ensures out == Printed(pattern, Seen([], pieces))
  {
    hide Printed, Lines, Rest, HasNewline;
    out := [];
    var buf, i := [], 0;
    ghost var seen := [];
    assert pieces[0..] == pieces && seen + Seen([], pieces) == Seen([], pieces);
    assert out == Printed(pattern, seen) by { NothingPrinted(pattern); }
    while i < |pieces|
      invariant i <= |pieces| && out == Printed(pattern, seen)
      invariant Seen([], pieces) == seen + Seen(buf, pieces[i..])
    {
      NextPiece(seen, buf, pieces, i);
      buf := buf + pieces[i];
      i := i + 1;
      ghost var lines := Lines(buf);
      out, buf := GrepBuffer(pattern, buf, out, seen);
      seen := seen + lines;
    }
    assert seen + Seen(buf, pieces[i..]) == seen;
  }

  lemma NothingPrinted(pattern: string)
    ensures Printed(pattern, []) == []
  {
  }

  lemma NextPiece(seen: seq<string>, buf: string, pieces: seq<string>, i: nat)
    requires i < |pieces|
    ensures var t := buf + pieces[i];
            seen + Seen(buf, pieces[i..])
              == seen + Lines(t) + Seen(if HasNewline(t) then Rest(t) else [], pieces[i + 1..])
  {
  }

  /** The inner loop: prints the matching lines of the buffer and moves what is left to its front. */
  method GrepBuffer(pattern: string, buf: string, printed: string, ghost seen: seq<string>)
      returns (out: string, left: string)
    requires printed == Printed(pattern, seen)
    ensures out == Printed(pattern, seen + Lines(buf)) && left == if HasNewline(buf) then Rest(buf) else []
    ensures left == [] || |left| < |buf|
  {
    hide Scanned;
    out := printed;
    ghost var done: seq<string> := [];
    var p := 0;
    ScanStarts(pattern, buf, seen, out);
    while Newline(buf[p..]) < |buf[p..]|
      invariant p <= |buf| && Scanned(pattern, buf, p, seen, done, out)
      decreases |buf| - p
    {
      var q := Newline(buf[p..]);
      var line := buf[p..p + q];
      ScanStep(pattern, buf, p, seen, done, out, line);
      var found := Grep.Match(pattern, line);
      if found { out := out + (line + ['\n']); }
      done := done + [line];
      p := p + q + 1;
    }
    ScanEnds(pattern, buf, p, seen, done, out);
    left := if p == 0 then [] else buf[p..];
  }

  /** The lines `done` before p have been looked at. */
  ghost predicate Scanned(pattern: string, buf: string, p: nat, seen: seq<string>, done: seq<string>, out: string)
    requires p <= |buf|
  {
    && out == Printed(pattern, seen + done) && Lines(buf) == done + Lines(buf[p..])
    && Rest(buf) == Rest(buf[p..]) && (p == 0 <==> done == [])
  }

  lemma ScanStarts(pattern: string, buf: string, seen: seq<string>, out: string)
    requires out == Printed(pattern, seen)
    ensures Scanned(pattern, buf, 0, seen, [], out)
  {
    assert buf[0..] == buf && seen + [] == seen && [] + Lines(buf) == Lines(buf);
  }

  lemma ScanStep(pattern: string, buf: string, p: nat, seen: seq<string>, done: seq<string>, out: string, line: string)
    requires p <= |buf| && Newline(buf[p..]) < |buf[p..]| && Scanned(pattern, buf, p, seen, done, out)
    requires line == buf[p..p + Newline(buf[p..])]
    ensures p + Newline(buf[p..]) < |buf|
    ensures Scanned(pattern, buf, p + Newline(buf[p..]) + 1, seen, done + [line],
        out + if Grep.Matches(pattern, line) then line + ['\n'] else [])
    ensures out + [] == out
  {
    hide Lines, Rest, Printed, Grep.Matches;
    var next := NextLine(buf, p, done);
    PrintMore(pattern, seen, done, line);
  }

  lemma ScanEnds(pattern: string, buf: string, p: nat, seen: seq<string>, done: seq<string>, out: string)
    requires p <= |buf| && Newline(buf[p..]) >= |buf[p..]| && Scanned(pattern, buf, p, seen, done, out)
    ensures out == Printed(pattern, seen + Lines(buf)) && (p == 0 <==> !HasNewline(buf)) && Rest(buf) == buf[p..]
  {
    hide Printed;
    LastLine(buf, p, done);
    NoLines(buf);
  }

  lemma NextLine(buf: string, p: nat, done: seq<string>) returns (line: string)
    requires p <= |buf| && Newline(buf[p..]) < |buf[p..]| && Lines(buf) == done + Lines(buf[p..])
    ensures var q := Newline(buf[p..]);
      && p + q < |buf| && line == buf[p..p + q] && Lines(buf) == (done + [line]) + Lines(buf[p + q + 1..])
      && Rest(buf[p..]) == Rest(buf[p + q + 1..])
  {
    var s := buf[p..];
    line := FirstLine(s);
    assert line == buf[p..p + Newline(s)] && AfterLine(s) == buf[p + Newline(s) + 1..];
    hide HasNewline, FirstLine, AfterLine;
    assert Lines(s) == [line] + Lines(AfterLine(s));
    assert done + ([line] + Lines(AfterLine(s))) == (done + [line]) + Lines(AfterLine(s));
  }

  lemma LastLine(buf: string, p: nat, done: seq<string>)
    requires p <= |buf| && Newline(buf[p..]) >= |buf[p..]| && Lines(buf) == done + Lines(buf[p..])
    requires Rest(buf) == Rest(buf[p..])
    ensures Lines(buf) == done && Rest(buf) == buf[p..]
  {
  }

  lemma PrintMore(pattern: string, seen: seq<string>, done: seq<string>, line: string)
    ensures Printed(pattern, seen + (done + [line])) == Printed(pattern, seen + done) + PrintedLine(pattern, line)
  {
    var all := seen + (done + [line]);
    assert all[..|all| - 1] == seen + done;
  }
}
