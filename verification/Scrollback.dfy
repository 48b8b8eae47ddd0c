/** The scrollback buffer of an HTM pane (src/htm/TerminalHandler.cpp, `pollUserTerminal`). */
module Scrollback {
  import opened Sequences
  import opened Strings

  const MAX_BUFFER_LINES := 1024
  const MAX_BUFFER_CHARS := 128 * MAX_BUFFER_LINES

  function Total(lines: seq<string>): nat {
    if lines == [] then 0 else |lines[0]| + Total(lines[1..])
  }

  /** A string without its newlines. */
  function Printed(s: string): string {
    if s == "" then "" else (if s[0] == '\n' then "" else [s[0]]) + Printed(s[1..])
  }

  /** New pieces: the first continues the last line. */
  function Appended(lines: seq<string>, tokens: seq<string>): seq<string>
    requires tokens != []
  {
    if lines == [] then tokens
    else lines[..|lines| - 1] + [lines[|lines| - 1] + tokens[0]] + tokens[1..]
  }

  predicate Fits(lines: seq<string>) {
    |lines| <= MAX_BUFFER_LINES && Total(lines) <= MAX_BUFFER_CHARS
  }

  /** Lines are dropped from the front, one at a time, until the rest fits. */
  function Kept(lines: seq<string>): seq<string> {
    if Fits(lines) then lines else
      assert lines != [];
      Kept(lines[1..])
  }

  // ----- sums and concatenations -----

  lemma {:induction false} TotalConcat(a: seq<string>, b: seq<string>)
    ensures Total(a + b) == Total(a) + Total(b)
    ensures Flat(a + b) == Flat(a) + Flat(b)
  {
    if a == [] {
      assert a + b == b;
    } else {
      assert (a + b)[1..] == a[1..] + b;
      TotalConcat(a[1..], b);
    }
  }

  lemma {:induction false} TotalIsLength(lines: seq<string>)
    ensures Total(lines) == |Flat(lines)|
  {
    if lines != [] {
      TotalIsLength(lines[1..]);
    }
  }

  lemma {:induction false} PrintedConcat(a: string, b: string)
    ensures Printed(a + b) == Printed(a) + Printed(b)
  {
    if a == "" {
      assert a + b == b;
    } else {
      assert (a + b)[1..] == a[1..] + b;
      PrintedConcat(a[1..], b);
    }
  }

  lemma {:induction false} PrintedWithout(s: string)
    requires '\n' !in s
    ensures Printed(s) == s
  {
    if s != "" {
      PrintedWithout(s[1..]);
    }
  }

  lemma {:induction false} SplitPrints(s: string)
    ensures Flat(Split(s, '\n')) == Printed(s)
    decreases |s|
  {
    hide Find, Printed, Split, Flat;
    if s == "" {
      NothingPrints();
      SplitNothing('\n');
    } else {
      var n := Find(s, '\n');
      PrintedWithout(s[..n]);
      if n < |s| {
        var piece, rest := s[..n], s[n + 1..];
        SplitPrints(rest);
        NewlinePrints(rest);
        assert s == piece + ("\n" + rest) == piece + ['\n'] + rest;
        PrintedConcat(piece, "\n" + rest);
        SplitPiece(piece, rest, '\n');
        TotalConcat([piece], Split(rest, '\n'));
        OneLine(piece);
      } else {
        assert s[..n] == s;
        SplitLast(s, '\n');
        OneLine(s);
      }
    }
  }

  lemma {:induction false} NothingPrints()
    ensures Printed("") == "" && Flat([]) == ""
  {
  }

  lemma {:induction false} NewlinePrints(rest: string)
    ensures Printed("\n" + rest) == Printed(rest)
  {
    assert ("\n" + rest)[1..] == rest && ("\n" + rest)[0] == '\n';
  }

  lemma {:induction false} AppendedPrints(lines: seq<string>, tokens: seq<string>)
    requires tokens != []
    ensures Flat(Appended(lines, tokens)) == Flat(lines) + Flat(tokens)
    ensures Total(Appended(lines, tokens)) == Total(lines) + Total(tokens)
  {
    if lines == [] {
      assert Flat(lines) + Flat(tokens) == Flat(tokens);
    } else {
      var front, last := lines[..|lines| - 1], lines[|lines| - 1];
      assert lines == front + [last];
      TotalConcat(front, [last]);
      TotalConcat(front + [last + tokens[0]], tokens[1..]);
      TotalConcat(front, [last + tokens[0]]);
      OneLine(last);
      OneLine(last + tokens[0]);
      Regrouped(Flat(front), last, tokens[0], Flat(tokens[1..]));
    }
  }

  lemma {:induction false} Regrouped(a: string, b: string, c: string, d: string)
    ensures (a + b) + (c + d) == (a + (b + c)) + d
  {
  }

  lemma {:induction false} OneLine(line: string)
    ensures Flat([line]) == line && Total([line]) == |line|
  {
    assert [line][1..] == [];
    assert line + "" == line;
  }

  // ----- what is kept -----

  lemma {:induction false} KeptIsSuffix(lines: seq<string>) returns (k: nat)
    ensures k <= |lines| && Kept(lines) == lines[k..] && Fits(Kept(lines))
    ensures forall j :: 0 <= j < k ==> !Fits(lines[j..])
    decreases |lines|
  {
    assert lines[0..] == lines;
    if Fits(lines) {
      k := 0;
    } else {
      var k' := KeptIsSuffix(lines[1..]);
      k := k' + 1;
      assert lines[1..][k'..] == lines[k..];
      forall j | 0 <= j < k
        ensures !Fits(lines[j..])
      {
        if j > 0 {
          assert lines[1..][j - 1..] == lines[j..];
        }
      }
    }
  }

  /** The buffer keeps as many of the newest lines as fit both limits, and no other would do. */
  lemma {:induction false} KeptIsLongest(lines: seq<string>, k: nat)
    requires k <= |lines|
    ensures |lines| - k <= 1024 && Total(lines[k..]) <= 128 * 1024 <==> |Kept(lines)| >= |lines| - k
  {
    var k0 := KeptIsSuffix(lines);
    if k >= k0 {
      ShorterFits(lines[k0..], k - k0);
      assert lines[k0..][k - k0..] == lines[k..];
    }
  }

  lemma {:induction false} ShorterFits(lines: seq<string>, k: nat)
    requires Fits(lines) && k <= |lines|
    ensures Fits(lines[k..])
  {
    assert lines == lines[..k] + lines[k..];
    TotalConcat(lines[..k], lines[k..]);
  }

  lemma {:induction false} KeptStepsOver(lines: seq<string>, k: nat)
    requires k <= |lines| && forall j :: 0 <= j < k ==> !Fits(lines[j..])
    ensures Kept(lines) == Kept(lines[k..])
    decreases k
  {
    assert lines[0..] == lines;
    if k > 0 {
      assert lines[1..][k - 1..] == lines[k..];
      forall j | 0 <= j < k - 1
        ensures !Fits(lines[1..][j..])
      {
        assert lines[1..][j..] == lines[j + 1..];
      }
      KeptStepsOver(lines[1..], k - 1);
    }
  }

  /** The text is the end of what has been printed. */
  ghost predicate IsEndOf(text: string, all: string) {
    |text| <= |all| && all[|all| - |text|..] == text
  }

  lemma {:induction false} EndStaysEnd(lines: seq<string>, output: string, newChars: string)
    requires IsEndOf(Flat(lines), Printed(output)) && newChars != ""
    ensures IsEndOf(Flat(Kept(Appended(lines, Split(newChars, '\n')))), Printed(output + newChars))
  {
    var tokens := Split(newChars, '\n');
    var more := Appended(lines, tokens);
    AppendedPrints(lines, tokens);
    SplitPrints(newChars);
    PrintedConcat(output, newChars);
    var k := KeptIsSuffix(more);
    assert more == more[..k] + more[k..];
    TotalConcat(more[..k], more[k..]);
    EndOfEnd(Flat(lines), Printed(output), Printed(newChars), Flat(more[..k]), Flat(more[k..]));
  }

  lemma {:induction false} EndOfEnd(text: string, all: string, more: string, dropped: string, kept: string)
    requires IsEndOf(text, all) && text + more == dropped + kept
    ensures IsEndOf(kept, all + more)
  {
    var front := all[..|all| - |text|];
    assert all == front + text;
    assert all + more == front + (text + more) == front + dropped + kept;
  }

  // ----- lines -----

  predicate EndsLine(read: string) {
    read != "" && read[|read| - 1] == '\n'
  }

  /** A second read goes on with the last line of the first, even if a newline had ended it. */
  lemma {:induction false} TwoReads(a: string, b: string)
    requires a != "" && b != ""
    ensures !EndsLine(a) ==> Split(a + b, '\n') == Appended(Split(a, '\n'), Split(b, '\n'))
    ensures EndsLine(a) ==> Split(a + b, '\n') == Split(a, '\n') + Split(b, '\n')
    decreases |a|
  {
    hide Find, Split, Appended;
    var n := Find(a, '\n');
    var tokens := Split(b, '\n');
    if n == |a| {
      assert a[..n] == a && a[|a| - 1] in a;
      OpenLineGoesOn(a, b);
    } else {
      var piece, rest := a[..n], a[n + 1..];
      assert a == piece + ['\n'] + rest && a + b == piece + ['\n'] + (rest + b);
      SplitPiece(piece, rest, '\n');
      SplitPiece(piece, rest + b, '\n');
      if rest == "" {
        assert rest + b == b && a[|a| - 1] == '\n';
        SplitNothing('\n');
        assert Split(a, '\n') == [piece];
      } else {
        TwoReads(rest, b);
        assert a[|a| - 1] == rest[|rest| - 1];
        AppendedBehind(piece, Split(rest, '\n'), tokens);
        assert [piece] + (Split(rest, '\n') + tokens) == ([piece] + Split(rest, '\n')) + tokens;
      }
    }
  }

  lemma {:induction false} AppendedBehind(piece: string, lines: seq<string>, tokens: seq<string>)
    requires lines != [] && tokens != []
    ensures Appended([piece] + lines, tokens) == [piece] + Appended(lines, tokens)
  {
    var all := [piece] + lines;
    assert all[..|all| - 1] == [piece] + lines[..|lines| - 1] && all[|all| - 1] == lines[|lines| - 1];
  }

  lemma {:induction false} OpenLineGoesOn(a: string, b: string)
    requires a != "" && b != "" && '\n' !in a
    ensures Appended(Split(a, '\n'), Split(b, '\n')) == Split(a + b, '\n')
  {
    SplitLast(a, '\n');
    var n := Find(b, '\n');
    assert [a][..0] == [];
    if n == |b| {
      SplitLast(b, '\n');
      SplitLast(a + b, '\n');
    } else {
      var rest := b[n + 1..];
      assert b == b[..n] + ['\n'] + rest && a + b == (a + b[..n]) + ['\n'] + rest;
      SplitPiece(b[..n], rest, '\n');
      SplitPiece(a + b[..n], rest, '\n');
      assert Split(b, '\n')[1..] == Split(rest, '\n');
    }
  }

  // ----- any number of reads -----

  predicate AllRead(polls: seq<string>) {
    forall i :: 0 <= i < |polls| ==> polls[i] != ""
  }

  /** The lines all the reads append, one after the other. */
  function Lines(polls: seq<string>): (lines: seq<string>)
    requires AllRead(polls)
    ensures polls != [] ==> lines != []
  {
    if polls == [] then [] else Appended(Lines(polls[..|polls| - 1]), Split(polls[|polls| - 1], '\n'))
  }

  /** The buffer after the reads: after each of them it is trimmed. */
  function Buffered(polls: seq<string>): seq<string>
    requires AllRead(polls)
  {
    if polls == [] then [] else Kept(Appended(Buffered(polls[..|polls| - 1]), Split(polls[|polls| - 1], '\n')))
  }

  /** How many reads before the last end in a newline. */
  function Losing(polls: seq<string>): nat {
    if |polls| < 2 then 0
    else Losing(polls[..|polls| - 1]) + if EndsLine(polls[|polls| - 2]) then 1 else 0
  }

  lemma {:induction false} LastRead(polls: seq<string>)
    requires AllRead(polls) && polls != []
    ensures Flat(polls) == Flat(polls[..|polls| - 1]) + polls[|polls| - 1]
    ensures Flat(polls) != "" && (EndsLine(Flat(polls)) <==> EndsLine(polls[|polls| - 1]))
  {
    hide Flat;
    var front, last := polls[..|polls| - 1], polls[|polls| - 1];
    assert polls == front + [last];
    TotalConcat(front, [last]);
    OneLine(last);
  }

  /** Every read before the last that ends in a newline loses one line, and without such a read
      the lines are those of the whole. */
  lemma {:induction false} LinesLost(polls: seq<string>)
    requires AllRead(polls)
    ensures |Lines(polls)| == |Split(Flat(polls), '\n')| - Losing(polls)
    ensures Losing(polls) == 0 ==> Lines(polls) == Split(Flat(polls), '\n')
  {
    hide Split, Appended, Flat;
    if polls == [] {
      SplitNothing('\n');
      NothingPrints();
    } else {
      var front, last := polls[..|polls| - 1], polls[|polls| - 1];
      LinesLost(front);
      LastRead(polls);
      AppendedCount(Lines(front), Split(last, '\n'));
      if front == [] {
        NothingPrints();
        assert "" + last == last;
      } else {
        LastRead(front);
        TwoReads(Flat(front), last);
        AppendedCount(Split(Flat(front), '\n'), Split(last, '\n'));
        assert front[|front| - 1] == polls[|polls| - 2];
      }
    }
  }

  lemma {:induction false} AppendedCount(lines: seq<string>, tokens: seq<string>)
    requires tokens != []
    ensures |Appended(lines, tokens)| == if lines == [] then |tokens| else |lines| + |tokens| - 1
    ensures lines == [] ==> Appended(lines, tokens) == tokens
  {
  }

  /** The reads append the lines of the whole output if and only if none before the last ends
      in a newline. */
  lemma {:induction false} LinesSurviveIff(polls: seq<string>)
    requires AllRead(polls)
    ensures Lines(polls) == Split(Flat(polls), '\n') <==> forall i :: 0 <= i < |polls| - 1 ==> !EndsLine(polls[i])
  {
    hide Lines, Split, Flat, EndsLine;
    LinesLost(polls);
    LosingIff(polls);
  }

  lemma {:induction false} LosingIff(polls: seq<string>)
    ensures Losing(polls) == 0 <==> forall i :: 0 <= i < |polls| - 1 ==> !EndsLine(polls[i])
  {
    hide EndsLine;
    if |polls| >= 2 {
      var front := polls[..|polls| - 1];
      LosingIff(front);
      assert forall i :: 0 <= i < |front| ==> front[i] == polls[i];
    }
  }

  /** The last line is longer than the buffer holds. */
  predicate Outgrown(lines: seq<string>) {
    lines != [] && |lines[|lines| - 1]| > MAX_BUFFER_CHARS
  }

  /** The lines the reads make when nothing is ever dropped: a line that has outgrown the buffer
      by the end of a read is not continued by the next. */
  function Grown(polls: seq<string>): (lines: seq<string>)
    requires AllRead(polls)
    ensures polls != [] ==> lines != []
  {
    if polls == [] then [] else
      var before, tokens := Grown(polls[..|polls| - 1]), Split(polls[|polls| - 1], '\n');
      if Outgrown(before) then before + tokens else Appended(before, tokens)
  }

  /** Trimming after every read is trimming those lines once at the end. */
  lemma {:induction false} TrimmingCanWait(polls: seq<string>)
    requires AllRead(polls)
    ensures Buffered(polls) == Kept(Grown(polls))
  {
    hide Split, Appended, Fits, Kept;
    NothingIsKept();
    if polls != [] {
      var front, last := polls[..|polls| - 1], polls[|polls| - 1];
      var before, tokens := Grown(front), Split(last, '\n');
      TrimmingCanWait(front);
      if before != [] {
        KeptHasLastLine(before);
      }
      AppendedCount([], tokens);
      if Outgrown(before) {
        KeptBehindOutgrown(before, tokens);
      } else {
        KeptOfKeptIff(before, tokens);
      }
    }
  }

  lemma {:induction false} KeptBehindOutgrown(lines: seq<string>, tokens: seq<string>)
    requires Outgrown(lines)
    ensures Kept(lines + tokens) == Kept(tokens)
  {
    hide Kept;
    var all, last := lines + tokens, lines[|lines| - 1];
    forall j | 0 <= j < |lines|
      ensures !Fits(all[j..])
    {
      assert all[j..] == lines[j..|lines| - 1] + ([last] + tokens);
      TotalConcat(lines[j..|lines| - 1], [last] + tokens);
      TotalConcat([last], tokens);
      OneLine(last);
    }
    KeptStepsOver(all, |lines|);
    assert all[|lines|..] == tokens;
  }

  lemma {:induction false} NothingIsKept()
    ensures Kept([]) == []
  {
  }

  lemma {:induction false} KeptHasLastLine(lines: seq<string>)
    requires lines != []
    ensures Kept(lines) != [] <==> |lines[|lines| - 1]| <= MAX_BUFFER_CHARS
  {
    hide Kept;
    var last := lines[|lines| - 1];
    assert lines[|lines| - 1..] == [last];
    OneLine(last);
    KeptIsLongest(lines, |lines| - 1);
  }

  /** An earlier trim shows after the next read if and only if it left nothing of a line that
      is still growing and all of the read fits. */
  lemma {:induction false} KeptOfKeptIff(lines: seq<string>, tokens: seq<string>)
    requires tokens != []
    ensures Kept(Appended(Kept(lines), tokens)) != Kept(Appended(lines, tokens)) <==>
            lines != [] && Kept(lines) == [] && Fits(tokens)
  {
    hide Kept, Fits;
    var k := KeptIsSuffix(lines);
    var all := Appended(lines, tokens);
    NothingIsKept();
    AppendedCount(lines, tokens);
    if lines != [] {
      AppendedCount([], tokens);
      forall j | 0 <= j < k
        ensures !Fits(all[j..])
      {
        assert all[j..] == Appended(lines[j..], tokens);
        AppendedFitsLess(lines[j..], tokens);
      }
      KeptStepsOver(all, k);
      if k < |lines| {
        assert all[k..] == Appended(lines[k..], tokens);
      } else {
        assert all[k..] == tokens[1..];
        FirstIsKept(tokens);
      }
    }
  }

  lemma {:induction false} FirstIsKept(tokens: seq<string>)
    requires tokens != []
    ensures Kept(tokens) != Kept(tokens[1..]) <==> Fits(tokens)
  {
    hide Fits;
    var k := KeptIsSuffix(tokens[1..]);
  }

  lemma {:induction false} AppendedFitsLess(lines: seq<string>, tokens: seq<string>)
    requires tokens != [] && !Fits(lines)
    ensures !Fits(Appended(lines, tokens))
  {
    AppendedCount(lines, tokens);
    AppendedPrints(lines, tokens);
  }

  // ----- when two lists of lines leave the same buffer -----

  /** How many lines the two lists have in common at the end. */
  function Common(a: seq<string>, b: seq<string>): (n: nat)
    ensures n <= |a| && n <= |b|
    decreases |a|
  {
    if a == [] || b == [] || a[|a| - 1] != b[|b| - 1] then 0 else Common(a[..|a| - 1], b[..|b| - 1]) + 1
  }

  lemma {:induction false} CommonIs(a: seq<string>, b: seq<string>)
    ensures var n := Common(a, b);
            && a[|a| - n..] == b[|b| - n..]
            && (n < |a| && n < |b| ==> a[|a| - n - 1] != b[|b| - n - 1])
    decreases |a|
  {
    if a != [] && b != [] && a[|a| - 1] == b[|b| - 1] {
      var n := Common(a[..|a| - 1], b[..|b| - 1]);
      CommonIs(a[..|a| - 1], b[..|b| - 1]);
      EndOneLonger(a, n);
      EndOneLonger(b, n);
    }
  }

  lemma {:induction false} EndOneLonger(lines: seq<string>, n: nat)
    requires n < |lines|
    ensures var front := lines[..|lines| - 1];
            && lines[|lines| - (n + 1)..] == front[|front| - n..] + [lines[|lines| - 1]]
            && (n < |front| ==> lines[|lines| - (n + 1) - 1] == front[|front| - n - 1])
  {
  }

  /** Going back from the end, the buffer is full before the two lists differ. */
  predicate DifferBeyondReach(a: seq<string>, b: seq<string>) {
    var n := Common(a, b);
    (n < |a| ==> !Fits(a[|a| - n - 1..])) && (n < |b| ==> !Fits(b[|b| - n - 1..]))
  }

  lemma {:induction false} KeptEqualIff(a: seq<string>, b: seq<string>)
    ensures Kept(a) == Kept(b) <==> DifferBeyondReach(a, b)
  {
    hide Kept, Fits, Common;
    var n := Common(a, b);
    CommonIs(a, b);
    if DifferBeyondReach(a, b) {
      OnlyTheEndCounts(a, n);
      OnlyTheEndCounts(b, n);
    } else if n < |a| && Fits(a[|a| - n - 1..]) {
      EndDiffers(a, b);
    } else {
      CommonTurned(a, b);
      EndDiffers(b, a);
    }
  }

  lemma {:induction false} OnlyTheEndCounts(lines: seq<string>, n: nat)
    requires n <= |lines| && (n < |lines| ==> !Fits(lines[|lines| - n - 1..]))
    ensures Kept(lines) == Kept(lines[|lines| - n..])
  {
    hide Kept, Fits;
    forall j | 0 <= j < |lines| - n
      ensures !Fits(lines[j..])
    {
      FitsFrom(lines, j, |lines| - n - 1);
    }
    KeptStepsOver(lines, |lines| - n);
  }

  lemma {:induction false} FitsFrom(lines: seq<string>, j: nat, k: nat)
    requires j <= k <= |lines|
    ensures Fits(lines[j..]) ==> Fits(lines[k..])
  {
    if Fits(lines[j..]) {
      ShorterFits(lines[j..], k - j);
      assert lines[j..][k - j..] == lines[k..];
    }
  }

  lemma {:induction false} EndDiffers(a: seq<string>, b: seq<string>)
    requires Common(a, b) < |a| && Fits(a[|a| - Common(a, b) - 1..])
    ensures Kept(a) != Kept(b)
  {
    hide Kept, Fits, Common;
    var n := Common(a, b);
    CommonIs(a, b);
    KeptIsLongest(a, |a| - n - 1);
    var i := KeptIsSuffix(a);
    var j := KeptIsSuffix(b);
    SameEnd(a, i, b, j, n);
  }

  lemma {:induction false} SameEnd(a: seq<string>, i: nat, b: seq<string>, j: nat, n: nat)
    requires i <= |a| && j <= |b| && n < |a| - i
    ensures a[i..] == b[j..] ==> n < |b| && a[|a| - n - 1] == b[|b| - n - 1]
  {
    if a[i..] == b[j..] {
      assert |a| - i == |b| - j;
      assert a[i..][|a| - n - 1 - i] == a[|a| - n - 1] && b[j..][|b| - n - 1 - j] == b[|b| - n - 1];
    }
  }

  lemma {:induction false} CommonTurned(a: seq<string>, b: seq<string>)
    ensures Common(a, b) == Common(b, a)
    decreases |a|
  {
    if a != [] && b != [] && a[|a| - 1] == b[|b| - 1] {
      CommonTurned(a[..|a| - 1], b[..|b| - 1]);
    }
  }

  /** After any number of polls the buffer is what fits of the lines of the whole output if and
      only if, going back from the end, it is full before those lines differ from the ones the
      reads make. */
  lemma {:induction false} BufferIsOfTheWholeIff(polls: seq<string>)
    requires AllRead(polls)
    ensures Buffered(polls) == Kept(Split(Flat(polls), '\n')) <==>
            DifferBeyondReach(Grown(polls), Split(Flat(polls), '\n'))
  {
    hide Buffered, Kept, Grown, Split, Flat, DifferBeyondReach;
    TrimmingCanWait(polls);
    KeptEqualIff(Grown(polls), Split(Flat(polls), '\n'));
  }

  /** A newline ends each read before the last after which a line has outgrown the buffer, and
      no other. */
  predicate EndsWhenOutgrown(polls: seq<string>)
    requires AllRead(polls)
  {
    forall i :: 0 <= i < |polls| - 1 ==> (EndsLine(polls[i]) <==> Outgrown(Grown(polls[..i + 1])))
  }

  /** Then the reads make the lines of the whole output. */
  lemma {:induction false} BufferIsOfTheWhole(polls: seq<string>)
    requires AllRead(polls) && EndsWhenOutgrown(polls)
    ensures Grown(polls) == Split(Flat(polls), '\n') && Buffered(polls) == Kept(Split(Flat(polls), '\n'))
  {
    hide Buffered, Kept, Split, Appended, Flat, EndsLine, Outgrown;
    TrimmingCanWait(polls);
    NothingPrints();
    SplitNothing('\n');
    if polls != [] {
      var front, last := polls[..|polls| - 1], polls[|polls| - 1];
      LastRead(polls);
      AppendedCount([], Split(last, '\n'));
      assert "" + last == last;
      if front != [] {
        assert EndsWhenOutgrown(front) by {
          forall i | 0 <= i < |front| - 1
            ensures EndsLine(front[i]) <==> Outgrown(Grown(front[..i + 1]))
          {
            assert front[i] == polls[i] && front[..i + 1] == polls[..i + 1];
          }
        }
        BufferIsOfTheWhole(front);
        LastRead(front);
        TwoReads(Flat(front), last);
        assert front[|front| - 1] == polls[|polls| - 2] && polls[..|polls| - 2 + 1] == front;
      } else {
        NothingOutgrown();
      }
    }
  }

  lemma {:induction false} NothingOutgrown()
    ensures !Outgrown([])
  {
  }

  /** While all of the output fits, the buffer is its lines if and only if no read before the
      last ended in a newline. */
  lemma {:induction false} FittingOutputIff(polls: seq<string>)
    requires AllRead(polls) && Fits(Split(Flat(polls), '\n'))
    ensures Buffered(polls) == Split(Flat(polls), '\n') <==> forall i :: 0 <= i < |polls| - 1 ==> !EndsLine(polls[i])
  {
    hide Buffered, Grown, Lines, Split, Flat, EndsLine, Total;
    LinesPrint(polls);
    SplitPrints(Flat(polls));
    TotalIsLength(Lines(polls));
    TotalIsLength(Split(Flat(polls), '\n'));
    GrownAsLines(polls);
    TrimmingCanWait(polls);
    LinesLost(polls);
    LinesSurviveIff(polls);
  }

  lemma {:induction false} LinesPrint(polls: seq<string>)
    requires AllRead(polls)
    ensures Flat(Lines(polls)) == Printed(Flat(polls))
  {
    hide Split, Appended, Printed, Flat;
    if polls == [] {
      NothingPrints();
    } else {
      var front, last := polls[..|polls| - 1], polls[|polls| - 1];
      LinesPrint(front);
      LastRead(polls);
      AppendedPrints(Lines(front), Split(last, '\n'));
      SplitPrints(last);
      PrintedConcat(Flat(front), last);
    }
  }

  lemma {:induction false} GrownAsLines(polls: seq<string>)
    requires AllRead(polls) && Total(Lines(polls)) <= MAX_BUFFER_CHARS
    ensures Grown(polls) == Lines(polls)
  {
    hide Split, Appended, Total;
    if polls != [] {
      var front, last := polls[..|polls| - 1], polls[|polls| - 1];
      AppendedPrints(Lines(front), Split(last, '\n'));
      GrownAsLines(front);
      if front != [] {
        LastIsWithin(Lines(front));
      }
    }
  }

  lemma {:induction false} LastIsWithin(lines: seq<string>)
    requires lines != []
    ensures |lines[|lines| - 1]| <= Total(lines)
  {
    assert lines == lines[..|lines| - 1] + [lines[|lines| - 1]];
    TotalConcat(lines[..|lines| - 1], [lines[|lines| - 1]]);
    OneLine(lines[|lines| - 1]);
  }

  class TerminalHandler {
    var buffer: seq<string>
    var bufferLength: int
    /** Everything the terminal has put out, as it was read. */
    ghost var polls: seq<string>
    ghost var output: string

    ghost predicate Valid()
      reads this
    {
      && Fits(buffer)
      && bufferLength == Total(buffer)
      && IsEndOf(Flat(buffer), Printed(output))
      && AllRead(polls) && output == Flat(polls) && buffer == Buffered(polls)
    }

    constructor ()
      ensures Valid() && buffer == [] && polls == []
    {
      buffer, bufferLength, polls, output := [], 0, [], "";
      new;
      assert Flat(buffer) == "" && Printed(output) == "";
    }

    /** What a poll does with the characters it has read. */
    method Store(newChars: string)
      requires Valid() && newChars != ""
      modifies this
      ensures Valid()
      ensures polls == old(polls) + [newChars] && output == old(output) + newChars
      ensures buffer == Kept(Appended(old(buffer), Split(newChars, '\n')))
      ensures |buffer| <= 1024 && Total(buffer) <= 128 * 1024
    {
      hide Kept, Total, Flat, Printed, Split, Fits, Buffered;
      var tokens := SplitString(newChars, '\n');
      var i := 0;
      TotalSoFar(tokens, 0);
      while i < |tokens|
        invariant 0 <= i <= |tokens| && buffer == old(buffer) && polls == old(polls) && output == old(output)
        invariant bufferLength == Total(buffer) + Total(tokens[..i])
      {
        TotalSoFar(tokens, i);
        bufferLength := bufferLength + |tokens[i]|;
        i := i + 1;
      }
      assert tokens[..i] == tokens;
      AppendedPrints(buffer, tokens);
      EndStaysEnd(buffer, output, newChars);
      if buffer == [] {
        buffer := tokens;
      } else {
        buffer := buffer[|buffer| - 1 := buffer[|buffer| - 1] + tokens[0]];
        if |tokens| > 1 {
          buffer := buffer + tokens[1..];
        }
      }
      assert buffer == Appended(old(buffer), tokens);
      polls, output := polls + [newChars], output + newChars;
      Trim();
      WithinLimits(buffer);
      OneMoreRead(old(polls), newChars);
    }

    /** Drops lines from the front until both limits hold. */
    method Trim()
      requires bufferLength == Total(buffer)
      modifies this`buffer, this`bufferLength
      ensures buffer == Kept(old(buffer)) && bufferLength == Total(buffer) && Fits(buffer)
    {
      ghost var lines, dropped := buffer, 0;
      assert lines[0..] == lines;
      if |buffer| > MAX_BUFFER_LINES {
        var amountToErase := |buffer| - MAX_BUFFER_LINES;
        var i := 0;
        while i < amountToErase
          invariant 0 <= i <= amountToErase && buffer == lines
          invariant bufferLength == Total(lines[i..])
        {
          assert lines[i..][1..] == lines[i + 1..];
          bufferLength := bufferLength - |buffer[i]|;
          i := i + 1;
        }
        buffer := buffer[amountToErase..];
        dropped := amountToErase;
      }
      while bufferLength > MAX_BUFFER_CHARS
        invariant dropped <= |lines| && buffer == lines[dropped..]
        invariant bufferLength == Total(buffer) && |buffer| <= MAX_BUFFER_LINES
        invariant forall j :: 0 <= j < dropped ==> !Fits(lines[j..])
        decreases |buffer|
      {
        bufferLength := bufferLength - |buffer[0]|;
        buffer := buffer[1..];
        dropped := dropped + 1;
      }
      KeptStepsOver(lines, dropped);
    }
  }

  lemma {:induction false} WithinLimits(lines: seq<string>)
    requires Fits(lines)
    ensures |lines| <= 1024 && Total(lines) <= 128 * 1024
  {
  }

  lemma {:induction false} OneMoreRead(polls: seq<string>, newChars: string)
    requires AllRead(polls) && newChars != ""
    ensures var polls' := polls + [newChars];
            && AllRead(polls') && Flat(polls') == Flat(polls) + newChars
            && Buffered(polls') == Kept(Appended(Buffered(polls), Split(newChars, '\n')))
  {
    hide Kept, Appended, Split;
    var polls' := polls + [newChars];
    assert polls'[..|polls|] == polls;
    LastRead(polls');
  }

  lemma {:induction false} TotalSoFar(tokens: seq<string>, i: nat)
    requires i <= |tokens|
    ensures i < |tokens| ==> Total(tokens[..i + 1]) == Total(tokens[..i]) + |tokens[i]|
    ensures Total(tokens[..0]) == 0
  {
    if i < |tokens| {
      assert tokens[..i + 1] == tokens[..i] + [tokens[i]];
      TotalConcat(tokens[..i], [tokens[i]]);
      OneLine(tokens[i]);
    }
  }
}
