/** Wildcard patterns and the Host lines of ssh_config (src/terminal/ParseConfigFile.hpp). */
module HostMatch {
  import opened Sequences
  import opened Strings
  import opened Wire

  // ----- what a pattern means -----

  /** '*' stands for any characters, '?' for one, every other character for itself. */
  ghost predicate Matches(s: string, p: string)
    decreases |p|
  {
    if p == "" then s == ""
    else if p[0] == '*' then exists k :: 0 <= k <= |s| && Matches(s[k..], p[1..])
    else s != "" && (p[0] == '?' || s[0] == p[0]) && Matches(s[1..], p[1..])
  }

  predicate Fits(piece: string, c: char) {
    c == '*' || (|piece| == 1 && (c == '?' || piece[0] == c))
  }

  /** The string cut into one piece for each character of the pattern. */
  ghost predicate Cut(s: string, p: string, pieces: seq<string>) {
    && |pieces| == |p|
    && Flat(pieces) == s
    && forall i :: 0 <= i < |p| ==> Fits(pieces[i], p[i])
  }

  lemma {:induction false} MatchesIsACut(s: string, p: string)
    ensures Matches(s, p) <==> exists pieces :: Cut(s, p, pieces)
  {
    if Matches(s, p) {
      var pieces := FindCut(s, p);
    }
    if pieces :| Cut(s, p, pieces) {
      CutMatches(s, p, pieces);
    }
  }

  lemma {:induction false} FindCut(s: string, p: string) returns (pieces: seq<string>)
    requires Matches(s, p)
    ensures Cut(s, p, pieces)
    decreases |p|
  {
    if p == "" {
      pieces := [];
    } else {
      var k := 1;
      if p[0] == '*' {
        k :| 0 <= k <= |s| && Matches(s[k..], p[1..]);
      }
      var rest := FindCut(s[k..], p[1..]);
      pieces := [s[..k]] + rest;
      assert pieces[1..] == rest && s == s[..k] + s[k..];
      forall i | 0 <= i < |p|
        ensures Fits(pieces[i], p[i])
      {
        if i > 0 {
          assert p[i] == p[1..][i - 1];
        }
      }
    }
  }

  lemma {:induction false} CutMatches(s: string, p: string, pieces: seq<string>)
    requires Cut(s, p, pieces)
    ensures Matches(s, p)
    decreases |p|
  {
    if p != "" {
      var k := |pieces[0]|;
      assert s[k..] == Flat(pieces[1..]);
      forall i | 0 <= i < |p[1..]|
        ensures Fits(pieces[1..][i], p[1..][i])
      {
        assert Fits(pieces[i + 1], p[i + 1]);
      }
      CutMatches(s[k..], p[1..], pieces[1..]);
    }
  }

  // ----- what the code makes of a pattern -----

  predicate AllStars(p: string) {
    forall i :: 0 <= i < |p| ==> p[i] == '*'
  }

  /** Two or more stars at the end are taken as one character or more. */
  function Effective(p: string): string {
    if p == "" then "" else if |p| >= 2 && AllStars(p) then "?*" else [p[0]] + Effective(p[1..])
  }

  predicate EndsInTwoStars(p: string) {
    |p| >= 2 && p[|p| - 1] == '*' && p[|p| - 2] == '*'
  }

  lemma {:induction false} EffectiveIsLiteral(p: string)
    requires !EndsInTwoStars(p)
    ensures Effective(p) == p
  {
    if p != "" {
      EffectiveIsLiteral(p[1..]);
    }
  }

  lemma {:induction false} StarsMatchAll(s: string, p: string)
    requires AllStars(p) && p != ""
    ensures Matches(s, p)
  {
    if |p| == 1 {
      assert Matches(s[|s|..], p[1..]);
    } else {
      StarsMatchAll(s, p[1..]);
      assert s[0..] == s;
    }
  }

  /** Only stars match nothing. */
  lemma {:induction false} EmptyNeedsStars(p: string)
    ensures Matches("", p) <==> AllStars(p)
  {
    if p != "" {
      EmptyNeedsStars(p[1..]);
      if p[0] == '*' {
        assert ""[0..] == "";
        if AllStars(p[1..]) {
          assert forall i :: 0 < i < |p| ==> p[i] == p[1..][i - 1];
        }
      }
      if AllStars(p) {
        assert p[0] == '*';
      }
    }
  }

  lemma {:induction false} QuestionStar(s: string)
    ensures Matches(s, "?*") <==> s != ""
  {
    assert "?*"[1..] == "*";
    if s != "" {
      StarsMatchAll(s[1..], "*");
    }
  }

  /** Whatever the code accepts, the pattern means. */
  lemma {:induction false} Sound(s: string, p: string)
    requires Matches(s, Effective(p))
    ensures Matches(s, p)
    decreases |p|
  {
    if |p| >= 2 && AllStars(p) {
      StarsMatchAll(s, p);
    } else if p != "" {
      var q := Effective(p);
      assert q[0] == p[0] && q[1..] == Effective(p[1..]);
      if p[0] == '*' {
        var k :| 0 <= k <= |s| && Matches(s[k..], q[1..]);
        Sound(s[k..], p[1..]);
      } else {
        Sound(s[1..], p[1..]);
      }
    }
  }

  function NonStars(p: string): nat {
    if p == "" then 0 else (if p[0] == '*' then 0 else 1) + NonStars(p[1..])
  }

  /** The shortest string a pattern stands for. */
  function Shortest(p: string): string {
    if p == "" then "" else (if p[0] == '*' then "" else [p[0]]) + Shortest(p[1..])
  }

  lemma {:induction false} ShortestMatches(p: string)
    ensures Matches(Shortest(p), p) && |Shortest(p)| == NonStars(p)
  {
    if p != "" {
      ShortestMatches(p[1..]);
      if p[0] == '*' {
        assert Shortest(p)[0..] == Shortest(p[1..]);
      } else {
        assert Shortest(p)[1..] == Shortest(p[1..]);
      }
    }
  }

  lemma {:induction false} MatchNeedsNonStars(s: string, p: string)
    requires Matches(s, p)
    ensures |s| >= NonStars(p)
    decreases |p|
  {
    if p != "" {
      if p[0] == '*' {
        var k :| 0 <= k <= |s| && Matches(s[k..], p[1..]);
        MatchNeedsNonStars(s[k..], p[1..]);
      } else {
        MatchNeedsNonStars(s[1..], p[1..]);
      }
    }
  }

  lemma {:induction false} EffectiveAsksForMore(p: string)
    requires EndsInTwoStars(p)
    ensures NonStars(Effective(p)) == NonStars(p) + 1
  {
    if AllStars(p) {
      StarsCountNothing(p);
      assert "?*"[1..] == "*" && "*"[1..] == "";
      assert NonStars("?*") == 1;
    } else {
      assert |p| > 2;
      EffectiveAsksForMore(p[1..]);
      assert Effective(p)[1..] == Effective(p[1..]);
    }
  }

  lemma {:induction false} StarsCountNothing(p: string)
    requires AllStars(p)
    ensures NonStars(p) == 0
  {
    if p != "" {
      StarsCountNothing(p[1..]);
    }
  }

  /** The code agrees with the meaning of a pattern on every string if and only if the pattern
      does not end in two stars. */
  lemma {:induction false} ExactIff(p: string)
    ensures (forall s :: Matches(s, Effective(p)) <==> Matches(s, p)) <==> !EndsInTwoStars(p)
  {
    if EndsInTwoStars(p) {
      var s := Shortest(p);
      ShortestMatches(p);
      EffectiveAsksForMore(p);
      if Matches(s, Effective(p)) {
        MatchNeedsNonStars(s, Effective(p));
      }
      assert Matches(s, p) && !Matches(s, Effective(p));
    } else {
      EffectiveIsLiteral(p);
    }
  }

  // ----- match_pattern -----

  /** A star before more pattern: some place in the string, before its end, starts the rest. */
  lemma {:induction false} StarThenRest(s: string, p: string)
    requires |p| >= 2 && p[0] == '*'
    ensures Matches(s, Effective(p)) <==> exists k :: 0 <= k < |s| && Matches(s[k..], Effective(p[1..]))
  {
    var rest := p[1..];
    if AllStars(p) {
      QuestionStar(s);
      assert AllStars(rest);
      if s != "" {
        if |rest| == 1 {
          assert rest == "*" && Effective(rest) == "*" + Effective("");
          StarsMatchAll(s, "*");
        } else {
          QuestionStar(s);
        }
        assert s[0..] == s;
        assert Matches(s[0..], Effective(rest));
      }
    } else {
      assert !AllStars(rest) by {
        var i :| 0 <= i < |p| && p[i] != '*';
        assert rest[i - 1] == p[i];
      }
      var q := Effective(rest);
      EffectiveKeepsNonStars(rest);
      assert Effective(p) == "*" + q && ("*" + q)[1..] == q;
      EmptyNeedsStars(q);
      if k :| 0 <= k <= |s| && Matches(s[k..], q) {
        assert k < |s|;
      }
    }
  }

  lemma {:induction false} EffectiveKeepsNonStars(p: string)
    requires !AllStars(p)
    ensures !AllStars(Effective(p))
  {
    if p[0] == '*' {
      assert !AllStars(p[1..]) by {
        var i :| 0 <= i < |p| && p[i] != '*';
        assert p[1..][i - 1] == p[i];
      }
      EffectiveKeepsNonStars(p[1..]);
      var i :| 0 <= i < |Effective(p[1..])| && Effective(p[1..])[i] != '*';
      assert Effective(p)[i + 1] != '*';
    } else {
      assert Effective(p)[0] != '*';
    }
  }

  /** A character or '?' in the pattern takes one character. */
  lemma {:induction false} OneThenRest(s: string, p: string)
    requires p != "" && p[0] != '*'
    ensures Matches(s, Effective(p)) <==>
            s != "" && (p[0] == '?' || s[0] == p[0]) && Matches(s[1..], Effective(p[1..]))
  {
    assert Effective(p) == [p[0]] + Effective(p[1..]);
    assert Effective(p)[1..] == Effective(p[1..]);
  }

  lemma {:induction false} StarAt(s: string, i: nat, p: string, j: nat)
    requires i <= |s| && j + 1 < |p| && p[j] == '*'
    ensures Matches(s[i..], Effective(p[j..])) <==> exists k :: i <= k < |s| && Matches(s[k..], Effective(p[j + 1..]))
  {
    hide Matches, Effective;
    StarThenRest(s[i..], p[j..]);
    assert p[j..][1..] == p[j + 1..];
    forall k | i <= k < |s|
      ensures s[i..][k - i..] == s[k..]
    {
    }
    if k :| 0 <= k < |s[i..]| && Matches(s[i..][k..], Effective(p[j + 1..])) {
      assert s[i..][k..] == s[i + k..];
    }
  }

  lemma {:induction false} OneAt(s: string, i: nat, p: string, j: nat)
    requires i <= |s| && j < |p| && p[j] != '*'
    ensures Matches(s[i..], Effective(p[j..])) <==>
            i < |s| && (p[j] == '?' || s[i] == p[j]) && Matches(s[i + 1..], Effective(p[j + 1..]))
  {
    hide Matches, Effective;
    OneThenRest(s[i..], p[j..]);
    assert p[j..][1..] == p[j + 1..];
    if i < |s| {
      assert s[i..][1..] == s[i + 1..];
    }
  }

  lemma {:induction false} AtTheEnd(s: string, i: nat, p: string, j: nat)
    requires i <= |s| && j <= |p|
    ensures j == |p| ==> (Matches(s[i..], Effective(p[j..])) <==> i == |s|)
    ensures j + 1 == |p| && p[j] == '*' ==> Matches(s[i..], Effective(p[j..]))
  {
    if j + 1 == |p| && p[j] == '*' {
      assert p[j..] == "*" && Effective("*") == "*" + Effective("");
      StarsMatchAll(s[i..], "*");
    }
  }

  method MatchPattern(s: string, pattern: string) returns (matched: bool)
    ensures matched <==> Matches(s, Effective(pattern))
    decreases |pattern|
  {
    hide Matches, Effective;
    var i, j := 0, 0;
    assert s[0..] == s && pattern[0..] == pattern;
    while true
      invariant 0 <= i <= |s| && 0 <= j <= |pattern|
      invariant Matches(s, Effective(pattern)) <==> Matches(s[i..], Effective(pattern[j..]))
      decreases |pattern| - j
    {
      AtTheEnd(s, i, pattern, j);
      if j == |pattern| {
        return i == |s|;
      }
      if pattern[j] == '*' {
        j := j + 1;
        if j == |pattern| {
          return true;
        }
        StarAt(s, i, pattern, j - 1);
        if pattern[j] != '?' && pattern[j] != '*' {
          ghost var start := i;
          while i < |s|
            invariant start <= i <= |s|
            invariant forall k :: start <= k < i ==> !Matches(s[k..], Effective(pattern[j..]))
          {
            OneAt(s, i, pattern, j);
            if s[i] == pattern[j] {
              var found := MatchPattern(s[i + 1..], pattern[j + 1..]);
              if found {
                return true;
              }
            }
            i := i + 1;
          }
          return false;
        }
        ghost var start := i;
        while i < |s|
          invariant start <= i <= |s|
          invariant forall k :: start <= k < i ==> !Matches(s[k..], Effective(pattern[j..]))
        {
          var found := MatchPattern(s[i..], pattern[j..]);
          if found {
            return true;
          }
          i := i + 1;
        }
        return false;
      }
      OneAt(s, i, pattern, j);
      if i == |s| {
        return false;
      }
      if pattern[j] != '?' && pattern[j] != s[i] {
        return false;
      }
      i := i + 1;
      j := j + 1;
    }
  }

  // ----- match_pattern_list -----

  const MAX_SUBPATTERN := 1023

  datatype Sub = Sub(negated: bool, text: string)

  function LowerChar(c: char): char {
    if 'A' <= c <= 'Z' then (c as int + 32) as char else c
  }

  function Lower(s: string): (r: string)
    ensures |r| == |s|
  {
    seq(|s|, i requires 0 <= i < |s| => LowerChar(s[i]))
  }

  function Body(p: string): string {
    if p != "" && p[0] == '!' then p[1..] else p
  }

  /** The comma-separated subpatterns, each negated by a leading '!'. */
  function Subs(p: string): seq<Sub>
    decreases |p|
  {
    if p == "" then [] else
      var n := Find(Body(p), ',');
      [Sub(p[0] == '!', Body(p)[..n])] + Subs(AfterComma(p))
  }

  function AfterComma(p: string): (rest: string)
    requires p != ""
    ensures |rest| < |p|
  {
    var n := Find(Body(p), ',');
    if n < |Body(p)| then Body(p)[n + 1..] else ""
  }

  function Written(subs: seq<Sub>): string {
    if subs == [] then "" else Head(subs[0]) + (if |subs| > 1 then "," else "") + Written(subs[1..])
  }

  function Head(sub: Sub): string {
    (if sub.negated then "!" else "") + sub.text
  }

  lemma {:induction false} SubsStep(p: string)
    requires p != ""
    ensures Subs(p) != [] && Subs(p)[0] == Sub(p[0] == '!', Body(p)[..Find(Body(p), ',')])
    ensures Subs(p)[1..] == Subs(AfterComma(p))
    ensures var n := Find(Body(p), ',');
            && p == Head(Subs(p)[0]) + (if n < |Body(p)| then "," + AfterComma(p) else "")
            && (n == |Body(p)| ==> AfterComma(p) == "")
  {
    hide Find, Body, AfterComma;
    var body, n := Body(p), Find(Body(p), ',');
    var mark, rest := if p[0] == '!' then "!" else "", if n < |body| then "," + AfterComma(p) else "";
    FirstAndRest(Sub(p[0] == '!', body[..n]), Subs(AfterComma(p)));
    MarkAndBody(p);
    AtComma(p);
    Glued(mark, body[..n], rest);
  }

  lemma {:induction false} FirstAndRest(sub: Sub, subs: seq<Sub>)
    ensures ([sub] + subs)[0] == sub && ([sub] + subs)[1..] == subs
  {
  }

  lemma {:induction false} MarkAndBody(p: string)
    requires p != ""
    ensures p == (if p[0] == '!' then "!" else "") + Body(p)
  {
  }

  lemma {:induction false} AtComma(p: string)
    requires p != ""
    ensures var body, n := Body(p), Find(Body(p), ',');
            && body == body[..n] + (if n < |body| then "," + AfterComma(p) else "")
            && (n == |body| ==> AfterComma(p) == "")
  {
    hide Find, Body;
  }

  lemma {:induction false} Glued(a: string, b: string, c: string)
    ensures a + (b + c) == (a + b) + c
  {
  }

  /** Subpatterns are what a list is written from, up to a comma at its end. */
  lemma {:induction false} SubsAreWhatIsWritten(p: string)
    ensures Written(Subs(p)) == p || Written(Subs(p)) + "," == p
    ensures forall i :: 0 <= i < |Subs(p)| ==> ',' !in Subs(p)[i].text
    ensures forall i :: 0 <= i < |Subs(p)| && !Subs(p)[i].negated && Subs(p)[i].text != "" ==> Subs(p)[i].text[0] != '!'
    decreases |p|
  {
    hide Subs, Find, Body, Head, AfterComma;
    if p == "" {
      NoSubs();
    } else {
      var rest, subs := AfterComma(p), Subs(p);
      SubsStep(p);
      SubsAreWhatIsWritten(rest);
      forall i | 0 <= i < |subs|
        ensures ',' !in subs[i].text
        ensures !subs[i].negated && subs[i].text != "" ==> subs[i].text[0] != '!'
      {
        if i > 0 {
          assert subs[i] == Subs(rest)[i - 1];
        } else if !subs[0].negated {
          PlainSubs(p);
        }
      }
      var head := Head(subs[0]);
      if rest == "" {
        NoSubs();
        assert |subs| == 1;
        assert Written(subs) == head + "" + Written([]);
        assert Written(subs) == head;
        assert head + "" == head && head + ("," + "") == head + ",";
      } else {
        SubsStep(rest);
        assert Written(subs) == (head + ",") + Written(Subs(rest));
        assert p == (head + ",") + rest;
        assert (head + ",") + (Written(Subs(rest)) + ",") == Written(subs) + ",";
      }
    }
  }

  lemma {:induction false} PlainSubs(p: string)
    requires p != "" && p[0] != '!'
    ensures Subs(p) != [] && Subs(p)[0].text <= p
  {
    SubsStep(p);
  }

  lemma {:induction false} NoSubs()
    ensures Subs("") == [] && Written([]) == ""
  {
  }

  ghost predicate Hits(host: Option<string>, sub: Sub) {
    host.Some? && Matches(host.value, Effective(Lower(sub.text)))
  }

  /** The position of the first subpattern too long for the buffer, or their number. */
  function Readable(subs: seq<Sub>): (n: nat)
    ensures n <= |subs|
    ensures forall i :: 0 <= i < n ==> |subs[i].text| < MAX_SUBPATTERN
    ensures n < |subs| ==> |subs[n].text| >= MAX_SUBPATTERN
  {
    if subs == [] || |subs[0].text| >= MAX_SUBPATTERN then 0 else Readable(subs[1..]) + 1
  }

  ghost predicate Refused(host: Option<string>, subs: seq<Sub>) {
    exists i :: 0 <= i < Readable(subs) && subs[i].negated && Hits(host, subs[i])
  }

  ghost predicate Welcomed(host: Option<string>, subs: seq<Sub>) {
    exists i :: 0 <= i < Readable(subs) && !subs[i].negated && Hits(host, subs[i])
  }

  /** -1 for a negated match, 1 for a positive one, else 0; a list is read up to its first
      over-long subpattern, which makes any positive match before it count for nothing. */
  ghost predicate IsVerdict(verdict: int, host: Option<string>, subs: seq<Sub>) {
    && (verdict == -1 <==> Refused(host, subs))
    && (verdict == 1 <==> !Refused(host, subs) && Welcomed(host, subs) && Readable(subs) == |subs|)
    && -1 <= verdict <= 1
  }

  /** The first `done` subpatterns are read: none refuses, `gotPositive` tells if one welcomes. */
  ghost predicate Scanned(host: Option<string>, subs: seq<Sub>, done: nat, gotPositive: int) {
    && done <= |subs| && 0 <= gotPositive <= 1
    && (forall k :: 0 <= k < done ==> |subs[k].text| < MAX_SUBPATTERN)
    && (forall k :: 0 <= k < done && subs[k].negated ==> !Hits(host, subs[k]))
    && (gotPositive == 1 <==> exists k :: 0 <= k < done && !subs[k].negated && Hits(host, subs[k]))
  }

  lemma {:induction false} ScanStep(host: Option<string>, subs: seq<Sub>, done: nat, gotPositive: int)
    requires Scanned(host, subs, done, gotPositive) && done < |subs| && |subs[done].text| < MAX_SUBPATTERN
    ensures !Hits(host, subs[done]) ==> Scanned(host, subs, done + 1, gotPositive)
    ensures Hits(host, subs[done]) && !subs[done].negated ==> Scanned(host, subs, done + 1, 1)
    ensures Hits(host, subs[done]) && subs[done].negated ==> IsVerdict(-1, host, subs)
  {
    hide Hits;
  }

  lemma {:induction false} ScanEnd(host: Option<string>, subs: seq<Sub>, done: nat, gotPositive: int)
    requires Scanned(host, subs, done, gotPositive)
    ensures done == |subs| ==> IsVerdict(gotPositive, host, subs)
    ensures done < |subs| && |subs[done].text| >= MAX_SUBPATTERN ==> IsVerdict(0, host, subs)
  {
    hide Hits;
  }

  /** Copies a subpattern in lower case, up to a comma, the end, or a full buffer. */
  method ReadSub(pattern: string, start: nat) returns (sub: string, i: nat)
    requires start <= |pattern|
    ensures start <= i <= |pattern| && i - start == |sub| <= MAX_SUBPATTERN
    ensures sub == Lower(pattern[start..i]) && ',' !in pattern[start..i]
    ensures i == |pattern| || |sub| == MAX_SUBPATTERN || pattern[i] == ','
  {
    hide Lower;
    i := start;
    sub := "";
    LowerNothing();
    while i < |pattern| && |sub| < MAX_SUBPATTERN && pattern[i] != ','
      invariant start <= i <= |pattern| && |sub| == i - start <= MAX_SUBPATTERN
      invariant sub == Lower(pattern[start..i]) && ',' !in pattern[start..i]
      decreases |pattern| - i
    {
      LowerSnoc(pattern, start, i);
      sub := sub + [LowerChar(pattern[i])];
      i := i + 1;
    }
  }

  lemma {:induction false} LowerNothing()
    ensures Lower("") == ""
  {
  }

  lemma {:induction false} LowerSnoc(s: string, start: nat, i: nat)
    requires start <= i < |s|
    ensures Lower(s[start..i + 1]) == Lower(s[start..i]) + [LowerChar(s[i])]
    ensures s[start..i + 1] == s[start..i] + [s[i]]
  {
  }

  /** A scan of the list at `i` that has met no comma from `start` to `end`. */
  lemma {:induction false} SubAt(pattern: string, i: nat, start: nat, end: nat)
    requires i < |pattern| && start == (if pattern[i] == '!' then i + 1 else i) && start <= end <= |pattern|
    requires ',' !in pattern[start..end]
    ensures var subs := Subs(pattern[i..]);
            && subs != [] && |subs[0].text| >= end - start
            && (end == |pattern| || pattern[end] == ',' ==>
                  && subs[0] == Sub(pattern[i] == '!', pattern[start..end])
                  && subs[1..] == Subs(pattern[if end < |pattern| then end + 1 else end..]))
  {
    hide Find, Subs, Body, AfterComma, Head;
    var here, body, n := pattern[i..], pattern[start..], end - start;
    SubsStep(here);
    BodyAt(pattern, i, start);
    assert body[..n] == pattern[start..end];
    CommaIsFirst(body, n);
    RestAt(pattern, i, start);
    if end < |pattern| {
      assert body[n] == pattern[end];
    } else {
      assert pattern[end..] == "";
    }
  }

  lemma {:induction false} BodyAt(pattern: string, i: nat, start: nat)
    requires i < |pattern| && start == (if pattern[i] == '!' then i + 1 else i)
    ensures Body(pattern[i..]) == pattern[start..] && pattern[i..] != "" && pattern[i..][0] == pattern[i]
  {
  }

  lemma {:induction false} RestAt(pattern: string, i: nat, start: nat)
    requires i < |pattern| && start == (if pattern[i] == '!' then i + 1 else i)
    ensures var n := Find(pattern[start..], ',');
            start + n <= |pattern|
            && AfterComma(pattern[i..]) == if start + n < |pattern| then pattern[start + n + 1..] else ""
  {
    hide Find;
    BodyAt(pattern, i, start);
  }

  lemma {:induction false} DropStep(subs: seq<Sub>, done: nat, tail: seq<Sub>)
    requires done <= |subs| && subs[done..] == tail && tail != []
    ensures done < |subs| && subs[done] == tail[0] && subs[done + 1..] == tail[1..]
  {
  }

  method MatchPatternList(host: Option<string>, pattern: string) returns (verdict: int)
    ensures IsVerdict(verdict, host, Subs(pattern))
  {
    hide Subs, Scanned, IsVerdict, Matches, Effective, Lower;
    ghost var subs := Subs(pattern);
    ghost var done := 0;
    var gotPositive := 0;
    var i := 0;
    ScanStart(host, subs);
    assert pattern[0..] == pattern && subs[0..] == subs;
    while i < |pattern|
      invariant 0 <= i <= |pattern| && 0 <= done <= |subs|
      invariant subs[done..] == Subs(pattern[i..])
      invariant Scanned(host, subs, done, gotPositive)
      decreases |pattern| - i
    {
      ghost var from := i;
      var negated := pattern[i] == '!';
      if negated {
        i := i + 1;
      }
      ghost var start := i;
      var sub;
      sub, i := ReadSub(pattern, i);
      SubAt(pattern, from, start, i);
      DropStep(subs, done, Subs(pattern[from..]));
      ScanEnd(host, subs, done, gotPositive);
      if |sub| >= MAX_SUBPATTERN {
        return 0;
      }
      if i < |pattern| && pattern[i] == ',' {
        i := i + 1;
      }
      var hit := false;
      if host.Some? {
        hit := MatchPattern(host.value, sub);
      }
      ScanStep(host, subs, done, gotPositive);
      if hit {
        if negated {
          return -1;
        } else {
          gotPositive := 1;
        }
      }
      done := done + 1;
    }
    NoSubs();
    assert pattern[i..] == "";
    ScanEnd(host, subs, done, gotPositive);
    return gotPositive;
  }

  lemma {:induction false} ScanStart(host: Option<string>, subs: seq<Sub>)
    ensures Scanned(host, subs, 0, 0)
  {
  }

  lemma {:induction false} CommaIsFirst(s: string, n: nat)
    requires n <= |s| && ',' !in s[..n]
    ensures Find(s, ',') >= n
    ensures n < |s| && s[n] == ',' ==> Find(s, ',') == n
  {
    if n > 0 {
      assert s[0] in s[..n] && s[1..][..n - 1] == s[..n][1..];
      CommaIsFirst(s[1..], n - 1);
    }
  }

  ghost predicate Meant(host: string, sub: Sub) {
    Matches(host, Lower(sub.text))
  }

  /** For subpatterns that fit the buffer and do not end in two stars, the verdict is what
      the patterns mean. */
  lemma {:induction false} VerdictOnOrdinaryList(verdict: int, host: string, subs: seq<Sub>)
    requires IsVerdict(verdict, Some(host), subs)
    requires forall i :: 0 <= i < |subs| ==> |subs[i].text| < MAX_SUBPATTERN && !EndsInTwoStars(subs[i].text)
    ensures verdict == -1 <==> exists i :: 0 <= i < |subs| && subs[i].negated && Meant(host, subs[i])
    ensures verdict == 1 <==> && (exists i :: 0 <= i < |subs| && !subs[i].negated && Meant(host, subs[i]))
                              && (forall i :: 0 <= i < |subs| && subs[i].negated ==> !Meant(host, subs[i]))
    ensures -1 <= verdict <= 1
  {
    hide Matches, Effective, Lower, EndsInTwoStars;
    assert Readable(subs) == |subs|;
    forall i | 0 <= i < |subs|
      ensures Hits(Some(host), subs[i]) <==> Meant(host, subs[i])
    {
      LowerKeepsStars(subs[i].text);
      EffectiveIsLiteral(Lower(subs[i].text));
    }
  }

  lemma {:induction false} LowerKeepsStars(s: string)
    ensures EndsInTwoStars(Lower(s)) <==> EndsInTwoStars(s)
  {
    forall i | 0 <= i < |s|
      ensures Lower(s)[i] == '*' <==> s[i] == '*'
    {
    }
  }

  // ----- Host lines -----

  function LowerHost(host: Option<string>): Option<string> {
    if host.Some? then Some(Lower(host.value)) else None
  }

  /** The tokens before the first empty one. */
  function Listed(tokens: seq<string>): (n: nat)
    ensures n <= |tokens| && "" !in tokens[..n] && (n < |tokens| ==> tokens[n] == "")
  {
    if tokens == [] || tokens[0] == "" then 0 else
      var n := Listed(tokens[1..]);
      assert tokens[..n + 1] == [tokens[0]] + tokens[1..][..n];
      n + 1
  }

  ghost predicate TokenRefuses(host: Option<string>, token: string) {
    Refused(LowerHost(host), Subs(token))
  }

  ghost predicate TokenWelcomes(host: Option<string>, token: string) {
    !TokenRefuses(host, token) && Welcomed(LowerHost(host), Subs(token)) && Readable(Subs(token)) == |Subs(token)|
  }

  /** Some token asks for the host and none refuses it. */
  ghost predicate HostSelected(host: Option<string>, tokens: seq<string>) {
    && (exists t :: t in tokens && TokenWelcomes(host, t))
    && (forall t :: t in tokens ==> !TokenRefuses(host, t))
  }

  lemma {:induction false} VerdictOnToken(verdict: int, host: Option<string>, token: string)
    requires IsVerdict(verdict, LowerHost(host), Subs(token))
    ensures verdict < 0 <==> TokenRefuses(host, token)
    ensures verdict > 0 <==> TokenWelcomes(host, token)
  {
    hide Refused, Welcomed, Readable, LowerHost;
  }

  /** The Host line: whether the lines after it apply to `target`. */
  method HostLine(target: Option<string>, tokens: seq<string>) returns (parsing: bool)
    ensures parsing <==> HostSelected(target, tokens[..Listed(tokens)])
  {
    hide IsVerdict, TokenRefuses, TokenWelcomes, LowerHost, Listed;
    var ok := 0;
    parsing := false;
    var host := LowerHost(target);
    var n := 0;
    while n < |tokens| && tokens[n] != ""
      invariant n <= |tokens| && "" !in tokens[..n]
      invariant ok < 0 <==> exists t :: t in tokens[..n] && TokenRefuses(target, t)
      invariant ok >= 0 ==> (parsing <==> exists t :: t in tokens[..n] && TokenWelcomes(target, t))
      invariant ok < 0 ==> !parsing
    {
      ghost var before := tokens[..n];
      assert tokens[..n + 1] == before + [tokens[n]];
      if ok >= 0 {
        ok := MatchPatternList(host, tokens[n]);
        VerdictOnToken(ok, target, tokens[n]);
        if ok < 0 {
          parsing := false;
        } else if ok > 0 {
          parsing := true;
        }
      }
      n := n + 1;
    }
    ListedIs(tokens, n);
  }

  lemma {:induction false} ListedIs(tokens: seq<string>, n: nat)
    requires n <= |tokens| && "" !in tokens[..n] && (n < |tokens| ==> tokens[n] == "")
    ensures Listed(tokens) == n
  {
    if n > 0 {
      assert tokens[0] in tokens[..n] && tokens[1..][..n - 1] == tokens[..n][1..];
      ListedIs(tokens[1..], n - 1);
    }
  }

  // ----- upper and lower case -----

  /** The two characters are the same letter in upper or lower case, or the same. */
  predicate SameLetter(c: char, d: char) {
    c == d || ('A' <= c <= 'Z' && d as int == c as int + 32) || ('A' <= d <= 'Z' && c as int == d as int + 32)
  }

  predicate SameLetters(s: string, t: string) {
    |s| == |t| && forall i :: 0 <= i < |s| ==> SameLetter(s[i], t[i])
  }

  lemma {:induction false} LowerIff(s: string, t: string)
    ensures Lower(s) == Lower(t) <==> SameLetters(s, t)
  {
    if Lower(s) == Lower(t) {
      forall i | 0 <= i < |s|
        ensures SameLetter(s[i], t[i])
      {
        assert Lower(s)[i] == Lower(t)[i];
      }
    }
  }

  lemma {:induction false} SameFind(s: string, t: string, c: char)
    requires SameLetters(s, t) && !('A' <= c <= 'Z') && !('a' <= c <= 'z')
    ensures Find(s, c) == Find(t, c)
  {
    if s != "" {
      assert SameLetter(s[0], t[0]);
      forall i | 0 <= i < |s| - 1
        ensures SameLetter(s[1..][i], t[1..][i])
      {
        assert SameLetter(s[i + 1], t[i + 1]);
      }
      SameFind(s[1..], t[1..], c);
    }
  }

  /** The same list in other letters has the same subpatterns in other letters. */
  predicate SameSubs(a: seq<Sub>, b: seq<Sub>) {
    |a| == |b| && forall i :: 0 <= i < |a| ==> a[i].negated == b[i].negated && SameLetters(a[i].text, b[i].text)
  }

  lemma {:induction false} PartsAlike(s: string, t: string, i: nat, j: nat)
    requires SameLetters(s, t) && i <= j <= |s|
    ensures SameLetters(s[i..j], t[i..j])
  {
    forall k | 0 <= k < j - i
      ensures SameLetter(s[i..j][k], t[i..j][k])
    {
      assert SameLetter(s[i + k], t[i + k]);
    }
  }

  lemma {:induction false} SubsAlike(p: string, q: string)
    requires SameLetters(p, q)
    ensures SameSubs(Subs(p), Subs(q))
    decreases |p|
  {
    hide Find, SameLetters, Body, AfterComma, Subs, SameSubs;
    SameLength(p, q);
    if p == "" {
      NoSubs();
      NoneAlike();
    } else {
      SameMark(p, q);
      BodiesAlike(p, q);
      SubsAlike(AfterComma(p), AfterComma(q));
      SubsStep(p);
      SubsStep(q);
      SameSubsCons(Subs(p), Subs(q));
    }
  }

  lemma {:induction false} NoneAlike()
    ensures SameSubs([], []) && SameLetters("", "")
  {
  }

  lemma {:induction false} BodiesAlike(p: string, q: string)
    requires SameLetters(p, q) && p != "" && q != "" && (p[0] == '!' <==> q[0] == '!')
    ensures SameLetters(Body(p)[..Find(Body(p), ',')], Body(q)[..Find(Body(q), ',')])
    ensures SameLetters(AfterComma(p), AfterComma(q))
  {
    hide Find, SameLetters;
    SameLength(p, q);
    var start := if p[0] == '!' then 1 else 0;
    PartsAlike(p, q, start, |p|);
    assert p[start..|p|] == Body(p) && q[start..|q|] == Body(q);
    SameFind(Body(p), Body(q), ',');
    var n := Find(Body(p), ',');
    PartsAlike(Body(p), Body(q), 0, n);
    assert Body(p)[0..n] == Body(p)[..n] && Body(q)[0..n] == Body(q)[..n];
    if n < |Body(p)| {
      PartsAlike(Body(p), Body(q), n + 1, |Body(p)|);
      assert Body(p)[n + 1..|Body(p)|] == AfterComma(p) && Body(q)[n + 1..|Body(q)|] == AfterComma(q);
    } else {
      NoneAlike();
    }
  }

  lemma {:induction false} SameSubsCons(a: seq<Sub>, b: seq<Sub>)
    requires a != [] && b != [] && SameSubs(a[1..], b[1..])
    requires a[0].negated == b[0].negated && SameLetters(a[0].text, b[0].text)
    ensures SameSubs(a, b)
  {
    forall i | 0 <= i < |a|
      ensures a[i].negated == b[i].negated && SameLetters(a[i].text, b[i].text)
    {
      if i > 0 {
        assert a[i] == a[1..][i - 1] && b[i] == b[1..][i - 1];
      }
    }
  }

  lemma {:induction false} SameLength(s: string, t: string)
    requires SameLetters(s, t)
    ensures |s| == |t|
  {
  }

  lemma {:induction false} SameMark(p: string, q: string)
    requires SameLetters(p, q) && p != ""
    ensures q != "" && (p[0] == '!' <==> q[0] == '!')
  {
    assert SameLetter(p[0], q[0]);
  }

  lemma {:induction false} HitsAlike(host: Option<string>, a: seq<Sub>, b: seq<Sub>)
    requires SameSubs(a, b)
    ensures Readable(a) == Readable(b)
    ensures Refused(host, a) == Refused(host, b) && Welcomed(host, a) == Welcomed(host, b)
  {
    hide Matches, Effective, Lower, SameLetters;
    ReadableAlike(a, b);
    forall i | 0 <= i < |a|
      ensures Hits(host, a[i]) == Hits(host, b[i])
    {
      LowerIff(a[i].text, b[i].text);
    }
  }

  lemma {:induction false} ReadableAlike(a: seq<Sub>, b: seq<Sub>)
    requires SameSubs(a, b)
    ensures Readable(a) == Readable(b)
  {
    if a != [] {
      assert SameLetters(a[0].text, b[0].text);
      forall i | 0 <= i < |a| - 1
        ensures a[1..][i].negated == b[1..][i].negated && SameLetters(a[1..][i].text, b[1..][i].text)
      {
        assert a[1..][i] == a[i + 1] && b[1..][i] == b[i + 1];
      }
      ReadableAlike(a[1..], b[1..]);
    }
  }

  predicate SameHost(a: Option<string>, b: Option<string>) {
    a.Some? == b.Some? && (a.Some? ==> SameLetters(a.value, b.value))
  }

  predicate SameTokens(a: seq<string>, b: seq<string>) {
    |a| == |b| && forall i :: 0 <= i < |a| ==> SameLetters(a[i], b[i])
  }

  /** A Host line decides alike for hosts and tokens that differ in upper and lower case only. */
  lemma {:induction false} CaseDoesNotMatter(host: Option<string>, tokens: seq<string>, host': Option<string>,
                                             tokens': seq<string>)
    requires SameHost(host, host') && SameTokens(tokens, tokens')
    ensures Selects(host, tokens) <==> Selects(host', tokens')
  {
    hide SameLetters, Listed, LowerHost, TokenRefuses, TokenWelcomes;
    if host.Some? {
      LowerIff(host.value, host'.value);
    }
    LowerHostIs(host, host');
    ListedAlike(tokens, tokens');
    forall i | 0 <= i < |tokens|
      ensures TokenRefuses(host, tokens[i]) == TokenRefuses(host', tokens'[i])
      ensures TokenWelcomes(host, tokens[i]) == TokenWelcomes(host', tokens'[i])
    {
      TokenAlike(host, tokens[i], host', tokens'[i]);
    }
    SelectedByIndex(host, tokens[..Listed(tokens)]);
    SelectedByIndex(host', tokens'[..Listed(tokens')]);
  }

  lemma {:induction false} LowerHostIs(host: Option<string>, host': Option<string>)
    requires host.Some? == host'.Some? && (host.Some? ==> Lower(host.value) == Lower(host'.value))
    ensures LowerHost(host) == LowerHost(host')
  {
  }

  lemma {:induction false} TokenAlike(host: Option<string>, token: string, host': Option<string>, token': string)
    requires LowerHost(host) == LowerHost(host') && SameLetters(token, token')
    ensures TokenRefuses(host, token) == TokenRefuses(host', token')
    ensures TokenWelcomes(host, token) == TokenWelcomes(host', token')
  {
    hide LowerHost, SameLetters, Subs, Refused, Welcomed, Readable;
    SubsAlike(token, token');
    HitsAlike(LowerHost(host), Subs(token), Subs(token'));
  }

  lemma {:induction false} ListedAlike(a: seq<string>, b: seq<string>)
    requires SameTokens(a, b)
    ensures Listed(a) == Listed(b)
  {
    if a != [] {
      assert SameLetters(a[0], b[0]);
      forall i | 0 <= i < |a| - 1
        ensures SameLetters(a[1..][i], b[1..][i])
      {
        assert a[1..][i] == a[i + 1] && b[1..][i] == b[i + 1];
      }
      ListedAlike(a[1..], b[1..]);
    }
  }

  lemma {:induction false} SelectedByIndex(host: Option<string>, tokens: seq<string>)
    ensures HostSelected(host, tokens) <==>
            && (exists i :: 0 <= i < |tokens| && TokenWelcomes(host, tokens[i]))
            && (forall i :: 0 <= i < |tokens| ==> !TokenRefuses(host, tokens[i]))
  {
    hide TokenWelcomes, TokenRefuses;
  }

  /** A subpattern without wildcards matches the host if and only if they are the same but for
      upper and lower case. */
  lemma {:induction false} PlainSubHitsIff(host: string, sub: Sub)
    requires '*' !in sub.text && '?' !in sub.text
    ensures Hits(LowerHost(Some(host)), sub) <==> SameLetters(host, sub.text)
  {
    hide SameLetters, Matches, Effective;
    LowerIff(host, sub.text);
    LowerIsPlain(sub.text);
    PlainIsItself(Lower(sub.text));
    PlainMatchesItself(Lower(host), Lower(sub.text));
  }

  lemma {:induction false} LowerIsPlain(s: string)
    requires '*' !in s && '?' !in s
    ensures '*' !in Lower(s) && '?' !in Lower(s)
  {
    forall i | 0 <= i < |s|
      ensures Lower(s)[i] != '*' && Lower(s)[i] != '?'
    {
    }
  }

  lemma {:induction false} PlainIsItself(p: string)
    requires '*' !in p
    ensures Effective(p) == p
  {
    EffectiveIsLiteral(p);
    if |p| > 0 {
      assert p[|p| - 1] in p;
    }
  }

  lemma {:induction false} PlainMatchesItself(s: string, p: string)
    requires '*' !in p && '?' !in p
    ensures Matches(s, p) <==> s == p
    decreases |p|
  {
    if p != "" {
      assert p[0] in p;
      if s != "" {
        PlainMatchesItself(s[1..], p[1..]);
        assert s == [s[0]] + s[1..] && p == [p[0]] + p[1..];
      }
    }
  }

  /** What a Host line with these tokens decides. */
  ghost predicate Selects(host: Option<string>, tokens: seq<string>) {
    HostSelected(host, tokens[..Listed(tokens)])
  }

  /** Without an empty token the order of the tokens does not matter. */
  lemma {:induction false} TokenOrderDoesNotMatter(host: Option<string>, a: seq<string>, b: seq<string>)
    requires multiset(a) == multiset(b) && "" !in a
    ensures Selects(host, a) <==> Selects(host, b)
  {
    hide TokenWelcomes, TokenRefuses, Listed;
    forall t
      ensures t in a <==> t in b
    {
      assert t in a <==> t in multiset(a);
    }
    ListedIs(a, |a|);
    ListedIs(b, |b|);
    assert a[..|a|] == a && b[..|b|] == b;
  }

  ghost predicate OrderDoesNotMatter(host: Option<string>, tokens: seq<string>) {
    forall a, b :: multiset(a) == multiset(tokens) == multiset(b) ==> (Selects(host, a) <==> Selects(host, b))
  }

  /** All orders of the tokens agree about a host if and only if none of them is empty or none
      asks for that host. */
  lemma {:induction false} TokenOrderDoesNotMatterIff(host: Option<string>, tokens: seq<string>)
    ensures OrderDoesNotMatter(host, tokens) <==>
            "" !in tokens || forall t :: t in tokens ==> !TokenWelcomes(host, t)
  {
    hide TokenWelcomes, TokenRefuses, Listed;
    if "" !in tokens {
      forall a, b | multiset(a) == multiset(tokens) == multiset(b)
        ensures Selects(host, a) <==> Selects(host, b)
      {
        assert "" !in multiset(tokens);
        TokenOrderDoesNotMatter(host, a, b);
      }
    } else if x :| x in tokens && TokenWelcomes(host, x) {
      EmptyTokenAsksForNothing(host);
      var hidden := Foremost(tokens, "");
      assert x in multiset(hidden);
      var shown := Foremost(hidden, x);
      ListedIs(hidden, 0);
      ListedIs(shown, 1);
      assert shown[..1] == [x];
      WelcomedIsNotRefused(host, x);
      assert !Selects(host, hidden) && Selects(host, shown);
    } else {
      forall a | multiset(a) == multiset(tokens)
        ensures !Selects(host, a)
      {
        forall t | t in a
          ensures t in tokens
        {
          assert t in multiset(a);
        }
      }
    }
  }

  /** The same tokens, one of them first. */
  lemma {:induction false} Foremost(tokens: seq<string>, x: string) returns (r: seq<string>)
    requires x in tokens
    ensures multiset(r) == multiset(tokens) && r != [] && r[0] == x
    ensures tokens[0] != x ==> |r| > 1 && r[1] == tokens[0]
  {
    var i :| 0 <= i < |tokens| && tokens[i] == x;
    r := [x] + (tokens[..i] + tokens[i + 1..]);
    assert tokens == tokens[..i] + ([x] + tokens[i + 1..]);
  }

  lemma {:induction false} EmptyTokenAsksForNothing(host: Option<string>)
    ensures !TokenWelcomes(host, "")
  {
    hide LowerHost;
    NoSubs();
  }

  lemma {:induction false} WelcomedIsNotRefused(host: Option<string>, token: string)
    requires TokenWelcomes(host, token)
    ensures !TokenRefuses(host, token)
  {
    hide TokenRefuses;
  }

  /** The host "h" is selected by `h ""` and not by `"" h`. */
  lemma {:induction false} EmptyTokenHidesTheRest()
    ensures multiset(["h", ""]) == multiset(["", "h"])
    ensures Selects(Some("h"), ["h", ""]) && !Selects(Some("h"), ["", "h"])
  {
    hide Listed, TokenWelcomes, TokenRefuses;
    OnlySub("h");
    PlainHits();
    ListedIs(["h", ""], 1);
    ListedIs(["", "h"], 0);
    assert ["h", ""][..1] == ["h"];
    assert TokenWelcomes(Some("h"), "h") by {
      assert Lower("h") == "h";
      PositiveListWelcomes(Some("h"), "h");
    }
    WelcomedIsNotRefused(Some("h"), "h");
  }

  lemma {:induction false} OnlySub(p: string)
    requires p != "" && p[0] != '!' && ',' !in p
    ensures Subs(p) == [Sub(false, p)]
  {
    hide Subs, Find;
    SubsStep(p);
    assert p[..|p|] == p;
    CommaIsFirst(p, |p|);
    NoSubs();
    assert Subs(p) == [Subs(p)[0]] + Subs(p)[1..];
  }

  lemma {:induction false} PlainHits()
    ensures Hits(Some("h"), Sub(false, "h"))
  {
    assert Lower("h") == "h" && Effective("h") == "h";
    assert "h"[1..] == "";
  }

  lemma {:induction false} PositiveListWelcomes(host: Option<string>, token: string)
    requires LowerHost(host) == host && Subs(token) == [Sub(false, token)] && |token| < MAX_SUBPATTERN
    requires Hits(host, Sub(false, token))
    ensures TokenWelcomes(host, token)
  {
    hide Hits, LowerHost, Subs;
    var subs := Subs(token);
    assert subs[1..] == [];
    assert Readable(subs) == 1;
    assert !subs[0].negated && Hits(host, subs[0]);
  }

  /** The list `h,xx...x` with 1023 times x asks for "h" and refuses nobody, and still its
      verdict on "h" is 0. */
  lemma {:induction false} OverlongCancelsAMatch()
    ensures var subs := Subs("h," + seq(1023, _ => 'x'));
            && Welcomed(Some("h"), subs) && !Refused(Some("h"), subs)
            && forall verdict :: IsVerdict(verdict, Some("h"), subs) <==> verdict == 0
  {
    hide Subs, Find, Hits;
    var long := seq(MAX_SUBPATTERN, _ => 'x');
    var p := "h," + long;
    SubsStep(p);
    assert p[..1] == "h" && p[1] == ',' && p[2..] == long;
    CommaIsFirst(p, 1);
    OnlySub(long);
    PlainHits();
    var subs := Subs(p);
    assert subs == [subs[0]] + subs[1..];
    assert subs == [Sub(false, "h"), Sub(false, long)];
    assert Readable(subs[1..]) == 0;
    assert Readable(subs) == 1;
    assert !subs[0].negated && Hits(Some("h"), subs[0]);
  }
}
