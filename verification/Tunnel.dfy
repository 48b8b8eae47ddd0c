/** Tunnel arguments: written from the LocalForward lines of ssh_config, and parsed into
    forwarding requests (src/base/TunnelUtils.cpp, src/terminal/TerminalClientMain.cpp). */
module Tunnel {
  import opened Wire
  import opened Strings

  /** PortForwardSourceRequest, with what is set of it. */
  datatype Request = Request(sourceName: Option<string>, sourcePort: Option<int>, environmentVariable: Option<string>,
                             destinationName: Option<string>, destinationPort: Option<int>)

  /** TunnelParseException by its reason, a plain exception of `stoi`, or a read past the end
      of a vector or an int overflow, which C++ leaves undefined. */
  datatype Error = NoDestination | BadNumber | UnequalRanges | HalfARange | FewParts | ManyParts | Escaped | Undefined

  datatype Parsed = Ok(requests: seq<Request>) | Err(error: Error)

  function Ports(source: int, destination: int): Request {
    Request(Some("localhost"), Some(source), None, None, Some(destination))
  }

  predicate IsSocketPath(s: string) {
    s != "" && s[0] == '/'
  }

  predicate IsNumeric(s: string) {
    forall i :: 0 <= i < |s| ==> IsDigit(s[i]) || s[i] == '-'
  }

  // ----- one source:destination argument -----

  /** One end as a socket path or a port. */
  function OnePort(source: string, destination: string): Parsed {
    if IsSocketPath(source) && IsSocketPath(destination) then
      Ok([Request(Some(source), None, None, Some(destination), None)])
    else if IsSocketPath(source) then
      if Stoi(destination).None? then Err(BadNumber)
      else Ok([Request(Some(source), None, None, None, Stoi(destination))])
    else if Stoi(source).None? then Err(BadNumber)
    else if IsSocketPath(destination) then
      Ok([Request(Some("localhost"), Stoi(source), None, Some(destination), None)])
    else if Stoi(destination).None? then Err(BadNumber)
    else Ok([Request(Some("localhost"), Stoi(source), None, None, Stoi(destination))])
  }

  datatype Bounds = Bounds(first: int, last: int) | Bad(error: Error)

  /** The two numbers around the first '-'; the second piece may not be there. */
  function RangeBounds(s: string): Bounds {
    var pieces := Split(s, '-');
    if pieces == [] then Bad(Undefined)
    else if Stoi(pieces[0]).None? then Bad(BadNumber)
    else if |pieces| < 2 then Bad(Undefined)
    else if Stoi(pieces[1]).None? then Bad(BadNumber)
    else Bounds(Stoi(pieces[0]).value, Stoi(pieces[1]).value)
  }

  predicate FitsInt(n: int) {
    -TWO_TO_THE_31 <= n < TWO_TO_THE_31
  }

  function RangePorts(source: int, destination: int, length: int): (r: seq<Request>)
    ensures |r| == if length < 0 then 0 else length
  {
    if length <= 0 then [] else
      RangePorts(source, destination, length - 1) + [Ports(source + length - 1, destination + length - 1)]
  }

  function Ranges(source: string, destination: string): Parsed {
    var s, d := RangeBounds(source), RangeBounds(destination);
    if s.Bad? then Err(s.error)
    else if d.Bad? then Err(d.error)
    else if !FitsInt(s.last - s.first) || !FitsInt(d.last - d.first) then Err(Undefined)
    else if s.last - s.first != d.last - d.first then Err(UnequalRanges)
    else if !FitsInt(s.last - s.first + 1) then Err(Undefined)
    else Ok(RangePorts(s.first, d.first, s.last - s.first + 1))
  }

  function EtStyle(parts: seq<string>): Parsed {
    if |parts| < 2 then Err(NoDestination)
    else
      var source, destination := parts[0], parts[1];
      if IsSocketPath(source) || (IsSocketPath(destination) && IsNumeric(source)) then OnePort(source, destination)
      else if !IsNumeric(source) && !IsNumeric(destination) then
        Ok([Request(None, None, Some(source), Some(destination), None)])
      else if '-' in source && '-' in destination then Ranges(source, destination)
      else if '-' in source || '-' in destination then Err(HalfARange)
      else OnePort(source, destination)
  }

  /** The requests so far, and those of one more argument. */
  function Plus(sofar: seq<Request>, more: Parsed): Parsed {
    if more.Ok? then Ok(sofar + more.requests) else more
  }

  /** `stoi` on both ends, or socket paths. */
  method PortOrPath(source: string, destination: string) returns (r: Parsed)
    ensures r == OnePort(source, destination)
  {
    var request := Request(None, None, None, None, None);
    if IsSocketPath(source) {
      request := request.(sourceName := Some(source));
    } else {
      var port := Stoi(source);
      if port.None? {
        return Err(BadNumber);
      }
      request := request.(sourceName := Some("localhost"), sourcePort := port);
    }
    if IsSocketPath(destination) {
      request := request.(destinationName := Some(destination));
    } else {
      var port := Stoi(destination);
      if port.None? {
        return Err(BadNumber);
      }
      request := request.(destinationPort := port);
    }
    return Ok([request]);
  }

  method ReadBounds(s: string) returns (b: Bounds)
    ensures b == RangeBounds(s)
  {
    var pieces := SplitString(s, '-');
    if pieces == [] {
      return Bad(Undefined);
    }
    var first := Stoi(pieces[0]);
    if first.None? {
      return Bad(BadNumber);
    }
    if |pieces| < 2 {
      return Bad(Undefined);
    }
    var last := Stoi(pieces[1]);
    return if last.None? then Bad(BadNumber) else Bounds(first.value, last.value);
  }

  /** Adds a port pair for each step of the two ranges. */
  method ProcessRanges(pfsrs: seq<Request>, source: string, destination: string) returns (r: Parsed)
    ensures r == Plus(pfsrs, Ranges(source, destination))
  {
    hide RangeBounds;
    var s := ReadBounds(source);
    if s.Bad? {
      return Err(s.error);
    }
    var d := ReadBounds(destination);
    if d.Bad? {
      return Err(d.error);
    }
    if !FitsInt(s.last - s.first) || !FitsInt(d.last - d.first) {
      return Err(Undefined);
    }
    if s.last - s.first != d.last - d.first {
      return Err(UnequalRanges);
    }
    var portRangeLength := s.last - s.first + 1;
    if !FitsInt(portRangeLength) {
      return Err(Undefined);
    }
    var requests := pfsrs;
    var i := 0;
    assert pfsrs + RangePorts(s.first, d.first, 0) == pfsrs;
    while i < portRangeLength
      invariant 0 <= i && (0 <= portRangeLength ==> i <= portRangeLength) && (portRangeLength < 0 ==> i == 0)
      invariant requests == pfsrs + RangePorts(s.first, d.first, i)
    {
      requests := requests + [Ports(s.first + i, d.first + i)];
      i := i + 1;
    }
    return Ok(requests);
  }

  method ProcessEtStyleTunnelArg(pfsrs: seq<Request>, parts: seq<string>) returns (r: Parsed)
    ensures r == Plus(pfsrs, EtStyle(parts))
  {
    hide OnePort, Ranges;
    if |parts| < 2 {
      return Err(NoDestination);
    }
    var source, destination := parts[0], parts[1];
    if IsSocketPath(source) || (IsSocketPath(destination) && IsNumeric(source)) {
      var one := PortOrPath(source, destination);
      r := Plus(pfsrs, one);
    } else if !IsNumeric(source) && !IsNumeric(destination) {
      r := Ok(pfsrs + [Request(None, None, Some(source), Some(destination), None)]);
    } else if '-' in source && '-' in destination {
      r := ProcessRanges(pfsrs, source, destination);
    } else if '-' in source || '-' in destination {
      r := Err(HalfARange);
    } else {
      var one := PortOrPath(source, destination);
      r := Plus(pfsrs, one);
    }
  }

  // ----- ssh style -----

  /** Colons between brackets do not separate. */
  function SshParts(s: string, inBrackets: bool, current: string): (parts: seq<string>)
    ensures parts != []
  {
    if s == "" then [current]
    else if s[0] == '[' then SshParts(s[1..], true, current)
    else if s[0] == ']' then SshParts(s[1..], false, current)
    else if s[0] == ':' && !inBrackets then [current] + SshParts(s[1..], inBrackets, "")
    else SshParts(s[1..], inBrackets, current + [s[0]])
  }

  function SshStyle(s: string): Parsed {
    var parts := SshParts(s, false, "");
    if |parts| < 4 then Err(FewParts)
    else if |parts| > 4 then Err(ManyParts)
    else if Stoi(parts[1]).None? || Stoi(parts[3]).None? then Err(Escaped)
    else Ok([Request(Some(parts[0]), Stoi(parts[1]), None, Some(parts[2]), Stoi(parts[3]))])
  }

  method ParseSshTunnelArg(input: string) returns (parts: seq<string>)
    ensures parts == SshParts(input, false, "")
  {
    var inBrackets := false;
    var currentPart := "";
    parts := [];
    var i := 0;
    while i < |input|
      invariant 0 <= i <= |input|
      invariant parts + SshParts(input[i..], inBrackets, currentPart) == SshParts(input, false, "")
    {
      var c := input[i];
      assert input[i..][0] == c && input[i..][1..] == input[i + 1..];
      if c == '[' {
        inBrackets := true;
      } else if c == ']' {
        inBrackets := false;
      } else if c == ':' && !inBrackets {
        parts := parts + [currentPart];
        currentPart := "";
      } else {
        currentPart := currentPart + [c];
      }
      i := i + 1;
    }
    assert input[i..] == "";
    parts := parts + [currentPart];
  }

  /** A part as it has to be written. */
  function Quoted(part: string): string {
    if ':' in part then "[" + part + "]" else part
  }

  predicate Plain(part: string) {
    '[' !in part && ']' !in part
  }

  function WrittenParts(parts: seq<string>): string {
    if parts == [] then "" else Quoted(parts[0]) + (if |parts| > 1 then ":" + WrittenParts(parts[1..]) else "")
  }

  lemma {:induction false} PlainCharsCollect(part: string, rest: string, inBrackets: bool, current: string)
    requires Plain(part) && (inBrackets || ':' !in part)
    ensures SshParts(part + rest, inBrackets, current) == SshParts(rest, inBrackets, current + part)
    decreases |part|
  {
    if part == "" {
      assert part + rest == rest && current + part == current;
    } else {
      assert part[0] in part;
      assert (part + rest)[1..] == part[1..] + rest && current + [part[0]] + part[1..] == current + part;
      PlainCharsCollect(part[1..], rest, inBrackets, current + [part[0]]);
    }
  }

  /** Parts written with brackets around colons are read back, whatever colons they hold. */
  lemma {:induction false} SshRoundTrip(parts: seq<string>)
    requires parts != [] && forall i :: 0 <= i < |parts| ==> Plain(parts[i])
    ensures SshParts(WrittenParts(parts), false, "") == parts
    decreases |parts|
  {
    var part := parts[0];
    var tail := if |parts| > 1 then ":" + WrittenParts(parts[1..]) else "";
    OnePartReads(part, tail);
    if |parts| > 1 {
      SshRoundTrip(parts[1..]);
      assert tail[1..] == WrittenParts(parts[1..]);
      assert parts == [part] + parts[1..];
    }
  }

  lemma {:induction false} Bracket(s: string, inBrackets: bool, current: string)
    ensures SshParts("[" + s, inBrackets, current) == SshParts(s, true, current)
    ensures SshParts("]" + s, inBrackets, current) == SshParts(s, false, current)
  {
    assert ("[" + s)[1..] == s && ("[" + s)[0] == '[';
    assert ("]" + s)[1..] == s && ("]" + s)[0] == ']';
  }

  lemma {:induction false} OnePartReads(part: string, tail: string)
    requires Plain(part)
    ensures SshParts(Quoted(part) + tail, false, "") == SshParts(tail, false, part)
  {
    hide SshParts;
    assert "" + part == part;
    if ':' in part {
      assert Quoted(part) + tail == "[" + (part + ("]" + tail));
      Bracket(part + ("]" + tail), false, "");
      PlainCharsCollect(part, "]" + tail, true, "");
      Bracket(tail, true, part);
    } else {
      PlainCharsCollect(part, tail, false, "");
    }
  }

  // ----- the whole argument -----

  function Elements(elements: seq<string>): Parsed {
    if elements == [] then Ok([]) else
      var first := EtStyle(Split(elements[0], ':'));
      if first.Err? then first else Plus(first.requests, Elements(elements[1..]))
  }

  function ParseRanges(input: string): Parsed {
    var elements := Split(input, ',');
    if |elements| > 1 then Elements(elements)
    else if elements == [] then Err(Undefined)
    else if |Split(elements[0], ':')| <= 2 then EtStyle(Split(elements[0], ':'))
    else SshStyle(elements[0])
  }

  method ParseRangesToRequests(input: string) returns (r: Parsed)
    ensures r == ParseRanges(input)
  {
    hide EtStyle, Split, SshParts;
    var elements := SplitString(input, ',');
    if |elements| > 1 {
      var requests: seq<Request> := [];
      var i := 0;
      assert elements[0..] == elements;
      while i < |elements|
        invariant 0 <= i <= |elements|
        invariant Plus(requests, Elements(elements[i..])) == Elements(elements)
      {
        assert elements[i..][1..] == elements[i + 1..];
        var parts := SplitString(elements[i], ':');
        var one := ProcessEtStyleTunnelArg(requests, parts);
        if one.Err? {
          return one;
        }
        PlusPlus(requests, EtStyle(parts).requests, Elements(elements[i + 1..]));
        requests := one.requests;
        i := i + 1;
      }
      assert elements[i..] == [] && requests + [] == requests;
      return Ok(requests);
    }
    if elements == [] {
      return Err(Undefined);
    }
    var parts := SplitString(elements[0], ':');
    if |parts| <= 2 {
      r := ProcessEtStyleTunnelArg([], parts);
      NothingPlus(EtStyle(parts));
    } else {
      var sshParts := ParseSshTunnelArg(elements[0]);
      if |sshParts| < 4 {
        return Err(FewParts);
      }
      if |sshParts| > 4 {
        return Err(ManyParts);
      }
      var sourcePort, destinationPort := Stoi(sshParts[1]), Stoi(sshParts[3]);
      if sourcePort.None? || destinationPort.None? {
        return Err(Escaped);
      }
      return Ok([Request(Some(sshParts[0]), sourcePort, None, Some(sshParts[2]), destinationPort)]);
    }
  }

  lemma {:induction false} PlusPlus(a: seq<Request>, b: seq<Request>, c: Parsed)
    ensures Plus(a, Plus(b, c)) == Plus(a + b, c)
  {
    if c.Ok? {
      assert a + (b + c.requests) == (a + b) + c.requests;
    }
  }

  lemma {:induction false} NothingPlus(p: Parsed)
    ensures Plus([], p) == p
  {
    if p.Ok? {
      assert [] + p.requests == p.requests;
    }
  }

  // ----- LocalForward -----

  function Entry(pair: (int, int)): string {
    ToString(pair.0) + ":" + ToString(pair.1)
  }

  /** The entries, with commas between them. */
  function Entries(pairs: seq<(int, int)>): string {
    if pairs == [] then "" else Entry(pairs[0]) + (if |pairs| > 1 then "," + Entries(pairs[1..]) else "")
  }

  /** The tunnel option as given, followed by the entries. */
  function Argument(given: string, pairs: seq<(int, int)>): string {
    if pairs == [] then given else if given == "" then Entries(pairs) else given + "," + Entries(pairs)
  }

  method PrintForwards(given: string, pairs: seq<(int, int)>) returns (tunnelArg: string)
    ensures tunnelArg == Argument(given, pairs)
  {
    hide Argument;
    tunnelArg := given;
    var i := 0;
    NoEntries(given);
    while i < |pairs|
      invariant 0 <= i <= |pairs| && tunnelArg == Argument(given, pairs[..i])
    {
      ArgumentSnoc(given, pairs[..i], pairs[i]);
      assert pairs[..i] + [pairs[i]] == pairs[..i + 1];
      var tunnelEntry := ToString(pairs[i].0) + ":" + ToString(pairs[i].1);
      if tunnelArg == "" {
        tunnelArg := tunnelEntry;
      } else {
        tunnelArg := tunnelArg + "," + tunnelEntry;
      }
      i := i + 1;
    }
    assert pairs[..i] == pairs;
  }

  lemma {:induction false} NoEntries(given: string)
    ensures Argument(given, []) == given
  {
  }

  lemma {:induction false} ArgumentSnoc(given: string, pairs: seq<(int, int)>, pair: (int, int))
    ensures var sofar := Argument(given, pairs);
            Argument(given, pairs + [pair]) == if sofar == "" then Entry(pair) else sofar + "," + Entry(pair)
  {
    hide Entry, Entries;
    EntriesSnoc(pairs, pair);
    if pairs != [] {
      EntriesAreSome(pairs);
      if given != "" {
        assert given + "," + (Entries(pairs) + "," + Entry(pair)) == given + "," + Entries(pairs) + "," + Entry(pair);
      }
    }
  }

  lemma {:induction false} EntriesAreSome(pairs: seq<(int, int)>)
    requires pairs != []
    ensures Entries(pairs) != ""
  {
    EntrySplits(pairs[0]);
  }

  lemma {:induction false} EntriesSnoc(pairs: seq<(int, int)>, pair: (int, int))
    ensures Entries(pairs + [pair]) == if pairs == [] then Entry(pair) else Entries(pairs) + "," + Entry(pair)
  {
    hide Entry;
    var all := pairs + [pair];
    if pairs == [] {
      assert all == [pair] && Entry(pair) + "" == Entry(pair);
    } else {
      assert all[1..] == pairs[1..] + [pair];
      EntriesSnoc(pairs[1..], pair);
      if |pairs| == 1 {
        assert pairs[1..] == [] && Entries(pairs) == Entry(pairs[0]) + "";
      }
    }
  }

  /** Every character of a printed number is a digit or a minus sign. */
  lemma {:induction false} ToStringIsNumeric(n: int)
    ensures ToString(n) != "" && IsNumeric(ToString(n)) && !IsSocketPath(ToString(n))
    ensures ',' !in ToString(n) && ':' !in ToString(n)
    ensures '-' in ToString(n) <==> n < 0
  {
    hide Decimal;
    var d := Decimal(if n < 0 then -n else n);
    forall i | 0 <= i < |ToString(n)|
      ensures IsDigit(ToString(n)[i]) || (ToString(n)[i] == '-' && n < 0)
    {
      if n < 0 && i > 0 {
        assert IsDigit(d[i - 1]);
      }
    }
    if n < 0 {
      assert ToString(n)[0] == '-';
    }
  }

  /** A number written with a minus sign is no end of a range. */
  lemma {:induction false} MinusIsNoRange(n: int)
    requires n < 0
    ensures RangeBounds(ToString(n)) == Bad(BadNumber)
  {
    var s := ToString(n);
    assert s == "" + ['-'] + s[1..];
    SplitPiece("", s[1..], '-');
    assert Stoi("") == None;
  }

  /** A port pair is parsed as it stands if and only if neither port is negative. */
  lemma {:induction false} EntryParsesIff(pair: (int, int))
    requires FitsInt(pair.0) && FitsInt(pair.1)
    ensures var r := EtStyle([ToString(pair.0), ToString(pair.1)]);
            if pair.0 >= 0 && pair.1 >= 0 then r == Ok([Ports(pair.0, pair.1)]) else r.Err?
  {
    hide ToString, Stoi, RangeBounds, IsNumeric;
    ToStringIsNumeric(pair.0);
    ToStringIsNumeric(pair.1);
    StoiOfToString(pair.0);
    StoiOfToString(pair.1);
    if pair.0 < 0 {
      MinusIsNoRange(pair.0);
    }
  }

  lemma {:induction false} EntrySplits(pair: (int, int))
    ensures Split(Entry(pair), ':') == [ToString(pair.0), ToString(pair.1)]
    ensures ',' !in Entry(pair) && Entry(pair) != ""
  {
    hide ToString;
    ToStringIsNumeric(pair.0);
    ToStringIsNumeric(pair.1);
    assert Entry(pair) == ToString(pair.0) + [':'] + ToString(pair.1);
    SplitPiece(ToString(pair.0), ToString(pair.1), ':');
    SplitLast(ToString(pair.1), ':');
  }

  function EntryList(pairs: seq<(int, int)>): (list: seq<string>)
    ensures |list| == |pairs|
  {
    if pairs == [] then [] else [Entry(pairs[0])] + EntryList(pairs[1..])
  }

  lemma {:induction false} EntriesSplit(pairs: seq<(int, int)>)
    requires pairs != []
    ensures Split(Entries(pairs), ',') == EntryList(pairs)
  {
    hide Entry;
    EntrySplits(pairs[0]);
    if |pairs| == 1 {
      assert Entries(pairs) == Entry(pairs[0]) && EntryList(pairs[1..]) == [];
      SplitLast(Entry(pairs[0]), ',');
    } else {
      EntriesSplit(pairs[1..]);
      assert Entries(pairs) == Entry(pairs[0]) + [','] + Entries(pairs[1..]);
      SplitPiece(Entry(pairs[0]), Entries(pairs[1..]), ',');
    }
  }

  function RequestsOf(pairs: seq<(int, int)>): seq<Request> {
    seq(|pairs|, i requires 0 <= i < |pairs| => Ports(pairs[i].0, pairs[i].1))
  }

  predicate NonNegative(pairs: seq<(int, int)>) {
    forall i :: 0 <= i < |pairs| ==> pairs[i].0 >= 0 && pairs[i].1 >= 0
  }

  predicate AllInts(pairs: seq<(int, int)>) {
    forall i :: 0 <= i < |pairs| ==> FitsInt(pairs[i].0) && FitsInt(pairs[i].1)
  }

  lemma {:induction false} ElementsParse(pairs: seq<(int, int)>)
    requires AllInts(pairs)
    ensures if NonNegative(pairs) then Elements(EntryList(pairs)) == Ok(RequestsOf(pairs))
            else Elements(EntryList(pairs)).Err?
  {
    hide Entry, EtStyle, ToString, NonNegative, Elements, Split, RequestsOf;
    if pairs == [] {
      NoElements();
    } else {
      EntrySplits(pairs[0]);
      EntryParsesIff(pairs[0]);
      ElementsParse(pairs[1..]);
      ElementsStep(Entry(pairs[0]), EntryList(pairs[1..]));
      NonNegativeHead(pairs);
      RequestsHead(pairs);
    }
  }

  lemma {:induction false} NoElements()
    ensures Elements([]) == Ok([]) && RequestsOf([]) == [] && NonNegative([])
  {
  }

  lemma {:induction false} ElementsStep(first: string, rest: seq<string>)
    ensures var r := EtStyle(Split(first, ':'));
            Elements([first] + rest) == if r.Err? then r else Plus(r.requests, Elements(rest))
  {
    assert ([first] + rest)[1..] == rest;
  }

  lemma {:induction false} RequestsHead(pairs: seq<(int, int)>)
    requires pairs != []
    ensures RequestsOf(pairs) == [Ports(pairs[0].0, pairs[0].1)] + RequestsOf(pairs[1..])
  {
  }

  lemma {:induction false} NonNegativeHead(pairs: seq<(int, int)>)
    requires pairs != []
    ensures NonNegative(pairs) <==> pairs[0].0 >= 0 && pairs[0].1 >= 0 && NonNegative(pairs[1..])
  {
    if pairs[0].0 >= 0 && pairs[0].1 >= 0 && NonNegative(pairs[1..]) {
      forall i | 0 <= i < |pairs|
        ensures pairs[i].0 >= 0 && pairs[i].1 >= 0
      {
        if i > 0 {
          assert pairs[i] == pairs[1..][i - 1];
        }
      }
    }
  }

  /** Parsing what is printed for the LocalForward lines gives the same port pairs in the same
      order if and only if no port is negative; otherwise it throws. */
  lemma {:induction false} RoundTripIff(pairs: seq<(int, int)>)
    requires pairs != [] && AllInts(pairs)
    ensures ParseRanges(Entries(pairs)) == Ok(RequestsOf(pairs)) <==> NonNegative(pairs)
    ensures !NonNegative(pairs) ==> ParseRanges(Entries(pairs)).Err?
  {
    hide Entry, EtStyle, ToString, Split, Elements;
    EntriesSplit(pairs);
    ElementsParse(pairs);
    EntrySplits(pairs[0]);
    EntryParsesIff(pairs[0]);
    if |pairs| == 1 {
      assert RequestsOf(pairs) == [Ports(pairs[0].0, pairs[0].1)];
      assert EntryList(pairs)[0] == Entry(pairs[0]);
    }
  }

  // ----- what an argument asks for -----

  /** Two parts with a colon between them, in each of their kinds: two names are an environment
      variable and where it leads; a path or a port number on the left is listened on, a path or a
      port number on the right is connected to. */
  lemma {:induction false} WhatAPairAsksFor(a: string, b: string, m: int, n: int)
    requires b != "" && ',' !in a && ',' !in b && ':' !in a && ':' !in b && FitsInt(m) && FitsInt(n)
    ensures var r := ParseRanges(a + ":" + b);
            && (!IsNumeric(a) && !IsNumeric(b) && !IsSocketPath(a) ==>
                  r == Ok([Request(None, None, Some(a), Some(b), None)]))
            && (IsSocketPath(a) && IsSocketPath(b) ==> r == Ok([Request(Some(a), None, None, Some(b), None)]))
            && (IsSocketPath(a) && b == ToString(n) ==> r == Ok([Request(Some(a), None, None, None, Some(n))]))
            && (a == ToString(m) && IsSocketPath(b) ==> r == Ok([Request(Some("localhost"), Some(m), None, Some(b), None)]))
            && (a == ToString(m) && b == ToString(n) && m >= 0 && n >= 0 ==>
                  r == Ok([Request(Some("localhost"), Some(m), None, None, Some(n))]))
  {
    hide ToString, Stoi, Split, IsNumeric;
    PairIsEtStyle(a, b);
    ToStringIsNumeric(m);
    ToStringIsNumeric(n);
    StoiOfToString(m);
    StoiOfToString(n);
    PathIsNoNumber(a);
    PathIsNoNumber(b);
  }

  lemma {:induction false} PathIsNoNumber(s: string)
    ensures IsSocketPath(s) ==> !IsNumeric(s)
  {
    assert IsSocketPath(s) ==> !IsDigit(s[0]);
  }

  lemma {:induction false} PairIsEtStyle(a: string, b: string)
    requires b != "" && ',' !in a && ',' !in b && ':' !in a && ':' !in b
    ensures ParseRanges(a + ":" + b) == EtStyle([a, b])
  {
    hide Split, EtStyle, Elements, SshStyle;
    SplitLast(a + ":" + b, ',');
    assert a + ":" + b == a + [':'] + b;
    SplitPiece(a, b, ':');
    SplitLast(b, ':');
    assert [a] + [b] == [a, b];
  }

  /** Four parts in the ssh style: the address and port listened on, and the host and port
      connected to. */
  lemma {:induction false} WhatAnSshArgumentAsksFor(address: string, m: int, host: string, n: int)
    requires Plain(address) && Plain(host) && ',' !in address && ',' !in host && FitsInt(m) && FitsInt(n)
    ensures ParseRanges(WrittenParts([address, ToString(m), host, ToString(n)])) ==
            Ok([Request(Some(address), Some(m), None, Some(host), Some(n))])
  {
    hide ToString, Stoi, Split, EtStyle, Elements, SshParts, WrittenParts, Plain, IsNumeric;
    var parts := [address, ToString(m), host, ToString(n)];
    var s := WrittenParts(parts);
    NumberIsPlain(m);
    NumberIsPlain(n);
    StoiOfToString(m);
    StoiOfToString(n);
    SshRoundTrip(parts);
    FourParts(address, ToString(m), host, ToString(n));
    SplitLast(s, ',');
  }

  lemma {:induction false} NumberIsPlain(n: int)
    ensures Plain(ToString(n)) && ToString(n) != "" && ',' !in ToString(n) && ':' !in ToString(n)
  {
    hide ToString;
    ToStringIsNumeric(n);
    var s := ToString(n);
    assert forall i :: 0 <= i < |s| ==> s[i] != '[' && s[i] != ']';
  }

  lemma {:induction false} FourParts(a: string, b: string, c: string, d: string)
    requires ',' !in a && ',' !in b && ',' !in c && ',' !in d && d != "" && ':' !in b && ':' !in d
    ensures var s := WrittenParts([a, b, c, d]);
            s != "" && ',' !in s && |Split(s, ':')| > 2
  {
    hide Split;
    var tail := Quoted(c) + ":" + d;
    assert [a, b, c, d][1..] == [b, c, d] && [b, c, d][1..] == [c, d] && [c, d][1..] == [d];
    assert WrittenParts([d]) == d + "" == d;
    assert WrittenParts([c, d]) == Quoted(c) + (":" + d) == tail;
    assert WrittenParts([b, c, d]) == b + (":" + tail) == b + [':'] + tail;
    assert WrittenParts([a, b, c, d]) == Quoted(a) + (":" + (b + [':'] + tail)) == Quoted(a) + [':'] + (b + [':'] + tail);
    OnePieceMore(Quoted(a), b + [':'] + tail, ':');
    OnePieceMore(b, tail, ':');
    SomePiece(tail, ':');
  }

  // ----- where the parser leaves what C++ defines -----

  /** A number and the only '-' behind it: the second end of the range is read past the pieces. */
  predicate OpenRange(s: string) {
    s != "" && '-' !in s[..|s| - 1] && s[|s| - 1] == '-' && Stoi(s[..|s| - 1]).Some?
  }

  /** A number, a '-', and a number before the next '-' or the end. */
  predicate WholeRange(s: string, first: int, last: int) {
    var n := Find(s, '-');
    n < |s| && Stoi(s[..n]) == Some(first) && Stoi(s[n + 1..][..Find(s[n + 1..], '-')]) == Some(last)
  }

  /** The two ends are read as ranges. */
  predicate TakenAsRanges(source: string, destination: string) {
    && '-' in source && '-' in destination
    && !IsSocketPath(source) && !(IsSocketPath(destination) && IsNumeric(source))
    && (IsNumeric(source) || IsNumeric(destination))
  }

  /** One range has no second end, with nothing wrong before it, or both cover every port number
      an int can hold. */
  ghost predicate BeyondRanges(source: string, destination: string) {
    || OpenRange(source)
    || (OpenRange(destination) && exists first, last :: WholeRange(source, first, last))
    || (WholeRange(source, 0, TWO_TO_THE_31 - 1) && WholeRange(destination, 0, TWO_TO_THE_31 - 1))
  }

  ghost predicate BeyondArgument(element: string) {
    var parts := Split(element, ':');
    |parts| >= 2 && TakenAsRanges(parts[0], parts[1]) && BeyondRanges(parts[0], parts[1])
  }

  lemma {:induction false} DashSplits(s: string)
    requires '-' in s
    ensures var n, pieces := Find(s, '-'), Split(s, '-');
            && n < |s| && pieces != [] && pieces[0] == s[..n]
            && (|pieces| < 2 <==> n == |s| - 1)
            && (|pieces| >= 2 ==> pieces[1] == s[n + 1..][..Find(s[n + 1..], '-')])
  {
    hide Find;
    var n := Find(s, '-');
    assert s == s[..n] + s[n..];
    if n < |s| - 1 {
      assert Split(s, '-')[1..] == Split(s[n + 1..], '-');
    } else if n == |s| - 1 {
      assert s[n + 1..] == "";
      SplitNothing('-');
    }
  }

  /** A piece without a '-' is no negative number. */
  lemma {:induction false} StoiWithoutDash(s: string)
    requires '-' !in s
    ensures Stoi(s).Some? ==> Stoi(s).value >= 0
  {
    hide Digits, Value;
    SkippedIsEnd(s);
  }

  lemma {:induction false} SkippedIsEnd(s: string)
    ensures forall c :: c in SkipSpaces(s) ==> c in s
  {
    if s != "" {
      SkippedIsEnd(s[1..]);
    }
  }

  lemma {:induction false} BoundsAre(s: string)
    requires '-' in s
    ensures RangeBounds(s) == Bad(Undefined) <==> OpenRange(s)
    ensures RangeBounds(s).Bounds? ==> 0 <= RangeBounds(s).first < TWO_TO_THE_31 && 0 <= RangeBounds(s).last < TWO_TO_THE_31
    ensures forall first, last :: RangeBounds(s) == Bounds(first, last) <==> WholeRange(s, first, last) && Find(s, '-') < |s| - 1
  {
    hide Find, Split, Stoi;
    var n := Find(s, '-');
    DashSplits(s);
    DashAt(s);
    assert s[..|s|] == s;
    StoiWithoutDash(s[..n]);
    StoiWithoutDash(s[n + 1..][..Find(s[n + 1..], '-')]);
    StoiFits(s[..n]);
    StoiFits(s[n + 1..][..Find(s[n + 1..], '-')]);
  }

  lemma {:induction false} DashAt(s: string)
    requires '-' in s
    ensures '-' !in s[..|s| - 1] && s[|s| - 1] == '-' <==> Find(s, '-') == |s| - 1
  {
    hide Find;
    var n := Find(s, '-');
    assert s == s[..n] + s[n..];
    if n < |s| - 1 {
      assert s[..|s| - 1][n] == '-';
    }
  }

  lemma {:induction false} StoiFits(s: string)
    ensures Stoi(s).Some? ==> FitsInt(Stoi(s).value)
  {
    hide SkipSpaces, Digits, Value;
  }

  lemma {:induction false} RangesUndefinedIff(source: string, destination: string)
    requires '-' in source && '-' in destination
    ensures Ranges(source, destination) == Err(Undefined) <==> BeyondRanges(source, destination)
  {
    hide RangeBounds, OpenRange, WholeRange, RangePorts;
    BoundsAre(source);
    BoundsAre(destination);
    WholeHasEnd(source);
    WholeHasEnd(destination);
  }

  /** An empty second end is no number. */
  lemma {:induction false} WholeHasEnd(s: string)
    ensures forall first, last :: WholeRange(s, first, last) ==> Find(s, '-') < |s| - 1
  {
    hide Find;
    var n := Find(s, '-');
    if n == |s| - 1 {
      assert s[n + 1..] == "";
      assert s[n + 1..][..Find(s[n + 1..], '-')] == "";
      assert Stoi("") == None;
    }
  }

  lemma {:induction false} EtUndefinedIff(element: string)
    ensures EtStyle(Split(element, ':')) == Err(Undefined) <==> BeyondArgument(element)
  {
    hide Split, Ranges, BeyondRanges, OnePort;
    var parts := Split(element, ':');
    if |parts| >= 2 {
      OnePortIsDefined(parts[0], parts[1]);
      if '-' in parts[0] && '-' in parts[1] {
        RangesUndefinedIff(parts[0], parts[1]);
      }
    }
  }

  lemma {:induction false} OnePortIsDefined(source: string, destination: string)
    ensures OnePort(source, destination) != Err(Undefined)
  {
    hide Stoi;
  }

  /** Some element goes beyond, and those before it parse. */
  ghost predicate ReachesBeyond(elements: seq<string>) {
    exists k :: 0 <= k < |elements| && BeyondArgument(elements[k]) &&
                forall j :: 0 <= j < k ==> EtStyle(Split(elements[j], ':')).Ok?
  }

  lemma {:induction false} ElementsUndefinedIff(elements: seq<string>)
    ensures Elements(elements) == Err(Undefined) <==> ReachesBeyond(elements)
  {
    hide EtStyle, Split, BeyondArgument;
    if elements != [] {
      EtUndefinedIff(elements[0]);
      ElementsUndefinedIff(elements[1..]);
      ReachesStep(elements);
    }
  }

  lemma {:induction false} ReachesStep(elements: seq<string>)
    requires elements != []
    ensures ReachesBeyond(elements) <==>
            BeyondArgument(elements[0]) || (EtStyle(Split(elements[0], ':')).Ok? && ReachesBeyond(elements[1..]))
  {
    hide EtStyle, Split, BeyondArgument;
    var rest := elements[1..];
    if k :| 0 <= k < |elements| && BeyondArgument(elements[k]) && forall j :: 0 <= j < k ==> EtStyle(Split(elements[j], ':')).Ok? {
      if k > 0 {
        assert rest[k - 1] == elements[k];
        forall j | 0 <= j < k - 1
          ensures EtStyle(Split(rest[j], ':')).Ok?
        {
          assert rest[j] == elements[j + 1];
        }
      }
    }
    if EtStyle(Split(elements[0], ':')).Ok? && ReachesBeyond(rest) {
      var k :| 0 <= k < |rest| && BeyondArgument(rest[k]) && forall j :: 0 <= j < k ==> EtStyle(Split(rest[j], ':')).Ok?;
      assert elements[k + 1] == rest[k];
      forall j | 0 <= j < k + 1
        ensures EtStyle(Split(elements[j], ':')).Ok?
      {
        assert j > 0 ==> elements[j] == rest[j - 1];
      }
    }
  }

  /** The parser reads past the end of a vector or overflows an int if and only if the option is
      empty, or it is no lone ssh-style argument and one of its arguments, with all before it in
      order, has two ranges of which one has no second end or which both are 0-2147483647. */
  lemma {:induction false} UndefinedIff(input: string)
    ensures ParseRanges(input) == Err(Undefined) <==>
            input == "" || (!LoneSshStyle(input) && ReachesBeyond(Split(input, ',')))
  {
    hide EtStyle, Split, Elements, ReachesBeyond, SshStyle;
    if input == "" {
      SplitNothing(',');
    } else if LoneSshStyle(input) {
      SshIsDefined(Split(input, ',')[0]);
    } else {
      PlainOption(input);
      ElementsUndefinedIff(Split(input, ','));
    }
  }

  /** The option `5-:6-` gets there. */
  lemma {:induction false} OpenRangesReachBeyond()
    ensures ParseRanges("5-:6-") == Err(Undefined)
  {
    hide Split, Stoi, RangeBounds;
    SplitLast("5-:6-", ',');
    assert "5-:6-" == "5-" + [':'] + "6-";
    SplitPiece("5-", "6-", ':');
    SplitLast("6-", ':');
    assert "5-"[..1] == "5";
    StoiOfDigits("5");
    assert Value("5") == 5 by {
      assert "5"[..0] == "";
    }
    assert "5-"[1] == '-' && "6-"[1] == '-';
    BoundsAre("5-");
  }

  lemma {:induction false} SshIsDefined(s: string)
    ensures SshStyle(s) != Err(Undefined)
  {
    hide SshParts, Stoi;
  }

  // ----- LocalForward behind a tunnel option -----

  /** A single argument that is read in the ssh style. */
  predicate LoneSshStyle(input: string) {
    var elements := Split(input, ',');
    |elements| == 1 && |Split(elements[0], ':')| > 2
  }

  /** The option and the LocalForward lines are read one after the other if and only if no port
      is negative, the option does not end in a comma, and it is not a lone ssh-style argument;
      an option that is refused stays so, unless it was one. */
  lemma {:induction false} OptionSurvivesIff(given: string, pairs: seq<(int, int)>)
    requires given != "" && pairs != [] && AllInts(pairs)
    ensures ParseRanges(given).Ok? ==>
              (ParseRanges(Argument(given, pairs)) == Ok(ParseRanges(given).requests + RequestsOf(pairs)) <==>
               NonNegative(pairs) && !EndsIn(given, ',') && !LoneSshStyle(given))
    ensures ParseRanges(given).Err? && !LoneSshStyle(given) ==> ParseRanges(Argument(given, pairs)).Err?
    ensures !NonNegative(pairs) || EndsIn(given, ',') ==> ParseRanges(Argument(given, pairs)).Err?
  {
    hide Argument, EtStyle, Split, SshStyle, Elements, RequestsOf, NonNegative, LoneSshStyle, EndsIn, ParseRanges;
    OptionElements(given, pairs);
    ElementsParse(pairs);
    var elements, more := Split(given, ','), EntryList(pairs);
    if EndsIn(given, ',') {
      EmptyElement(more);
      ElementsConcat(elements, [""] + more);
    } else {
      ElementsConcat(elements, more);
      if LoneSshStyle(given) {
        SshIsNotEt(given, RequestsOf(pairs), Elements(more));
      } else {
        PlainOption(given);
      }
    }
  }

  lemma {:induction false} OptionElements(given: string, pairs: seq<(int, int)>)
    requires given != "" && pairs != []
    ensures var elements := (if EndsIn(given, ',') then [""] else []) + EntryList(pairs);
            ParseRanges(Argument(given, pairs)) == Elements(Split(given, ',') + elements)
    ensures !EndsIn(given, ',') ==> [] + EntryList(pairs) == EntryList(pairs)
  {
    hide Entries, EtStyle, Split, SshStyle, Elements, EndsIn, EntryList;
    EntriesSplit(pairs);
    assert Argument(given, pairs) == given + [','] + Entries(pairs);
    SplitJoin(given, Entries(pairs), ',');
    var middle: seq<string> := if EndsIn(given, ',') then [""] else [];
    assert Split(given, ',') + middle + EntryList(pairs) == Split(given, ',') + (middle + EntryList(pairs));
  }

  lemma {:induction false} PlainOption(given: string)
    requires given != "" && !LoneSshStyle(given)
    ensures ParseRanges(given) == Elements(Split(given, ','))
  {
    hide EtStyle, Split, SshStyle, Elements;
    var elements := Split(given, ',');
    if |elements| == 1 {
      assert elements == [elements[0]] + [];
      ElementsStep(elements[0], []);
      NoElements();
      var one := EtStyle(Split(elements[0], ':'));
      assert one.Ok? ==> one.requests + [] == one.requests;
    }
  }

  lemma {:induction false} EmptyElement(rest: seq<string>)
    ensures Elements([""] + rest).Err?
  {
    hide Elements;
    SplitNothing(':');
    ElementsStep("", rest);
  }

  lemma {:induction false} ElementsConcat(a: seq<string>, b: seq<string>)
    ensures Elements(a + b) == if Elements(a).Err? then Elements(a) else Plus(Elements(a).requests, Elements(b))
  {
    hide Elements, EtStyle, Split;
    if a == [] {
      assert a + b == b;
      NoElements();
      NothingPlus(Elements(b));
    } else {
      assert a + b == [a[0]] + (a[1..] + b) && a == [a[0]] + a[1..];
      ElementsStep(a[0], a[1..] + b);
      ElementsStep(a[0], a[1..]);
      ElementsConcat(a[1..], b);
      if Elements(a).Ok? {
        PlusPlus(EtStyle(Split(a[0], ':')).requests, Elements(a[1..]).requests, Elements(b));
      }
    }
  }

  /** What an ssh-style argument asks for, no et-style one can. */
  lemma {:induction false} SshIsNotEt(given: string, requests: seq<Request>, more: Parsed)
    requires LoneSshStyle(given) && (more.Ok? ==> more.requests == requests)
    ensures var r := Elements(Split(given, ','));
            ParseRanges(given).Ok? ==>
              (if r.Err? then r else Plus(r.requests, more)) != Ok(ParseRanges(given).requests + requests)
  {
    hide EtStyle, Split, Elements;
    var elements := Split(given, ',');
    assert elements == [elements[0]] + [];
    ElementsStep(elements[0], []);
    NoElements();
    var one := EtStyle(Split(elements[0], ':'));
    EtSetsThree(Split(elements[0], ':'));
    if one.Ok? && ParseRanges(given).Ok? {
      assert one.requests + [] == one.requests;
      SameFront(one.requests, ParseRanges(given).requests, requests);
    }
  }

  lemma {:induction false} SameFront(a: seq<Request>, b: seq<Request>, c: seq<Request>)
    ensures a + c == b + c ==> a == b
  {
    if a + c == b + c {
      assert a == (a + c)[..|a|] && b == (b + c)[..|b|];
    }
  }

  lemma {:induction false} EtSetsThree(parts: seq<string>)
    ensures var r := EtStyle(parts);
            r.Ok? && |r.requests| == 1 ==>
              r.requests[0].sourceName.None? || r.requests[0].sourcePort.None? ||
              r.requests[0].destinationName.None? || r.requests[0].destinationPort.None?
  {
    hide RangeBounds, Stoi;
  }

  lemma {:induction false} OptionParts()
    ensures Split("127.0.0.1:8080:h:9090", ':') == ["127.0.0.1", "8080", "h", "9090"]
  {
    hide Split, Find;
    assert "127.0.0.1:8080:h:9090" == "127.0.0.1" + [':'] + "8080:h:9090";
    SplitPiece("127.0.0.1", "8080:h:9090", ':');
    assert "8080:h:9090" == "8080" + [':'] + "h:9090";
    SplitPiece("8080", "h:9090", ':');
    assert "h:9090" == "h" + [':'] + "9090";
    SplitPiece("h", "9090", ':');
    SplitLast("9090", ':');
  }

  lemma {:induction false} OptionNumbers()
    ensures Stoi("127.0.0.1") == Some(127) && Stoi("8080") == Some(8080) && Stoi("9090") == Some(9090)
  {
    hide Stoi;
    FirstNumber();
    FourDigits("8080");
    FourDigits("9090");
  }

  lemma {:induction false} FirstNumber()
    ensures Stoi("127.0.0.1") == Some(127)
  {
    hide Digits, Value;
    var s := "127.0.0.1";
    assert IsDigit(s[0]);
    DigitsStop("127", ".0.0.1");
    assert s == "127" + ".0.0.1";
    ThreeDigits("127");
  }

  lemma {:induction false} ThreeDigits(s: string)
    requires |s| == 3 && s[0] == '1' && s[1] == '2' && s[2] == '7'
    ensures Value(s) == 127
  {
    assert s[..2][..1] == s[..1] && s[..1][..0] == "";
    assert Value(s[..1]) == 1;
    assert Value(s[..2]) == 12;
  }

  lemma {:induction false} FourDigits(s: string)
    requires |s| == 4 && (s[0] == '8' || s[0] == '9') && s[1] == '0' && (s[2] == '8' || s[2] == '9') && s[3] == '0'
    ensures Stoi(s) == Some(1000 * (s[0] as int - '0' as int) + 10 * (s[2] as int - '0' as int))
  {
    hide Stoi;
    StoiOfDigits(s);
    assert s[..3][..2] == s[..2] && s[..2][..1] == s[..1] && s[..1][..0] == "";
    assert Value(s[..1]) == s[0] as int - '0' as int;
    assert Value(s[..2]) == Value(s[..1]) * 10;
    assert Value(s[..3]) == Value(s[..2]) * 10 + (s[2] as int - '0' as int);
  }

  lemma {:induction false} OptionIsWritten()
    ensures WrittenParts(["127.0.0.1", "8080", "h", "9090"]) == "127.0.0.1:8080:h:9090"
  {
    var parts := ["127.0.0.1", "8080", "h", "9090"];
    assert parts[1..] == ["8080", "h", "9090"] && parts[1..][1..] == ["h", "9090"];
    assert ["h", "9090"][1..] == ["9090"];
    assert WrittenParts(["9090"]) == "9090";
    assert WrittenParts(["h", "9090"]) == "h:9090";
    assert WrittenParts(["8080", "h", "9090"]) == "8080:h:9090";
  }

  lemma {:induction false} OptionMisread()
    ensures EtStyle(["127.0.0.1", "8080", "h", "9090"]) == Ok([Ports(127, 8080)])
  {
    hide Stoi, Ranges;
    OptionNumbers();
  }

  lemma {:induction false} OptionAlone()
    ensures ParseRanges("127.0.0.1:8080:h:9090") ==
            Ok([Request(Some("127.0.0.1"), Some(8080), None, Some("h"), Some(9090))])
  {
    hide Split, Stoi, SshParts, EtStyle, WrittenParts, Plain;
    var parts := ["127.0.0.1", "8080", "h", "9090"];
    SplitLast("127.0.0.1:8080:h:9090", ',');
    OptionParts();
    OptionNumbers();
    OptionIsWritten();
    OptionIsPlain();
    SshRoundTrip(parts);
  }

  lemma {:induction false} OptionIsPlain()
    ensures Plain("127.0.0.1") && Plain("8080") && Plain("h") && Plain("9090")
  {
  }

  lemma {:induction false} OptionBehind()
    ensures ParseRanges(Argument("127.0.0.1:8080:h:9090", [(1, 2)])) == Ok([Ports(127, 8080), Ports(1, 2)])
  {
    hide Split, Stoi, Elements, EtStyle, Entries, ToString, IsNumeric, ParseRanges, Argument;
    var given := "127.0.0.1:8080:h:9090";
    SplitLast(given, ',');
    OptionParts();
    OptionMisread();
    ElementsParse([(1, 2)]);
    OptionElements(given, [(1, 2)]);
    ElementsConcat([given], EntryList([(1, 2)]));
    assert [given] == [given] + [];
    ElementsStep(given, []);
    NoElements();
    RequestsHead([(1, 2)]);
  }

  /** With a LocalForward line, the ssh-style option `127.0.0.1:8080:h:9090` is read as a
      forward of port 127 to port 8080. */
  lemma {:induction false} MisreadOption()
    ensures ParseRanges("127.0.0.1:8080:h:9090") ==
            Ok([Request(Some("127.0.0.1"), Some(8080), None, Some("h"), Some(9090))])
    ensures ParseRanges(Argument("127.0.0.1:8080:h:9090", [(1, 2)])) == Ok([Ports(127, 8080), Ports(1, 2)])
  {
    hide ParseRanges, Argument;
    OptionAlone();
    OptionBehind();
  }

  // ----- ranges -----

  lemma {:induction false} RangeReads(first: nat, last: nat)
    requires FitsInt(first) && FitsInt(last)
    ensures RangeBounds(ToString(first) + "-" + ToString(last)) == Bounds(first, last)
  {
    hide ToString, Stoi;
    ToStringIsNumeric(first);
    ToStringIsNumeric(last);
    StoiOfToString(first);
    StoiOfToString(last);
    var s := ToString(first) + "-" + ToString(last);
    assert s == ToString(first) + ['-'] + ToString(last);
    SplitPiece(ToString(first), ToString(last), '-');
    SplitLast(ToString(last), '-');
  }

  lemma {:induction false} RangePortsAt(source: int, destination: int, length: nat, i: nat)
    requires i < length
    ensures RangePorts(source, destination, length)[i] == Ports(source + i, destination + i)
  {
    if i < length - 1 {
      RangePortsAt(source, destination, length - 1, i);
    }
  }

  /** Two ranges of the same length stand for their ports pair by pair; two of different
      lengths are refused. */
  lemma {:induction false} RangesPairUp(a: nat, b: nat, c: nat, d: nat)
    requires FitsInt(a) && FitsInt(b) && FitsInt(c) && FitsInt(d) && b - a < TWO_TO_THE_31 - 1
    ensures var r := EtStyle([ToString(a) + "-" + ToString(b), ToString(c) + "-" + ToString(d)]);
            if b - a != d - c then r == Err(UnequalRanges)
            else
              && r.Ok? && |r.requests| == (if b < a then 0 else b - a + 1)
              && forall i :: 0 <= i < |r.requests| ==> r.requests[i] == Ports(a + i, c + i)
  {
    hide ToString, RangeBounds;
    RangeReads(a, b);
    RangeReads(c, d);
    RangeIsNumeric(a, b);
    RangeIsNumeric(c, d);
    var length := b - a + 1;
    forall i | 0 <= i < length
      ensures RangePorts(a, c, length)[i] == Ports(a + i, c + i)
    {
      RangePortsAt(a, c, length, i);
    }
  }

  lemma {:induction false} RangeIsNumeric(first: nat, last: nat)
    ensures var s := ToString(first) + "-" + ToString(last);
            IsNumeric(s) && !IsSocketPath(s) && '-' in s
  {
    hide ToString;
    ToStringIsNumeric(first);
    ToStringIsNumeric(last);
    var s := ToString(first) + "-" + ToString(last);
    assert s[|ToString(first)|] == '-';
    assert s[0] == ToString(first)[0];
  }
}
