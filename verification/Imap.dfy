/**
 * Tracking a mailbox over IMAP: command tags, the responses belonging to a command, and the message count
 * kept from EXISTS and EXPUNGE (sections 7.3.1 and 7.4.1 of RFC 3501, section 3 of RFC 2177).
 */
module Imap {
  import opened Common
  import opened Text

  const EXISTS := "EXISTS"
  const EXPUNGE := "EXPUNGE"
  const EXAMINE := "EXAMINE"
  const IDLE := "IDLE"
  const STATUS := "STATUS"
  const UIDNEXT := "[UIDNEXT"
  const STAR := "*"

  const TWO_32: nat := 0x1_0000_0000

  /** Conversion to uint32. */
  function Uint32(v: int): nat {
    v % TWO_32
  }

  // ---------------------------------------------------------------------------------------
  // Parsing

  /** What a response line says: a number for a token, nothing, or an index out of range. */
  datatype Parsed = Says(value: nat, token: string) | Nothing | Panic

  function Valued(text: string, token: string): Parsed {
    if Atoi(text).None? then Nothing else Says(Uint32(Atoi(text).value), token)
  }

  function ParseIdle(response: string): Parsed {
    var tokens := Split(response);
    if tokens[0] != STAR then Nothing
    else if |tokens| < 3 then Panic
    else if tokens[2] == EXISTS || tokens[2] == EXPUNGE then Valued(tokens[1], tokens[2])
    else Nothing
  }

  function ParseExamine(response: string): Parsed {
    var tokens := Split(response);
    if tokens[0] != STAR then Nothing
    else if |tokens| < 3 then Panic
    else if tokens[2] == EXISTS then if tokens[1] == [] then Nothing else Valued(tokens[1], EXISTS)
    else if tokens[2] == UIDNEXT then
      if |tokens| < 4 || tokens[3] == [] then Panic
      else
        var value := tokens[3][..|tokens[3]| - 1];
        if value == [] then Nothing else Valued(value, UIDNEXT)
    else Nothing
  }

  predicate IsPrefix(a: string, b: string) {
    |a| <= |b| && b[..|a|] == a
  }

  const MESSAGES := "MESSAGES "
  const UID_MARK := " UIDNEXT "

  /** How many digits a text begins with. */
  function Digits(s: string): (n: nat)
    ensures n <= |s| && AllDigits(s[..n]) && (n < |s| ==> !IsDigit(s[n]))
  {
    if s == [] || !IsDigit(s[0]) then 0
    else
      var n := Digits(s[1..]);
      assert s[..1 + n] == [s[0]] + s[1..][..n];
      1 + n
  }

  /** The pattern of a STATUS response at the beginning of a text: the digits after UIDNEXT. */
  function StatusMatch(s: string): Option<string> {
    if !IsPrefix(MESSAGES, s) then None
    else
      var t := s[|MESSAGES|..];
      var n := Digits(t);
      if n == 0 || !IsPrefix(UID_MARK, t[n..]) then None
      else
        var u := t[n..][|UID_MARK|..];
        if Digits(u) == 0 then None else Some(u[..Digits(u)])
  }

  /** The pattern begins with a greedy wildcard, so its last occurrence counts. */
  function LastMatch(s: string): Option<string> {
    if s == [] then None
    else
      var later := LastMatch(s[1..]);
      if later.Some? then later else StatusMatch(s)
  }

  /** The UIDNEXT of a STATUS response, zero if there is none. */
  function StatusUid(response: string): nat {
    var m := LastMatch(response);
    if m.None? || Atoi(m.value).None? then 0 else Uint32(Atoi(m.value).value)
  }

  function NameOf(command: string): string {
    var tokens := Split(command);
    if |tokens| > 1 then tokens[1] else []
  }

  // ---------------------------------------------------------------------------------------
  // Processing

  /** What the client knows: the count and next identifier (uint32), whether mail came, the DONEs sent. */
  datatype View = View(count: nat, uidNext: nat, newEmail: bool, dones: nat)

  function AfterIdle(v: View, p: Parsed): View {
    if !p.Says? then v
    else if p.token == EXPUNGE then v.(count := Uint32(v.count - 1))
    else if p.token == EXISTS && p.value != v.count then v.(newEmail := true, count := p.value, dones := v.dones + 1)
    else v
  }

  function AfterExamine(v: View, p: Parsed): View {
    if !p.Says? then v
    else if p.token == EXISTS then v.(count := p.value)
    else if p.token == UIDNEXT then v.(uidNext := p.value)
    else v
  }

  function AfterStatus(v: View, uid: nat): View {
    if uid == 0 || uid == v.uidNext then v
    else if v.uidNext == 0 then v.(uidNext := uid)
    else v.(newEmail := true, uidNext := uid)
  }

  /** `uidOf` gives the UIDNEXT of a STATUS response, zero if there is none. */
  function Processed(uidOf: string -> nat, name: string, response: string, v: View): Option<View> {
    if name == IDLE then
      if ParseIdle(response).Panic? then None else Some(AfterIdle(v, ParseIdle(response)))
    else if name == EXAMINE then
      if ParseExamine(response).Panic? then None else Some(AfterExamine(v, ParseExamine(response)))
    else if name == STATUS then Some(AfterStatus(v, uidOf(response)))
    else Some(v)
  }

  predicate IsFinal(command: string, response: string) {
    || (IsPrefix("+ ", response) && NameOf(command) != IDLE)
    || IsPrefix(Split(command)[0], response)
  }

  // ---------------------------------------------------------------------------------------
  // A command's responses

  datatype Outcome = Finished | ReadError | Panicked

  /** What one line does to the view, and whether it is the last one. */
  datatype Reading = Reading(step: (string, View) -> Option<View>, final: string -> bool)

  function For(uidOf: string -> nat, command: string): Reading {
    Reading((line, v) => Processed(uidOf, NameOf(command), line, v), line => IsFinal(command, line))
  }

  /** Reads lines up to the first final one: how many, the view after them, and how it ended. */
  function Responses(r: Reading, lines: seq<string>, v: View): (nat, View, Outcome)
    decreases |lines|
  {
    if lines == [] then (0, v, ReadError)
    else
      var v' := r.step(lines[0], v);
      if v'.None? then (1, v, Panicked)
      else if r.final(lines[0]) then (1, v'.value, Finished)
      else
        var (n, last, o) := Responses(r, lines[1..], v'.value);
        (n + 1, last, o)
  }

  /** Reading finishes at the first final response and nowhere else. */
  lemma {:induction false} StopsAtFirstFinal(r: Reading, lines: seq<string>, v: View)
    ensures var (n, _, o) := Responses(r, lines, v);
            && n <= |lines|
            && (forall i :: 0 <= i < n - 1 ==> !r.final(lines[i]))
            && (o == Finished ==> n > 0 && r.final(lines[n - 1]))
            && (o == ReadError ==> n == |lines| && forall i :: 0 <= i < n ==> !r.final(lines[i]))
    decreases |lines|
  {
    if lines != [] {
      var v' := r.step(lines[0], v);
      if v'.Some? && !r.final(lines[0]) {
        StopsAtFirstFinal(r, lines[1..], v'.value);
        var (n, _, o) := Responses(r, lines[1..], v'.value);
        forall i | 0 <= i < n + 1 && (i < n || o == ReadError)
          ensures !r.final(lines[i])
        {
          if i > 0 {
            assert lines[i] == lines[1..][i - 1];
          }
        }
        if n > 0 {
          assert lines[n] == lines[1..][n - 1];
        }
      }
    }
  }

  /** The lines on which a step of the command indexes past a line's tokens. */
  predicate Breaks(name: string, line: string) {
    var tokens := Split(line);
    && (name == IDLE || name == EXAMINE) && tokens[0] == STAR
    && (|tokens| < 3 || (name == EXAMINE && tokens[2] == UIDNEXT && (|tokens| < 4 || tokens[3] == [])))
  }

  ghost predicate BreaksOn(r: Reading, bad: string -> bool) {
    forall line, v :: r.step(line, v).None? <==> bad(line)
  }

  /** A line of this kind comes, and no final one before it. */
  ghost predicate Reaches(r: Reading, bad: string -> bool, lines: seq<string>) {
    exists i :: 0 <= i < |lines| && bad(lines[i]) && forall j :: 0 <= j < i ==> !r.final(lines[j])
  }

  lemma ReachesNext(r: Reading, bad: string -> bool, lines: seq<string>)
    requires lines != [] && !bad(lines[0])
    ensures Reaches(r, bad, lines) <==> !r.final(lines[0]) && Reaches(r, bad, lines[1..])
  {
    var rest := lines[1..];
    if Reaches(r, bad, lines) {
      var i :| 0 <= i < |lines| && bad(lines[i]) && forall j :: 0 <= j < i ==> !r.final(lines[j]);
      assert bad(rest[i - 1]);
      forall j | 0 <= j < i - 1 ensures !r.final(rest[j]) {
        assert rest[j] == lines[j + 1];
      }
    }
    if !r.final(lines[0]) && Reaches(r, bad, rest) {
      var i :| 0 <= i < |rest| && bad(rest[i]) && forall j :: 0 <= j < i ==> !r.final(rest[j]);
      assert bad(lines[i + 1]);
      forall j | 0 <= j < i + 1 ensures !r.final(lines[j]) {
        if j > 0 {
          assert lines[j] == rest[j - 1];
        }
      }
    }
  }

  lemma {:induction false} PanicsOn(r: Reading, bad: string -> bool, lines: seq<string>, v: View)
    requires BreaksOn(r, bad)
    ensures Responses(r, lines, v).2 == Panicked <==> Reaches(r, bad, lines)
    decreases |lines|
  {
    if lines != [] {
      var v' := r.step(lines[0], v);
      if bad(lines[0]) {
        assert v'.None?;
      } else {
        ReachesNext(r, bad, lines);
        PanicsOn(r, bad, lines[1..], v'.value);
      }
    }
  }

  /** Reading a command's responses panics exactly when a line with too few tokens comes up to the first final one. */
  lemma ReadPanicsIff(uidOf: string -> nat, command: string, lines: seq<string>, v: View)
    ensures Responses(For(uidOf, command), lines, v).2 == Panicked <==>
            Reaches(For(uidOf, command), line => Breaks(NameOf(command), line), lines)
  {
    PanicsOn(For(uidOf, command), line => Breaks(NameOf(command), line), lines, v);
  }

  class Client {
    const uidOf: string -> nat
    var count: nat
    var uidNext: nat
    var hasNewEmail: bool
    var isIdling: bool
    var dones: nat

    function Knows(): View
      reads this
    {
      View(count, uidNext, hasNewEmail, dones)
    }

    constructor ()
      ensures Knows() == View(0, 0, false, 0) && uidOf == StatusUid
    {
      uidOf := StatusUid;
      count, uidNext, hasNewEmail, isIdling, dones := 0, 0, false, false, 0;
    }

    /** Returns false where the source indexes past the tokens of a line. */
    method ProcessResponse(command: string, response: string) returns (ok: bool)
      modifies this`count, this`uidNext, this`hasNewEmail, this`dones
      ensures ok == Processed(uidOf, NameOf(command), response, old(Knows())).Some?
      ensures Knows() == if ok then Processed(uidOf, NameOf(command), response, old(Knows())).value else old(Knows())
    {
      var name := NameOf(command);
      if name == IDLE {
        var p := ParseIdle(response);
        if p.Panic? {
          return false;
        }
        ProcessIdle(p);
      } else if name == EXAMINE {
        var p := ParseExamine(response);
        if p.Panic? {
          return false;
        }
        if p.Says? && p.token == EXISTS {
          count := p.value;
        } else if p.Says? && p.token == UIDNEXT {
          uidNext := p.value;
        }
      } else if name == STATUS {
        var uid := uidOf(response);
        if uid != 0 {
          if uidNext == 0 {
            uidNext := uid;
          } else if uid != uidNext {
            hasNewEmail, uidNext := true, uid;
          }
        }
      }
      ok := true;
    }

    method ProcessIdle(p: Parsed)
      modifies this`count, this`hasNewEmail, this`dones
      ensures Knows() == AfterIdle(old(Knows()), p)
    {
      if p.Says? && p.token == EXPUNGE {
        count := Uint32(count - 1);
      } else if p.Says? && p.token == EXISTS && p.value != count {
        hasNewEmail := true;
        count := p.value;
        dones := dones + 1;
      }
    }

    /** `lines` are what the server will send before the connection fails or times out. */
    method GetServerResponses(command: string, lines: seq<string>) returns (responses: seq<string>, o: Outcome)
      modifies this
      ensures (|responses|, Knows(), o) == Responses(For(uidOf, command), lines, old(Knows()))
      ensures responses <= lines
      ensures isIdling == (old(isIdling) && !(o == Finished && NameOf(command) == IDLE))
    {
      responses, o := ReadResponses(command, lines);
      if o == Finished && NameOf(command) == IDLE {
        isIdling := false;
      }
    }

    method ReadResponses(command: string, lines: seq<string>) returns (responses: seq<string>, o: Outcome)
      modifies this`count, this`uidNext, this`hasNewEmail, this`dones
      ensures (|responses|, Knows(), o) == Responses(For(uidOf, command), lines, old(Knows()))
      ensures responses <= lines
    {
      ghost var r := For(uidOf, command);
      ghost var all := Responses(r, lines, Knows());
      responses := [];
      while |responses| < |lines|
        invariant |responses| <= |lines| && responses == lines[..|responses|]
        invariant var (n, v, o) := Responses(r, lines[|responses|..], Knows()); (|responses| + n, v, o) == all
      {
        var at := |responses|;
        assert lines[at..][0] == lines[at] && lines[at..][1..] == lines[at + 1..];
        responses := responses + [lines[at]];
        var ok := ProcessResponse(command, lines[at]);
        if !ok {
          return responses, Panicked;
        }
        if IsFinal(command, lines[at]) {
          return responses, Finished;
        }
      }
      o := ReadError;
    }
  }

  // ---------------------------------------------------------------------------------------
  // A conforming server

  function UpperChar(c: char): char {
    if 'a' <= c <= 'z' then (c as int - 32) as char else c
  }

  /** Keywords are case-insensitive: section 9 of RFC 3501. */
  function Upper(s: string): string {
    seq(|s|, i requires 0 <= i < |s| => UpperChar(s[i]))
  }

  predicate IsNumber(t: string) {
    t != [] && AllDigits(t)
  }

  /** The first word of a response that is no number. */
  predicate IsNamed(t: string) {
    t != [] && 'A' <= UpperChar(t[0]) <= 'Z'
  }

  /** An untagged response during IDLE; `Other` is any line that reports neither a size nor a removal. */
  datatype Event =
    | Exists(number: string, keyword: string)
    | Expunge(number: string, keyword: string)
    | Other(line: string)

  function Numbered(number: string, keyword: string): string {
    STAR + " " + (number + " " + keyword)
  }

  function Line(e: Event): string {
    match e
    case Exists(number, keyword) => Numbered(number, keyword)
    case Expunge(number, keyword) => Numbered(number, keyword)
    case Other(line) => line
  }

  function Lines(events: seq<Event>): seq<string> {
    seq(|events|, i requires 0 <= i < |events| => Line(events[i]))
  }

  /** A line whose third word is the keyword, in any letter case, and whose second is no name. */
  predicate Reports(line: string, name: string) {
    var tokens := Split(line);
    tokens[0] == STAR && |tokens| >= 3 && Upper(tokens[2]) == name && !IsNamed(tokens[1])
  }

  /** A size never falls without an EXPUNGE, and every number fits 32 bits; other responses have three words. */
  predicate Conforms(size: nat, e: Event) {
    match e
    case Exists(number, keyword) => IsNumber(number) && Upper(keyword) == EXISTS && size <= DigitsValue(number) < TWO_32
    case Expunge(number, keyword) => IsNumber(number) && Upper(keyword) == EXPUNGE && 1 <= DigitsValue(number) <= size
    case Other(line) =>
      && !Reports(line, EXISTS) && !Reports(line, EXPUNGE)
      && (Split(line)[0] == STAR ==> |Split(line)| >= 3)
  }

  /** The size the server has announced after an event. */
  function SizeAfter(size: nat, e: Event): nat
    requires Conforms(size, e)
  {
    match e
    case Exists(number, _) => DigitsValue(number)
    case Expunge(_, _) => size - 1
    case Other(_) => size
  }

  ghost predicate AllConform(size: nat, events: seq<Event>)
    decreases |events|
  {
    events == [] || (Conforms(size, events[0]) && AllConform(SizeAfter(size, events[0]), events[1..]))
  }

  ghost function FinalSize(size: nat, events: seq<Event>): nat
    requires AllConform(size, events)
    decreases |events|
  {
    if events == [] then size else FinalSize(SizeAfter(size, events[0]), events[1..])
  }

  /** An EXISTS that announces a size other than the one before. */
  predicate Differs(size: nat, e: Event)
    requires Conforms(size, e)
  {
    e.Exists? && SizeAfter(size, e) != size
  }

  ghost function Changes(size: nat, events: seq<Event>): nat
    requires AllConform(size, events)
    decreases |events|
  {
    if events == [] then 0
    else (if Differs(size, events[0]) then 1 else 0) + Changes(SizeAfter(size, events[0]), events[1..])
  }

  lemma KeywordHasNoSpace(keyword: string)
    requires Upper(keyword) == EXISTS || Upper(keyword) == EXPUNGE
    ensures ' ' !in keyword
  {
    forall i | 0 <= i < |keyword| ensures keyword[i] != ' ' {
      assert Upper(keyword)[i] == UpperChar(keyword[i]);
    }
  }

  lemma NumberedSplits(number: string, keyword: string)
    requires IsNumber(number) && ' ' !in keyword
    ensures Split(Numbered(number, keyword)) == [STAR, number, keyword]
  {
    assert ' ' !in number;
    SplitToken(keyword, []);
    SplitToken(number, keyword);
    SplitToken(STAR, number + " " + keyword);
  }

  /** The parser recovers number and kind from a response exactly when its keyword is in upper case. */
  lemma LineSays(number: string, keyword: string)
    requires IsNumber(number) && DigitsValue(number) < TWO_32
    requires Upper(keyword) == EXISTS || Upper(keyword) == EXPUNGE
    ensures ParseIdle(Numbered(number, keyword)) ==
            if keyword == Upper(keyword) then Says(DigitsValue(number), keyword) else Nothing
    ensures ParseExamine(Numbered(number, keyword)) ==
            if keyword == EXISTS then Says(DigitsValue(number), keyword) else Nothing
  {
    KeywordHasNoSpace(keyword);
    NumberedSplits(number, keyword);
    assert IsDigit(number[0]);
    UpperKeywords();
  }

  lemma UpperKeywords()
    ensures Upper(EXISTS) == EXISTS && Upper(EXPUNGE) == EXPUNGE && Upper(UIDNEXT) == UIDNEXT
    ensures EXISTS != EXPUNGE && UIDNEXT != EXISTS && UIDNEXT != EXPUNGE
  {
    assert EXISTS[1] != EXPUNGE[3] && |EXISTS| == 6 && |EXPUNGE| == 7 && |UIDNEXT| == 8;
  }

  lemma NamedIsNoNumber(t: string)
    requires IsNamed(t)
    ensures Atoi(t).None?
  {
    assert !IsDigit(t[0]);
  }

  /** A line that reports nothing says nothing to either parser. */
  lemma SilentLine(line: string)
    ensures !Reports(line, EXISTS) && !Reports(line, EXPUNGE) ==> !ParseIdle(line).Says?
    ensures !Reports(line, EXISTS) ==> !(ParseExamine(line).Says? && ParseExamine(line).token == EXISTS)
  {
    var tokens := Split(line);
    UpperKeywords();
    if |tokens| >= 3 && IsNamed(tokens[1]) {
      NamedIsNoNumber(tokens[1]);
    }
  }

  // ---------------------------------------------------------------------------------------
  // What the client makes of it

  /** The view after one event, if the client follows. */
  function Seen(size: nat, e: Event, v: View): View
    requires Conforms(size, e)
  {
    var more := if Differs(size, e) then 1 else 0;
    View(SizeAfter(size, e), v.uidNext, v.newEmail || more > 0, v.dones + more)
  }

  /** What the client knows after IDLE went through the events, if it follows. */
  ghost function Tracked(size: nat, events: seq<Event>, v: View): View
    requires AllConform(size, events)
  {
    var changes := Changes(size, events);
    View(FinalSize(size, events), v.uidNext, v.newEmail || changes > 0, v.dones + changes)
  }

  /** The event changes nothing, or its keyword is in upper case. */
  predicate Heard(size: nat, e: Event)
    requires Conforms(size, e)
  {
    match e
    case Exists(_, keyword) => keyword == EXISTS || SizeAfter(size, e) == size
    case Expunge(_, keyword) => keyword == EXPUNGE
    case Other(_) => true
  }

  ghost predicate AllHeard(size: nat, events: seq<Event>)
    requires AllConform(size, events)
    decreases |events|
  {
    events == [] || (Heard(size, events[0]) && AllHeard(SizeAfter(size, events[0]), events[1..]))
  }

  /** After every event the view is what it should be. */
  ghost predicate Follows(size: nat, events: seq<Event>, v: View)
    requires AllConform(size, events)
    decreases |events|
  {
    events == [] ||
    var e := events[0];
    && AfterIdle(v, ParseIdle(Line(e))) == Seen(size, e, v)
    && Follows(SizeAfter(size, e), events[1..], Seen(size, e, v))
  }

  /** One event moves the count to the announced size, without wrapping around, exactly when it is heard. */
  lemma EventTrackedIff(size: nat, e: Event, v: View)
    requires Conforms(size, e) && v.count == size < TWO_32
    ensures !ParseIdle(Line(e)).Panic? && SizeAfter(size, e) < TWO_32
    ensures AfterIdle(v, ParseIdle(Line(e))) == Seen(size, e, v) <==> Heard(size, e)
  {
    UpperKeywords();
    match e {
      case Exists(number, keyword) => LineSays(number, keyword);
      case Expunge(number, keyword) => LineSays(number, keyword);
      case Other(line) => SilentLine(line);
    }
  }

  /**
   * Through any conforming events, from a known size, the client's count is the announced size after every
   * event, and new mail is noticed exactly when some EXISTS announced a different one, if and only if every
   * event that changes the size has its keyword in upper case.
   */
  lemma {:induction false} FollowsIff(size: nat, events: seq<Event>, v: View)
    requires v.count == size < TWO_32 && AllConform(size, events)
    ensures Follows(size, events, v) <==> AllHeard(size, events)
    decreases |events|
  {
    if events != [] {
      EventTrackedIff(size, events[0], v);
      FollowsIff(SizeAfter(size, events[0]), events[1..], Seen(size, events[0], v));
    }
  }

  lemma LowerCaseKeyword()
    ensures Upper("exists") == EXISTS && "exists" != EXISTS
  {
    assert "exists"[0] == 'e';
  }

  lemma Five()
    ensures IsNumber("5") && DigitsValue("5") == 5
  {
    assert "5"[..0] == [];
  }

  /** The line "* 5 exists" is missed: the server has five messages, the client still counts none. */
  lemma LowerCaseMissed(v: View)
    requires v.count == 0
    ensures var e := Exists("5", "exists");
            Conforms(0, e) && SizeAfter(0, e) == 5 && AfterIdle(v, ParseIdle(Line(e))) == v
  {
    LowerCaseKeyword();
    Five();
    LineSays("5", "exists");
  }

  // ---------------------------------------------------------------------------------------
  // Whole exchanges

  /** What a line before the last one does to the view. */
  type Effect = (string, View) -> View

  function Folded(f: Effect, lines: seq<string>, v: View): View
    decreases |lines|
  {
    if lines == [] then v else Folded(f, lines[1..], f(lines[0], v))
  }

  ghost predicate ReadsBy(r: Reading, f: Effect, line: string) {
    !r.final(line) && forall v :: r.step(line, v) == Some(f(line, v))
  }

  ghost predicate Ends(r: Reading, last: string) {
    r.final(last) && forall v :: r.step(last, v) == Some(v)
  }

  lemma {:induction false} LinesFold(r: Reading, f: Effect, lines: seq<string>, last: string, v: View)
    requires Ends(r, last) && forall line :: line in lines ==> ReadsBy(r, f, line)
    ensures Responses(r, lines + [last], v) == (|lines| + 1, Folded(f, lines, v), Finished)
    decreases |lines|
  {
    var all := lines + [last];
    if lines == [] {
      assert all == [last];
    } else {
      assert lines[0] in lines;
      assert all[1..] == lines[1..] + [last];
      LinesFold(r, f, lines[1..], last, f(lines[0], v));
    }
  }

  lemma {:induction false} FoldAppend(f: Effect, a: seq<string>, b: seq<string>, v: View)
    ensures Folded(f, a + b, v) == Folded(f, b, Folded(f, a, v))
    decreases |a|
  {
    if a == [] {
      assert a + b == b;
    } else {
      assert (a + b)[1..] == a[1..] + b;
      FoldAppend(f, a[1..], b, f(a[0], v));
    }
  }

  /** A tag begins with a capital letter and has no space. */
  predicate IsTag(tag: string) {
    && tag != [] && 'A' <= tag[0] <= 'Z' && ' ' !in tag
  }

  /** A tagged completion ends the exchange and says nothing else. */
  lemma Completes(uidOf: string -> nat, command: string, tag: string, ending: string)
    requires IsTag(tag) && Split(command)[0] == tag && NameOf(command) != STATUS
    ensures Ends(For(uidOf, command), tag + " " + ending)
  {
    SplitToken(tag, ending);
    assert (tag + " " + ending)[..|tag|] == tag;
  }

  // ---------------------------------------------------------------------------------------
  // IDLE

  function IdleCommand(tag: string): string {
    tag + " " + IDLE
  }

  const IDLE_EFFECT: Effect := (line, v) => AfterIdle(v, ParseIdle(line))

  lemma IdleNamed(tag: string)
    requires IsTag(tag)
    ensures Split(IdleCommand(tag)) == [tag, IDLE] && NameOf(IdleCommand(tag)) == IDLE
  {
    SplitToken(IDLE, []);
    SplitToken(tag, IDLE);
  }

  lemma NotTagged(tag: string, e: Event)
    requires IsTag(tag) && !e.Other?
    ensures !IsPrefix(tag, Line(e)) && !IsPrefix("+ ", Line(e))
  {
    assert Line(e)[0] == '*';
  }

  lemma EventRead(uidOf: string -> nat, tag: string, e: Event, size: nat)
    requires IsTag(tag) && Conforms(size, e) && size < TWO_32 && (e.Other? ==> !IsPrefix(tag, e.line))
    ensures ReadsBy(For(uidOf, IdleCommand(tag)), IDLE_EFFECT, Line(e)) && SizeAfter(size, e) < TWO_32
  {
    IdleNamed(tag);
    EventTrackedIff(size, e, View(size, 0, false, 0));
    if !e.Other? {
      NotTagged(tag, e);
    }
  }

  lemma {:induction false} EventsRead(uidOf: string -> nat, tag: string, size: nat, events: seq<Event>)
    requires IsTag(tag) && size < TWO_32 && AllConform(size, events)
    requires forall e :: e in events && e.Other? ==> !IsPrefix(tag, e.line)
    ensures forall i :: 0 <= i < |events| ==> ReadsBy(For(uidOf, IdleCommand(tag)), IDLE_EFFECT, Line(events[i]))
    decreases |events|
  {
    if events != [] {
      assert events[0] in events;
      EventRead(uidOf, tag, events[0], size);
      EventsRead(uidOf, tag, SizeAfter(size, events[0]), events[1..]);
      forall i | 0 <= i < |events|
        ensures ReadsBy(For(uidOf, IdleCommand(tag)), IDLE_EFFECT, Line(events[i]))
      {
        if i > 0 {
          assert events[i] == events[1..][i - 1];
        }
      }
    }
  }

  lemma {:induction false} HeardFold(size: nat, events: seq<Event>, v: View)
    requires v.count == size < TWO_32 && AllConform(size, events) && AllHeard(size, events)
    ensures Folded(IDLE_EFFECT, Lines(events), v) == Tracked(size, events, v)
    decreases |events|
  {
    if events != [] {
      EventTrackedIff(size, events[0], v);
      assert Lines(events)[0] == Line(events[0]) && Lines(events)[1..] == Lines(events[1..]);
      HeardFold(SizeAfter(size, events[0]), events[1..], Seen(size, events[0], v));
    }
  }

  /**
   * IDLE from a known size, through any conforming events up to the tagged completion: exactly these lines are
   * read, and if every event is heard the count ends at the announced size, and new mail is noticed exactly
   * when some EXISTS announced a different size.
   */
  lemma IdleTracks(uidOf: string -> nat, tag: string, size: nat, events: seq<Event>, ending: string, v: View)
    requires IsTag(tag) && v.count == size < TWO_32 && AllConform(size, events)
    requires forall e :: e in events && e.Other? ==> !IsPrefix(tag, e.line)
    ensures Responses(For(uidOf, IdleCommand(tag)), Lines(events) + [tag + " " + ending], v) ==
            (|events| + 1, Folded(IDLE_EFFECT, Lines(events), v), Finished)
    ensures AllHeard(size, events) ==> Folded(IDLE_EFFECT, Lines(events), v) == Tracked(size, events, v)
  {
    IdleNamed(tag);
    EventsRead(uidOf, tag, size, events);
    Completes(uidOf, IdleCommand(tag), tag, ending);
    LinesFold(For(uidOf, IdleCommand(tag)), IDLE_EFFECT, Lines(events), tag + " " + ending, v);
    if AllHeard(size, events) {
      HeardFold(size, events, v);
    }
  }

  // ---------------------------------------------------------------------------------------
  // EXAMINE, then IDLE

  function ExamineCommand(tag: string, folder: string): string {
    tag + " " + (EXAMINE + " " + folder)
  }

  const EXAMINE_EFFECT: Effect := (line, v) => AfterExamine(v, ParseExamine(line))

  /** A line before the tagged completion that the parser can take. */
  predicate BeforeCompletion(tag: string, line: string) {
    !IsPrefix(tag, line) && !IsPrefix("+ ", line) && !Breaks(EXAMINE, line)
  }

  lemma ExamineNamed(tag: string, folder: string)
    requires IsTag(tag)
    ensures Split(ExamineCommand(tag, folder))[0] == tag && NameOf(ExamineCommand(tag, folder)) == EXAMINE
  {
    SplitToken(EXAMINE, folder);
    SplitToken(tag, EXAMINE + " " + folder);
  }

  lemma {:induction false} ExaminedFlags(lines: seq<string>, v: View)
    ensures var v' := Folded(EXAMINE_EFFECT, lines, v);
            && v'.newEmail == v.newEmail && v'.dones == v.dones
            && ((forall line :: line in lines ==> !Reports(line, EXISTS)) ==> v'.count == v.count)
    decreases |lines|
  {
    if lines != [] {
      SilentLine(lines[0]);
      ExaminedFlags(lines[1..], EXAMINE_EFFECT(lines[0], v));
      assert lines[0] in lines && forall line :: line in lines[1..] ==> line in lines;
    }
  }

  lemma ExamineReads(uidOf: string -> nat, tag: string, folder: string, line: string)
    requires IsTag(tag) && BeforeCompletion(tag, line)
    ensures ReadsBy(For(uidOf, ExamineCommand(tag, folder)), EXAMINE_EFFECT, line)
  {
    ExamineNamed(tag, folder);
  }

  lemma AnnouncementComes(tag: string, number: string, keyword: string)
    requires IsTag(tag) && IsNumber(number) && Upper(keyword) == EXISTS
    ensures BeforeCompletion(tag, Numbered(number, keyword))
  {
    KeywordHasNoSpace(keyword);
    NumberedSplits(number, keyword);
    NotTagged(tag, Exists(number, keyword));
    UpperKeywords();
  }

  /**
   * A whole EXAMINE exchange, whatever other lines it holds, finishes at the tagged completion, with the count
   * at the size announced last exactly when that keyword is in upper case, or the count was there before.
   */
  lemma ExamineLearnsIff(
      uidOf: string -> nat, tag: string, folder: string,
      before: seq<string>, number: string, keyword: string, after: seq<string>, ending: string, v: View)
    requires IsTag(tag) && IsNumber(number) && DigitsValue(number) < TWO_32 && Upper(keyword) == EXISTS
    requires forall line :: line in before + after ==> BeforeCompletion(tag, line)
    requires forall line :: line in after ==> !Reports(line, EXISTS)
    ensures var lines := before + [Numbered(number, keyword)] + after;
            var v' := Folded(EXAMINE_EFFECT, lines, v);
            && Responses(For(uidOf, ExamineCommand(tag, folder)), lines + [tag + " " + ending], v) == (|lines| + 1, v', Finished)
            && v'.newEmail == v.newEmail && v'.dones == v.dones
            && (v'.count == DigitsValue(number) <==>
                keyword == EXISTS || Folded(EXAMINE_EFFECT, before, v).count == DigitsValue(number))
  {
    var command, announced := ExamineCommand(tag, folder), Numbered(number, keyword);
    var lines := before + [announced] + after;
    forall line | line in lines
      ensures ReadsBy(For(uidOf, command), EXAMINE_EFFECT, line)
    {
      AnnouncementComes(tag, number, keyword);
      assert line in before + after || line == announced;
      ExamineReads(uidOf, tag, folder, line);
    }
    ExamineNamed(tag, folder);
    Completes(uidOf, command, tag, ending);
    LinesFold(For(uidOf, command), EXAMINE_EFFECT, lines, tag + " " + ending, v);
    ExaminedFlags(lines, v);
    ExaminedCount(before, number, keyword, after, v);
  }

  lemma ExaminedCount(before: seq<string>, number: string, keyword: string, after: seq<string>, v: View)
    requires IsNumber(number) && DigitsValue(number) < TWO_32 && Upper(keyword) == EXISTS
    requires forall line :: line in after ==> !Reports(line, EXISTS)
    ensures Folded(EXAMINE_EFFECT, before + [Numbered(number, keyword)] + after, v).count ==
            if keyword == EXISTS then DigitsValue(number) else Folded(EXAMINE_EFFECT, before, v).count
  {
    var announced := Numbered(number, keyword);
    var v1 := Folded(EXAMINE_EFFECT, before, v);
    FoldAppend(EXAMINE_EFFECT, before + [announced], after, v);
    FoldAppend(EXAMINE_EFFECT, before, [announced], v);
    assert [announced][1..] == [];
    assert Folded(EXAMINE_EFFECT, [announced], v1) == Folded(EXAMINE_EFFECT, [], EXAMINE_EFFECT(announced, v1));
    LineSays(number, keyword);
    ExaminedFlags(after, EXAMINE_EFFECT(announced, v1));
  }

  /**
   * EXAMINE and then IDLE on one client: from whatever it knew before, if the server writes its keywords in
   * upper case, the count ends at the announced size, and new mail is noticed exactly when some EXISTS during
   * IDLE announced another size.
   */
  method ExamineAndIdle(
      client: Client, folder: string, tag1: string, before: seq<string>, number: string, keyword: string,
      after: seq<string>, tag2: string, ghost events: seq<Event>, lines: seq<string>, ending: string)
    returns (done: bool)
    requires IsTag(tag1) && IsTag(tag2) && IsNumber(number) && DigitsValue(number) < TWO_32 && Upper(keyword) == EXISTS
    requires AllConform(DigitsValue(number), events) && lines == Lines(events)
    requires forall line :: line in before + after ==> BeforeCompletion(tag1, line)
    requires forall line :: line in after ==> !Reports(line, EXISTS)
    requires forall e :: e in events && e.Other? ==> !IsPrefix(tag2, e.line)
    modifies client
    ensures keyword == EXISTS && AllHeard(DigitsValue(number), events) ==>
              && done && client.count == FinalSize(DigitsValue(number), events)
              && client.hasNewEmail == (old(client.hasNewEmail) || Changes(DigitsValue(number), events) > 0)
  {
    ghost var v := client.Knows();
    ExamineLearnsIff(client.uidOf, tag1, folder, before, number, keyword, after, ending, v);
    var announced := before + [Numbered(number, keyword)] + after;
    var r1, o1 := client.GetServerResponses(ExamineCommand(tag1, folder), announced + [tag1 + " " + ending]);
    if client.count == DigitsValue(number) {
      IdleTracks(client.uidOf, tag2, DigitsValue(number), events, ending, client.Knows());
    }
    var r2, o2 := client.GetServerResponses(IdleCommand(tag2), lines + [tag2 + " " + ending]);
    done := o1 == Finished && o2 == Finished;
  }

  // ---------------------------------------------------------------------------------------
  // STATUS

  /** No match begins where there is no M. */
  lemma {:induction false} NoMatch(a: string, rest: string)
    requires 'M' !in a
    ensures LastMatch(a + rest) == LastMatch(rest)
    decreases |a|
  {
    if a == [] {
      assert a + rest == rest;
    } else {
      assert (a + rest)[1..] == a[1..] + rest;
      NoMatch(a[1..], rest);
      assert a[0] in a;
      assert MESSAGES[0] == 'M';
    }
  }

  lemma {:induction false} LaterMatchCounts(p: string, s: string)
    requires LastMatch(s).Some?
    ensures LastMatch(p + s) == LastMatch(s)
    decreases |p|
  {
    if p == [] {
      assert p + s == s;
    } else {
      assert (p + s)[1..] == p[1..] + s;
      LaterMatchCounts(p[1..], s);
    }
  }

  lemma {:induction false} DigitsOf(number: string, rest: string)
    requires AllDigits(number) && (rest == [] || !IsDigit(rest[0]))
    ensures Digits(number + rest) == |number|
    decreases |number|
  {
    if number == [] {
      assert number + rest == rest;
    } else {
      assert (number + rest)[1..] == number[1..] + rest;
      DigitsOf(number[1..], rest);
    }
  }

  lemma PrefixOf(a: string, b: string)
    ensures IsPrefix(a, a + b) && (a + b)[|a|..] == b
  {
  }

  /** The counts of a STATUS response, with what follows them. */
  function Counts(messages: string, uid: string, rest: string): string {
    MESSAGES + (messages + (UID_MARK + (uid + rest)))
  }

  lemma CountsMatch(messages: string, uid: string, rest: string)
    requires IsNumber(messages) && IsNumber(uid) && (rest == [] || !IsDigit(rest[0]))
    ensures StatusMatch(Counts(messages, uid, rest)) == Some(uid)
  {
    var u := uid + rest;
    var t := messages + (UID_MARK + u);
    PrefixOf(MESSAGES, t);
    assert (UID_MARK + u)[0] == ' ';
    DigitsOf(messages, UID_MARK + u);
    PrefixOf(messages, UID_MARK + u);
    PrefixOf(UID_MARK, u);
    DigitsOf(uid, rest);
    PrefixOf(uid, rest);
  }

  lemma CountsTail(messages: string, uid: string, rest: string) returns (a: string)
    requires AllDigits(messages) && AllDigits(uid)
    ensures 'M' !in a && Counts(messages, uid, rest)[1..] == a + rest
  {
    a := MESSAGES[1..] + (messages + (UID_MARK + uid));
    assert 'M' !in MESSAGES[1..] && 'M' !in messages && 'M' !in uid && 'M' !in UID_MARK;
  }

  /** The counts match unless others follow. */
  lemma CountsLast(messages: string, uid: string, rest: string)
    requires IsNumber(messages) && IsNumber(uid) && (rest == [] || !IsDigit(rest[0]))
    ensures LastMatch(Counts(messages, uid, rest)) == if LastMatch(rest).Some? then LastMatch(rest) else Some(uid)
  {
    var a := CountsTail(messages, uid, rest);
    NoMatch(a, rest);
    CountsMatch(messages, uid, rest);
  }

  lemma NumberReads(uid: string)
    requires IsNumber(uid) && DigitsValue(uid) < TWO_32
    ensures Atoi(uid) == Some(DigitsValue(uid)) && Uint32(DigitsValue(uid)) == DigitsValue(uid)
  {
    assert IsDigit(uid[0]);
  }

  /**
   * The identifier is recovered from a response whatever stands before the counts, even a mailbox name that
   * looks like counts itself; what stands behind them matters only if it holds counts again.
   */
  lemma StatusReadsBack(before: string, messages: string, uid: string, rest: string)
    requires IsNumber(messages) && IsNumber(uid) && DigitsValue(uid) < TWO_32
    requires rest == [] || !IsDigit(rest[0])
    ensures StatusUid(before + Counts(messages, uid, rest)) ==
            if LastMatch(rest).Some? then StatusUid(rest) else DigitsValue(uid)
  {
    CountsLast(messages, uid, rest);
    if LastMatch(rest).Some? {
      LaterMatchCounts(before, Counts(messages, uid, rest));
    } else {
      MatchBehind(before, Counts(messages, uid, rest), uid);
    }
  }

  lemma MatchBehind(before: string, s: string, uid: string)
    requires LastMatch(s) == Some(uid) && IsNumber(uid) && DigitsValue(uid) < TWO_32
    ensures StatusUid(before + s) == DigitsValue(uid)
  {
    LaterMatchCounts(before, s);
    NumberReads(uid);
  }

  function StatusEffect(uidOf: string -> nat): Effect {
    (line, v) => AfterStatus(v, uidOf(line))
  }

  /** The identifiers the lines announce; zero is none. */
  function Announced(uidOf: string -> nat, lines: seq<string>): seq<nat> {
    if lines == [] then []
    else (if uidOf(lines[0]) == 0 then [] else [uidOf(lines[0])]) + Announced(uidOf, lines[1..])
  }

  /** The identifiers known one after the other, the one known before included. */
  function Known(uidOf: string -> nat, known: nat, lines: seq<string>): seq<nat> {
    (if known == 0 then [] else [known]) + Announced(uidOf, lines)
  }

  /** Some identifier differs from the one known before it. */
  ghost predicate Moves(ids: seq<nat>) {
    exists i, j :: 0 <= i && j == i + 1 < |ids| && ids[i] != ids[j]
  }

  lemma MovesFirst(a: nat, b: nat, ids: seq<nat>)
    ensures Moves([a, b] + ids) <==> a != b || Moves([b] + ids)
  {
    var all, rest := [a, b] + ids, [b] + ids;
    assert all[1..] == rest;
    if i, j :| 0 <= i && j == i + 1 < |all| && all[i] != all[j] {
      if i > 0 {
        assert rest[i - 1] == all[i] && rest[j - 1] == all[j];
      }
    }
    if i, j :| 0 <= i && j == i + 1 < |rest| && rest[i] != rest[j] {
      assert all[i + 1] == rest[i] && all[j + 1] == rest[j];
    }
    if a != b {
      assert all[0] != all[1];
    }
  }

  /**
   * Through any lines read for STATUS: the client ends with the last non-zero identifier announced, keeps the
   * one it knew if there is none, and notices new mail exactly when some non-zero identifier differs from the
   * non-zero one known before it.
   */
  lemma {:induction false} StatusTracks(uidOf: string -> nat, lines: seq<string>, v: View)
    ensures var v' := Folded(StatusEffect(uidOf), lines, v);
            var ids := Known(uidOf, v.uidNext, lines);
            && v'.uidNext == (if ids == [] then 0 else ids[|ids| - 1])
            && v'.newEmail == (v.newEmail || Moves(ids))
            && v'.count == v.count && v'.dones == v.dones
    decreases |lines|
  {
    var ids := Known(uidOf, v.uidNext, lines);
    if lines != [] {
      var uid, rest := uidOf(lines[0]), Announced(uidOf, lines[1..]);
      var next := AfterStatus(v, uid);
      StatusTracks(uidOf, lines[1..], next);
      if uid == 0 {
        assert ids == Known(uidOf, next.uidNext, lines[1..]);
      } else if v.uidNext == 0 {
        assert ids == [uid] + rest == Known(uidOf, next.uidNext, lines[1..]);
      } else {
        assert ids == [v.uidNext, uid] + rest;
        assert Known(uidOf, next.uidNext, lines[1..]) == [uid] + rest;
        MovesFirst(v.uidNext, uid, rest);
      }
    }
  }

  /** A STATUS command and the lines it is answered with. */
  datatype Exchange = Exchange(tag: string, query: string, lines: seq<string>, ending: string) {
    function Command(): string {
      tag + " " + (STATUS + " " + query)
    }

    function Answer(): seq<string> {
      lines + [tag + " " + ending]
    }

    ghost predicate Proper() {
      IsTag(tag) && forall line :: line in lines ==> !IsPrefix(tag, line) && !IsPrefix("+ ", line)
    }
  }

  function Answers(es: seq<Exchange>): seq<string> {
    if es == [] then [] else Answers(es[..|es| - 1]) + es[|es| - 1].Answer()
  }

  lemma {:induction false} AllFold(r: Reading, f: Effect, lines: seq<string>, last: string, v: View)
    requires r.final(last) && (forall w :: r.step(last, w) == Some(f(last, w)))
    requires forall line :: line in lines ==> ReadsBy(r, f, line)
    ensures Responses(r, lines + [last], v) == (|lines| + 1, Folded(f, lines + [last], v), Finished)
    decreases |lines|
  {
    var all := lines + [last];
    if lines == [] {
      assert all == [last] && all[1..] == [];
    } else {
      assert lines[0] in lines;
      assert all[1..] == lines[1..] + [last];
      AllFold(r, f, lines[1..], last, f(lines[0], v));
    }
  }

  lemma StatusNamed(e: Exchange)
    requires e.Proper()
    ensures Split(e.Command())[0] == e.tag && NameOf(e.Command()) == STATUS
  {
    SplitToken(STATUS, e.query);
    SplitToken(e.tag, STATUS + " " + e.query);
  }

  lemma Tagged(tag: string, ending: string)
    ensures IsPrefix(tag, tag + " " + ending)
  {
    assert (tag + " " + ending)[..|tag|] == tag;
  }

  lemma StatusStep(uidOf: string -> nat, command: string, line: string, w: View)
    requires NameOf(command) == STATUS
    ensures For(uidOf, command).step(line, w) == Some(StatusEffect(uidOf)(line, w))
  {
  }

  /** A STATUS exchange ends at its tagged completion, and every line of it counts. */
  lemma StatusRead(uidOf: string -> nat, e: Exchange, v: View)
    requires e.Proper()
    ensures Responses(For(uidOf, e.Command()), e.Answer(), v) ==
            (|e.Answer()|, Folded(StatusEffect(uidOf), e.Answer(), v), Finished)
  {
    var r, f, last := For(uidOf, e.Command()), StatusEffect(uidOf), e.tag + " " + e.ending;
    StatusNamed(e);
    Tagged(e.tag, e.ending);
    forall w ensures r.step(last, w) == Some(f(last, w)) {
      StatusStep(uidOf, e.Command(), last, w);
    }
    forall line | line in e.lines ensures ReadsBy(r, f, line) {
      forall w ensures r.step(line, w) == Some(f(line, w)) {
        StatusStep(uidOf, e.Command(), line, w);
      }
    }
    AllFold(r, f, e.lines, last, v);
  }

  /** Polling with STATUS any number of times: the client follows the identifiers announced in all of them. */
  method PollStatus(client: Client, es: seq<Exchange>)
    requires forall e :: e in es ==> e.Proper()
    modifies client
    ensures client.Knows() == Folded(StatusEffect(client.uidOf), Answers(es), old(client.Knows()))
    ensures var ids := Known(client.uidOf, old(client.uidNext), Answers(es));
            && client.uidNext == (if ids == [] then 0 else ids[|ids| - 1])
            && client.hasNewEmail == (old(client.hasNewEmail) || Moves(ids))
            && client.count == old(client.count)
  {
    ghost var v, f := client.Knows(), StatusEffect(client.uidOf);
    var i := 0;
    while i < |es|
      invariant 0 <= i <= |es|
      invariant client.Knows() == Folded(f, Answers(es[..i]), v)
    {
      assert es[..i + 1][..i] == es[..i];
      StatusRead(client.uidOf, es[i], client.Knows());
      FoldAppend(f, Answers(es[..i]), es[i].Answer(), v);
      var responses, o := client.GetServerResponses(es[i].Command(), es[i].Answer());
      i := i + 1;
    }
    assert es[..i] == es;
    StatusTracks(client.uidOf, Answers(es), v);
  }

  // ---------------------------------------------------------------------------------------
  // EXAMINE, then STATUS

  /** The response code that announces the next identifier: section 7.1 of RFC 3501. */
  function UidLine(keyword: string, number: string, comment: string): string {
    STAR + " " + ("OK" + " " + UidCode(keyword, number + "]", comment))
  }

  function UidCode(keyword: string, value: string, comment: string): string {
    keyword + " " + (value + " " + comment)
  }

  /** A line whose third word is that code, in any letter case. */
  predicate ReportsUid(line: string) {
    var tokens := Split(line);
    tokens[0] == STAR && |tokens| >= 3 && Upper(tokens[2]) == UIDNEXT
  }

  lemma CodeHasNoSpace(keyword: string)
    requires Upper(keyword) == UIDNEXT
    ensures ' ' !in keyword
  {
    forall i | 0 <= i < |keyword| ensures keyword[i] != ' ' {
      assert Upper(keyword)[i] == UpperChar(keyword[i]);
    }
  }

  lemma TwoWords(a: string, b: string, rest: string)
    requires ' ' !in a && ' ' !in b
    ensures Split(a + " " + (b + " " + rest)) == [a, b] + Split(rest)
  {
    SplitToken(b, rest);
    SplitToken(a, b + " " + rest);
  }

  lemma UidLineSplits(keyword: string, number: string, comment: string)
    requires ' ' !in keyword && IsNumber(number)
    ensures Split(UidLine(keyword, number, comment)) == [STAR, "OK", keyword, number + "]"] + Split(comment)
  {
    var value := number + "]";
    assert ' ' !in value;
    TwoWords(keyword, value, comment);
    TwoWords(STAR, "OK", UidCode(keyword, value, comment));
    Associates([STAR, "OK"], [keyword, value], Split(comment));
  }

  lemma UidLineSays(keyword: string, number: string, comment: string)
    requires Upper(keyword) == UIDNEXT && IsNumber(number) && DigitsValue(number) < TWO_32
    ensures ParseExamine(UidLine(keyword, number, comment)) ==
            if keyword == UIDNEXT then Says(DigitsValue(number), UIDNEXT) else Nothing
  {
    CodeHasNoSpace(keyword);
    UidLineSplits(keyword, number, comment);
    UpperKeywords();
    assert (number + "]")[..|number|] == number;
    assert IsDigit(number[0]);
  }

  lemma UidLineComes(tag: string, keyword: string, number: string, comment: string)
    requires IsTag(tag) && Upper(keyword) == UIDNEXT && IsNumber(number)
    ensures BeforeCompletion(tag, UidLine(keyword, number, comment))
  {
    CodeHasNoSpace(keyword);
    UidLineSplits(keyword, number, comment);
    assert UidLine(keyword, number, comment)[0] == '*';
  }

  lemma {:induction false} UidKept(lines: seq<string>, v: View)
    requires forall line :: line in lines ==> !ReportsUid(line)
    ensures Folded(EXAMINE_EFFECT, lines, v).uidNext == v.uidNext
    decreases |lines|
  {
    if lines != [] {
      UpperKeywords();
      assert lines[0] in lines;
      UidKept(lines[1..], EXAMINE_EFFECT(lines[0], v));
    }
  }

  lemma UidLearned(before: seq<string>, keyword: string, number: string, comment: string, after: seq<string>, v: View)
    requires Upper(keyword) == UIDNEXT && IsNumber(number) && DigitsValue(number) < TWO_32
    requires forall line :: line in after ==> !ReportsUid(line)
    ensures Folded(EXAMINE_EFFECT, before + [UidLine(keyword, number, comment)] + after, v).uidNext ==
            if keyword == UIDNEXT then DigitsValue(number) else Folded(EXAMINE_EFFECT, before, v).uidNext
  {
    var line := UidLine(keyword, number, comment);
    var v1 := Folded(EXAMINE_EFFECT, before, v);
    FoldAppend(EXAMINE_EFFECT, before + [line], after, v);
    FoldAppend(EXAMINE_EFFECT, before, [line], v);
    assert [line][1..] == [];
    assert Folded(EXAMINE_EFFECT, [line], v1) == Folded(EXAMINE_EFFECT, [], EXAMINE_EFFECT(line, v1));
    UidLineSays(keyword, number, comment);
    UidKept(after, EXAMINE_EFFECT(line, v1));
  }

  /** A whole EXAMINE exchange ends with the identifier announced last, exactly when its code is in upper case or it was there. */
  lemma ExamineLearnsUid(
      uidOf: string -> nat, tag: string, folder: string, before: seq<string>, keyword: string, number: string,
      comment: string, after: seq<string>, ending: string, v: View)
    requires IsTag(tag) && Upper(keyword) == UIDNEXT && IsNumber(number) && DigitsValue(number) < TWO_32
    requires forall line :: line in before + after ==> BeforeCompletion(tag, line)
    requires forall line :: line in after ==> !ReportsUid(line)
    ensures var lines := before + [UidLine(keyword, number, comment)] + after;
            var v' := Folded(EXAMINE_EFFECT, lines, v);
            && Responses(For(uidOf, ExamineCommand(tag, folder)), lines + [tag + " " + ending], v) == (|lines| + 1, v', Finished)
            && v'.newEmail == v.newEmail
            && (v'.uidNext == DigitsValue(number) <==>
                keyword == UIDNEXT || Folded(EXAMINE_EFFECT, before, v).uidNext == DigitsValue(number))
  {
    var command, announced := ExamineCommand(tag, folder), UidLine(keyword, number, comment);
    var lines := before + [announced] + after;
    forall line | line in lines
      ensures ReadsBy(For(uidOf, command), EXAMINE_EFFECT, line)
    {
      UidLineComes(tag, keyword, number, comment);
      assert line in before + after || line == announced;
      ExamineReads(uidOf, tag, folder, line);
    }
    ExamineNamed(tag, folder);
    Completes(uidOf, command, tag, ending);
    LinesFold(For(uidOf, command), EXAMINE_EFFECT, lines, tag + " " + ending, v);
    ExaminedFlags(lines, v);
    UidLearned(before, keyword, number, comment, after, v);
  }

  /**
   * EXAMINE and then any number of STATUS polls on one client: it notices new mail exactly when an identifier
   * differs from the one before it, beginning with the one EXAMINE announced, and ends with the last one.
   */
  method ExamineAndPoll(
      client: Client, folder: string, tag: string, before: seq<string>, number: string, comment: string,
      after: seq<string>, ending: string, es: seq<Exchange>)
    requires IsTag(tag) && IsNumber(number) && DigitsValue(number) < TWO_32
    requires forall line :: line in before + after ==> BeforeCompletion(tag, line)
    requires forall line :: line in after ==> !ReportsUid(line)
    requires forall e :: e in es ==> e.Proper()
    modifies client
    ensures var ids := Known(client.uidOf, DigitsValue(number), Answers(es));
            && client.uidNext == (if ids == [] then 0 else ids[|ids| - 1])
            && client.hasNewEmail == (old(client.hasNewEmail) || Moves(ids))
  {
    UpperKeywords();
    ExamineLearnsUid(client.uidOf, tag, folder, before, UIDNEXT, number, comment, after, ending, client.Knows());
    var announced := before + [UidLine(UIDNEXT, number, comment)] + after;
    var r, o := client.GetServerResponses(ExamineCommand(tag, folder), announced + [tag + " " + ending]);
    PollStatus(client, es);
  }

  // ---------------------------------------------------------------------------------------
  // Continuation requests

  /** A continuation request ends the reading of every command but IDLE. */
  lemma ContinuationFinalIff(tag: string, rest: string, text: string)
    requires IsTag(tag)
    ensures IsFinal(tag + " " + rest, "+ " + text) <==> NameOf(tag + " " + rest) != "IDLE"
  {
    SplitToken(tag, rest);
    assert ("+ " + text)[..2] == "+ ";
    assert ("+ " + text)[0] == '+';
  }

  // ---------------------------------------------------------------------------------------
  // Tags

  const TWO_64: nat := 0x1_0000_0000_0000_0000

  /** The number of the tag after n others: 64 bits, starting at one. */
  function NumberAfter(n: nat): nat {
    (n + 1) % TWO_64
  }

  function TagAfter(id: string): nat -> string {
    (n: nat) => id + Decimal(NumberAfter(n))
  }

  /** The tags before the period are distinct, and then they come again. */
  ghost predicate Cycles(tags: nat -> string, period: nat) {
    && (forall i: nat, j: nat :: i < j < period ==> tags(i) != tags(j))
    && (forall i: nat, j: nat :: j == i + period ==> tags(i) == tags(j))
  }

  lemma NumbersCycle(i: nat, j: nat)
    ensures i < j < TWO_64 ==> NumberAfter(i) != NumberAfter(j)
    ensures j == i + TWO_64 ==> NumberAfter(i) == NumberAfter(j)
  {
  }

  lemma TagsCycle(id: string)
    ensures Cycles(TagAfter(id), TWO_64)
  {
    var tags := TagAfter(id);
    forall i: nat, j: nat | i < j < TWO_64
      ensures tags(i) != tags(j)
    {
      NumbersCycle(i, j);
      TagsDistinct(id, NumberAfter(i), NumberAfter(j));
    }
    forall i: nat, j: nat | j == i + TWO_64
      ensures tags(i) == tags(j)
    {
      NumbersCycle(i, j);
    }
  }

  lemma NewTagIff(tags: nat -> string, period: nat, issued: seq<string>)
    requires period > 0 && Cycles(tags, period)
    requires forall i :: 0 <= i < |issued| ==> issued[i] == tags(i)
    ensures tags(|issued|) !in issued <==> |issued| < period
  {
    var n := |issued|;
    if n >= period {
      assert issued[n - period] == tags(n - period) == tags(n);
    }
  }

  class CmdTag {
    const id: string
    var seqNo: nat
    ghost const tags: nat -> string
    /** The tags handed out so far. */
    ghost var issued: seq<string>

    ghost predicate Valid()
      reads this
    {
      && tags == TagAfter(id) && Cycles(tags, TWO_64)
      && seqNo == |issued| % TWO_64
      && forall i :: 0 <= i < |issued| ==> issued[i] == tags(i)
    }

    constructor (id: string)
      ensures Valid() && this.id == id && issued == []
    {
      TagsCycle(id);
      this.id, tags := id, TagAfter(id);
      seqNo, issued := 0, [];
    }

    /** The tag is new exactly while fewer than 2^64 were handed out. */
    method Next() returns (tag: string)
      requires Valid()
      modifies this
      ensures Valid() && issued == old(issued) + [tag]
      ensures tag !in old(issued) <==> |old(issued)| < TWO_64
    {
      NewTagIff(tags, TWO_64, issued);
      NumberIs(|issued|);
      seqNo := (seqNo + 1) % TWO_64;
      tag := id + Decimal(seqNo);
      issued := issued + [tag];
    }
  }

  lemma NumberIs(n: nat)
    ensures (n % TWO_64 + 1) % TWO_64 == NumberAfter(n)
  {
  }

  lemma TagsDistinct(id: string, a: nat, b: nat)
    ensures id + Decimal(a) == id + Decimal(b) <==> a == b
  {
    if id + Decimal(a) == id + Decimal(b) {
      assert Decimal(a) == (id + Decimal(a))[|id|..];
      assert Decimal(b) == (id + Decimal(b))[|id|..];
      DecimalInjective(a, b);
    }
  }

  /** The completion of one command is taken for another's exactly when the other's number begins its number. */
  lemma CompletionMistakenIff(id: string, a: nat, b: nat, rest: string, ending: string)
    requires IsTag(id)
    ensures IsFinal(id + Decimal(a) + " " + rest, id + Decimal(b) + " " + ending) <==> IsPrefix(Decimal(a), Decimal(b))
  {
    DigitsMistakenIff(id, Decimal(a), Decimal(b), rest, ending);
  }

  lemma DigitsMistakenIff(id: string, a: string, b: string, rest: string, ending: string)
    requires IsTag(id) && AllDigits(a)
    ensures IsFinal(id + a + " " + rest, id + b + " " + ending) <==> IsPrefix(a, b)
  {
    assert ' ' !in id + a;
    SplitToken(id + a, rest);
    TagPrefix(id, a, b, ending);
    NoContinuation(id, b + " " + ending);
    assert id + b + " " + ending == id + (b + " " + ending);
  }

  lemma NoContinuation(id: string, rest: string)
    requires IsTag(id)
    ensures !IsPrefix("+ ", id + rest)
  {
    assert (id + rest)[0] == id[0];
  }

  lemma TagPrefix(id: string, a: string, b: string, ending: string)
    requires AllDigits(a)
    ensures IsPrefix(id + a, id + b + " " + ending) <==> IsPrefix(a, b)
  {
    var line := id + b + " " + ending;
    if IsPrefix(a, b) {
      assert line[..|id| + |a|] == id + a;
    } else if |a| <= |b| {
      var i :| 0 <= i < |a| && a[i] != b[i];
      assert (id + a)[|id| + i] == a[i] && line[|id| + i] == b[i];
    } else {
      assert (id + a)[|id| + |b|] == a[|b|] && line[|id| + |b|] == ' ';
    }
  }

  /** A prefix of a number is no larger. */
  lemma {:induction false} PrefixValue(a: string, b: string)
    requires AllDigits(a) && AllDigits(b) && IsPrefix(a, b)
    ensures DigitsValue(a) <= DigitsValue(b)
    decreases |b|
  {
    if |a| < |b| {
      var front := b[..|b| - 1];
      assert front[..|a|] == a;
      PrefixValue(a, front);
    } else {
      assert b[..|a|] == b;
    }
  }

  /** The late completion of an earlier command is never taken for the current one's. */
  lemma LateCompletionIgnored(id: string, a: nat, b: nat, rest: string, ending: string)
    requires IsTag(id) && b < a
    ensures !IsFinal(id + Decimal(a) + " " + rest, id + Decimal(b) + " " + ending)
  {
    CompletionMistakenIff(id, a, b, rest, ending);
    if IsPrefix(Decimal(a), Decimal(b)) {
      PrefixValue(Decimal(a), Decimal(b));
      DecimalValue(a);
      DecimalValue(b);
    }
  }
}
