/** Session keys: the "--"-joined poll key, the ":"-joined token message, and the id validators. */
module Keys {

  datatype Ids = Ids(user: string, context: string, device: string)

  function Joined(sep: string, ids: Ids): string {
    ids.user + sep + ids.context + sep + ids.device
  }

  /** The key of StartPollArgs, StopPollArgs and DeferPollArgs alike. */
  function PollMapKey(ids: Ids): string {
    Joined("--", ids)
  }

  /** The message an auth token signs. */
  function IdBytes(ids: Ids): string {
    Joined(":", ids)
  }

  predicate Lower(c: char) { 'a' <= c <= 'z' }
  predicate Upper(c: char) { 'A' <= c <= 'Z' }
  predicate Digit(c: char) { '0' <= c <= '9' }

  predicate UpperOrDigit(c: char) { Upper(c) || Digit(c) }
  predicate Alphanumeric(c: char) { Lower(c) || Upper(c) || Digit(c) }
  predicate NotNewline(c: char) { c != '\n' }

  predicate AllIn(s: string, p: char -> bool) {
    forall i :: 0 <= i < |s| ==> p(s[i])
  }

  /** 46 characters: us-<letters>-<digits>: then one of [a-z-0-9], then anything but a newline. */
  ghost predicate ValidUserId(u: string) {
    && |u| == 46
    && exists region: string, number: string, rest: string ::
         && u == "us-" + region + "-" + number + ":" + rest
         && region != [] && AllIn(region, Lower)
         && number != [] && AllIn(number, Digit)
         && rest != [] && (Lower(rest[0]) || rest[0] == '-' || Digit(rest[0]))
         && AllIn(rest, NotNewline)
  }

  predicate ValidDeviceId(d: string) {
    && |d| == 28
    && d[..4] == "Ncho"
    && AllIn(d[4..], UpperOrDigit)
  }

  predicate ValidContext(c: string) {
    && 5 <= |c| <= 64
    && AllIn(c, Alphanumeric)
  }

  ghost predicate Valid(ids: Ids) {
    ValidUserId(ids.user) && ValidContext(ids.context) && ValidDeviceId(ids.device)
  }

  /** Two strings cut at the last occurrence of a separator character are equal only part by part. */
  lemma CutAtLast(a: string, b: string, c: char, x: string, y: string)
    requires a + [c] + x == b + [c] + y
    requires c !in x && c !in y
    ensures a == b && x == y
  {
    var s := a + [c] + x;
    assert s[|a|] == c && s[|b|] == c;
    assert forall i :: |a| < i < |s| ==> s[i] == x[i - |a| - 1] && s[i] != c;
    assert forall i :: |b| < i < |s| ==> s[i] == y[i - |b| - 1] && s[i] != c;
    assert |a| == |b|;
    assert a == s[..|a|] && b == s[..|b|];
    assert x == s[|a| + 1..] && y == s[|b| + 1..];
  }

  lemma ValidCharacters(ids: Ids, c: char)
    requires Valid(ids) && (c == '-' || c == ':')
    ensures c !in ids.context && c !in ids.device
  {
    var d := ids.device;
    assert d == d[..4] + d[4..];
    assert forall i :: 4 <= i < |d| ==> d[i] == d[4..][i - 4];
  }

  lemma JoinedInjective(p: string, c: char, a: Ids, b: Ids)
    requires Valid(a) && Valid(b) && (c == '-' || c == ':')
    requires Joined(p + [c], a) == Joined(p + [c], b)
    ensures a == b
  {
    ValidCharacters(a, c);
    ValidCharacters(b, c);
    var a1, b1 := a.user + p + [c] + a.context, b.user + p + [c] + b.context;
    assert Joined(p + [c], a) == (a1 + p) + [c] + a.device;
    assert Joined(p + [c], b) == (b1 + p) + [c] + b.device;
    CutAtLast(a1 + p, b1 + p, c, a.device, b.device);
    assert a1 == (a1 + p)[..|a1|] && b1 == (b1 + p)[..|b1|];
    CutAtLast(a.user + p, b.user + p, c, a.context, b.context);
    assert a.user == (a.user + p)[..|a.user|] && b.user == (b.user + p)[..|b.user|];
  }

  /** Start, Stop and Defer address the same session exactly when they carry the same ids. */
  lemma PollKeysEqualIff(a: Ids, b: Ids)
    requires Valid(a) && Valid(b)
    ensures PollMapKey(a) == PollMapKey(b) <==> a == b
  {
    if PollMapKey(a) == PollMapKey(b) {
      assert "-" + ['-'] == "--";
      JoinedInjective("-", '-', a, b);
    }
  }

  /** Two requests sign the same message exactly when they carry the same ids, although a user id holds ':'. */
  lemma TokenMessagesEqualIff(a: Ids, b: Ids)
    requires Valid(a) && Valid(b)
    ensures IdBytes(a) == IdBytes(b) <==> a == b
  {
    if IdBytes(a) == IdBytes(b) {
      assert [] + [':'] == ":";
      JoinedInjective([], ':', a, b);
    }
  }

  /** A valid user id may hold both separators, and that costs nothing. */
  lemma UserIdMayHoldSeparators()
    ensures exists u :: ValidUserId(u) && (exists p: string, q: string :: u == p + "--" + q) && ':' in u
  {
    var tail: string := seq(36, i => ':');
    var rest := "1--" + tail;
    var u := "us-" + "a" + "-" + "1" + ":" + rest;
    assert u == "us-a-1:1" + "--" + tail;
    assert AllIn("a", Lower) && AllIn("1", Digit) && AllIn(rest, NotNewline);
    assert ValidUserId(u);
    assert u[6] == ':';
  }

  /** Without the validators the poll key is not injective. */
  lemma UnvalidatedKeysCollide()
    ensures exists a, b :: a != b && PollMapKey(a) == PollMapKey(b)
  {
    var a, b := Ids("u", "v--w", "d"), Ids("u--v", "w", "d");
    assert PollMapKey(a) == "u--v--w--d" == PollMapKey(b);
  }
}
