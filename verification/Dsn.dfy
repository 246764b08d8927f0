/** The data source name: printed by initDbMySql, taken apart by the driver's parseDSN. */
module Dsn {
  import opened Common
  import opened Text

  /** -1, or the last position of c. */
  function LastIndex(s: string, c: char): (i: int)
    ensures -1 <= i < |s|
  {
    if s == [] then -1 else if s[|s| - 1] == c then |s| - 1 else LastIndex(s[..|s| - 1], c)
  }

  /** |s|, or the first position of c. */
  function FirstIndex(s: string, c: char): (i: nat)
    ensures i <= |s|
  {
    if s == [] then 0 else if s[0] == c then 0 else 1 + FirstIndex(s[1..], c)
  }

  lemma {:induction false} LastIndexIs(s: string, c: char)
    ensures var i := LastIndex(s, c);
            && (i >= 0 ==> s[i] == c)
            && (forall j :: i < j < |s| ==> s[j] != c)
  {
    if s != [] && s[|s| - 1] != c {
      var r := s[..|s| - 1];
      LastIndexIs(r, c);
      assert forall j :: 0 <= j < |r| ==> s[j] == r[j];
    }
  }

  lemma {:induction false} FirstIndexIs(s: string, c: char)
    ensures var i := FirstIndex(s, c);
            && (i < |s| ==> s[i] == c)
            && (forall j :: 0 <= j < i ==> s[j] != c)
  {
    if s != [] && s[0] != c {
      var r := s[1..];
      FirstIndexIs(r, c);
      assert forall j :: 1 <= j < |s| ==> s[j] == r[j - 1];
    }
  }

  datatype Config = Config(user: string, passwd: string, net: string, addr: string, dbname: string)

  datatype Result =
    | Parsed(cfg: Config)
    | InvalidUnescaped
    | InvalidAddr
    | NoSlash
    | ParamsError
    | UnsafeCollation
    | UnknownNetwork

  /** What parseDSNParams makes of the part after '?'. */
  datatype ParamsOutcome = BadParams | Params(unsafeInterpolation: bool)

  type ParamsParser = string -> ParamsOutcome

  /** user[:password] */
  function Credentials(s: string): (string, string) {
    var k := FirstIndex(s, ':');
    if k < |s| then (s[..k], s[k + 1..]) else (s, "")
  }

  /** net[(addr)], the address up to a closing parenthesis at the very end. */
  function Address(s: string): Result {
    AddressCut(s, FirstIndex(s, '('))
  }

  /** An address whose parenthesis opens at k. */
  function AddressCut(s: string, k: nat): Result
    requires k <= |s|
  {
    if k == |s| then Parsed(Config("", "", s, "", ""))
    else if s[|s| - 1] != ')' then if ')' in s[k + 1..] then InvalidUnescaped else InvalidAddr
    else if k + 1 == |s| then InvalidAddr
    else Parsed(Config("", "", s[..k], s[k + 1..|s| - 1], ""))
  }

  /** [user[:password]@][net[(addr)]] */
  function Left(s: string): Result {
    var j := LastIndex(s, '@');
    Joined(if j >= 0 then Credentials(s[..j]) else ("", ""), Address(s[j + 1..]))
  }

  function Joined(cred: (string, string), addr: Result): Result {
    match addr
    case Parsed(a) => Parsed(a.(user := cred.0, passwd := cred.1))
    case e => e
  }

  /** dbname[?params] */
  function Right(cfg: Config, s: string, params: ParamsParser): Result {
    var q := FirstIndex(s, '?');
    var named := cfg.(dbname := s[..q]);
    if q == |s| then Defaults(named)
    else
      match params(s[q + 1..])
      case BadParams => ParamsError
      case Params(unsafe) => if unsafe then UnsafeCollation else Defaults(named)
  }

  const TCP := "tcp"
  const UNIX := "unix"
  const TCP_ADDRESS := "127.0.0.1:3306"
  const UNIX_ADDRESS := "/tmp/mysql.sock"

  function Defaults(cfg: Config): Result {
    var c := cfg.(net := if cfg.net == "" then TCP else cfg.net);
    if c.addr != "" then Parsed(c)
    else if c.net == TCP then Parsed(c.(addr := TCP_ADDRESS))
    else if c.net == UNIX then Parsed(c.(addr := UNIX_ADDRESS))
    else UnknownNetwork
  }

  const EMPTY := Config("", "", "", "", "")

  type LeftParser = string -> Result
  type RightParser = (Config, string) -> Result

  function RightWith(params: ParamsParser): RightParser {
    (cfg: Config, s: string) => Right(cfg, s, params)
  }

  function Both(left: LeftParser, right: RightParser, a: string, b: string): Result {
    match left(a)
    case Parsed(cfg) => right(cfg, b)
    case e => e
  }

  /** Split at the last '/'; an empty left part is not parsed. */
  function ParseBy(left: LeftParser, right: RightParser, dsn: string): Result {
    var i := LastIndex(dsn, '/');
    if i < 0 then if dsn == [] then Defaults(EMPTY) else NoSlash
    else if i == 0 then right(EMPTY, dsn[1..])
    else Both(left, right, dsn[..i], dsn[i + 1..])
  }

  /** The grammar parseDSN follows. */
  function Parse(dsn: string, params: ParamsParser): Result {
    ParseBy(Left, RightWith(params), dsn)
  }

  // ---------------------------------------------------------------------------------------
  // The printer

  /** The fields of the database configuration that go into the connect string. */
  datatype DbConfig = DbConfig(user: string, passwd: string, host: string, port: int, name: string)

  function AddressOf(d: DbConfig): string {
    d.host + ":" + DecimalInt(d.port)
  }

  function Network(d: DbConfig): string {
    "tcp(" + AddressOf(d) + ")"
  }

  function Access(d: DbConfig): string {
    (d.user + ":" + d.passwd) + "@" + Network(d)
  }

  /** %s:%s@tcp(%s:%d)/%s */
  function ConnectString(d: DbConfig): string {
    Access(d) + "/" + d.name
  }

  function Expected(d: DbConfig): Config {
    Config(d.user, d.passwd, "tcp", AddressOf(d), d.name)
  }

  /** What a caller can check: any password will do. */
  predicate Printable(d: DbConfig) {
    ':' !in d.user && '@' !in d.host && '/' !in d.name && '?' !in d.name
  }

  lemma LastIndexAt(a: string, c: char, b: string)
    ensures LastIndex(a + [c] + b, c) >= |a|
    ensures LastIndex(a + [c] + b, c) == |a| <==> c !in b
  {
    var s := a + [c] + b;
    LastIndexIs(s, c);
    assert s[|a|] == c;
    assert forall j :: 0 <= j < |b| ==> s[|a| + 1 + j] == b[j];
    if c in b {
      var j :| 0 <= j < |b| && b[j] == c;
      assert s[|a| + 1 + j] == c;
    } else {
      assert forall j :: |a| < j < |s| ==> s[j] == b[j - |a| - 1];
    }
  }

  lemma FirstIndexAt(a: string, c: char, b: string)
    ensures FirstIndex(a + [c] + b, c) <= |a|
    ensures FirstIndex(a + [c] + b, c) == |a| <==> c !in a
  {
    var s := a + [c] + b;
    FirstIndexIs(s, c);
    assert s[|a|] == c;
    assert forall j :: 0 <= j < |a| ==> s[j] == a[j];
    if c in a {
      var j :| 0 <= j < |a| && a[j] == c;
      assert s[j] == c;
    }
  }

  lemma NoAtSign(d: DbConfig)
    ensures '@' in Network(d) <==> '@' in d.host
  {
    var p := DecimalInt(d.port);
    assert forall c :: c in p ==> c == '-' || IsDigit(c);
    var n := Network(d);
    assert n == "tcp(" + d.host + (":" + p + ")");
    assert forall c :: c in n <==> c in "tcp(" || c in d.host || c in ":" + p + ")";
  }

  lemma NetworkParses(d: DbConfig)
    ensures Address(Network(d)) == Parsed(Config("", "", "tcp", AddressOf(d), ""))
  {
    var n := Network(d);
    assert n == "tcp" + ['('] + (AddressOf(d) + ")");
    FirstIndexAt("tcp", '(', AddressOf(d) + ")");
    assert n[4..|n| - 1] == AddressOf(d);
    assert n[..3] == "tcp";
  }

  /** The part before the last '/' gives back user and password exactly under the first two conditions. */
  lemma AccessParsesIff(d: DbConfig)
    ensures var left := Left(Access(d));
            if ':' !in d.user && '@' !in d.host then left == Parsed(Config(d.user, d.passwd, "tcp", AddressOf(d), ""))
            else left.Parsed? ==> left.cfg.user != d.user || left.cfg.passwd != d.passwd
  {
    var s, u, n := Access(d), d.user + ":" + d.passwd, Network(d);
    var j := LastIndex(s, '@');
    assert s == u + ['@'] + n;
    LastIndexAt(u, '@', n);
    NoAtSign(d);
    CredentialsOf(d, s[|u|..j]);
    assert s[..j] == u + s[|u|..j];
    if j == |u| {
      assert s[j + 1..] == n;
      NetworkParses(d);
    }
  }

  /** Reading the credentials with `more` text of the address taken for password. */
  lemma CredentialsOf(d: DbConfig, more: string)
    ensures var (user, passwd) := Credentials(d.user + ":" + d.passwd + more);
            && (':' in d.user ==> user != d.user)
            && (':' !in d.user && more == [] ==> user == d.user && passwd == d.passwd)
            && (more != [] ==> user != d.user || passwd != d.passwd)
  {
    var s := d.user + ":" + d.passwd + more;
    assert s == d.user + [':'] + (d.passwd + more);
    FirstIndexAt(d.user, ':', d.passwd + more);
    var k := FirstIndex(s, ':');
    assert |s[..k]| == k && |s[k + 1..]| == |s| - k - 1;
    if k == |d.user| {
      assert s[..k] == d.user && s[k + 1..] == d.passwd + more;
    }
  }

  /** The rest of the parse keeps user and password, and names a database no longer than its text. */
  lemma RightKeeps(cfg: Config, s: string, params: ParamsParser)
    ensures var r := Right(cfg, s, params);
            r.Parsed? ==> r.cfg.user == cfg.user && r.cfg.passwd == cfg.passwd && r.cfg.dbname == s[..FirstIndex(s, '?')]
  {
  }

  lemma NameParsesIff(d: DbConfig, params: ParamsParser)
    ensures Right(Config(d.user, d.passwd, "tcp", AddressOf(d), ""), d.name, params) == Parsed(Expected(d))
            <==> '?' !in d.name
  {
    var q := FirstIndex(d.name, '?');
    FirstIndexIs(d.name, '?');
    RightKeeps(Config(d.user, d.passwd, "tcp", AddressOf(d), ""), d.name, params);
    if '?' in d.name {
      var j :| 0 <= j < |d.name| && d.name[j] == '?';
      assert q <= j;
      assert |d.name[..q]| < |d.name|;
    } else {
      assert q == |d.name|;
      assert d.name[..q] == d.name;
    }
    assert |AddressOf(d)| > 0;
  }

  /** The split is at the printed '/' if the name holds none, and otherwise leaves a shorter name. */
  lemma SplitAtLast(left: LeftParser, right: RightParser, a: string, name: string) returns (a': string, name': string)
    requires a != []
    ensures ParseBy(left, right, a + "/" + name) == Both(left, right, a', name')
    ensures if '/' in name then |name'| < |name| else a' == a && name' == name
  {
    var s := a + "/" + name;
    assert s == a + ['/'] + name;
    LastIndexAt(a, '/', name);
    var i := LastIndex(s, '/');
    a', name' := s[..i], s[i + 1..];
    if i == |a| {
      assert s[..i] == a && s[i + 1..] == name;
    }
  }

  /**
   * For every password, the driver recovers user, password, network, address and database from the printed
   * connect string if and only if the user holds no ':', the host no '@', and the database no '/' or '?'.
   */
  lemma ConnectStringRecoveredIff(d: DbConfig, params: ParamsParser)
    ensures Parse(ConnectString(d), params) == Parsed(Expected(d)) <==> Printable(d)
  {
    var right := RightWith(params);
    assert |Access(d)| > 0;
    var a, name := SplitAtLast(Left, right, Access(d), d.name);
    if '/' in d.name {
      RightNamesFit(params);
      ShortNameDiffers(Left, right, a, name, Expected(d));
    } else {
      WholeParsesIff(d, params);
    }
  }

  /** A parser of the right part never names a database longer than its text. */
  ghost predicate NamesFit(right: RightParser) {
    forall cfg, s :: right(cfg, s).Parsed? ==> |right(cfg, s).cfg.dbname| <= |s|
  }

  lemma RightNamesFit(params: ParamsParser)
    ensures NamesFit(RightWith(params))
  {
    var right := RightWith(params);
    forall cfg, s ensures right(cfg, s).Parsed? ==> |right(cfg, s).cfg.dbname| <= |s| {
      RightKeeps(cfg, s, params);
    }
  }

  lemma ShortNameDiffers(left: LeftParser, right: RightParser, a: string, name: string, expected: Config)
    requires NamesFit(right) && |name| < |expected.dbname|
    ensures Both(left, right, a, name) != Parsed(expected)
  {
  }

  lemma WholeParsesIff(d: DbConfig, params: ParamsParser)
    ensures Both(Left, RightWith(params), Access(d), d.name) == Parsed(Expected(d))
            <==> ':' !in d.user && '@' !in d.host && '?' !in d.name
  {
    AccessParsesIff(d);
    NameParsesIff(d, params);
    var left := Left(Access(d));
    if left.Parsed? {
      RightKeeps(left.cfg, d.name, params);
    }
  }

  // ---------------------------------------------------------------------------------------
  // The parser's loops

  /** The same on the text itself: user:password@tcp(host:port)/name. */
  lemma PrintedRecoveredIff(user: string, passwd: string, host: string, port: int, name: string, params: ParamsParser)
    ensures var addr := host + ":" + DecimalInt(port);
            Parse(user + ":" + passwd + "@" + ("tcp(" + addr + ")") + "/" + name, params) ==
            Parsed(Config(user, passwd, "tcp", addr, name)) <==>
            ':' !in user && '@' !in host && '/' !in name && '?' !in name
  {
    ConnectStringRecoveredIff(DbConfig(user, passwd, host, port, name), params);
  }

  // ---------------------------------------------------------------------------------------
  // What a data source name may leave out

  lemma NoIndex(s: string, c: char)
    requires c !in s
    ensures LastIndex(s, c) == -1 && FirstIndex(s, c) == |s|
  {
    LastIndexIs(s, c);
    FirstIndexIs(s, c);
  }

  lemma SlashAt(left: LeftParser, right: RightParser, a: string, b: string)
    requires '/' !in b
    ensures ParseBy(left, right, a + "/" + b) == if a == [] then right(EMPTY, b) else Both(left, right, a, b)
  {
    var dsn := a + "/" + b;
    LastIndexAt(a, '/', b);
    assert dsn[..|a|] == a && dsn[|a| + 1..] == b;
  }

  /** A network without an address, and without credentials. */
  lemma PlainNetwork(net: string)
    requires '@' !in net && '(' !in net
    ensures Left(net) == Parsed(Config("", "", net, "", ""))
  {
    NoIndex(net, '@');
    NoIndex(net, '(');
    assert net[0..] == net;
  }

  /** A database name without parameters. */
  lemma PlainName(cfg: Config, name: string, params: ParamsParser)
    requires '?' !in name
    ensures Right(cfg, name, params) == Defaults(cfg.(dbname := name))
  {
    NoIndex(name, '?');
    assert name[..|name|] == name;
  }

  /** Without an address, tcp and unix, and no network at all, get the documented ones; any other network is refused. */
  lemma AddressLeftOut(net: string, name: string, params: ParamsParser)
    requires '@' !in net && '(' !in net && '/' !in name && '?' !in name
    ensures Parse(net + "/" + name, params) ==
            if net == "" || net == "tcp" then Parsed(Config("", "", "tcp", "127.0.0.1:3306", name))
            else if net == "unix" then Parsed(Config("", "", "unix", "/tmp/mysql.sock", name))
            else UnknownNetwork
  {
    SlashAt(Left, RightWith(params), net, name);
    PlainNetwork(net);
    PlainName(EMPTY, name, params);
    PlainName(Config("", "", net, "", ""), name, params);
  }

  /** Only the empty text needs no slash. */
  lemma SlashLeftOut(dsn: string, params: ParamsParser)
    requires '/' !in dsn
    ensures Parse(dsn, params) == if dsn == "" then Parsed(Config("", "", "tcp", "127.0.0.1:3306", "")) else NoSlash
  {
    NoIndex(dsn, '/');
  }

  lemma NameAndParameters(cfg: Config, name: string, text: string, params: ParamsParser)
    requires '?' !in name
    ensures Right(cfg, name + "?" + text, params) ==
            match params(text)
            case BadParams => ParamsError
            case Params(unsafe) => if unsafe then UnsafeCollation else Defaults(cfg.(dbname := name))
  {
    var s := name + "?" + text;
    FirstIndexAt(name, '?', text);
    assert s[..|name|] == name && s[|name| + 1..] == text;
  }

  lemma NoLeftPart(left: LeftParser, right: RightParser, b: string)
    requires '/' !in b
    ensures ParseBy(left, right, "/" + b) == right(EMPTY, b)
  {
    SlashAt(left, right, "", b);
    assert "" + "/" + b == "/" + b;
  }

  /** Parameters go to their own parser, whose refusals are passed on, and the name ends before them. */
  lemma ParametersCut(name: string, text: string, params: ParamsParser)
    requires '/' !in name && '?' !in name && '/' !in text
    ensures Parse("/" + (name + "?" + text), params) ==
            match params(text)
            case BadParams => ParamsError
            case Params(unsafe) =>
              if unsafe then UnsafeCollation else Parsed(Config("", "", "tcp", "127.0.0.1:3306", name))
  {
    NoLeftPart(Left, RightWith(params), name + "?" + text);
    NameAndParameters(EMPTY, name, text, params);
  }

  lemma OpenAddress(net: string, addr: string)
    requires '(' !in net && addr != [] && addr[|addr| - 1] != ')'
    ensures Address(net + "(" + addr) == if ')' in addr then InvalidUnescaped else InvalidAddr
  {
    var s := net + "(" + addr;
    FirstIndexAt(net, '(', addr);
    assert s[|net| + 1..] == addr && s[|s| - 1] == addr[|addr| - 1];
  }

  lemma NoCredentials(s: string)
    requires '@' !in s && !Address(s).Parsed?
    ensures Left(s) == Address(s)
  {
    NoIndex(s, '@');
    assert s[0..] == s;
  }

  /** An address that is not closed at the slash is refused, and one closed too early for another reason. */
  lemma AddressNotClosed(net: string, addr: string, name: string, params: ParamsParser)
    requires '@' !in net && '(' !in net && '@' !in addr && addr != [] && addr[|addr| - 1] != ')' && '/' !in name
    ensures Parse(net + "(" + addr + "/" + name, params) == if ')' in addr then InvalidUnescaped else InvalidAddr
  {
    var s := net + "(" + addr;
    OpenAddress(net, addr);
    assert '@' !in s;
    NoCredentials(s);
    SlashAt(Left, RightWith(params), s, name);
  }

  method FindLast(s: string, c: char, hi: nat) returns (i: int)
    requires hi <= |s|
    ensures i == LastIndex(s[..hi], c)
  {
    i := hi - 1;
    while i >= 0
      invariant -1 <= i < hi
      invariant LastIndex(s[..hi], c) == LastIndex(s[..i + 1], c)
    {
      assert s[..i + 1][..i] == s[..i];
      if s[i] == c {
        return;
      }
      i := i - 1;
    }
  }

  method FindFirst(s: string, c: char, lo: nat, hi: nat) returns (i: nat)
    requires lo <= hi <= |s|
    ensures i == lo + FirstIndex(s[lo..hi], c)
  {
    i := lo;
    while i < hi
      invariant lo <= i <= hi
      invariant lo + FirstIndex(s[lo..hi], c) == i + FirstIndex(s[i..hi], c)
    {
      assert s[i..hi][1..] == s[i + 1..hi];
      if s[i] == c {
        return;
      }
      i := i + 1;
    }
  }

  method ParseCredentials(dsn: string, j: nat) returns (user: string, passwd: string)
    requires j <= |dsn|
    ensures (user, passwd) == Credentials(dsn[..j])
  {
    passwd := "";
    assert dsn[0..j] == dsn[..j];
    var k := FindFirst(dsn, ':', 0, j);
    if k < j {
      assert dsn[..j][k + 1..] == dsn[k + 1..j];
      passwd := dsn[k + 1..j];
    }
    assert dsn[..j][..k] == dsn[..k];
    user := dsn[..k];
  }

  lemma AddressCutAt(dsn: string, lo: nat, i: nat, k: nat)
    requires lo <= k <= i <= |dsn|
    ensures AddressCut(dsn[lo..i], k - lo) ==
            if k == i then Parsed(Config("", "", dsn[lo..i], "", ""))
            else if dsn[i - 1] != ')' then if ')' in dsn[k + 1..i] then InvalidUnescaped else InvalidAddr
            else if k + 1 == i then InvalidAddr
            else Parsed(Config("", "", dsn[lo..k], dsn[k + 1..i - 1], ""))
  {
    if k < i {
      SliceOfSlice(dsn, lo, i, 0, k - lo);
      SliceOfSlice(dsn, lo, i, k - lo + 1, i - lo);
      if k + 1 < i {
        SliceOfSlice(dsn, lo, i, k - lo + 1, i - lo - 1);
      }
    }
  }

  method ParseAddress(dsn: string, lo: nat, i: nat) returns (r: Result)
    requires lo <= i <= |dsn|
    ensures r == Address(dsn[lo..i])
  {
    var k := FindFirst(dsn, '(', lo, i);
    AddressCutAt(dsn, lo, i, k);
    if k == i {
      return Parsed(Config("", "", dsn[lo..k], "", ""));
    }
    if dsn[i - 1] != ')' {
      return if ')' in dsn[k + 1..i] then InvalidUnescaped else InvalidAddr;
    }
    assert dsn[k] == '(' by {
      FirstIndexIs(dsn[lo..i], '(');
      assert dsn[lo..i][k - lo] == dsn[k];
    }
    r := Parsed(Config("", "", dsn[lo..k], dsn[k + 1..i - 1], ""));
  }

  /** The credentials before position j, none if there is no '@'. */
  function CredentialsBefore(dsn: string, j: int): (string, string)
    requires j <= |dsn|
  {
    if j >= 0 then Credentials(dsn[..j]) else ("", "")
  }

  lemma LeftFrom(dsn: string, i: nat, j: int, cred: (string, string), addr: Result)
    requires i <= |dsn| && j == LastIndex(dsn[..i], '@')
    requires cred == CredentialsBefore(dsn, j) && addr == Address(dsn[j + 1..i])
    ensures Left(dsn[..i]) == Joined(cred, addr)
  {
    assert j >= 0 ==> dsn[..i][..j] == dsn[..j];
    assert dsn[..i][j + 1..] == dsn[j + 1..i];
  }

  method ParseCredentialsBefore(dsn: string, j: int) returns (user: string, passwd: string)
    requires j <= |dsn|
    ensures (user, passwd) == CredentialsBefore(dsn, j)
  {
    user, passwd := "", "";
    if j >= 0 {
      user, passwd := ParseCredentials(dsn, j);
    }
  }

  method ParseLeft(dsn: string, i: nat) returns (r: Result)
    requires i <= |dsn|
    ensures r == Left(dsn[..i])
  {
    var j := FindLast(dsn, '@', i);
    var user, passwd := ParseCredentialsBefore(dsn, j);
    var a := ParseAddress(dsn, j + 1, i);
    LeftFrom(dsn, i, j, (user, passwd), a);
    r := Joined((user, passwd), a);
  }

  method ParseRight(cfg: Config, dsn: string, lo: nat, params: ParamsParser) returns (r: Result)
    requires lo <= |dsn|
    ensures r == Right(cfg, dsn[lo..], params)
  {
    ghost var s := dsn[lo..];
    assert dsn[lo..|dsn|] == s;
    var j := FindFirst(dsn, '?', lo, |dsn|);
    assert s[..j - lo] == dsn[lo..j];
    if j < |dsn| {
      assert s[j - lo + 1..] == dsn[j + 1..];
      match params(dsn[j + 1..]) {
        case BadParams => return ParamsError;
        case Params(unsafe) =>
          if unsafe {
            return UnsafeCollation;
          }
      }
    }
    r := ApplyDefaults(cfg.(dbname := dsn[lo..j]));
  }

  method ApplyDefaults(given: Config) returns (r: Result)
    ensures r == Defaults(given)
  {
    var cfg := given;
    if cfg.net == "" {
      cfg := cfg.(net := TCP);
    }
    if cfg.addr == "" {
      if cfg.net == TCP {
        cfg := cfg.(addr := TCP_ADDRESS);
      } else if cfg.net == UNIX {
        cfg := cfg.(addr := UNIX_ADDRESS);
      } else {
        return UnknownNetwork;
      }
    }
    r := Parsed(cfg);
  }

  method ParseDSN(dsn: string, params: ParamsParser) returns (r: Result)
    ensures r == Parse(dsn, params)
  {
    assert dsn[..|dsn|] == dsn;
    var i := FindLast(dsn, '/', |dsn|);
    if i > 0 {
      r := ParseLeft(dsn, i);
      if r.Parsed? {
        r := ParseRight(r.cfg, dsn, i + 1, params);
      }
    } else if i == 0 {
      r := ParseRight(EMPTY, dsn, 1, params);
    } else if |dsn| > 0 {
      r := NoSlash;
    } else {
      r := ApplyDefaults(EMPTY);
    }
  }
}
