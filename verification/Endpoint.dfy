/** The textual form of a SOCKS5 endpoint: `[scheme://][user:password@]host:port`. */
module Endpoint {
  import opened Net

  datatype EndpointError =
    | UnsupportedScheme(scheme: string)
    | BadCredentials
    | BadIpv6Host
    | MissingPortSeparator
    | MissingHost
    | Unresolved
    | BadPort

  datatype Credentials = Credentials(username: string, password: string)

  /** The textual IP parser and the name resolver (host and port texts), both oracles. */
  datatype Oracles = Oracles(parseIp: string -> Option<IpAddr>, resolve: (string, string) -> Option<IpAddr>)

  // ---- Searching ----

  /** The first occurrence at `from` or later. */
  function FindFrom(s: string, part: string, from: nat): (r: Option<nat>)
    ensures r.Some? ==> from <= r.value && OccursAt(s, part, r.value)
    ensures r.Some? ==> forall j: nat | from <= j < r.value :: !OccursAt(s, part, j)
    ensures r == None ==> forall j: nat | from <= j :: !OccursAt(s, part, j)
    decreases |s| - from
  {
    if from > |s| then None
    else if OccursAt(s, part, from) then Some(from)
    else FindFrom(s, part, from + 1)
  }

  function Find(s: string, part: string): Option<nat> {
    FindFrom(s, part, 0)
  }

  /** The last occurrence of one character. */
  function RFind(s: string, c: char): (r: Option<nat>)
    ensures r.Some? ==> r.value < |s| && s[r.value] == c && forall i | r.value < i < |s| :: s[i] != c
    ensures r == None ==> forall i | 0 <= i < |s| :: s[i] != c
  {
    if s == [] then None
    else if s[|s| - 1] == c then Some(|s| - 1)
    else RFind(s[..|s| - 1], c)
  }

  lemma FindIs(s: string, part: string, at: nat)
    requires OccursAt(s, part, at) && forall j: nat | j < at :: !OccursAt(s, part, j)
    ensures Find(s, part) == Some(at)
  {
  }

  lemma OccursChar(s: string, c: char, at: nat)
    ensures OccursAt(s, [c], at) <==> at < |s| && s[at] == c
  {
    if at < |s| {
      assert s[at..at + 1] == [s[at]];
    }
  }

  lemma OccursMark(s: string, at: nat)
    ensures OccursAt(s, "://", at) <==> at + 3 <= |s| && s[at] == ':' && s[at + 1] == '/' && s[at + 2] == '/'
  {
    if at + 3 <= |s| {
      assert s[at..at + 3] == [s[at], s[at + 1], s[at + 2]];
    }
  }

  /** A separator character is found first where nothing before it contains it, and last where
      nothing after it does. */
  lemma {:induction false} FindsSeparator(before: string, c: char, after: string)
    ensures c !in before ==> Find(before + [c] + after, [c]) == Some(|before|)
    ensures c !in after ==> RFind(before + [c] + after, c) == Some(|before|)
  {
    var s := before + [c] + after;
    assert s[|before|] == c;
    forall j: nat ensures OccursAt(s, [c], j) <==> j < |s| && s[j] == c {
      OccursChar(s, c, j);
    }
    assert forall j | 0 <= j < |before| :: s[j] == before[j];
    assert forall j | |before| < j < |s| :: s[j] == after[j - |before| - 1];
  }

  // ---- Decimal ports ----

  predicate IsDigit(c: char) { '0' <= c <= '9' }

  function DigitValue(c: char): nat
    requires IsDigit(c)
  {
    c as int - '0' as int
  }

  function DecimalValue(digits: string): nat
    requires forall c | c in digits :: IsDigit(c)
  {
    if digits == [] then 0
    else
      assert digits[|digits| - 1] in digits;
      DecimalValue(digits[..|digits| - 1]) * 10 + DigitValue(digits[|digits| - 1])
  }

  function ParseU16(s: string): Option<u16> {
    var digits := if s != [] && s[0] == '+' then s[1..] else s;
    if digits != [] && (forall c | c in digits :: IsDigit(c)) && DecimalValue(digits) < 0x1_0000 then
      Some(DecimalValue(digits))
    else None
  }

  function Decimal(n: nat): (s: string)
    ensures s != [] && forall c | c in s :: IsDigit(c)
  {
    var last := [('0' as int + n % 10) as char];
    if n < 10 then last else Decimal(n / 10) + last
  }

  lemma {:induction false} DecimalReadsBack(n: nat)
    ensures DecimalValue(Decimal(n)) == n
  {
    var s := Decimal(n);
    if n >= 10 {
      DecimalReadsBack(n / 10);
      assert s[..|s| - 1] == Decimal(n / 10);
    } else {
      assert s[..|s| - 1] == [];
    }
  }

  lemma PortReadsBack(port: u16)
    ensures ParseU16(Decimal(port)) == Some(port)
  {
    DecimalReadsBack(port);
    assert Decimal(port)[0] in Decimal(port);
  }

  predicate IsZeros(s: string) {
    forall c | c in s :: c == '0'
  }

  /** Decimal digits are zeros and then the number they denote. */
  lemma {:induction false} DigitsAreDecimal(digits: string) returns (zeros: string)
    requires digits != "" && forall c | c in digits :: IsDigit(c)
    ensures IsZeros(zeros) && digits == zeros + Decimal(DecimalValue(digits))
    decreases |digits|
  {
    var init, last := digits[..|digits| - 1], digits[|digits| - 1];
    assert last in digits && digits == init + [last];
    if init == "" {
      assert digits[..0] == "";
      zeros := "";
    } else {
      zeros := DigitsAreDecimal(init);
      if DecimalValue(init) == 0 {
        assert Decimal(0) == "0";
        zeros := zeros + "0";
      } else {
        var v := DecimalValue(init) * 10 + DigitValue(last);
        assert v / 10 == DecimalValue(init) && v % 10 == DigitValue(last);
      }
    }
  }

  lemma {:induction false} ZerosDoNotCount(zeros: string, digits: string)
    requires IsZeros(zeros) && forall c | c in digits :: IsDigit(c)
    ensures (forall c | c in zeros + digits :: IsDigit(c)) && DecimalValue(zeros + digits) == DecimalValue(digits)
    decreases |digits|, |zeros|
  {
    var all := zeros + digits;
    if digits != "" {
      ZerosDoNotCount(zeros, digits[..|digits| - 1]);
      assert all[..|all| - 1] == zeros + digits[..|digits| - 1];
    } else if zeros != "" {
      var init := zeros[..|zeros| - 1];
      assert forall c | c in init :: c in zeros;
      ZerosDoNotCount(init, "");
      assert all[..|all| - 1] == init + "";
      assert zeros[|zeros| - 1] in zeros;
    }
  }

  /** The number in decimal, with any zeros in front. */
  ghost predicate Denotes(digits: string, n: nat) {
    exists zeros :: IsZeros(zeros) && digits == zeros + Decimal(n)
  }

  lemma DenotesExactly(digits: string, n: nat)
    ensures Denotes(digits, n)
            <==> digits != "" && (forall c | c in digits :: IsDigit(c)) && DecimalValue(digits) == n
  {
    if Denotes(digits, n) {
      var zeros :| IsZeros(zeros) && digits == zeros + Decimal(n);
      ZerosDoNotCount(zeros, Decimal(n));
      DecimalReadsBack(n);
    } else if digits != "" && forall c | c in digits :: IsDigit(c) {
      var zeros := DigitsAreDecimal(digits);
    }
  }

  /** A port is parsed from exactly the decimal texts of it, a plus sign in front or not. */
  lemma PortParsedExactly(s: string, port: u16)
    ensures ParseU16(s) == Some(port) <==> Denotes(s, port) || (s != "" && s[0] == '+' && Denotes(s[1..], port))
  {
    DenotesExactly(s, port);
    if s != "" {
      assert s[0] in s;
      DenotesExactly(s[1..], port);
    }
  }

  // ---- Parsing ----

  /** The characters with the Unicode property White_Space. */
  predicate IsSpace(c: char) {
    || '\U{9}' <= c <= '\U{D}' || c == ' ' || c == '\U{85}' || c == '\U{A0}' || c == '\U{1680}'
    || '\U{2000}' <= c <= '\U{200A}' || c == '\U{2028}' || c == '\U{2029}' || c == '\U{202F}'
    || c == '\U{205F}' || c == '\U{3000}'
  }

  function Trim(s: string): string {
    if s != [] && IsSpace(s[0]) then Trim(s[1..])
    else if s != [] && IsSpace(s[|s| - 1]) then Trim(s[..|s| - 1])
    else s
  }

  /** The text without the space around it: the part between, which has no space at either end. */
  lemma {:induction false} TrimDropsSpace(before: string, s: string, after: string)
    requires forall c | c in before + after :: IsSpace(c)
    requires s != "" ==> !IsSpace(s[0]) && !IsSpace(s[|s| - 1])
    ensures Trim(before + s + after) == s
    decreases |before| + |after|
  {
    var t := before + s + after;
    if before != "" {
      assert before[0] in before + after && t[0] == before[0];
      assert t[1..] == before[1..] + s + after;
      assert forall c | c in before[1..] + after :: c in before + after;
      TrimDropsSpace(before[1..], s, after);
    } else if after != "" {
      var last := after[|after| - 1];
      assert last in before + after && t[|t| - 1] == last;
      assert forall c | c in after[..|after| - 1] :: c in before + after;
      if s == "" {
        assert after[0] in before + after && t == after;
        assert t[1..] == "" + s + after[1..];
        TrimDropsSpace("", "", after[1..]);
      } else {
        assert t[0] == s[0];
        assert t[..|t| - 1] == "" + s + after[..|after| - 1];
        TrimDropsSpace("", s, after[..|after| - 1]);
      }
    } else {
      assert t == s;
    }
  }

  lemma {:induction false} TrimLeaves(s: string) returns (before: string, after: string)
    ensures s == before + Trim(s) + after
    ensures (forall c | c in before :: IsSpace(c)) && (forall c | c in after :: IsSpace(c))
    decreases |s|
  {
    before, after := "", "";
    if s != [] && IsSpace(s[0]) {
      var rest, end := TrimLeaves(s[1..]);
      before, after := [s[0]] + rest, end;
      assert s == [s[0]] + s[1..];
      Around(s[0], rest, Trim(s), end);
    } else if s != [] && IsSpace(s[|s| - 1]) {
      var start, rest := TrimLeaves(s[..|s| - 1]);
      before, after := start, rest + [s[|s| - 1]];
      assert s == s[..|s| - 1] + [s[|s| - 1]];
      Around(s[|s| - 1], start, Trim(s), rest);
    }
  }

  lemma Around(c: char, x: string, y: string, z: string)
    ensures [c] + (x + y + z) == [c] + x + y + z
    ensures x + y + z + [c] == x + y + (z + [c])
  {
  }

  function SplitScheme(endpoint: string): (string, string) {
    match Find(endpoint, "://")
    case Some(pos) => (endpoint[..pos], endpoint[pos + 3..])
    case None => ("", endpoint)
  }

  function SplitAuth(rest: string): (string, string) {
    match RFind(rest, '@')
    case Some(at) => (rest[..at], rest[at + 1..])
    case None => ("", rest)
  }

  function ParseAuth(auth: string): Result<Option<Credentials>, EndpointError> {
    if auth == "" then Ok(None)
    else
      var (username, password) :=
        match Find(auth, ":")
        case Some(i) => (auth[..i], auth[i + 1..])
        case None => (auth, "");
      if username == "" || password == "" then Err(BadCredentials)
      else Ok(Some(Credentials(username, password)))
  }

  function SplitHostPort(input: string): Result<(string, string), EndpointError> {
    if input != "" && input[0] == '[' then
      match Find(input, "]")
      case None => Err(BadIpv6Host)
      case Some(end) =>
        var rest := input[end + 1..];
        if rest == "" || rest[0] != ':' then Err(MissingPortSeparator) else Ok((input[..end + 1], rest[1..]))
    else
      match RFind(input, ':')
      case None => Err(MissingPortSeparator)
      case Some(pos) => Ok((input[..pos], input[pos + 1..]))
  }

  /** A host that is no IP address is resolved. */
  function HostAddress(host: string, port: string, oracles: Oracles): Option<IpAddr> {
    match oracles.parseIp(host)
    case Some(ip) => Some(ip)
    case None => oracles.resolve(host, port)
  }

  /** What the oracles say of a host: it is that IP address, or no IP address and resolves to it. */
  predicate HostMeans(host: string, port: string, oracles: Oracles, ip: IpAddr) {
    if oracles.parseIp(host).Some? then oracles.parseIp(host).value == ip else oracles.resolve(host, port) == Some(ip)
  }

  function Unbracketed(host: string): string
    requires host != ""
  {
    if host[0] == '[' && host[|host| - 1] == ']' then host[1..|host| - 1] else host
  }

  function ParseAddr(hostPart: string, oracles: Oracles): Result<SocketAddr, EndpointError> {
    match SplitHostPort(hostPart)
    case Err(e) => Err(e)
    case Ok((host, port)) =>
      var host := Trim(host);
      if host == "" then Err(MissingHost)
      else
        var host := Unbracketed(host);
        var ip := HostAddress(host, port, oracles);
        if ip == None then Err(Unresolved)
        else
          match ParseU16(port)
          case None => Err(BadPort)
          case Some(p) => if p == 0 then Err(BadPort) else Ok(SocketAddr(ip.value, p))
  }

  function ParseEndpoint(endpoint: string, oracles: Oracles): Result<(SocketAddr, Option<Credentials>), EndpointError> {
    var (scheme, rest) := SplitScheme(endpoint);
    if scheme != "" && scheme != "socks5" && scheme != "socks5h" then Err(UnsupportedScheme(scheme))
    else
      var (authPart, hostPart) := SplitAuth(rest);
      match ParseAuth(authPart)
      case Err(e) => Err(e)
      case Ok(auth) =>
        match ParseAddr(hostPart, oracles)
        case Err(e) => Err(e)
        case Ok(addr) => Ok((addr, auth))
  }

  // ---- Printing, and parsing as its inverse ----

  datatype Host = Bare(text: string) | Bracketed(text: string)
  {
    function Print(): string {
      match this case Bare(text) => text case Bracketed(text) => "[" + text + "]"
    }

    predicate WellFormed() {
      && '@' !in text && '/' !in text
      && (Bare? ==> text != "" && ':' !in text && text[0] != '[' && !IsSpace(text[0]) && !IsSpace(text[|text| - 1]))
      && (Bracketed? ==> ']' !in text)
    }
  }

  predicate CredentialsWellFormed(c: Credentials) {
    c.username != "" && ':' !in c.username && c.password != ""
  }

  function PrintAddr(host: Host, port: u16): string {
    host.Print() + ":" + Decimal(port)
  }

  function PrintAuth(c: Credentials): string {
    c.username + ":" + c.password
  }

  /** `user:password@host:port` */
  function PrintBody(c: Credentials, host: Host, port: u16): string {
    PrintAuth(c) + "@" + PrintAddr(host, port)
  }

  lemma BareSplits(text: string, digits: string)
    requires text != "" && text[0] != '[' && ':' !in digits
    ensures SplitHostPort(text + ":" + digits) == Ok((text, digits))
  {
    var s := text + [':'] + digits;
    FindsSeparator(text, ':', digits);
    assert s[0] == text[0];
    assert s[..|text|] == text && s[|text| + 1..] == digits;
  }

  lemma BracketedSplits(text: string, digits: string)
    requires ']' !in text
    ensures SplitHostPort("[" + text + "]" + ":" + digits) == Ok(("[" + text + "]", digits))
  {
    var front, rest := "[" + text, ":" + digits;
    var s := front + [']'] + rest;
    FindsSeparator(front, ']', rest);
    assert "[" + text + "]" + ":" + digits == s;
    assert s[0] == '[' && s[..|front| + 1] == front + "]";
    assert s[|front| + 1..] == rest && rest[1..] == digits;
  }

  lemma HostTrims(host: Host)
    requires host.WellFormed()
    ensures var h := host.Print();
            && h != "" && Trim(h) == h
            && Unbracketed(h) == host.text
  {
    var h := host.Print();
    if host.Bracketed? {
      assert h[0] == '[' && h[|h| - 1] == ']' && h[1..|h| - 1] == host.text;
    }
  }

  lemma AddrReadsBack(host: Host, port: u16, oracles: Oracles, ip: IpAddr)
    requires host.WellFormed() && port != 0 && HostMeans(host.text, Decimal(port), oracles, ip)
    ensures ParseAddr(PrintAddr(host, port), oracles) == Ok(SocketAddr(ip, port))
  {
    PortReadsBack(port);
    match host {
      case Bare(text) => BareSplits(text, Decimal(port));
      case Bracketed(text) => BracketedSplits(text, Decimal(port));
    }
    HostTrims(host);
  }

  lemma AuthReadsBack(c: Credentials)
    requires CredentialsWellFormed(c)
    ensures ParseAuth(PrintAuth(c)) == Ok(Some(c))
  {
    var s := c.username + [':'] + c.password;
    assert PrintAuth(c) == s;
    FindsSeparator(c.username, ':', c.password);
    assert s[..|c.username|] == c.username && s[|c.username| + 1..] == c.password;
  }

  lemma AuthPartSplits(auth: string, host: Host, port: u16)
    requires host.WellFormed()
    ensures SplitAuth(auth + "@" + PrintAddr(host, port)) == (auth, PrintAddr(host, port))
    ensures SplitAuth(PrintAddr(host, port)) == ("", PrintAddr(host, port))
  {
    var addr := PrintAddr(host, port);
    assert '@' !in addr;
    FindsSeparator(auth, '@', addr);
    var s := auth + ['@'] + addr;
    assert s[..|auth|] == auth && s[|auth| + 1..] == addr;
  }

  lemma SchemeSplits(scheme: string, rest: string)
    requires ':' !in scheme
    ensures SplitScheme(scheme + "://" + rest) == (scheme, rest)
  {
    var s := scheme + "://" + rest;
    forall j: nat ensures OccursAt(s, "://", j) <==> j + 3 <= |s| && s[j] == ':' && s[j + 1] == '/' && s[j + 2] == '/' {
      OccursMark(s, j);
    }
    assert forall j | 0 <= j < |scheme| :: s[j] == scheme[j];
    assert s[|scheme|] == ':' && s[|scheme| + 1] == '/' && s[|scheme| + 2] == '/';
    FindIs(s, "://", |scheme|);
    assert s[..|scheme|] == scheme && s[|scheme| + 3..] == rest;
  }

  /** With a scheme, parsing inverts printing: credentials, host and port come back exactly, also
      when the password holds ':', '@' or "://". */
  lemma ParseInvertsPrint(scheme: string, c: Credentials, host: Host, port: u16, oracles: Oracles, ip: IpAddr)
    requires scheme == "socks5" || scheme == "socks5h"
    requires CredentialsWellFormed(c) && host.WellFormed() && port != 0
    requires HostMeans(host.text, Decimal(port), oracles, ip)
    ensures var addr := SocketAddr(ip, port);
            && ParseEndpoint(scheme + "://" + PrintBody(c, host, port), oracles) == Ok((addr, Some(c)))
            && ParseEndpoint(scheme + "://" + PrintAddr(host, port), oracles) == Ok((addr, None))
  {
    SchemeSplits(scheme, PrintBody(c, host, port));
    SchemeSplits(scheme, PrintAddr(host, port));
    AuthPartSplits(PrintAuth(c), host, port);
    AuthReadsBack(c);
    AddrReadsBack(host, port, oracles, ip);
  }

  /** Without a scheme, a password that forms "://" with the colon before it is taken for the end
      of a scheme. The printed endpoint is parsed back exactly when that does not happen; without
      credentials it always is. */
  lemma SchemelessParseInvertsPrint(c: Credentials, host: Host, port: u16, oracles: Oracles, ip: IpAddr)
    requires CredentialsWellFormed(c) && host.WellFormed() && port != 0
    requires HostMeans(host.text, Decimal(port), oracles, ip)
    ensures ParseEndpoint(PrintBody(c, host, port), oracles) == Ok((SocketAddr(ip, port), Some(c)))
            <==> Find(":" + c.password, "://") == None
    ensures ParseEndpoint(PrintAddr(host, port), oracles) == Ok((SocketAddr(ip, port), None))
  {
    AddrHasNoMark(host, port);
    var s := PrintBody(c, host, port);
    SchemeInsidePassword(c, host, port);
    AuthPartSplits(PrintAuth(c), host, port);
    AddrReadsBack(host, port, oracles, ip);
    if Find(s, "://") == None {
      AuthReadsBack(c);
    } else {
      SchemeTakenFromPassword(c, host, port, oracles);
    }
  }

  lemma AddrHasNoMark(host: Host, port: u16)
    requires host.WellFormed()
    ensures Find(PrintAddr(host, port), "://") == None
  {
    var s := PrintAddr(host, port);
    assert '/' !in s;
    if Find(s, "://").Some? {
      OccursMark(s, Find(s, "://").value);
    }
  }

  /** User "u" and password "//x" without a scheme: "u" is taken for one. */
  lemma PasswordTakenForScheme(oracles: Oracles)
    ensures PrintBody(Credentials("u", "//x"), Bare("h"), 80) == "u://x@h:80"
    ensures ParseEndpoint("u://x@h:80", oracles) == Err(UnsupportedScheme("u"))
  {
    assert Decimal(80) == Decimal(8) + ['0'];
    SchemeSplits("u", "x@h:80");
    assert "u" + "://" + "x@h:80" == "u://x@h:80";
  }

  /** In a printed endpoint without a scheme, "://" can only lie within the colon and password. */
  lemma SchemeInsidePassword(c: Credentials, host: Host, port: u16)
    requires CredentialsWellFormed(c) && host.WellFormed()
    ensures Find(PrintBody(c, host, port), "://") == None <==> Find(":" + c.password, "://") == None
  {
    var s, tail, n := PrintBody(c, host, port), ":" + c.password, |c.username|;
    if Find(s, "://").Some? {
      var pos := Find(s, "://").value;
      MarkIsLate(c, host, port, pos);
      MarkMoves(c, host, port, pos - n);
    }
    if Find(tail, "://").Some? {
      MarkMoves(c, host, port, Find(tail, "://").value);
    }
  }

  lemma MarkMoves(c: Credentials, host: Host, port: u16, j: nat)
    requires CredentialsWellFormed(c) && host.WellFormed()
    ensures OccursAt(":" + c.password, "://", j) <==> OccursAt(PrintBody(c, host, port), "://", |c.username| + j)
  {
    var s, tail, n := PrintBody(c, host, port), ":" + c.password, |c.username|;
    OccursMark(tail, j);
    OccursMark(s, n + j);
    ColonsAndSlashes(c, host, port);
  }

  lemma MarkIsLate(c: Credentials, host: Host, port: u16, j: nat)
    requires CredentialsWellFormed(c) && host.WellFormed()
    requires OccursAt(PrintBody(c, host, port), "://", j)
    ensures j >= |c.username| && |c.password| >= 2
    ensures OccursAt(PrintBody(c, host, port), "://", |c.username| + (j - |c.username|))
  {
    OccursMark(PrintBody(c, host, port), j);
    ColonsAndSlashes(c, host, port);
  }

  lemma ThreeParts(a: string, b: string, c: string)
    ensures var s := a + b + c;
            && (forall i | 0 <= i < |a| :: s[i] == a[i])
            && (forall i | 0 <= i < |b| :: s[|a| + i] == b[i])
            && (forall i | |a| + |b| <= i < |s| :: s[i] == c[i - |a| - |b|])
  {
  }

  /** Before the colon there is no colon, and after the password no slash. */
  lemma ColonsAndSlashes(c: Credentials, host: Host, port: u16)
    requires CredentialsWellFormed(c) && host.WellFormed()
    ensures var s, n := PrintBody(c, host, port), |c.username|;
            && |s| > n + |c.password| && s[n] == ':'
            && (forall i | 0 <= i < n :: s[i] != ':')
            && (forall i | 0 <= i < |c.password| + 1 :: s[n + i] == (":" + c.password)[i])
            && (forall i | n + 1 + |c.password| <= i < |s| :: s[i] != '/')
  {
    var s, n := PrintBody(c, host, port), |c.username|;
    var mid, addr := ":" + c.password, "@" + PrintAddr(host, port);
    assert '/' !in addr;
    assert s == c.username + mid + addr;
    ThreeParts(c.username, mid, addr);
    assert s[n + 0] == mid[0];
  }

  lemma AcceptedParts(endpoint: string, oracles: Oracles)
    requires ParseEndpoint(endpoint, oracles).Ok?
    ensures var (scheme, rest) := SplitScheme(endpoint);
            var (addr, credentials) := ParseEndpoint(endpoint, oracles).value;
            && (scheme == "" || scheme == "socks5" || scheme == "socks5h")
            && ParseAuth(SplitAuth(rest).0) == Ok(credentials) && ParseAddr(SplitAuth(rest).1, oracles) == Ok(addr)
  {
  }

  lemma MarkWithoutColonBefore(c: Credentials, host: Host, port: u16)
    requires CredentialsWellFormed(c) && host.WellFormed()
    requires Find(PrintBody(c, host, port), "://").Some?
    requires ':' !in SplitScheme(PrintBody(c, host, port)).0
    ensures Find(PrintBody(c, host, port), "://") == Some(|c.username|) && |c.password| >= 2
  {
    var s := PrintBody(c, host, port);
    var pos := Find(s, "://").value;
    ColonsAndSlashes(c, host, port);
    MarkIsLate(c, host, port, pos);
    assert forall i | 0 <= i < pos :: s[i] == s[..pos][i] && s[i] != ':';
  }

  lemma AuthFromPassword(c: Credentials, host: Host, port: u16)
    requires host.WellFormed() && |c.password| >= 2
    requires Find(PrintBody(c, host, port), "://") == Some(|c.username|)
    ensures ParseAuth(SplitAuth(SplitScheme(PrintBody(c, host, port)).1).0) != Ok(Some(c))
  {
    PasswordAfterMark(c, host, port);
    AuthPartSplits(c.password[2..], host, port);
    ShorterAuth(c.password[2..], c);
  }

  lemma SchemeTakenFromPassword(c: Credentials, host: Host, port: u16, oracles: Oracles)
    requires CredentialsWellFormed(c) && host.WellFormed()
    requires Find(PrintBody(c, host, port), "://").Some?
    ensures var r := ParseEndpoint(PrintBody(c, host, port), oracles); r.Err? || r.value.1 != Some(c)
  {
    if ParseEndpoint(PrintBody(c, host, port), oracles).Ok? {
      AcceptedParts(PrintBody(c, host, port), oracles);
      MarkWithoutColonBefore(c, host, port);
      AuthFromPassword(c, host, port);
    }
  }

  lemma PasswordAfterMark(c: Credentials, host: Host, port: u16)
    requires |c.password| >= 2
    ensures var s := PrintBody(c, host, port);
            |s| >= |c.username| + 3 && s[|c.username| + 3..] == c.password[2..] + "@" + PrintAddr(host, port)
  {
    var front, tail := c.username + ":" + c.password[..2], c.password[2..] + "@" + PrintAddr(host, port);
    assert c.password == c.password[..2] + c.password[2..];
    assert PrintBody(c, host, port) == front + tail;
    assert (front + tail)[|front|..] == tail;
  }

  lemma ShorterAuth(auth: string, c: Credentials)
    requires |auth| < |c.password|
    ensures ParseAuth(auth) != Ok(Some(c))
  {
  }

  // ---- What is accepted ----

  lemma SchemePart(endpoint: string) returns (front: string)
    ensures var (scheme, rest) := SplitScheme(endpoint);
            && endpoint == front + rest
            && (scheme == "" || scheme == "socks5" || scheme == "socks5h" ==> IsSchemePart(front))
  {
    match Find(endpoint, "://")
    case None => front := "";
    case Some(pos) =>
      front := endpoint[..pos] + "://";
      assert endpoint == endpoint[..pos] + endpoint[pos..pos + 3] + endpoint[pos + 3..];
      assert "" + "://" == "://" && "socks5" + "://" == "socks5://" && "socks5h" + "://" == "socks5h://";
  }

  /** What may stand in front of the rest of an endpoint. */
  predicate IsSchemePart(front: string) {
    front == "" || front == "://" || front == "socks5://" || front == "socks5h://"
  }

  /** What may stand for those credentials in an endpoint. */
  predicate IsAuthPart(front: string, credentials: Option<Credentials>) {
    match credentials
    case None => front == "" || front == "@"
    case Some(c) => front == PrintAuth(c) + "@" && CredentialsWellFormed(c)
  }

  lemma AuthPart(rest: string) returns (front: string)
    requires ParseAuth(SplitAuth(rest).0).Ok?
    ensures rest == front + SplitAuth(rest).1 && IsAuthPart(front, ParseAuth(SplitAuth(rest).0).value)
  {
    CredentialsPart(SplitAuth(rest).0);
    match RFind(rest, '@')
    case None => front := "";
    case Some(at) =>
      front := rest[..at] + "@";
      assert rest == rest[..at] + [rest[at]] + rest[at + 1..];
      assert "" + "@" == "@";
  }

  lemma CredentialsPart(auth: string)
    requires ParseAuth(auth).Ok?
    ensures match ParseAuth(auth).value
            case None => auth == ""
            case Some(c) => auth == PrintAuth(c) && CredentialsWellFormed(c)
  {
    if auth != "" {
      var at := Find(auth, ":");
      if at.Some? {
        OccursChar(auth, ':', at.value);
        assert auth == auth[..at.value] + [auth[at.value]] + auth[at.value + 1..];
        forall i | 0 <= i < at.value ensures auth[i] != ':' {
          OccursChar(auth, ':', i);
        }
        assert forall i | 0 <= i < at.value :: auth[..at.value][i] == auth[i];
      }
    }
  }

  lemma HostPart(input: string)
    requires SplitHostPort(input).Ok?
    ensures var (host, digits) := SplitHostPort(input).value; input == host + ":" + digits
  {
    if input != "" && input[0] == '[' {
      var end := Find(input, "]").value;
      var rest := input[end + 1..];
      assert input == input[..end + 1] + rest && rest == ":" + rest[1..];
    } else {
      var pos := RFind(input, ':').value;
      assert input == input[..pos] + [input[pos]] + input[pos + 1..];
    }
  }

  lemma AddrPart(hostPart: string, oracles: Oracles)
    returns (before: string, host: string, after: string, digits: string)
    requires ParseAddr(hostPart, oracles).Ok?
    ensures var addr := ParseAddr(hostPart, oracles).value;
            && hostPart == before + host + after + ":" + digits
            && (forall c | c in before || c in after :: IsSpace(c))
            && host != "" && HostMeans(Unbracketed(host), digits, oracles, addr.ip)
            && ParseU16(digits) == Some(addr.port) && addr.port != 0
  {
    HostPart(hostPart);
    var (padded, port) := SplitHostPort(hostPart).value;
    before, after := TrimLeaves(padded);
    host, digits := Trim(padded), port;
  }

  /** Whatever is accepted is an endpoint: at most one of the two schemes, credentials both parts of
      which are there or none, a host whose address is the one meant, and a port from 1 to 65535.
      Apart from space around the host nothing else may stand in it. */
  lemma AcceptedIsAnEndpoint(endpoint: string, oracles: Oracles)
    returns (scheme: string, auth: string, before: string, host: string, after: string, digits: string)
    requires ParseEndpoint(endpoint, oracles).Ok?
    ensures var (addr, credentials) := ParseEndpoint(endpoint, oracles).value;
            && endpoint == scheme + auth + (before + host + after) + ":" + digits
            && IsSchemePart(scheme) && IsAuthPart(auth, credentials)
            && (forall c | c in before || c in after :: IsSpace(c))
            && host != "" && HostMeans(Unbracketed(host), digits, oracles, addr.ip)
            && ParseU16(digits) == Some(addr.port) && addr.port != 0
  {
    AcceptedParts(endpoint, oracles);
    scheme := SchemePart(endpoint);
    var rest := SplitScheme(endpoint).1;
    auth := AuthPart(rest);
    before, host, after, digits := AddrPart(SplitAuth(rest).1, oracles);
    Assembled(scheme, auth, before + host + after, digits);
  }

  lemma Assembled(a: string, b: string, c: string, d: string)
    ensures a + (b + (c + ":" + d)) == a + b + c + ":" + d
  {
  }
}
