/** `crates/hekma-adapter-api/src/manifest.rs`: which probe URLs a manifest may declare. */
module Urls {
  import opened Common
  import opened Decimals

  datatype UrlError =
    | Missing | Empty | ControlCharacter | NotHttp | Fragment | NoHost
    | Userinfo | TrailingAfterBracket | UnclosedBracket | BareIpv6 | NotLiteral | NotLoopback | BadPort

  datatype Checked = Fine | Refused(error: UrlError)

  /** `host.parse::<IpAddr>()`: whether a literal is a loopback address; `None` when it is no literal. */
  type IpParser = string -> Option<bool>

  const HTTP := "http://"

  // ---------- Text ----------

  predicate IsControl(c: char) { c as int <= 0x1f || 0x7f <= c as int <= 0x9f }

  predicate HasControl(s: string) { exists i :: 0 <= i < |s| && IsControl(s[i]) }

  /** `str::parse::<u16>`, which also takes a leading plus sign. */
  function ParseU16(s: string): Option<nat> {
    var digits := if s != "" && s[0] == '+' then s[1..] else s;
    if digits != "" && AllDigits(digits) && Value(digits) < 0x10000 then Some(Value(digits)) else None
  }

  predicate ValidPort(p: string) { ParseU16(p).Some? && ParseU16(p).value > 0 }

  // ---------- The authority ----------

  /** The position of the last colon, or the length. */
  function LastColon(s: string): (i: nat)
    ensures i <= |s| && (i < |s| <==> ':' in s) && (i < |s| ==> s[i] == ':')
    ensures forall j :: i < j < |s| ==> s[j] != ':'
  {
    if s == "" then 0
    else
      var n := |s| - 1;
      assert s == s[..n] + [s[n]];
      if s[n] == ':' then n
      else if ':' in s[..n] then LastColon(s[..n]) else |s|
  }

  datatype HostPort = HostPort(host: string, port: Option<string>) | Malformed(error: UrlError)

  /** A bracketed authority parts at the first closing bracket, any other at its only colon. */
  function HostPortOf(authority: string): HostPort {
    if authority != "" && authority[0] == '[' then BracketedParts(authority[1..]) else BareParts(authority)
  }

  function BracketedParts(rest: string): HostPort {
    var i := IndexOf(rest, ']');
    if i == |rest| then Malformed(UnclosedBracket)
    else
      var tail := rest[i + 1..];
      if tail == "" then HostPort(rest[..i], None)
      else if tail[0] == ':' then HostPort(rest[..i], Some(tail[1..]))
      else Malformed(TrailingAfterBracket)
  }

  function BareParts(authority: string): HostPort {
    var i := LastColon(authority);
    if i == |authority| then HostPort(authority, None)
    else if ':' in authority[..i] then Malformed(BareIpv6)
    else HostPort(authority[..i], Some(authority[i + 1..]))
  }

  /** `require_loopback_authority`. */
  function RequireLoopbackAuthority(authority: string, ip: IpParser): Checked {
    if '@' in authority then Refused(Userinfo)
    else
      match HostPortOf(authority)
      case Malformed(e) => Refused(e)
      case HostPort(host, port) =>
        match ip(host)
        case None => Refused(NotLiteral)
        case Some(false) => Refused(NotLoopback)
        case Some(true) => if port.Some? && !ValidPort(port.value) then Refused(BadPort) else Fine
  }

  // ---------- The URL ----------

  /** Where the authority ends: at the first slash or question mark. */
  function AuthorityEnd(s: string): (i: nat)
    ensures i <= |s| && (i < |s| ==> s[i] == '/' || s[i] == '?')
    ensures forall j :: 0 <= j < i ==> s[j] != '/' && s[j] != '?'
  {
    if s == "" || s[0] == '/' || s[0] == '?' then 0 else 1 + AuthorityEnd(s[1..])
  }

  /** The URL rules both sections apply, in order. */
  function CheckUrl(url: string, ip: IpParser): Checked {
    if Blank(url) then Refused(Empty)
    else if HasControl(url) then Refused(ControlCharacter)
    else if !(HTTP <= url) then Refused(NotHttp)
    else if '#' in url then Refused(Fragment)
    else
      var rest := url[|HTTP|..];
      var authority := rest[..AuthorityEnd(rest)];
      if authority == "" then Refused(NoHost) else RequireLoopbackAuthority(authority, ip)
  }

  // ---------- What an acceptable URL is ----------

  /** An authority, put together: the host bare or in brackets, and a port or none. */
  datatype Authority = Authority(bracketed: bool, host: string, port: Option<string>)

  function PortText(port: Option<string>): string { if port.Some? then ":" + port.value else "" }

  function Text(a: Authority): string {
    (if a.bracketed then "[" + a.host + "]" else a.host) + PortText(a.port)
  }

  /** Literals are written with hexadecimal digits, dots and colons. */
  predicate LiteralChar(c: char) { '0' <= c <= '9' || 'a' <= c <= 'f' || 'A' <= c <= 'F' || c == '.' || c == ':' }

  ghost predicate ReadsLiterals(ip: IpParser) {
    forall h :: ip(h).Some? ==> h != "" && forall i :: 0 <= i < |h| ==> LiteralChar(h[i])
  }

  /** A loopback literal, in brackets if it has colons, and a port in 1..=65535 if any. */
  predicate WellFormed(a: Authority, ip: IpParser) {
    && ip(a.host) == Some(true)
    && (!a.bracketed ==> ':' !in a.host)
    && (a.port.Some? ==> ValidPort(a.port.value))
  }

  predicate IsTail(s: string) { s == "" || s[0] == '/' || s[0] == '?' }

  /** The URL is `a` after the scheme, then a path or query or nothing. */
  ghost predicate Means(url: string, a: Authority, tail: string) {
    url == "http://" + Text(a) + tail && IsTail(tail)
  }

  // ---------- Ports ----------

  /** The decimal text of each port in range is a port, and so it is after a plus sign, which the
      grammar of RFC 3986, section 3.2.3, does not allow. */
  lemma DecimalPorts(n: nat)
    ensures ValidPort(Decimal(n)) <==> 1 <= n <= 65535
    ensures ValidPort("+" + Decimal(n)) <==> 1 <= n <= 65535
  {
    DecimalValue(n);
    var d := Decimal(n);
    assert IsDigit(d[0]) && ("+" + d)[1..] == d;
  }

  /** And these are all: a port is a plus sign or nothing, then zeros, then the decimal text of a number
      in range. */
  lemma PortExactly(p: string)
    ensures ValidPort(p) <==> exists sign, k: nat, n: nat ::
        p == sign + Zeros(k) + Decimal(n) && (sign == "" || sign == "+") && 1 <= n <= 65535
  {
    hide ValidPort, Decimal;
    if ValidPort(p) {
      var sign, k, n := PortParts(p);
    }
    if exists sign, k: nat, n: nat ::
        p == sign + Zeros(k) + Decimal(n) && (sign == "" || sign == "+") && 1 <= n <= 65535 {
      var sign, k: nat, n: nat :|
        p == sign + Zeros(k) + Decimal(n) && (sign == "" || sign == "+") && 1 <= n <= 65535;
      PortJoined(sign, k, n);
    }
  }

  lemma PortParts(p: string) returns (sign: string, k: nat, n: nat)
    requires ValidPort(p)
    ensures p == sign + Zeros(k) + Decimal(n) && (sign == "" || sign == "+") && 1 <= n <= 65535
  {
    hide Decimal;
    sign := if p[0] == '+' then "+" else "";
    var digits := p[|sign|..];
    n := Value(digits);
    k := StripZeros(digits);
    assert p == sign + digits;
    assert sign + (Zeros(k) + Decimal(n)) == sign + Zeros(k) + Decimal(n);
  }

  lemma PortJoined(sign: string, k: nat, n: nat)
    requires (sign == "" || sign == "+") && 1 <= n <= 65535
    ensures ValidPort(sign + Zeros(k) + Decimal(n))
  {
    hide ValidPort, Decimal, Zeros;
    var digits := Zeros(k) + Decimal(n);
    DecimalValue(n);
    LeadingZeros(k, Decimal(n));
    assert digits != "";
    PortOfDigits(sign, digits);
    assert sign + digits == sign + Zeros(k) + Decimal(n);
  }

  lemma PortOfDigits(sign: string, digits: string)
    requires (sign == "" || sign == "+") && digits != "" && AllDigits(digits) && 1 <= Value(digits) <= 65535
    ensures ValidPort(sign + digits)
  {
    hide Value;
    var p := sign + digits;
    assert IsDigit(digits[0]) && p[|sign|..] == digits;
  }

  lemma PortChars(p: string)
    requires ValidPort(p)
    ensures forall c :: c in p ==> IsDigit(c) || c == '+'
  {
    if p[0] == '+' {
      assert p == [p[0]] + p[1..];
    }
  }

  // ---------- Exactness ----------

  lemma BracketedJoin(rest: string)
    requires BracketedParts(rest).HostPort?
    ensures var hp := BracketedParts(rest); rest == hp.host + "]" + PortText(hp.port)
  {
    hide IndexOf;
    var i := IndexOf(rest, ']');
    var tail := rest[i + 1..];
    assert rest == rest[..i] + "]" + tail;
    assert tail != "" ==> tail == [tail[0]] + tail[1..];
  }

  lemma BareJoin(authority: string)
    requires BareParts(authority).HostPort?
    ensures var hp := BareParts(authority); authority == hp.host + PortText(hp.port) && ':' !in hp.host
  {
    hide LastColon;
    var i := LastColon(authority);
    assert i < |authority| ==> authority == authority[..i] + (":" + authority[i + 1..]);
    assert authority + "" == authority;
  }

  lemma PartsJoin(authority: string)
    requires HostPortOf(authority).HostPort?
    ensures
      var hp := HostPortOf(authority);
      var bracketed := authority != "" && authority[0] == '[';
      && Text(Authority(bracketed, hp.host, hp.port)) == authority
      && (!bracketed ==> ':' !in hp.host)
  {
    hide BracketedParts, BareParts;
    var hp := HostPortOf(authority);
    if authority != "" && authority[0] == '[' {
      var rest := authority[1..];
      BracketedJoin(rest);
      assert authority == "[" + rest;
      assert "[" + (hp.host + "]" + PortText(hp.port)) == "[" + hp.host + "]" + PortText(hp.port);
    } else {
      BareJoin(authority);
    }
  }

  lemma AcceptedIsWellFormed(authority: string, ip: IpParser) returns (a: Authority)
    requires RequireLoopbackAuthority(authority, ip) == Fine
    ensures Text(a) == authority && WellFormed(a, ip)
  {
    hide ValidPort, HostPortOf, Text;
    var hp := HostPortOf(authority);
    PartsJoin(authority);
    a := Authority(authority != "" && authority[0] == '[', hp.host, hp.port);
  }

  lemma HostChars(a: Authority, ip: IpParser)
    requires ReadsLiterals(ip) && WellFormed(a, ip)
    ensures a.host != "" && forall c :: c in a.host ==> LiteralChar(c)
  {
    hide ValidPort;
    assert ip(a.host).Some?;
  }

  lemma TextChars(a: Authority, ip: IpParser)
    requires ReadsLiterals(ip) && WellFormed(a, ip)
    ensures Text(a) != ""
    ensures forall c :: c in Text(a) ==> LiteralChar(c) || c == '+' || c == '[' || c == ']'
  {
    hide ValidPort;
    HostChars(a, ip);
    if a.port.Some? {
      PortChars(a.port.value);
    }
  }

  lemma BracketedBack(host: string, port: Option<string>)
    requires ']' !in host
    ensures BracketedParts(host + "]" + PortText(port)) == HostPort(host, port)
  {
    hide IndexOf;
    var tail := PortText(port);
    var rest := host + ("]" + tail);
    assert rest == host + "]" + tail;
    FirstAt(host, ']', tail);
    assert rest[..|host|] == host && rest[|host| + 1..] == tail;
  }

  lemma BareBack(host: string, port: Option<string>)
    requires ':' !in host && (port.Some? ==> ':' !in port.value)
    ensures BareParts(host + PortText(port)) == HostPort(host, port)
  {
    hide LastColon;
    if port.Some? {
      var t := host + (":" + port.value);
      LastAt(host, port.value);
      assert t[..|host|] == host && t[|host| + 1..] == port.value;
    } else {
      assert host + "" == host;
    }
  }

  /** Reading an authority apart gives back what it was put together from. */
  lemma HostPortBack(a: Authority, ip: IpParser)
    requires ReadsLiterals(ip) && WellFormed(a, ip)
    ensures Text(a) != "" && HostPortOf(Text(a)) == HostPort(a.host, a.port)
    ensures a.bracketed == (Text(a)[0] == '[')
  {
    hide ValidPort, ReadsLiterals, BracketedParts, BareParts, PortText;
    HostChars(a, ip);
    var t := Text(a);
    if a.bracketed {
      BracketedBack(a.host, a.port);
      assert t[1..] == a.host + "]" + PortText(a.port);
    } else {
      assert t[0] == a.host[0] && a.host[0] in a.host;
      if a.port.Some? {
        PortChars(a.port.value);
      }
      BareBack(a.host, a.port);
    }
  }

  lemma FirstAt(before: string, c: char, tail: string)
    requires c !in before
    ensures IndexOf(before + ([c] + tail), c) == |before|
  {
    var s := before + ([c] + tail);
    assert s[|before|] == c && forall j :: 0 <= j < |before| ==> s[j] == before[j];
  }

  lemma LastAt(before: string, tail: string)
    requires ':' !in tail
    ensures LastColon(before + (":" + tail)) == |before|
  {
    hide LastColon;
    var s := before + (":" + tail);
    assert s[|before|] == ':' && forall j :: |before| < j < |s| ==> s[j] == tail[j - |before| - 1];
  }

  /** Every well-formed authority is accepted. */
  lemma WellFormedIsAccepted(a: Authority, ip: IpParser)
    requires ReadsLiterals(ip) && WellFormed(a, ip)
    ensures RequireLoopbackAuthority(Text(a), ip) == Fine
  {
    hide ValidPort, HostPortOf, ReadsLiterals, Text;
    HostPortBack(a, ip);
    TextChars(a, ip);
  }

  lemma AuthorityOf(a: Authority, tail: string, ip: IpParser)
    requires ReadsLiterals(ip) && WellFormed(a, ip) && IsTail(tail)
    ensures
      var rest := Text(a) + tail;
      AuthorityEnd(rest) == |Text(a)| && rest[..AuthorityEnd(rest)] == Text(a)
  {
    hide WellFormed, ReadsLiterals, Text;
    TextChars(a, ip);
    var t := Text(a);
    var rest := t + tail;
    assert forall j :: 0 <= j < |t| ==> rest[j] == t[j] && t[j] in t;
    assert tail != "" ==> rest[|t|] == tail[0];
  }

  /** A URL is accepted exactly when it is `http://`, a well-formed loopback authority, and a path
      or query or nothing, with no fragment and no control character. */
  lemma AcceptedExactly(url: string, ip: IpParser)
    requires ReadsLiterals(ip)
    ensures CheckUrl(url, ip) == Fine
       <==> && '#' !in url && (forall c :: c in url ==> !(c as int < 0x20 || 0x7f <= c as int < 0xa0))
            && exists a, tail :: Means(url, a, tail) && WellFormed(a, ip)
  {
    ControlFree(url);
    hide WellFormed, ReadsLiterals, CheckUrl, HasControl, Means;
    if CheckUrl(url, ip) == Fine {
      var a, tail := AcceptedMeans(url, ip);
    }
    if '#' !in url && !HasControl(url) && exists a, tail :: Means(url, a, tail) && WellFormed(a, ip) {
      var a, tail :| Means(url, a, tail) && WellFormed(a, ip);
      MeaningAccepted(url, a, tail, ip);
    }
  }

  lemma AcceptedMeans(url: string, ip: IpParser) returns (a: Authority, tail: string)
    requires CheckUrl(url, ip) == Fine
    ensures '#' !in url && !HasControl(url) && Means(url, a, tail) && WellFormed(a, ip)
  {
    hide WellFormed, Text, RequireLoopbackAuthority, HasControl;
    var rest := url[|HTTP|..];
    var end := AuthorityEnd(rest);
    a := AcceptedIsWellFormed(rest[..end], ip);
    tail := rest[end..];
    assert url == HTTP + rest && rest == rest[..end] + tail;
    assert url == HTTP + Text(a) + tail;
  }

  lemma MeaningAccepted(url: string, a: Authority, tail: string, ip: IpParser)
    requires ReadsLiterals(ip) && '#' !in url && !HasControl(url) && Means(url, a, tail) && WellFormed(a, ip)
    ensures CheckUrl(url, ip) == Fine
  {
    hide WellFormed, ReadsLiterals, Text, RequireLoopbackAuthority, HasControl;
    assert url[|HTTP|..] == Text(a) + tail;
    AuthorityOf(a, tail, ip);
    WellFormedIsAccepted(a, ip);
    TextChars(a, ip);
    assert !IsWhite(url[0]);
  }

  lemma ControlFree(url: string)
    ensures HasControl(url) <==> exists c :: c in url && (c as int < 0x20 || 0x7f <= c as int < 0xa0)
  {
    if HasControl(url) {
      var i :| 0 <= i < |url| && IsControl(url[i]);
      assert url[i] in url;
    }
  }

  /** What an accepted URL means is unique. */
  lemma MeaningIsUnique(url: string, a: Authority, tail: string, b: Authority, other: string, ip: IpParser)
    requires ReadsLiterals(ip) && WellFormed(a, ip) && WellFormed(b, ip)
    requires Means(url, a, tail) && Means(url, b, other)
    ensures a == b && tail == other
  {
    hide WellFormed, ReadsLiterals, Text, HostPortOf;
    assert url[|HTTP|..] == Text(a) + tail && url[|HTTP|..] == Text(b) + other;
    AuthorityOf(a, tail, ip);
    AuthorityOf(b, other, ip);
    assert (Text(a) + tail)[|Text(a)|..] == tail && (Text(b) + other)[|Text(b)|..] == other;
    HostPortBack(a, ip);
    HostPortBack(b, ip);
  }
}
