/** `crates/hekma-adapter-api/src/manifest.rs`: the `[readiness]` and `[liveness]` sections and what
    they resolve to. */
module Sections {
  import opened Common
  import opened Urls

  /** Where a section goes wrong first. `Foreign` is a field of another kind. */
  datatype Fault =
    | Timeout | Url(error: UrlError) | Status | FilePath(error: UrlError) | MaxAge | Line(error: UrlError)
    | Foreign | BothChecks | NoCheck

  datatype Resolution<+T> = Resolved(value: T) | Rejected(fault: Fault)

  // ---------- [readiness] ----------

  datatype Kind = HttpGetKind | FileFreshKind | LogContainsKind

  datatype Readiness = Readiness(
    kind: Kind, timeoutMs: nat,
    url: Option<string>, expectedStatus: Option<nat>,
    path: Option<string>, maxAgeMs: Option<nat>,
    line: Option<string>)

  datatype Probe =
    | HttpGet(url: string, expectedStatus: nat)
    | FileFresh(path: string, maxAgeMs: nat)
    | LogContains(line: string)

  datatype ReadinessGate = ReadinessGate(timeoutMs: nat, probe: Probe)

  /** `required_str` and the control-character sweep. */
  function CheckText(s: Option<string>): Checked {
    match s
    case None => Refused(Missing)
    case Some(t) => if Blank(t) then Refused(Empty) else if HasControl(t) then Refused(ControlCharacter) else Fine
  }

  predicate IsStatus(n: nat) { 100 <= n <= 599 }

  function ProbeOf(r: Readiness, ip: IpParser): Resolution<Probe> {
    match r.kind
    case HttpGetKind =>
      var checked := if r.url.None? then Refused(Missing) else CheckUrl(r.url.value, ip);
      if checked.Refused? then Rejected(Url(checked.error))
      else if r.expectedStatus.None? || !IsStatus(r.expectedStatus.value) then Rejected(Status)
      else Resolved(HttpGet(r.url.value, r.expectedStatus.value))
    case FileFreshKind =>
      var checked := CheckText(r.path);
      if checked.Refused? then Rejected(FilePath(checked.error))
      else if r.maxAgeMs.None? || r.maxAgeMs.value == 0 || r.maxAgeMs.value > r.timeoutMs then Rejected(MaxAge)
      else Resolved(FileFresh(r.path.value, r.maxAgeMs.value))
    case LogContainsKind =>
      var checked := CheckText(r.line);
      if checked.Refused? then Rejected(Line(checked.error)) else Resolved(LogContains(r.line.value))
  }

  predicate HasForeign(r: Readiness) {
    match r.kind
    case HttpGetKind => r.path.Some? || r.maxAgeMs.Some? || r.line.Some?
    case FileFreshKind => r.url.Some? || r.expectedStatus.Some? || r.line.Some?
    case LogContainsKind => r.url.Some? || r.expectedStatus.Some? || r.path.Some? || r.maxAgeMs.Some?
  }

  /** `Readiness::gate`. */
  function Gate(r: Readiness, ip: IpParser): Resolution<ReadinessGate> {
    if r.timeoutMs == 0 || r.timeoutMs > 600_000 then Rejected(Timeout)
    else
      match ProbeOf(r, ip)
      case Rejected(fault) => Rejected(fault)
      case Resolved(probe) => if HasForeign(r) then Rejected(Foreign) else Resolved(ReadinessGate(r.timeoutMs, probe))
  }

  predicate CleanText(s: string) { !Blank(s) && !HasControl(s) }

  /** The values a resolved gate may hold. */
  predicate ValidGate(g: ReadinessGate, ip: IpParser) {
    && 1 <= g.timeoutMs <= 600_000
    && match g.probe
       case HttpGet(url, status) => CheckUrl(url, ip) == Fine && 100 <= status <= 599
       case FileFresh(path, age) => CleanText(path) && 1 <= age <= g.timeoutMs
       case LogContains(line) => CleanText(line)
  }

  /** The section that declares a gate, with no field its kind does not own. */
  function GateSection(g: ReadinessGate): Readiness {
    match g.probe
    case HttpGet(url, status) => Readiness(HttpGetKind, g.timeoutMs, Some(url), Some(status), None, None, None)
    case FileFresh(path, age) => Readiness(FileFreshKind, g.timeoutMs, None, None, Some(path), Some(age), None)
    case LogContains(line) => Readiness(LogContainsKind, g.timeoutMs, None, None, None, None, Some(line))
  }

  /** Resolving is a bijection: a section resolves to a gate exactly when the gate is valid and the
      section is the one that declares it. */
  lemma GateIsBijective(r: Readiness, g: ReadinessGate, ip: IpParser)
    ensures Gate(r, ip) == Resolved(g) <==> ValidGate(g, ip) && r == GateSection(g)
  {
    hide CheckUrl, Blank, HasControl;
    if Gate(r, ip) == Resolved(g) {
      assert !HasForeign(r) && ProbeOf(r, ip) == Resolved(g.probe);
    }
    if ValidGate(g, ip) && r == GateSection(g) {
      assert ProbeOf(r, ip) == Resolved(g.probe) && !HasForeign(r);
    }
  }

  // ---------- [liveness] ----------

  datatype Heartbeat = Heartbeat(path: string, maxAgeMs: nat)

  datatype HttpCheck = HttpCheck(url: string, expectedStatus: nat, maxAgeMs: nat)

  datatype Liveness = Liveness(heartbeatFile: Option<Heartbeat>, httpGet: Option<HttpCheck>)

  datatype LivenessCheck = HeartbeatFile(file: Heartbeat) | HttpLiveness(http: HttpCheck)

  predicate WindowOk(maxAgeMs: nat) { 250 <= maxAgeMs <= 600_000 }

  /** `Liveness::check`. */
  function Check(l: Liveness, ip: IpParser): Resolution<LivenessCheck> {
    match (l.heartbeatFile, l.httpGet)
    case (Some(_), Some(_)) => Rejected(BothChecks)
    case (None, None) => Rejected(NoCheck)
    case (Some(file), None) =>
      var checked := CheckText(Some(file.path));
      if checked.Refused? then Rejected(FilePath(checked.error))
      else if !WindowOk(file.maxAgeMs) then Rejected(MaxAge)
      else Resolved(HeartbeatFile(file))
    case (None, Some(http)) =>
      var checked := CheckUrl(http.url, ip);
      if checked.Refused? then Rejected(Url(checked.error))
      else if !IsStatus(http.expectedStatus) then Rejected(Status)
      else if !WindowOk(http.maxAgeMs) then Rejected(MaxAge)
      else Resolved(HttpLiveness(http))
  }

  predicate ValidCheck(c: LivenessCheck, ip: IpParser) {
    match c
    case HeartbeatFile(f) => CleanText(f.path) && 250 <= f.maxAgeMs <= 600_000
    case HttpLiveness(h) =>
      CheckUrl(h.url, ip) == Fine && 100 <= h.expectedStatus <= 599 && 250 <= h.maxAgeMs <= 600_000
  }

  function CheckSection(c: LivenessCheck): Liveness {
    match c
    case HeartbeatFile(f) => Liveness(Some(f), None)
    case HttpLiveness(h) => Liveness(None, Some(h))
  }

  lemma CheckIsBijective(l: Liveness, c: LivenessCheck, ip: IpParser)
    ensures Check(l, ip) == Resolved(c) <==> ValidCheck(c, ip) && l == CheckSection(c)
  {
    hide CheckUrl, Blank, HasControl;
    match (l.heartbeatFile, l.httpGet) {
      case (Some(file), None) => assert Check(l, ip).Resolved? <==> ValidCheck(HeartbeatFile(file), ip);
      case (None, Some(http)) => assert Check(l, ip).Resolved? <==> ValidCheck(HttpLiveness(http), ip);
      case _ =>
    }
  }

  /** The two sections admit the same URLs: those in the grammar, whatever else they declare. */
  lemma SameUrls(url: string, status: nat, timeoutMs: nat, windowMs: nat, ip: IpParser)
    requires ReadsLiterals(ip) && 100 <= status <= 599 && 1 <= timeoutMs <= 600_000 && 250 <= windowMs <= 600_000
    ensures
      var admitted := '#' !in url && !HasControl(url) && exists a, tail :: Means(url, a, tail) && WellFormed(a, ip);
      && (admitted <==> Gate(GateSection(ReadinessGate(timeoutMs, HttpGet(url, status))), ip).Resolved?)
      && (admitted <==> Check(CheckSection(HttpLiveness(HttpCheck(url, status, windowMs))), ip).Resolved?)
  {
    hide CheckUrl, HasControl, Means, WellFormed, ReadsLiterals;
    ControlFree(url);
    AcceptedExactly(url, ip);
  }
}
