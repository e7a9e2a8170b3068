/** Risk scoring of a container's runtime configuration. */
module Risk {
  import opened Json
  import opened Secrets
  import opened Masking

  datatype Mount = Mount(kind: string, source: string, destination: string, mode: string)
  datatype Input = Input(isPrivileged: bool, pidMode: string, networkMode: string, ipcMode: string,
                         mounts: seq<Mount>, devices: seq<string>, system: bool)
  datatype Level = Low | Medium | High | Critical
  datatype Finding = Privileged | SystemContainer | HostPid | HostNetwork | HostIpc
                   | DockerSocket | SensitiveMount(source: string) | HostDevices | NothingElevated
  datatype Assessment = Assessment(level: Level, findings: seq<Finding>, score: int)

  const HOST := "host"

  /**
    strings.ToLower as far as ASCII results go: the Kelvin sign and the dotted capital I also have ASCII lower
    cases.
   */
  function LowerChar(c: char): char {
    if 'A' <= c <= 'Z' then c + 32 as char
    else if c == '\U{212A}' then 'k'
    else if c == '\U{0130}' then 'i'
    else c
  }

  function Lower(s: string): (l: string)
    ensures |l| == |s|
  {
    seq(|s|, i requires 0 <= i < |s| => LowerChar(s[i]))
  }

  predicate IsSocket(m: Mount) {
    Contains(Lower(m.source), "docker.sock") || Contains(Lower(m.destination), "docker.sock")
  }

  predicate IsSensitive(m: Mount) {
    var s := Lower(m.source);
    m.kind == "bind" && (s == "/" || "/etc" <= s || "/proc" <= s || "/sys" <= s || "/var/run" <= s)
  }

  // ----- What the assessment means -----

  function MountScore(m: Mount): nat {
    if IsSocket(m) then 100 else if IsSensitive(m) then 70 else 0
  }

  function MountFindings(m: Mount): seq<Finding> {
    if IsSocket(m) then [DockerSocket] else if IsSensitive(m) then [SensitiveMount(m.source)] else []
  }

  function MountsScore(ms: seq<Mount>): nat {
    if ms == [] then 0 else MountsScore(ms[..|ms| - 1]) + MountScore(ms[|ms| - 1])
  }

  function MountsFindings(ms: seq<Mount>): seq<Finding> {
    if ms == [] then [] else MountsFindings(ms[..|ms| - 1]) + MountFindings(ms[|ms| - 1])
  }

  function When(b: bool, f: Finding): seq<Finding> {
    if b then [f] else []
  }

  function Score(x: Input): int {
    (if x.isPrivileged then 100 else 0) + (if x.system then 80 else 0)
    + (if x.pidMode == HOST then 60 else 0) + (if x.networkMode == HOST then 35 else 0)
    + (if x.ipcMode == HOST then 35 else 0) + MountsScore(x.mounts) + (if x.devices != [] then 60 else 0)
  }

  function Findings(x: Input): seq<Finding> {
    [] + When(x.isPrivileged, Privileged) + When(x.system, SystemContainer) + When(x.pidMode == HOST, HostPid)
    + When(x.networkMode == HOST, HostNetwork) + When(x.ipcMode == HOST, HostIpc)
    + MountsFindings(x.mounts) + When(x.devices != [], HostDevices)
  }

  function LevelOf(score: int): Level {
    if score >= 100 then Critical else if score >= 60 then High else if score >= 25 then Medium else Low
  }

  function Assess(x: Input): Assessment {
    Assessment(LevelOf(Score(x)), if Findings(x) == [] then [NothingElevated] else Findings(x), Score(x))
  }

  // ----- The same in plain figures -----

  /** `u` is `s` in lower case. */
  ghost predicate IsLowerCase(s: string, u: string) {
    |u| == |s| && forall i :: 0 <= i < |s| ==>
      u[i] == if 'A' <= s[i] <= 'Z' then (s[i] as int - 'A' as int + 'a' as int) as char
              else if s[i] == '\U{212A}' then 'k' else if s[i] == '\U{0130}' then 'i' else s[i]
  }

  /** The text contains the word in any case. */
  ghost predicate Within(word: string, s: string) {
    exists i :: At(word, s, i)
  }

  ghost predicate At(word: string, s: string, i: int) {
    0 <= i <= |s| - |word| && IsLowerCase(s[i..i + |word|], word)
  }

  ghost predicate Begins(word: string, s: string) {
    |word| <= |s| && IsLowerCase(s[..|word|], word)
  }

  ghost predicate MountsSocket(m: Mount) {
    Within("docker.sock", m.source) || Within("docker.sock", m.destination)
  }

  ghost predicate MountsHost(m: Mount) {
    m.kind == "bind" && (m.source == "/" || Begins("/etc", m.source) || Begins("/proc", m.source)
                         || Begins("/sys", m.source) || Begins("/var/run", m.source))
  }

  ghost function Points(m: Mount): int {
    if MountsSocket(m) then 100 else if MountsHost(m) then 70 else 0
  }

  ghost function AllPoints(ms: seq<Mount>): int {
    if ms == [] then 0 else AllPoints(ms[..|ms| - 1]) + Points(ms[|ms| - 1])
  }

  /** What a finding says is the case. */
  ghost predicate Found(f: Finding, x: Input) {
    match f
    case Privileged => x.isPrivileged
    case SystemContainer => x.system
    case HostPid => x.pidMode == "host"
    case HostNetwork => x.networkMode == "host"
    case HostIpc => x.ipcMode == "host"
    case DockerSocket => exists m :: m in x.mounts && MountsSocket(m)
    case SensitiveMount(source) => exists m :: m in x.mounts && m.source == source && !MountsSocket(m) && MountsHost(m)
    case HostDevices => x.devices != []
    case NothingElevated => false
  }

  /** The points of every elevation, the level by its thresholds, and exactly the findings that hold. */
  ghost predicate Means(r: Assessment, x: Input) {
    && r.score == (if x.isPrivileged then 100 else 0) + (if x.system then 80 else 0)
                  + (if x.pidMode == "host" then 60 else 0) + (if x.networkMode == "host" then 35 else 0)
                  + (if x.ipcMode == "host" then 35 else 0) + (if x.devices != [] then 60 else 0) + AllPoints(x.mounts)
    && (r.level == Critical <==> r.score >= 100) && (r.level == High <==> 60 <= r.score < 100)
    && (r.level == Medium <==> 25 <= r.score < 60) && (r.level == Low <==> r.score < 25)
    && (forall f :: f != NothingElevated ==> (f in r.findings <==> Found(f, x)))
    && (NothingElevated in r.findings <==> r.findings == [NothingElevated])
    && r.findings != []
  }

  lemma LowerMeans(s: string, u: string)
    ensures IsLowerCase(s, u) <==> u == Lower(s)
  {
  }

  lemma WithinMeans(word: string, s: string)
    ensures Within(word, s) <==> Contains(Lower(s), word)
  {
    var l := Lower(s);
    forall i | 0 <= i <= |s| ensures word <= l[i..] <==> At(word, s, i) { AtMeans(word, s, i); }
    hide At, Lower;
    if Contains(l, word) {
      var i :| 0 <= i <= |l| && word <= l[i..];
      assert At(word, s, i);
    }
    if Within(word, s) {
      var i :| At(word, s, i);
      AtInside(word, s, i);
      assert word <= l[i..];
    }
  }

  lemma AtInside(word: string, s: string, i: int)
    requires At(word, s, i)
    ensures 0 <= i <= |s|
  {
  }

  lemma AtMeans(word: string, s: string, i: int)
    requires 0 <= i <= |s|
    ensures word <= Lower(s)[i..] <==> At(word, s, i)
  {
    if i <= |s| - |word| {
      LowerMeans(s[i..i + |word|], word);
      assert Lower(s)[i..][..|word|] == Lower(s[i..i + |word|]);
    }
    hide IsLowerCase;
  }

  lemma BeginsMeans(word: string, s: string)
    ensures Begins(word, s) <==> word <= Lower(s)
  {
    if |word| <= |s| {
      LowerMeans(s[..|word|], word);
      assert Lower(s)[..|word|] == Lower(s[..|word|]);
    }
    hide IsLowerCase;
  }

  lemma SlashMeans(s: string)
    ensures Lower(s) == "/" <==> s == "/"
  {
    if |s| == 1 {
      assert Lower(s)[0] == LowerChar(s[0]);
      assert Lower(s) == [LowerChar(s[0])] && s == [s[0]];
    }
  }

  lemma PointsMean(m: Mount)
    ensures IsSocket(m) <==> MountsSocket(m)
    ensures IsSensitive(m) <==> MountsHost(m)
    ensures MountScore(m) == Points(m)
  {
    WithinMeans("docker.sock", m.source);
    WithinMeans("docker.sock", m.destination);
    SlashMeans(m.source);
    BeginsMeans("/etc", m.source);
    BeginsMeans("/proc", m.source);
    BeginsMeans("/sys", m.source);
    BeginsMeans("/var/run", m.source);
    hide Lower, Within, Begins, Contains;
  }

  lemma {:induction false} MountsMean(ms: seq<Mount>)
    ensures MountsScore(ms) == AllPoints(ms)
    ensures DockerSocket in MountsFindings(ms) <==> exists m :: m in ms && MountsSocket(m)
    ensures forall s :: SensitiveMount(s) in MountsFindings(ms) <==>
              exists m :: m in ms && m.source == s && !MountsSocket(m) && MountsHost(m)
    ensures forall f :: f in MountsFindings(ms) ==> f == DockerSocket || f.SensitiveMount?
  {
    hide IsSocket, IsSensitive, MountsSocket, MountsHost;
    if ms != [] {
      var n := |ms| - 1;
      MountsMean(ms[..n]);
      PointsMean(ms[n]);
      assert ms == ms[..n] + [ms[n]];
    }
  }

  lemma AssessMeans(x: Input)
    ensures Means(Assess(x), x)
  {
    MountsMean(x.mounts);
    MountsAgree(x.mounts);
    hide MountsScore, MountsFindings, AllPoints, MountsSocket, MountsHost;
    FindingsMean(x);
    NothingElevatedNotFound(x);
    ScoreAndFindings(x);
    hide Findings, Found;
  }

  lemma FindingsMean(x: Input)
    ensures forall f :: f != NothingElevated ==> (f in Findings(x) <==> Found(f, x))
  {
    MountsMean(x.mounts);
    hide MountsScore, MountsFindings, AllPoints, MountsSocket, MountsHost;
  }

  lemma ScoreAndFindings(x: Input)
    ensures Findings(x) == [] <==> Score(x) == 0
  {
    MountsAgree(x.mounts);
    hide MountsScore, MountsFindings;
    var f := Findings(x);
    assert f == [] || f[0] in f;
  }

  /** A privileged container or one with the Docker socket is critical, whatever else holds. */
  lemma CriticalWhateverElse(x: Input)
    requires x.isPrivileged || exists m :: m in x.mounts && MountsSocket(m)
    ensures Assess(x).level == Critical && Assess(x).score >= 100
  {
    AssessMeans(x);
    hide MountsSocket, MountsHost, Assess;
    PointsNotNegative(x.mounts);
    if !x.isPrivileged {
      var m :| m in x.mounts && MountsSocket(m);
      SocketCounts(x.mounts, m);
    }
  }

  lemma {:induction false} PointsNotNegative(ms: seq<Mount>)
    ensures AllPoints(ms) >= 0
  {
    if ms != [] { PointsNotNegative(ms[..|ms| - 1]); }
  }

  lemma {:induction false} SocketCounts(ms: seq<Mount>, m: Mount)
    requires m in ms && MountsSocket(m)
    ensures AllPoints(ms) >= 100
  {
    hide MountsSocket, MountsHost;
    var n := |ms| - 1;
    assert ms == ms[..n] + [ms[n]];
    PointsNotNegative(ms[..n]);
    if m in ms[..n] { SocketCounts(ms[..n], m); }
  }

  const CALM := Input(false, "", "", "", [], [], false)

  /** Each elevation alone, with its score and level. */
  lemma EachAlone(m: Mount, device: string)
    ensures Assess(CALM).level == Low && Assess(CALM).score == 0
    ensures var r := Assess(CALM.(isPrivileged := true)); r.level == Critical && r.score == 100
    ensures var r := Assess(CALM.(system := true)); r.level == High && r.score == 80
    ensures var r := Assess(CALM.(pidMode := "host")); r.level == High && r.score == 60
    ensures var r := Assess(CALM.(networkMode := "host")); r.level == Medium && r.score == 35
    ensures var r := Assess(CALM.(ipcMode := "host")); r.level == Medium && r.score == 35
    ensures var r := Assess(CALM.(devices := [device])); r.level == High && r.score == 60
    ensures var r := Assess(CALM.(mounts := [m]));
            if MountsSocket(m) then r.level == Critical && r.score == 100
            else if MountsHost(m) then r.level == High && r.score == 70 else r.level == Low && r.score == 0
  {
    assert MountsScore([]) == 0 && [m][..0] == [];
    PointsMean(m);
    hide IsSocket, IsSensitive, MountsSocket, MountsHost, Findings;
  }

  ghost function Rank(l: Level): int {
    match l case Low => 0 case Medium => 1 case High => 2 case Critical => 3
  }

  /** The same configuration, or one with more elevations and mounts. */
  ghost predicate AtLeast(y: Input, x: Input) {
    && (x.isPrivileged ==> y.isPrivileged) && (x.system ==> y.system) && (x.pidMode == "host" ==> y.pidMode == "host")
    && (x.networkMode == "host" ==> y.networkMode == "host") && (x.ipcMode == "host" ==> y.ipcMode == "host")
    && (x.devices != [] ==> y.devices != []) && x.mounts <= y.mounts
  }

  /** More elevations never lower score or level. */
  lemma MoreIsNoLess(x: Input, y: Input)
    requires AtLeast(y, x)
    ensures Assess(x).score <= Assess(y).score && Rank(Assess(x).level) <= Rank(Assess(y).level)
  {
    AssessMeans(x);
    AssessMeans(y);
    MoreMounts(x.mounts, y.mounts);
    hide Assess, AllPoints, Found;
  }

  lemma {:induction false} MoreMounts(a: seq<Mount>, b: seq<Mount>)
    requires a <= b
    ensures AllPoints(a) <= AllPoints(b)
  {
    if |a| < |b| {
      MoreMounts(a, b[..|b| - 1]);
    } else {
      assert a == b;
    }
  }

  /** Accumulates the score and the findings branch by branch. */
  method AssessRisk(x: Input) returns (r: Assessment)
    ensures r == Assess(x)
    ensures Means(r, x)
  {
    AssessMeans(x);
    hide Means;
    var score, findings := Add(x.isPrivileged, 100, Privileged, 0, []);
    score, findings := Add(x.system, 80, SystemContainer, score, findings);
    score, findings := Add(x.pidMode == HOST, 60, HostPid, score, findings);
    score, findings := Add(x.networkMode == HOST, 35, HostNetwork, score, findings);
    score, findings := Add(x.ipcMode == HOST, 35, HostIpc, score, findings);
    score, findings := AddMounts(x.mounts, score, findings);
    score, findings := Add(|x.devices| > 0, 60, HostDevices, score, findings);
    assert findings == Findings(x);
    if findings == [] {
      return Assessment(LevelOf(score), [NothingElevated], score);
    }
    r := Assessment(LevelOf(score), findings, score);
  }

  method Add(b: bool, points: int, f: Finding, score0: int, findings0: seq<Finding>)
    returns (score: int, findings: seq<Finding>)
    ensures score == score0 + (if b then points else 0) && findings == findings0 + When(b, f)
  {
    score, findings := score0, findings0;
    if b {
      score, findings := score + points, findings + [f];
    }
  }

  method AddMounts(ms: seq<Mount>, score0: int, findings0: seq<Finding>) returns (score: int, findings: seq<Finding>)
    ensures score == score0 + MountsScore(ms) && findings == findings0 + MountsFindings(ms)
  {
    score, findings := score0, findings0;
    for i := 0 to |ms|
      invariant score == score0 + MountsScore(ms[..i])
      invariant findings == findings0 + MountsFindings(ms[..i])
    {
      assert ms[..i + 1][..i] == ms[..i];
      if IsSocket(ms[i]) {
        score, findings := score + 100, findings + [DockerSocket];
      } else if IsSensitive(ms[i]) {
        score, findings := score + 70, findings + [SensitiveMount(ms[i].source)];
      }
    }
    assert ms[..|ms|] == ms;
  }

  lemma {:induction false} MountsAgree(ms: seq<Mount>)
    ensures MountsScore(ms) == 0 <==> MountsFindings(ms) == []
    ensures MountsScore(ms) != 0 ==> MountsScore(ms) >= 70
  {
    if ms != [] { MountsAgree(ms[..|ms| - 1]); }
  }

  /** The level is Low exactly when nothing was found. */
  lemma LowMeansNothingFound(x: Input)
    ensures Assess(x).level == Low <==> Assess(x).findings == [NothingElevated]
  {
    MountsAgree(x.mounts);
    var f := Findings(x);
    assert f == [] <==> Score(x) == 0;
    assert NothingElevated !in f by { NothingElevatedNotFound(x); }
    assert f == [] || f[0] in f;
  }

  lemma {:induction false} NothingElevatedNotInMounts(ms: seq<Mount>)
    ensures NothingElevated !in MountsFindings(ms)
  {
    if ms != [] { NothingElevatedNotInMounts(ms[..|ms| - 1]); }
  }

  lemma NothingElevatedNotFound(x: Input)
    ensures NothingElevated !in Findings(x)
  {
    NothingElevatedNotInMounts(x.mounts);
  }

  // ----- Reading the input from an inspect document -----

  /** `Print` stands for fmt.Sprint. */
  type Print = Json -> string

  function StringAt(m: map<string, Json>, k: string): string {
    if k in m && m[k].Str? then m[k].value else ""
  }

  predicate BoolAt(m: map<string, Json>, k: string) {
    k in m && m[k].Bool? && m[k].flag
  }

  function FieldsAt(m: map<string, Json>, k: string): map<string, Json> {
    if k in m && m[k].Obj? then m[k].fields else map[]
  }

  function ItemsAt(m: map<string, Json>, k: string): seq<Json> {
    if k in m && m[k].Arr? then m[k].items else []
  }

  const TYPE := "Type"
  const SOURCE := "Source"
  const DESTINATION := "Destination"
  const MODE := "Mode"
  const HOST_CONFIG := "HostConfig"
  const PRIVILEGED := "Privileged"
  const PID_MODE := "PidMode"
  const NETWORK_MODE := "NetworkMode"
  const IPC_MODE := "IpcMode"
  const DEVICES := "Devices"
  const MOUNTS := "Mounts"

  function MountOf(m: map<string, Json>): Mount {
    Mount(StringAt(m, TYPE), StringAt(m, SOURCE), StringAt(m, DESTINATION), StringAt(m, MODE))
  }

  function MountsOf(xs: seq<Json>): seq<Mount> {
    if xs == [] then [] else
      var ms, x := MountsOf(xs[..|xs| - 1]), xs[|xs| - 1];
      if x.Obj? then ms + [MountOf(x.fields)] else ms
  }

  function InputOf(v: map<string, Json>, system: bool, sprint: Print): Input {
    var h, ds := FieldsAt(v, HOST_CONFIG), ItemsAt(FieldsAt(v, HOST_CONFIG), DEVICES);
    Input(BoolAt(h, PRIVILEGED), StringAt(h, PID_MODE), StringAt(h, NETWORK_MODE), StringAt(h, IPC_MODE),
          MountsOf(ItemsAt(v, MOUNTS)), seq(|ds|, i requires 0 <= i < |ds| => sprint(ds[i])), system)
  }

  // ----- Where each value comes from -----

  /** The text of a field, or none. */
  ghost predicate TextOf(m: map<string, Json>, k: string, s: string) {
    if k in m && m[k].Str? then s == m[k].value else s == ""
  }

  /** The fields of an object, or none. */
  ghost predicate ObjectOf(m: map<string, Json>, k: string, fields: map<string, Json>) {
    if k in m && m[k].Obj? then fields == m[k].fields else fields == map[]
  }

  /** The items of an array, or none. */
  ghost predicate ArrayOf(m: map<string, Json>, k: string, items: seq<Json>) {
    if k in m && m[k].Arr? then items == m[k].items else items == []
  }

  /** The mounts are the objects among the items, in their order. */
  ghost predicate MountsFrom(xs: seq<Json>, ms: seq<Mount>) {
    if xs == [] then ms == []
    else if xs[|xs| - 1].Obj? then
      ms != [] && MountsFrom(xs[..|xs| - 1], ms[..|ms| - 1]) && MountFrom(xs[|xs| - 1].fields, ms[|ms| - 1])
    else MountsFrom(xs[..|xs| - 1], ms)
  }

  ghost predicate MountFrom(m: map<string, Json>, r: Mount) {
    TextOf(m, "Type", r.kind) && TextOf(m, "Source", r.source) && TextOf(m, "Destination", r.destination)
    && TextOf(m, "Mode", r.mode)
  }

  ghost predicate HostFrom(h: map<string, Json>, x: Input, sprint: Print) {
    && (x.isPrivileged <==> "Privileged" in h && h["Privileged"] == Bool(true))
    && TextOf(h, "PidMode", x.pidMode) && TextOf(h, "NetworkMode", x.networkMode) && TextOf(h, "IpcMode", x.ipcMode)
    && exists ds :: ArrayOf(h, "Devices", ds) && |x.devices| == |ds|
                    && forall i :: 0 <= i < |ds| ==> x.devices[i] == sprint(ds[i])
  }

  /** What the assessment is given, read from the document by its field names. */
  ghost predicate ReadFrom(v: map<string, Json>, system: bool, sprint: Print, x: Input) {
    && x.system == system
    && (exists h :: ObjectOf(v, "HostConfig", h) && HostFrom(h, x, sprint))
    && exists ms :: ArrayOf(v, "Mounts", ms) && MountsFrom(ms, x.mounts)
  }

  lemma {:induction false} MountsOfMeans(xs: seq<Json>)
    ensures MountsFrom(xs, MountsOf(xs))
  {
    if xs != [] {
      MountsOfMeans(xs[..|xs| - 1]);
      if xs[|xs| - 1].Obj? {
        assert MountFrom(xs[|xs| - 1].fields, MountOf(xs[|xs| - 1].fields));
        assert MountsOf(xs)[..|MountsOf(xs)| - 1] == MountsOf(xs[..|xs| - 1]);
      }
      hide MountFrom;
    }
  }

  lemma InputMeans(v: map<string, Json>, system: bool, sprint: Print)
    ensures ReadFrom(v, system, sprint, InputOf(v, system, sprint))
  {
    var x := InputOf(v, system, sprint);
    HostMeans(v, system, sprint);
    var ms := ItemsAt(v, MOUNTS);
    assert ArrayOf(v, "Mounts", ms) && x.mounts == MountsOf(ms);
    MountsOfMeans(ms);
    hide MountsFrom, MountsOf, HostFrom;
  }

  lemma HostMeans(v: map<string, Json>, system: bool, sprint: Print)
    ensures exists h :: ObjectOf(v, "HostConfig", h) && HostFrom(h, InputOf(v, system, sprint), sprint)
  {
    hide MountsOf;
    var h := FieldsAt(v, HOST_CONFIG);
    var ds := ItemsAt(h, DEVICES);
    assert ObjectOf(v, "HostConfig", h) && ArrayOf(h, "Devices", ds);
    assert HostFrom(h, InputOf(v, system, sprint), sprint);
  }

  method RiskFromInspect(v: map<string, Json>, system: bool, sprint: Print) returns (r: Assessment)
    ensures r == Assess(InputOf(v, system, sprint))
    ensures exists x :: ReadFrom(v, system, sprint, x) && Means(r, x)
  {
    InputMeans(v, system, sprint);
    hide ReadFrom, Means;
    var x := Input(false, "", "", "", [], [], system);
    if HOST_CONFIG in v && v[HOST_CONFIG].Obj? {
      var h := v[HOST_CONFIG].fields;
      x := x.(isPrivileged := BoolAt(h, PRIVILEGED), pidMode := StringAt(h, PID_MODE),
              networkMode := StringAt(h, NETWORK_MODE), ipcMode := StringAt(h, IPC_MODE));
      var devices := [];
      var ds := ItemsAt(h, DEVICES);
      for i := 0 to |ds|
        invariant devices == seq(i, j requires 0 <= j < i => sprint(ds[j]))
      {
        devices := devices + [sprint(ds[i])];
      }
      x := x.(devices := devices);
    }
    var mounts := [];
    var ms := ItemsAt(v, MOUNTS);
    for i := 0 to |ms|
      invariant mounts == MountsOf(ms[..i])
    {
      assert ms[..i + 1][..i] == ms[..i];
      if ms[i].Obj? {
        mounts := mounts + [MountOf(ms[i].fields)];
      }
    }
    assert ms[..|ms|] == ms;
    x := x.(mounts := mounts);
    assert x.devices == InputOf(v, system, sprint).devices;
    r := AssessRisk(x);
  }

  // ----- Risk commutes with masking -----

  /** A key that is neither sensitive nor "Env": its value is masked as a document of its own. */
  predicate Plain(k: string) {
    !Sensitive(k) && k != ENV
  }

  lemma PlainByLetter(key: string, i: nat, c: char)
    requires i < |key| && UpperChar(key[i]) == c && '_' !in Upper(key)
    requires forall f :: f in FRAGMENTS ==> |f| != |key| || f[i] != c
    ensures !Sensitive(key)
  {
    assert Upper(key)[i] == c;
    PlainKey(key);
  }

  lemma TypePlain()
    ensures Plain(TYPE)
  {
    PlainByLetter(TYPE, 0, 'T');
  }

  lemma SourcePlain()
    ensures Plain(SOURCE)
  {
    PlainByLetter(SOURCE, 1, 'O');
  }

  lemma DestinationPlain()
    ensures Plain(DESTINATION)
  {
    PlainByLetter(DESTINATION, 0, 'D');
  }

  lemma ModePlain()
    ensures Plain(MODE)
  {
    PlainByLetter(MODE, 0, 'M');
  }

  lemma HostConfigPlain()
    ensures Plain(HOST_CONFIG)
  {
    PlainByLetter(HOST_CONFIG, 0, 'H');
  }

  lemma PrivilegedPlain()
    ensures Plain(PRIVILEGED)
  {
    PlainByLetter(PRIVILEGED, 0, 'P');
  }

  lemma PidModePlain()
    ensures Plain(PID_MODE)
  {
    PlainByLetter(PID_MODE, 1, 'I');
  }

  lemma NetworkModePlain()
    ensures Plain(NETWORK_MODE)
  {
    PlainByLetter(NETWORK_MODE, 0, 'N');
  }

  lemma IpcModePlain()
    ensures Plain(IPC_MODE)
  {
    PlainByLetter(IPC_MODE, 0, 'I');
  }

  lemma DevicesPlain()
    ensures Plain(DEVICES)
  {
    PlainByLetter(DEVICES, 0, 'D');
  }

  lemma MountsPlain()
    ensures Plain(MOUNTS)
  {
    PlainByLetter(MOUNTS, 0, 'M');
  }

  function MaskFields(m: map<string, Json>): map<string, Json> {
    Mask(Obj(m)).fields
  }

  lemma PlainLookups(m: map<string, Json>, k: string)
    requires Plain(k)
    ensures StringAt(MaskFields(m), k) == StringAt(m, k) && BoolAt(MaskFields(m), k) == BoolAt(m, k)
    ensures FieldsAt(MaskFields(m), k) == MaskFields(FieldsAt(m, k))
    ensures ItemsAt(MaskFields(m), k) == Mask(Arr(ItemsAt(m, k))).items
  {
    assert MaskFields(m).Keys == m.Keys;
    if k in m {
      assert MaskFields(m)[k] == MaskField(k, m[k]) == Mask(m[k]);
    }
    assert MaskFields(map[]) == map[] && Mask(Arr([])).items == [];
  }

  lemma {:induction false} MountsCommute(xs: seq<Json>)
    ensures MountsOf(Mask(Arr(xs)).items) == MountsOf(xs)
  {
    if xs != [] {
      var n := |xs| - 1;
      MountsCommute(xs[..n]);
      var ys := Mask(Arr(xs)).items;
      assert ys[..n] == Mask(Arr(xs[..n])).items && ys[n] == Mask(xs[n]);
      if xs[n].Obj? {
        var m := xs[n].fields;
        TypePlain(); PlainLookups(m, TYPE);
        SourcePlain(); PlainLookups(m, SOURCE);
        DestinationPlain(); PlainLookups(m, DESTINATION);
        ModePlain(); PlainLookups(m, MODE);
      }
    }
  }

  /** The masked inspect view and the unmasked risk view report the same assessment. */
  lemma RiskCommutesWithMasking(v: map<string, Json>, system: bool, sprint: Print)
    ensures Assess(InputOf(MaskFields(v), system, sprint)) == Assess(InputOf(v, system, sprint))
  {
    HostConfigPlain(); PlainLookups(v, HOST_CONFIG);
    MountsPlain(); PlainLookups(v, MOUNTS);
    MountsCommute(ItemsAt(v, MOUNTS));
    HostConfigCommutes(FieldsAt(v, HOST_CONFIG));
  }

  lemma HostConfigCommutes(h: map<string, Json>)
    ensures BoolAt(MaskFields(h), PRIVILEGED) == BoolAt(h, PRIVILEGED)
    ensures StringAt(MaskFields(h), PID_MODE) == StringAt(h, PID_MODE)
    ensures StringAt(MaskFields(h), NETWORK_MODE) == StringAt(h, NETWORK_MODE)
    ensures StringAt(MaskFields(h), IPC_MODE) == StringAt(h, IPC_MODE)
    ensures |ItemsAt(MaskFields(h), DEVICES)| == |ItemsAt(h, DEVICES)|
  {
    PrivilegedPlain(); PlainLookups(h, PRIVILEGED);
    PidModePlain(); PlainLookups(h, PID_MODE);
    NetworkModePlain(); PlainLookups(h, NETWORK_MODE);
    IpcModePlain(); PlainLookups(h, IPC_MODE);
    DevicesPlain(); PlainLookups(h, DEVICES);
  }
}
